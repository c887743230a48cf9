/** The event engine: three streams of events, the time they move to, and the loop that runs them. */
module SimulatorEngine {
  import opened Simulator

  datatype Emission = TimeAt(tick: nat) | PositionAt(tick: nat) | DepthAt(tick: nat)

  /** The clocks, the next time of each stream, and what was emitted. */
  datatype Sim = Sim(
    sim: Clock, ref: Clock, targetRef: nat, targetPosition: nat, targetDepth: nat, output: seq<Emission>)

  /** What random() returns. */
  type Draw = d: nat | d <= MAX_RANDOM

  /** A draw from random(), scaled to at most one second and truncated. */
  function Jitter(draw: Draw): (j: nat)
    ensures j <= CLOCKS_PER_SEC && (j == CLOCKS_PER_SEC <==> draw == MAX_RANDOM)
    ensures j * MAX_RANDOM <= CLOCKS_PER_SEC * draw < (j + 1) * MAX_RANDOM
  {
    CLOCKS_PER_SEC * draw / MAX_RANDOM
  }

  function Min(a: nat, b: nat): nat { if a < b then a else b }

  function NextTime(s: Sim): nat { Min(Min(s.targetDepth, s.targetPosition), s.targetRef) }

  /** What `StepEngine` makes of the state; the clocks must not be ahead of the next event. */
  function Stepped(s: Sim, draw: Draw): Sim
    requires s.sim.tick <= NextTime(s) && s.ref.tick <= NextTime(s)
  {
    var now := NextTime(s);
    var (time, position, depth) := (now >= s.targetRef, now >= s.targetPosition, now >= s.targetDepth);
    Sim(Advanced(s.sim, now),
        if time then Advanced(s.ref, now) else s.ref,
        if time then now + CLOCKS_PER_SEC else s.targetRef,
        if position then now + CLOCKS_PER_SEC else s.targetPosition,
        if depth then now + CLOCKS_PER_SEC + Jitter(draw) else s.targetDepth,
        s.output + (if time then [TimeAt(now)] else []) + (if position then [PositionAt(now)] else [])
        + (if depth then [DepthAt(now)] else []))
  }

  /** The state the engine starts in. */
  function First(): Sim { Sim(FromTicks(0), FromTicks(0), 0, 0, 0, []) }

  class Engine {
    const simTime: ComponentDateTime
    const refTime: ComponentDateTime
    var targetReferenceTime: nat
    var targetDepthTime: nat
    var targetPositionTime: nat
    var output: seq<Emission>

    constructor ()
      ensures Valid() && Now() == First() && fresh(simTime) && fresh(refTime)
    {
      simTime := new ComponentDateTime();
      refTime := new ComponentDateTime();
      targetReferenceTime, targetDepthTime, targetPositionTime := 0, 0, 0;
      output := [];
    }

    ghost predicate Valid() { simTime != refTime }

    ghost function Now(): Sim
      reads this, simTime, refTime
    {
      Sim(simTime.Now(), refTime.Now(), targetReferenceTime, targetPositionTime, targetDepthTime, output)
    }

    method StepDepth(now: nat, draw: Draw) returns (change: bool)
        modifies this
      ensures change == (now >= old(targetDepthTime))
      ensures Now() == old(Now()).(targetDepth := if change then now + CLOCKS_PER_SEC + Jitter(draw) else old(targetDepthTime))
    {
      if now < targetDepthTime {
        return false;
      }
      targetDepthTime := now + CLOCKS_PER_SEC + Jitter(draw);
      change := true;
    }

    method StepPosition(now: nat) returns (change: bool)
      modifies this
      ensures change == (now >= old(targetPositionTime))
      ensures Now() == old(Now()).(targetPosition := if change then now + CLOCKS_PER_SEC else old(targetPositionTime))
    {
      if now < targetPositionTime {
        return false;
      }
      targetPositionTime := now + CLOCKS_PER_SEC;
      change := true;
    }

    method StepTime(now: nat) returns (change: bool)
      requires Valid() && refTime.tickCount <= now
      modifies this, refTime
      ensures change == (now >= old(targetReferenceTime))
      ensures Now() == if change then old(Now()).(ref := Advanced(old(refTime.Now()), now), targetRef := now + CLOCKS_PER_SEC)
                       else old(Now())
    {
      if now < targetReferenceTime {
        return false;
      }
      refTime.Update(now);
      targetReferenceTime := refTime.tickCount + CLOCKS_PER_SEC;
      change := true;
    }

    method StepEngine(draw: Draw) returns (next: nat)
      requires Valid()
      requires simTime.tickCount <= NextTime(Now()) && refTime.tickCount <= NextTime(Now())
      modifies this, simTime, refTime
      ensures next == NextTime(old(Now())) && Now() == Stepped(old(Now()), draw)
    {
      next := Min(targetDepthTime, targetPositionTime);
      next := Min(next, targetReferenceTime);
      simTime.Update(next);
      var timeChange := StepTime(next);
      var positionChange := StepPosition(next);
      var depthChange := StepDepth(next, draw);
      if timeChange {
        output := output + [TimeAt(next)];
      }
      if positionChange {
        output := output + [PositionAt(next)];
      }
      if depthChange {
        output := output + [DepthAt(next)];
      }
    }
  }

  // ---- what every reachable state satisfies ----

  /** The state right after an event: both clocks are right, the reference clock stands at the last whole
      second, and the next events lie ahead. */
  predicate Steady(s: Sim)
  {
    && s.sim == FromTicks(s.sim.tick) && s.ref == FromTicks(s.ref.tick)
    && s.ref.tick == s.sim.tick / CLOCKS_PER_SEC * CLOCKS_PER_SEC
    && s.targetRef == s.targetPosition == s.ref.tick + CLOCKS_PER_SEC
    && s.sim.tick < s.targetDepth <= s.sim.tick + 2 * CLOCKS_PER_SEC
  }

  lemma FirstSteady(draw: Draw)
    ensures Steady(Stepped(First(), draw)) && Stepped(First(), draw).sim.tick == 0
  {
    AdvancedIsRight(FromTicks(0), 0);
  }

  /** Time moves on strictly, by at most a second; time and position events coincide; a depth event happens
      exactly when it is due, and the next is one to two seconds later. */
  lemma StepSteady(s: Sim, draw: Draw)
    requires Steady(s)
    ensures s.sim.tick < NextTime(s) <= s.sim.tick + CLOCKS_PER_SEC && s.ref.tick <= NextTime(s)
    ensures
      var (t, now) := (Stepped(s, draw), NextTime(s));
      && Steady(t) && t.sim.tick == now
      && (now >= s.targetRef <==> now % CLOCKS_PER_SEC == 0) && (now >= s.targetRef <==> now >= s.targetPosition)
      && (if now >= s.targetDepth
          then now == s.targetDepth && now + CLOCKS_PER_SEC <= t.targetDepth <= now + 2 * CLOCKS_PER_SEC
          else t.targetDepth == s.targetDepth)
  {
    var now := NextTime(s);
    assert s.sim.tick < now <= s.sim.tick + CLOCKS_PER_SEC;
    AdvancedIsRight(s.sim, now);
    if now >= s.targetRef {
      AdvancedIsRight(s.ref, now);
    }
    hide FromTicks, Advanced;
    WholeSeconds(s.sim.tick, now);
  }

  lemma WholeSeconds(before: nat, now: nat)
    requires before < now <= before / CLOCKS_PER_SEC * CLOCKS_PER_SEC + CLOCKS_PER_SEC
    ensures
      var whole := before / CLOCKS_PER_SEC * CLOCKS_PER_SEC;
      && (now == whole + CLOCKS_PER_SEC <==> now % CLOCKS_PER_SEC == 0)
      && now / CLOCKS_PER_SEC * CLOCKS_PER_SEC == if now == whole + CLOCKS_PER_SEC then now else whole
  {
    var k := before / CLOCKS_PER_SEC;
    if now == k * CLOCKS_PER_SEC + CLOCKS_PER_SEC {
      assert now == (k + 1) * CLOCKS_PER_SEC;
    }
  }

  /** The state after the first event and `n` more, for any sequence of draws. */
  function After(draws: nat -> Draw, n: nat): (s: Sim)
    ensures Steady(s) && n <= s.sim.tick <= n * CLOCKS_PER_SEC
  {
    if n == 0 then
      FirstSteady(draws(0));
      Stepped(First(), draws(0))
    else
      StepSteady(After(draws, n - 1), draws(n));
      Stepped(After(draws, n - 1), draws(n))
  }

  /** In every reachable state the broken-out times are in range and stand for the ticks, so that the
      calendar is only asked for days it has. */
  lemma ReachedInRange(draws: nat -> Draw, n: nat)
    ensures
      var s := After(draws, n);
      && InRange(s.sim) && Total(s.sim) == s.sim.tick
      && InRange(s.ref) && Total(s.ref) == s.ref.tick
      && s.sim.dayOfYear < 365 + Leap(s.sim.year)
  {
    var s := After(draws, n);
    hide After, FromTicks, Total, InRange;
    RightClock(s.sim);
    RightClock(s.ref);
  }

  lemma RightClock(c: Clock)
    requires c == FromTicks(c.tick)
    ensures InRange(c) && Total(c) == c.tick && c.dayOfYear < 365
  {
    FromTicksUnique(c.tick, c);
  }

  // ---- what a run emits ----

  /** The times of the emissions of one kind, in order. */
  function Times(out: seq<Emission>): seq<nat>
  {
    if out == [] then []
    else Times(out[..|out| - 1]) + (if out[|out| - 1].TimeAt? then [out[|out| - 1].tick] else [])
  }

  function Positions(out: seq<Emission>): seq<nat>
  {
    if out == [] then []
    else Positions(out[..|out| - 1]) + (if out[|out| - 1].PositionAt? then [out[|out| - 1].tick] else [])
  }

  function Depths(out: seq<Emission>): seq<nat>
  {
    if out == [] then []
    else Depths(out[..|out| - 1]) + (if out[|out| - 1].DepthAt? then [out[|out| - 1].tick] else [])
  }

  /** The whole seconds from zero on, `k` of them. */
  function WholeTimes(k: nat): seq<nat>
  {
    if k == 0 then [] else WholeTimes(k - 1) + [(k - 1) * CLOCKS_PER_SEC]
  }

  /** From zero on, each time one to two seconds behind the one before. */
  predicate Spaced(times: seq<nat>)
  {
    && times != [] && times[0] == 0
    && forall i | 0 < i < |times| :: times[i - 1] + CLOCKS_PER_SEC <= times[i] <= times[i - 1] + 2 * CLOCKS_PER_SEC
  }

  lemma OneEmission(out: seq<Emission>, e: Emission)
    ensures Times(out + [e]) == Times(out) + if e.TimeAt? then [e.tick] else []
    ensures Positions(out + [e]) == Positions(out) + if e.PositionAt? then [e.tick] else []
    ensures Depths(out + [e]) == Depths(out) + if e.DepthAt? then [e.tick] else []
  {
    assert (out + [e])[..|out|] == out;
  }

  lemma StepEmits(s: Sim, draw: Draw)
    requires s.sim.tick <= NextTime(s) && s.ref.tick <= NextTime(s)
    ensures
      var (t, now) := (Stepped(s, draw), NextTime(s));
      && Times(t.output) == Times(s.output) + (if now >= s.targetRef then [now] else [])
      && Positions(t.output) == Positions(s.output) + (if now >= s.targetPosition then [now] else [])
      && Depths(t.output) == Depths(s.output) + (if now >= s.targetDepth then [now] else [])
  {
    var now := NextTime(s);
    hide Times, Positions, Depths, Advanced, NextTime;
    var a := if now >= s.targetRef then s.output + [TimeAt(now)] else s.output;
    var b := if now >= s.targetPosition then a + [PositionAt(now)] else a;
    var c := if now >= s.targetDepth then b + [DepthAt(now)] else b;
    assert Stepped(s, draw).output == c;
    OneEmission(s.output, TimeAt(now));
    OneEmission(a, PositionAt(now));
    OneEmission(b, DepthAt(now));
  }

  /** What a state has emitted: a time and a position for every whole second up to now, and depths well
      spaced, of which the last is at most two seconds before the next. */
  predicate Emitted(s: Sim)
  {
    var k := s.sim.tick / CLOCKS_PER_SEC + 1;
    && Times(s.output) == Positions(s.output) == WholeTimes(k)
    && Spaced(Depths(s.output))
    && var last := Depths(s.output)[|Depths(s.output)| - 1];
       last + CLOCKS_PER_SEC <= s.targetDepth <= last + 2 * CLOCKS_PER_SEC
  }

  /** Over any run: one time and one position for every whole second, none missed and none twice; depths
      from the start on, one to two seconds apart. */
  lemma {:induction false} RunEmits(draws: nat -> Draw, n: nat)
    ensures Emitted(After(draws, n))
  {
    hide After, Steady, Emitted, Stepped, NextTime;
    if n == 0 {
      AfterFirst(draws);
      FirstEmitted(draws(0));
    } else {
      RunEmits(draws, n - 1);
      AfterStep(draws, n);
      StepEmitted(After(draws, n - 1), draws(n));
    }
  }

  lemma AfterFirst(draws: nat -> Draw)
    ensures First().sim.tick <= NextTime(First()) && First().ref.tick <= NextTime(First())
    ensures After(draws, 0) == Stepped(First(), draws(0))
  {
    FirstSteady(draws(0));
    hide Stepped;
  }

  lemma AfterStep(draws: nat -> Draw, n: nat)
    requires n > 0
    ensures var s := After(draws, n - 1);
      s.sim.tick <= NextTime(s) && s.ref.tick <= NextTime(s) && After(draws, n) == Stepped(s, draws(n))
  {
    StepSteady(After(draws, n - 1), draws(n));
    hide Stepped, Steady;
  }

  lemma FirstEmitted(draw: Draw)
    ensures Emitted(Stepped(First(), draw))
  {
    StepEmits(First(), draw);
    FirstSteady(draw);
    hide Advanced, FromTicks;
    assert WholeTimes(1) == WholeTimes(0) + [0] == [0];
    assert Times([]) == Positions([]) == Depths([]) == [];
  }

  lemma StepEmitted(s: Sim, draw: Draw)
    requires Steady(s) && Emitted(s) && s.sim.tick <= NextTime(s) && s.ref.tick <= NextTime(s)
    ensures Emitted(Stepped(s, draw))
  {
    StepSteady(s, draw);
    StepEmits(s, draw);
    var (t, now) := (Stepped(s, draw), NextTime(s));
    SecondCount(s.sim.tick, now);
    WholeNext(s.sim.tick / CLOCKS_PER_SEC + 1);
    hide Times, Positions, Depths, Advanced, FromTicks, Stepped, NextTime, WholeTimes, Spaced;
    SpacedSome(Depths(s.output));
    if now >= s.targetDepth {
      SpacedAppend(Depths(s.output), now);
    }
  }

  lemma WholeNext(k: nat)
    ensures WholeTimes(k + 1) == WholeTimes(k) + [k * CLOCKS_PER_SEC]
  {
  }

  lemma SpacedSome(times: seq<nat>)
    requires Spaced(times)
    ensures times != []
  {
  }

  lemma SpacedAppend(times: seq<nat>, now: nat)
    requires Spaced(times)
    requires times[|times| - 1] + CLOCKS_PER_SEC <= now <= times[|times| - 1] + 2 * CLOCKS_PER_SEC
    ensures Spaced(times + [now])
  {
  }

  lemma SecondCount(before: nat, now: nat)
    requires before < now <= before / CLOCKS_PER_SEC * CLOCKS_PER_SEC + CLOCKS_PER_SEC
    ensures now / CLOCKS_PER_SEC == before / CLOCKS_PER_SEC + if now % CLOCKS_PER_SEC == 0 then 1 else 0
    ensures now % CLOCKS_PER_SEC == 0 ==> now == now / CLOCKS_PER_SEC * CLOCKS_PER_SEC
  {
    WholeSeconds(before, now);
  }

  // ---- the times of depths ----

  /** The steps that emitted a depth, in order. */
  function DepthSteps(draws: nat -> Draw, n: nat): (steps: seq<nat>)
  {
    if n == 0 then [0]
    else
      var s := After(draws, n - 1);
      DepthSteps(draws, n - 1) + (if NextTime(s) >= s.targetDepth then [n] else [])
  }

  /** When the next depth is due: a second behind the last, and the share drawn at that one. */
  function DueAfter(times: seq<nat>, draws: nat -> Draw, steps: seq<nat>, i: nat): nat
    requires i < |times| == |steps|
  {
    times[i] + CLOCKS_PER_SEC + Jitter(draws(steps[i]))
  }

  /** From zero on each depth comes when it is due, and so is the next one. */
  predicate Drawn(times: seq<nat>, target: nat, draws: nat -> Draw, steps: seq<nat>)
  {
    && times != [] && |times| == |steps| && times[0] == 0
    && (forall i | 1 <= i < |times| :: times[i] == DueAfter(times, draws, steps, i - 1))
    && target == DueAfter(times, draws, steps, |times| - 1)
  }

  lemma DrawnAppend(times: seq<nat>, draws: nat -> Draw, steps: seq<nat>, now: nat, n: nat)
    requires Drawn(times, now, draws, steps)
    ensures Drawn(times + [now], now + CLOCKS_PER_SEC + Jitter(draws(n)), draws, steps + [n])
  {
    hide Jitter;
    var (ts, ss, k) := (times + [now], steps + [n], |times|);
    forall i | 1 <= i < |ts| ensures ts[i] == DueAfter(ts, draws, ss, i - 1) {
      assert ts[i - 1] == times[i - 1] && ss[i - 1] == steps[i - 1];
      assert i < k ==> ts[i] == times[i] == DueAfter(times, draws, steps, i - 1);
    }
  }

  /** Over any run the draws at the depths, and no others, decide when the next ones come. */
  lemma {:induction false} RunDrawn(draws: nat -> Draw, n: nat)
    ensures Drawn(Depths(After(draws, n).output), After(draws, n).targetDepth, draws, DepthSteps(draws, n))
  {
    hide After, Stepped, Drawn, Steady, Jitter, NextTime;
    if n == 0 {
      AfterFirst(draws);
      FirstDrawn(draws);
    } else {
      RunDrawn(draws, n - 1);
      AfterStep(draws, n);
      StepDrawn(After(draws, n - 1), draws, DepthSteps(draws, n - 1), n);
      assert DepthSteps(draws, n - 1) + [] == DepthSteps(draws, n - 1);
    }
  }

  lemma FirstDrawn(draws: nat -> Draw)
    ensures First().sim.tick <= NextTime(First()) && First().ref.tick <= NextTime(First())
    ensures
      var t := Stepped(First(), draws(0));
      Drawn(Depths(t.output), t.targetDepth, draws, [0])
  {
    hide Advanced, FromTicks, Jitter, Stepped, Times, Positions, Depths, Steady;
    FirstSteady(draws(0));
    StepEmits(First(), draws(0));
    NextDepth(First(), draws(0));
    NoDepths();
    hide NextTime, First;
    FirstDue();
    assert [] + [0] == [0];
  }

  lemma NoDepths()
    ensures Depths([]) == []
  {
  }

  lemma FirstDue()
    ensures NextTime(First()) == First().targetDepth == 0 && First().output == []
  {
    hide FromTicks;
  }

  lemma StepDrawn(s: Sim, draws: nat -> Draw, steps: seq<nat>, n: nat)
    requires Steady(s) && Drawn(Depths(s.output), s.targetDepth, draws, steps)
    ensures s.sim.tick <= NextTime(s) && s.ref.tick <= NextTime(s)
    ensures
      var t := Stepped(s, draws(n));
      Drawn(Depths(t.output), t.targetDepth, draws, if NextTime(s) >= s.targetDepth then steps + [n] else steps)
  {
    StepSteady(s, draws(n));
    StepEmits(s, draws(n));
    NextDepth(s, draws(n));
    hide Times, Positions, Depths, Advanced, FromTicks, Stepped, NextTime, Jitter, Steady, Drawn;
    if NextTime(s) >= s.targetDepth {
      DrawnAppend(Depths(s.output), draws, steps, NextTime(s), n);
    } else {
      assert Depths(s.output) + [] == Depths(s.output);
    }
  }

  lemma NextDepth(s: Sim, draw: Draw)
    requires s.sim.tick <= NextTime(s) && s.ref.tick <= NextTime(s)
    ensures
      var now := NextTime(s);
      Stepped(s, draw).targetDepth
      == if now >= s.targetDepth then now + CLOCKS_PER_SEC + Jitter(draw) else s.targetDepth
  {
    hide Advanced, Jitter, NextTime;
  }

  // ---- the order of emissions ----

  function Rank(e: Emission): nat { match e case TimeAt(_) => 0 case PositionAt(_) => 1 case DepthAt(_) => 2 }

  predicate Before(a: Emission, b: Emission) { a.tick < b.tick || (a.tick == b.tick && Rank(a) < Rank(b)) }

  predicate InOrder(out: seq<Emission>) { forall i, j | 0 <= i < j < |out| :: Before(out[i], out[j]) }

  predicate UpTo(out: seq<Emission>, now: int) { forall i | 0 <= i < |out| :: out[i].tick <= now }

  lemma OrderedAppend(out: seq<Emission>, e: Emission)
    requires InOrder(out) && forall i | 0 <= i < |out| :: Before(out[i], e)
    ensures InOrder(out + [e])
  {
    hide Before;
  }

  lemma StepInOrder(s: Sim, draw: Draw)
    requires s.sim.tick <= NextTime(s) && s.ref.tick <= NextTime(s)
    requires InOrder(s.output) && UpTo(s.output, NextTime(s) - 1)
    ensures InOrder(Stepped(s, draw).output) && UpTo(Stepped(s, draw).output, NextTime(s))
  {
    var now := NextTime(s);
    hide InOrder, Advanced, NextTime;
    var a := if now >= s.targetRef then s.output + [TimeAt(now)] else s.output;
    var b := if now >= s.targetPosition then a + [PositionAt(now)] else a;
    var c := if now >= s.targetDepth then b + [DepthAt(now)] else b;
    assert Stepped(s, draw).output == c;
    hide Stepped;
    OrderedAppend(s.output, TimeAt(now));
    OrderedAppend(a, PositionAt(now));
    OrderedAppend(b, DepthAt(now));
  }

  /** Over any run packets come out in the order of their times; at the same time the time packet is first,
      then the position, then the depth. */
  lemma {:induction false} RunInOrder(draws: nat -> Draw, n: nat)
    ensures InOrder(After(draws, n).output) && UpTo(After(draws, n).output, After(draws, n).sim.tick)
  {
    hide After, Stepped, InOrder, Steady;
    if n == 0 {
      AfterFirst(draws);
      FirstSteady(draws(0));
      assert InOrder([]) by { NothingInOrder(); }
      StepInOrder(First(), draws(0));
      TickIsNext(First(), draws(0));
    } else {
      var s := After(draws, n - 1);
      RunInOrder(draws, n - 1);
      AfterStep(draws, n);
      StepSteady(s, draws(n));
      StepInOrder(s, draws(n));
      TickIsNext(s, draws(n));
    }
  }

  lemma NothingInOrder()
    ensures InOrder([])
  {
  }

  lemma TickIsNext(s: Sim, draw: Draw)
    requires s.sim.tick <= NextTime(s) && s.ref.tick <= NextTime(s)
    ensures Stepped(s, draw).sim.tick == NextTime(s)
  {
  }

  // ---- the loop ----

  /** `steps` events, `depths` of them of depth, have brought the engine to this state: at most one depth
      event a second, and every other event on a whole second. */
  predicate Counted(s: Sim, steps: nat, depths: nat)
  {
    && steps <= s.sim.tick / CLOCKS_PER_SEC + depths
    && depths * CLOCKS_PER_SEC <= s.sim.tick && (depths + 1) * CLOCKS_PER_SEC <= s.targetDepth
  }

  lemma StepCounted(s: Sim, draw: Draw, steps: nat, depths: nat)
    requires Steady(s) && Counted(s, steps, depths) && s.ref.tick <= NextTime(s) && s.sim.tick <= NextTime(s)
    ensures Counted(Stepped(s, draw), steps + 1, if NextTime(s) >= s.targetDepth then depths + 1 else depths)
  {
    StepSteady(s, draw);
    var now, t := NextTime(s), Stepped(s, draw);
    hide Steady, FromTicks, Advanced;
    assert t.sim.tick == now;
    LaterSecond(s.sim.tick, now);
    assert now >= s.targetDepth ==> now == s.targetDepth;
    assert now < s.targetDepth ==> now == s.targetRef;
  }

  lemma LaterSecond(before: nat, now: nat)
    requires before < now
    ensures before / CLOCKS_PER_SEC <= now / CLOCKS_PER_SEC
    ensures now % CLOCKS_PER_SEC == 0 ==> before / CLOCKS_PER_SEC + 1 <= now / CLOCKS_PER_SEC
  {
  }

  function Seconds(duration: nat): nat { (duration + CLOCKS_PER_SEC - 1) / CLOCKS_PER_SEC }

  lemma StepsBounded(s: Sim, steps: nat, depths: nat)
    requires Counted(s, steps, depths)
    ensures depths <= s.sim.tick / CLOCKS_PER_SEC && steps <= 2 * (s.sim.tick / CLOCKS_PER_SEC)
  {
  }

  /** The simulation of a duration ends: after at least as many rounds as it has seconds begun, and fewer
      than twice as many. */
  method Simulate(duration: nat, draws: nat -> Draw) returns (engine: Engine, iterations: nat)
    ensures engine.Valid() && engine.Now() == After(draws, iterations)
    ensures duration <= engine.simTime.tickCount <= Seconds(duration) * CLOCKS_PER_SEC
    ensures Seconds(duration) <= iterations
    ensures if duration == 0 then iterations == 0 else iterations <= 2 * Seconds(duration) - 1
  {
    hide Stepped, After, Steady, Counted, InRange, FromTicks, Advanced;
    engine := new Engine();
    StartCounted(draws);
    var first := engine.StepEngine(draws(0));
    var current := first;
    iterations := 0;
    ghost var depths := 0;
    while current - first < duration
      invariant engine.Valid() && first == 0 && current == engine.Now().sim.tick && fresh(engine)
      invariant fresh(engine.simTime) && fresh(engine.refTime)
      invariant engine.Now() == After(draws, iterations)
      invariant Counted(engine.Now(), iterations, depths)
      invariant current <= Seconds(duration) * CLOCKS_PER_SEC
      invariant iterations == 0 || iterations <= 2 * Seconds(duration) - 1
      decreases duration - current
    {
      NextRound(engine.Now(), draws, iterations, depths, duration);
      if engine.targetDepthTime == NextTime(engine.Now()) {
        depths := depths + 1;
      }
      current := engine.StepEngine(draws(iterations + 1));
      iterations := iterations + 1;
    }
    SecondsBegun(duration, current, iterations);
  }

  lemma StartCounted(draws: nat -> Draw)
    ensures First().sim.tick == First().ref.tick == NextTime(First()) == 0
    ensures After(draws, 0) == Stepped(First(), draws(0)) && Counted(After(draws, 0), 0, 0) && After(draws, 0).sim.tick == 0
  {
    FirstSteady(draws(0));
  }

  lemma NextRound(s: Sim, draws: nat -> Draw, n: nat, depths: nat, duration: nat)
    requires s == After(draws, n) && Counted(s, n, depths) && s.sim.tick < duration
    ensures s.sim.tick < NextTime(s) <= Seconds(duration) * CLOCKS_PER_SEC && s.ref.tick <= NextTime(s)
    ensures After(draws, n + 1) == Stepped(s, draws(n + 1)) && After(draws, n + 1).sim.tick == NextTime(s)
    ensures Counted(After(draws, n + 1), n + 1, if s.targetDepth == NextTime(s) then depths + 1 else depths)
    ensures n + 1 <= 2 * Seconds(duration) - 1
  {
    var t := After(draws, n + 1);
    assert t == Stepped(s, draws(n + 1));
    StepSteady(s, draws(n + 1));
    StepCounted(s, draws(n + 1), n, depths);
    StepsBounded(s, n, depths);
    assert NextTime(s) >= s.targetDepth <==> s.targetDepth == NextTime(s);
    hide After, Stepped, Counted, FromTicks;
    BeforeTheEnd(s.sim.tick, NextTime(s), duration);
  }

  lemma BeforeTheEnd(before: nat, now: nat, duration: nat)
    requires before < duration && before < now <= before / CLOCKS_PER_SEC * CLOCKS_PER_SEC + CLOCKS_PER_SEC
    ensures now <= Seconds(duration) * CLOCKS_PER_SEC && before / CLOCKS_PER_SEC + 1 <= Seconds(duration)
  {
  }

  lemma SecondsBegun(duration: nat, now: nat, n: nat)
    requires duration <= now <= n * CLOCKS_PER_SEC
    ensures Seconds(duration) <= n
  {
  }
}
