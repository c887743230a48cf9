/** What the receiver delivers, for any input: which sentences are read from the ring, in which order, and
    with whose text. */
module ReceiverTheorems {
  import opened Checksum
  import opened IdFilter
  import opened Nmea0183
  import opened Receiver

  /** Sentences pushed and not yet read, as far as the two positions of the ring can tell. */
  function Outstanding(pushed: nat, taken: nat): nat { (pushed - taken) % RING }

  /** The ring has time and length of the last ten sentences; the text is the assembler's own buffer. */
  ghost predicate Holds(s: State, pushed: seq<Sentence>, taken: nat)
  {
    && |s.slots| == RING
    && s.writePoint == |pushed| % RING && s.readPoint == taken % RING && taken <= |pushed|
    && forall j | 0 <= j < |pushed| && |pushed| - j <= RING ::
         s.slots[j % RING] == Slot(s.buffer, |pushed[j].text|, pushed[j].stamp)
  }

  /** The state of an assembler that received `input`, and from which `taken` sentences were read. */
  ghost predicate Tracks(s: State, input: seq<In>, taken: nat)
  {
    && InRange(s) && s.capturing == Capturing(input) && s.text == Live(input) && s.stamp == Stamped(input)
    && Holds(s, Framed(input), taken)
  }

  lemma FirstTracks(s: State)
    requires InRange(s) && s.text == [] && !s.capturing && s.stamp == 0 && s.readPoint == s.writePoint == 0
    ensures Tracks(s, [], 0)
  {
    OpenNone();
  }

  lemma SearchStep(input: seq<In>, x: In)
    requires !Capturing(input)
    ensures
      var t := input + [x];
      && Framed(t) == Framed(input) && Capturing(t) == (x.c == DOLLAR)
      && Live(t) == (if x.c == DOLLAR then [DOLLAR] else Live(input))
      && Stamped(t) == if x.c == DOLLAR then x.at else Stamped(input)
  {
    OneMore(input, x);
    CapturingMore(input, x);
    hide Live, Stamped, Framed, Capturing, Open, Stripped;
  }

  lemma CaptureStep(input: seq<In>, x: In)
    requires Capturing(input)
    ensures
      var t := input + [x];
      && Framed(t) == (if x.c == LF then Framed(input) + [Sentence(Stamped(input), Live(input))] else Framed(input))
      && Capturing(t) == (x.c == DOLLAR || x.c == CR || (x.c != LF && |Live(input)| < MAX_TEXT))
      && Live(t) == (if x.c == DOLLAR then [DOLLAR]
                     else if x.c == LF || x.c == CR || |Live(input)| == MAX_TEXT then Live(input)
                     else Live(input) + [x.c])
      && Stamped(t) == if x.c == DOLLAR then x.at else Stamped(input)
  {
    OneMore(input, x);
    CapturingMore(input, x);
    LiveIsOpen(input);
    hide Live, Stamped, Framed, Capturing, Open, Stripped;
  }

  lemma SlotsDiffer(n: nat)
    ensures forall j | 0 <= j < n && n - j < RING :: j % RING != n % RING
    ensures (n + 1) % RING == (n % RING + 1) % RING
  {
  }

  lemma PushHolds(s: State, pushed: seq<Sentence>, taken: nat, latest: Sentence)
    requires Holds(s, pushed, taken)
    ensures Holds(s.(slots := s.slots[s.writePoint := Slot(s.buffer, |latest.text|, latest.stamp)],
                     writePoint := (s.writePoint + 1) % RING), pushed + [latest], taken)
  {
    SlotsDiffer(|pushed|);
  }

  /** The assembler and the framing advance together, character by character. */
  lemma TookTracks(s: State, input: seq<In>, taken: nat, x: In)
    requires Tracks(s, input, taken)
    ensures Tracks(Took(s, x), input + [x], taken)
  {
    hide Live, Stamped, Framed, Capturing;
    if s.capturing {
      CaptureStep(input, x);
      PushHolds(s, Framed(input), taken, Sentence(s.stamp, s.text));
    } else {
      SearchStep(input, x);
    }
  }

  lemma TracksInRange(s: State, input: seq<In>, taken: nat)
    requires Tracks(s, input, taken)
    ensures InRange(s) && s.text == Live(input)
  {
  }

  lemma LastApart<T>(a: seq<T>, b: seq<T>)
    requires b != []
    ensures a + b[..|b| - 1] + [b[|b| - 1]] == a + b
  {
  }

  lemma {:induction false} TookAllTracks(s: State, input: seq<In>, taken: nat, xs: seq<In>)
    requires Tracks(s, input, taken)
    ensures Tracks(TookAll(s, xs), input + xs, taken)
  {
    TracksInRange(s, input, taken);
    hide Tracks, Took, InRange;
    if xs == [] {
      assert input + xs == input;
    } else {
      var n := |xs| - 1;
      TookAllTracks(s, input, taken, xs[..n]);
      TookTracks(TookAll(s, xs[..n]), input + xs[..n], taken, xs[n]);
      LastApart(input, xs);
    }
  }

  /** Reading the ring: nothing when a multiple of ten is outstanding, else the oldest of the last
      `Outstanding` sentences, by its time and its length. */
  lemma ReadHolds(s: State, pushed: seq<Sentence>, taken: nat)
    requires InRange(s) && Holds(s, pushed, taken)
    ensures
      var p := Outstanding(|pushed|, taken);
      && p <= |pushed| - taken && (p == 0 <==> s.readPoint == s.writePoint)
      && (p > 0 ==>
            && s.slots[s.readPoint] == Slot(s.buffer, |pushed[|pushed| - p].text|, pushed[|pushed| - p].stamp)
            && Holds(s.(readPoint := (s.readPoint + 1) % RING), pushed, taken + 1)
            && Outstanding(|pushed|, taken + 1) == p - 1)
  {
    ReadOrder(|pushed|, taken);
  }

  lemma ReadOrder(pushed: nat, taken: nat)
    requires taken <= pushed
    ensures
      var p := Outstanding(pushed, taken);
      && p <= pushed - taken && (p == 0 <==> pushed % RING == taken % RING)
      && (p > 0 ==> (pushed - p) % RING == taken % RING && Outstanding(pushed, taken + 1) == p - 1)
      && (taken + 1) % RING == (taken % RING + 1) % RING
  {
  }

  // ---- logging ----

  /** What is logged for one sentence: the text is whatever the buffer holds by then. */
  function LoggedOne(s: Sentence, live: seq<Char>, filter: set<Word>): seq<Sentence>
    requires |s.text| < BUFFER && |live| < BUFFER
  {
    var buffer := Padded(live);
    if Filtered(filter, buffer) || !IsValid(buffer, |s.text|) then [] else [Sentence(s.stamp, CString(buffer))]
  }

  predicate AllFit(pushed: seq<Sentence>)
  {
    forall i | 0 <= i < |pushed| :: |pushed[i].text| < BUFFER
  }

  function LoggedFrom(pushed: seq<Sentence>, live: seq<Char>, filter: set<Word>, i: nat): seq<Sentence>
    requires AllFit(pushed) && |live| < BUFFER
    decreases |pushed| - i
  {
    if i >= |pushed| then [] else LoggedOne(pushed[i], live, filter) + LoggedFrom(pushed, live, filter, i + 1)
  }

  lemma {:induction false} FramedFit(input: seq<In>)
    ensures AllFit(Framed(input))
  {
    hide Stripped, Open;
    if input != [] {
      FramedFit(input[..|input| - 1]);
    }
  }

  /** What is logged of the sentences still outstanding. */
  function LoggedRest(pushed: seq<Sentence>, live: seq<Char>, filter: set<Word>, taken: nat): seq<Sentence>
    requires AllFit(pushed) && |live| < BUFFER && taken <= |pushed|
  {
    OutstandingInRange(|pushed|, taken);
    LoggedFrom(pushed, live, filter, |pushed| - Outstanding(|pushed|, taken))
  }

  lemma OutstandingInRange(pushed: nat, taken: nat)
    requires taken <= pushed
    ensures Outstanding(pushed, taken) <= pushed
  {
  }

  lemma LoggedStep(pushed: seq<Sentence>, live: seq<Char>, filter: set<Word>, i: nat)
    requires AllFit(pushed) && |live| < BUFFER && i < |pushed|
    ensures LoggedFrom(pushed, live, filter, i)
         == LoggedOne(pushed[i], live, filter) + LoggedFrom(pushed, live, filter, i + 1)
  {
    hide LoggedOne;
  }

  lemma LoggedNext(pushed: seq<Sentence>, live: seq<Char>, filter: set<Word>, taken: nat, logged: seq<Sentence>)
    requires AllFit(pushed) && |live| < BUFFER && taken <= |pushed|
    ensures
      var p := Outstanding(|pushed|, taken);
      && p <= |pushed|
      && (p == 0 ==> logged + LoggedRest(pushed, live, filter, taken) == logged)
      && (p > 0 ==>
            taken < |pushed| &&
            logged + LoggedRest(pushed, live, filter, taken)
            == logged + LoggedOne(pushed[|pushed| - p], live, filter) + LoggedRest(pushed, live, filter, taken + 1))
  {
    ReadOrder(|pushed|, taken);
    var p := Outstanding(|pushed|, taken);
    if p > 0 {
      RestStep(pushed, live, filter, taken);
      hide *;
      Regroup(logged, LoggedOne(pushed[|pushed| - p], live, filter), LoggedRest(pushed, live, filter, taken + 1));
    } else {
      RestNone(pushed, live, filter, taken);
      hide *;
      assert logged + [] == logged;
    }
  }

  lemma RestNone(pushed: seq<Sentence>, live: seq<Char>, filter: set<Word>, taken: nat)
    requires AllFit(pushed) && |live| < BUFFER && taken <= |pushed| && Outstanding(|pushed|, taken) == 0
    ensures LoggedRest(pushed, live, filter, taken) == []
  {
    RestIs(pushed, live, filter, taken);
    LoggedEnd(pushed, live, filter);
    hide *;
  }

  lemma RestStep(pushed: seq<Sentence>, live: seq<Char>, filter: set<Word>, taken: nat)
    requires AllFit(pushed) && |live| < BUFFER && taken <= |pushed| && Outstanding(|pushed|, taken) > 0
    ensures
      var p := Outstanding(|pushed|, taken);
      && p <= |pushed| && taken < |pushed|
      && LoggedRest(pushed, live, filter, taken)
         == LoggedOne(pushed[|pushed| - p], live, filter) + LoggedRest(pushed, live, filter, taken + 1)
  {
    hide *;
    ReadNext(|pushed|, taken);
    var p := Outstanding(|pushed|, taken);
    RestIs(pushed, live, filter, taken);
    RestIs(pushed, live, filter, taken + 1);
    LoggedStep(pushed, live, filter, |pushed| - p);
  }

  lemma ReadNext(pushed: nat, taken: nat)
    requires taken <= pushed && Outstanding(pushed, taken) > 0
    ensures taken < pushed && Outstanding(pushed, taken) <= pushed - taken
    ensures Outstanding(pushed, taken + 1) == Outstanding(pushed, taken) - 1
  {
    ReadOrder(pushed, taken);
  }

  lemma RestIs(pushed: seq<Sentence>, live: seq<Char>, filter: set<Word>, taken: nat)
    requires AllFit(pushed) && |live| < BUFFER && taken <= |pushed|
    ensures
      var p := Outstanding(|pushed|, taken);
      p <= |pushed| && LoggedRest(pushed, live, filter, taken) == LoggedFrom(pushed, live, filter, |pushed| - p)
  {
    OutstandingInRange(|pushed|, taken);
    hide Outstanding, LoggedFrom, AllFit;
  }

  lemma LoggedEnd(pushed: seq<Sentence>, live: seq<Char>, filter: set<Word>)
    requires AllFit(pushed) && |live| < BUFFER
    ensures LoggedFrom(pushed, live, filter, |pushed|) == []
  {
    hide LoggedOne;
  }

  lemma StartDraining(s: State, input: seq<In>, taken: nat, waiting: seq<In>)
    requires Tracks(s, input, taken)
    ensures
      var (t, all) := (TookAll(s, waiting), input + waiting);
      && Tracks(t, all, taken) && t.text == Live(all) && Holds(t, Framed(all), taken) && InRange(t)
      && taken <= |Framed(all)| && AllFit(Framed(all))
  {
    TracksInRange(s, input, taken);
    TookAllTracks(s, input, taken, waiting);
    FramedFit(input + waiting);
    hide Framed, Live, TookAll, AllFit, InRange;
  }

  lemma EndDraining(s: State, t: State, input: seq<In>, before: nat, taken: nat)
    requires Tracks(s, input, before) && t == s.(readPoint := t.readPoint) && InRange(t)
    requires Holds(t, Framed(input), taken)
    ensures Tracks(t, input, taken)
  {
  }

  lemma BufferIsPadded(b: IncBuffer)
    requires b.Valid() && b.bufferLength == BUFFER
    ensures b.sentence[..] == Padded(b.Contents())
  {
    assert b.sentence[..b.insertPoint] == b.Contents();
  }

  class Logger {
    const channel: MessageAssembler
    const filter: set<Word>

    constructor (channel: MessageAssembler, filter: set<Word>)
      ensures this.channel == channel && this.filter == filter
    {
      this.channel := channel;
      this.filter := filter;
    }

    method TakeIn(waiting: seq<In>)
      requires channel.Valid()
      modifies channel, channel.current, channel.current.sentence, channel.ring
      ensures channel.Valid() && channel.current.sentence == old(channel.current.sentence)
      ensures channel.Now() == TookAll(old(channel.Now()), waiting)
    {
      hide Took;
      for i := 0 to |waiting|
        invariant channel.Valid() && channel.current.sentence == old(channel.current.sentence)
        invariant channel.Now() == TookAll(old(channel.Now()), waiting[..i])
      {
        assert waiting[..i + 1][..i] == waiting[..i];
        channel.AddCharacter(waiting[i].c, waiting[i].at);
      }
      assert waiting[..|waiting|] == waiting;
    }

    /** A sentence goes to the log unless it is filtered out or fails its checksum. */
    method Log(s: Slot) returns (logged: seq<Sentence>)
      requires IsBuffer(s.text[..]) && s.length < BUFFER
      ensures logged == if Filtered(filter, s.text[..]) || !IsValid(s.text[..], s.length) then []
                        else [Sentence(s.stamp, CString(s.text[..]))]
    {
      if Filtered(filter, s.text[..]) {
        return [];
      }
      var valid := Valid(s.text, s.length);
      if !valid {
        return [];
      }
      logged := [Sentence(s.stamp, CString(s.text[..]))];
    }

    /** One channel's share of `ProcessMessages`: every waiting character is taken in before the first
        sentence is taken out, and then the ring is read until it looks empty. */
    method ProcessMessages(waiting: seq<In>, ghost input: seq<In>, ghost before: nat)
      returns (logged: seq<Sentence>, ghost taken: nat)
      requires channel.Valid() && Tracks(channel.Now(), input, before)
      modifies channel, channel.current, channel.current.sentence, channel.ring
      ensures channel.Valid() && Tracks(channel.Now(), input + waiting, taken)
      ensures AllFit(Framed(input + waiting)) && Outstanding(|Framed(input + waiting)|, taken) == 0
      ensures before <= |Framed(input + waiting)|
      ensures logged == LoggedRest(Framed(input + waiting), Live(input + waiting), filter, before)
    {
      hide Tracks, Holds, LoggedRest, TookAll, Framed, Live, Outstanding, Filtered, IsValid, CString, Padded;
      TakeIn(waiting);
      ghost var s0, pushed, live := channel.Now(), Framed(input + waiting), Live(input + waiting);
      StartDraining(old(channel.Now()), input, before, waiting);
      BufferIsPadded(channel.current);
      logged, taken := [], before;
      var reading := true;
      while reading
        invariant channel.Valid() && channel.Now() == s0.(readPoint := channel.readPoint)
        invariant channel.current.sentence[..] == Padded(live)
        invariant Holds(channel.Now(), pushed, taken) && InRange(channel.Now()) && taken <= |pushed|
        invariant logged + LoggedRest(pushed, live, filter, taken) == LoggedRest(pushed, live, filter, before)
        invariant !reading ==> Outstanding(|pushed|, taken) == 0
        decreases reading, Outstanding(|pushed|, taken)
      {
        ReadHolds(channel.Now(), pushed, taken);
        LoggedNext(pushed, live, filter, taken, logged);
        var sentence := channel.NextSentence();
        if sentence.None? {
          reading := false;
        } else {
          var one := Log(sentence.value);
          logged := logged + one;
          taken := taken + 1;
        }
      }
      LoggedNext(pushed, live, filter, taken, logged);
      EndDraining(s0, channel.Now(), input + waiting, before, taken);
    }
  }
}
