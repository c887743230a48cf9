/** When a cycle runs, how far it gets, and that over a good connection everything is uploaded. */
module UploadCycles {
  import opened Options
  import opened Frames
  import opened LogState
  import opened LogSafety
  import opened UploadModel
  import opened UploadSafety
  import opened LogRuns
  import opened OpenLog

  // ---- the interval ----

  predicate Due(w: World, c: Cycle) { Elapsed(c.now, w.lastCycle) >= c.interval }

  lemma {:induction false} EachKeepsTime(md5: Md5, w: World, numbers: seq<nat>, xs: seq<Exchange>, start: nat, duration: nat)
    requires SizesOk(w) && forall i | 0 <= i < |numbers| :: numbers[i] < MAX_LOG_FILES
    ensures UploadEach(md5, w, numbers, xs, start, duration).lastCycle == w.lastCycle
    decreases |numbers|
  {
    if numbers != [] && xs != [] {
      var w1 := UploadOne(md5, w, numbers[0], xs[0]);
      assert w1.lastCycle == w.lastCycle;
      hide UploadOne, Elapsed;
      EachKeepsTime(md5, w1, numbers[1..], xs[1..], start, duration);
    }
  }

  lemma CycleKeepsTime(md5: Md5, w: World, c: Cycle)
    requires SizesOk(w)
    ensures Cycled(md5, w, c).lastCycle == if Due(w, c) then c.now else w.lastCycle
    ensures !Due(w, c) ==> Cycled(md5, w, c) == w && CycleOffers(md5, w, c) == []
  {
    hide Elapsed, UploadEach, Listed, Offered;
    ListedInRange(w.store.sizes, 0);
    EachKeepsTime(md5, w.(lastCycle := c.now), Listed(w.store.sizes, 0), c.exchanges, c.now, c.duration);
  }

  /** Once a cycle was due, calls before an interval has passed from its start do nothing; also when there was
      nothing to upload, or the server did not answer the status report. */
  lemma CycleWaits(md5: Md5, w: World, c: Cycle, d: Cycle)
    requires SizesOk(w) && Due(w, c) && Elapsed(d.now, c.now) < d.interval
    ensures Cycled(md5, Cycled(md5, w, c), d) == Cycled(md5, w, c)
    ensures CycleOffers(md5, Cycled(md5, w, c), d) == []
  {
    CycleKeepsTime(md5, w, c);
    var w1 := Cycled(md5, w, c);
    hide Cycled, CycleOffers, Elapsed;
    CycleKeepsTime(md5, w1, d);
  }

  /** Nothing but the time of the cycle changes when there is nothing to upload or no answer to the report. */
  lemma IdleCycle(md5: Md5, w: World, c: Cycle)
    requires SizesOk(w) && Due(w, c) && (Listed(w.store.sizes, 0) == [] || !c.statusOk)
    ensures Cycled(md5, w, c) == w.(lastCycle := c.now) && CycleOffers(md5, w, c) == []
  {
  }

  /** The clock does not go back: `t` is its last reading. */
  predicate Clocked(actions: seq<Action>, t: nat)
  {
    actions == []
    || if actions[0].Upload? then t <= actions[0].cycle.now && Clocked(actions[1..], actions[0].cycle.now)
       else Clocked(actions[1..], t)
  }

  lemma {:induction false} ClockedSince(actions: seq<Action>, t: nat, s: nat)
    requires Clocked(actions, t) && s <= t
    ensures Clocked(actions, s)
  {
    if actions != [] && !actions[0].Upload? {
      ClockedSince(actions[1..], t, s);
    }
  }

  /** The action at `k` is an upload that changes something or offers a file. */
  predicate Active(md5: Md5, w: World, actions: seq<Action>, k: nat)
    requires SizesOk(w) && k < |actions|
    decreases k
  {
    if k == 0 then
      && actions[0].Upload?
      && (Act(md5, w, actions[0]) != w || ActOffers(md5, w, actions[0]) != [])
    else Active(md5, Act(md5, w, actions[0]), actions[1..], k - 1)
  }

  lemma ActiveHead(md5: Md5, w: World, actions: seq<Action>, k: nat)
    requires SizesOk(w) && k < |actions| && Active(md5, w, actions, k)
    ensures k == 0 ==> actions[0].Upload? && Due(w, actions[0].cycle)
    ensures k > 0 ==> Active(md5, Act(md5, w, actions[0]), actions[1..], k - 1)
  {
    ActKeepsTime(md5, w, actions[0]);
    hide Act, ActOffers, Elapsed;
  }

  lemma ActKeepsTime(md5: Md5, w: World, a: Action)
    requires SizesOk(w)
    ensures Act(md5, w, a).lastCycle == if a.Upload? && Due(w, a.cycle) then a.cycle.now else w.lastCycle
    ensures a.Upload? && !Due(w, a.cycle) ==> Act(md5, w, a) == w && ActOffers(md5, w, a) == []
  {
    hide Elapsed, Recorded, Handled, Stepped, EraseOne, ErasedAll, Updated, Cycled, CycleOffers;
    if a.Upload? {
      CycleKeepsTime(md5, w, a.cycle);
    }
  }

  /** The clock of the actions behind the first. */
  lemma ClockGoesOn(md5: Md5, w: World, actions: seq<Action>)
    requires SizesOk(w) && actions != [] && Clocked(actions, w.lastCycle)
    ensures Clocked(actions[1..], Act(md5, w, actions[0]).lastCycle)
    ensures w.lastCycle <= Act(md5, w, actions[0]).lastCycle
  {
    var a := actions[0];
    ActKeepsTime(md5, w, a);
    hide Act, Elapsed;
    if a.Upload? && !Due(w, a.cycle) {
      ClockedSince(actions[1..], a.cycle.now, w.lastCycle);
    }
  }

  /** An active upload starts an interval at least after the last cycle did. */
  lemma {:induction false} ActiveIsLater(md5: Md5, w: World, actions: seq<Action>, k: nat)
    requires SizesOk(w) && k < |actions| && Clocked(actions, w.lastCycle) && Active(md5, w, actions, k)
    ensures actions[k].Upload? && w.lastCycle + actions[k].cycle.interval <= actions[k].cycle.now
    decreases k
  {
    hide Act, Elapsed, Active;
    ActiveHead(md5, w, actions, k);
    if k == 0 {
      ElapsedIsTime(actions[0].cycle.now, w.lastCycle);
    } else {
      ClockGoesOn(md5, w, actions);
      hide Clocked;
      ActiveIsLater(md5, Act(md5, w, actions[0]), actions[1..], k - 1);
    }
  }

  /** The readings of the clock start again at zero; the time between two is right all the same, if it is less
      than a turn of the clock. */
  lemma ElapsedWraps(now: nat, since: nat)
    requires since <= now < since + CLOCK
    ensures Elapsed(now % CLOCK, since % CLOCK) == now - since
  {
    var (p, q) := (now / CLOCK, since / CLOCK);
    assert now == p * CLOCK + now % CLOCK && since == q * CLOCK + since % CLOCK;
  }

  lemma ElapsedIsTime(now: nat, since: nat)
    requires since <= now
    ensures Elapsed(now, since) <= now - since
  {
  }

  /** Over any run with a clock that does not go back: two uploads that change anything or offer a file start
      an interval apart at least. */
  lemma {:induction false} CyclesApart(md5: Md5, w: World, actions: seq<Action>, i: nat, j: nat)
    requires SizesOk(w) && i < j < |actions| && Clocked(actions, w.lastCycle)
    requires Active(md5, w, actions, i) && Active(md5, w, actions, j)
    ensures actions[i].Upload? && actions[j].Upload?
    ensures actions[i].cycle.now + actions[j].cycle.interval <= actions[j].cycle.now
    decreases i
  {
    var (w1, rest) := (Act(md5, w, actions[0]), actions[1..]);
    hide Act, Elapsed, Clocked, Active, Due;
    assert rest[j - 1] == actions[j] && (i > 0 ==> rest[i - 1] == actions[i]);
    ClockGoesOn(md5, w, actions);
    ActiveHead(md5, w, actions, j);
    if i == 0 {
      DueStartsNow(md5, w, actions);
      ActiveIsLater(md5, w1, rest, j - 1);
    } else {
      ActiveHead(md5, w, actions, i);
      CyclesApart(md5, w1, rest, i - 1, j - 1);
    }
  }

  lemma DueStartsNow(md5: Md5, w: World, actions: seq<Action>)
    requires SizesOk(w) && actions != [] && Active(md5, w, actions, 0)
    ensures actions[0].Upload? && Act(md5, w, actions[0]).lastCycle == actions[0].cycle.now
  {
    hide Act, Elapsed, Active;
    ActiveHead(md5, w, actions, 0);
    ActKeepsTime(md5, w, actions[0]);
  }

  // ---- how far a cycle gets ----

  /** All the files, with no limit on time. */
  function SendAll(md5: Md5, w: World, numbers: seq<nat>, xs: seq<Exchange>): (r: World)
    requires SizesOk(w) && |numbers| == |xs| && forall i | 0 <= i < |numbers| :: numbers[i] < MAX_LOG_FILES
    ensures SizesOk(r)
    decreases |numbers|
  {
    if numbers == [] then w else SendAll(md5, UploadOne(md5, w, numbers[0], xs[0]), numbers[1..], xs[1..])
  }

  predicate InTime(x: Exchange, start: nat, duration: nat) { Elapsed(x.clock, start) <= duration }

  /** A cycle handles the files in their order, and as many as it is in time for: it ends behind the first that
      took it over the limit. */
  lemma {:induction false} EndsInTime(md5: Md5, w: World, numbers: seq<nat>, xs: seq<Exchange>, start: nat, duration: nat)
    requires SizesOk(w) && forall i | 0 <= i < |numbers| :: numbers[i] < MAX_LOG_FILES
    ensures
      var ts := Offered(md5, w, numbers, xs, start, duration);
      var k := |ts|;
      && k <= |numbers| && k <= |xs|
      && UploadEach(md5, w, numbers, xs, start, duration) == SendAll(md5, w, numbers[..k], xs[..k])
      && (forall i | 0 <= i < k :: ts[i].number == numbers[i] && ts[i].exchange == xs[i])
      && (forall i | 0 <= i < k - 1 :: InTime(xs[i], start, duration))
      && (k < |numbers| && k < |xs| ==> k > 0 && !InTime(xs[k - 1], start, duration))
    decreases |numbers|
  {
    hide UploadOne, Elapsed;
    if numbers == [] || xs == [] {
      assert numbers[..0] == [] && xs[..0] == [];
    } else {
      var w1 := UploadOne(md5, w, numbers[0], xs[0]);
      var rest := if InTime(xs[0], start, duration) then Offered(md5, w1, numbers[1..], xs[1..], start, duration) else [];
      if InTime(xs[0], start, duration) {
        EndsInTime(md5, w1, numbers[1..], xs[1..], start, duration);
      }
      var k := 1 + |rest|;
      assert numbers[..k][1..] == numbers[1..][..k - 1] && xs[..k][1..] == xs[1..][..k - 1];
      assert Offered(md5, w, numbers, xs, start, duration) == [Attempt(w.store, numbers[0], xs[0])] + rest;
      assert |rest| == 0 ==> numbers[..k][1..] == [] && SendAll(md5, w1, numbers[..k][1..], xs[..k][1..]) == w1;
    }
  }

  // ---- a good connection ----

  /** A closed file that is in the inventory as it is on the card can be removed by an exchange if its digest is
      that of the part that is hashed; so it can if it is not longer than that. */
  lemma ClosedMatches(md5: Md5, s: Store, n: nat)
    requires |s.sizes| == |s.hashes| == MAX_LOG_FILES && n < MAX_LOG_FILES && n in s.disk && Coherent(md5, s, n)
    ensures Matches(md5, s, n) <==> md5(Bytes(s.disk[n])) == md5(Hashed(Bytes(s.disk[n])))
    ensures |Bytes(s.disk[n])| <= 2 * MAX_LOG_FILE_SIZE ==> Matches(md5, s, n)
  {
    hide Bytes, Hashed;
    var b := Bytes(s.disk[n]);
    assert s.sizes[n] == |b| && s.hashes[n] == md5(Hashed(b));
    assert b[..|b|] == b;
    if |b| <= 2 * MAX_LOG_FILE_SIZE {
      assert Hashed(b) == b by { ShortIsHashed(b); }
    }
  }

  lemma ShortIsHashed(b: seq<byte>)
    requires |b| <= 2 * MAX_LOG_FILE_SIZE
    ensures Hashed(b) == b
  {
  }

  /** The exchange sends the file as it is, and everything works; its clock may show anything. */
  predicate Works(s: Store, n: nat, x: Exchange)
  {
    n < |s.sizes| && n in s.disk && s.sizes[n] <= |Bytes(s.disk[n])|
    && x == Sending(s, n).(clock := x.clock)
  }

  lemma WorkRemoves(md5: Md5, w: World, n: nat, x: Exchange)
    requires SizesOk(w) && n < MAX_LOG_FILES && Matches(md5, w.store, n) && Works(w.store, n, x)
    ensures n !in UploadOne(md5, w, n, x).store.disk
    ensures UploadOne(md5, w, n, x).bucket == w.bucket + [Bytes(w.store.disk[n])[..w.store.sizes[n]]]
  {
    hide Bytes;
  }

  lemma OneKeeps(md5: Md5, w: World, m: nat, x: Exchange, n: nat)
    requires SizesOk(w) && m < MAX_LOG_FILES
    ensures w.bucket <= UploadOne(md5, w, m, x).bucket
    ensures n !in w.store.disk ==> n !in UploadOne(md5, w, m, x).store.disk
  {
    BucketGrows(md5, w, m, x);
    hide Served, Marked, Bytes;
  }

  lemma {:induction false} AllKeep(md5: Md5, w: World, numbers: seq<nat>, xs: seq<Exchange>, n: nat)
    requires SizesOk(w) && |numbers| == |xs| && forall i | 0 <= i < |numbers| :: numbers[i] < MAX_LOG_FILES
    ensures w.bucket <= SendAll(md5, w, numbers, xs).bucket
    ensures n !in w.store.disk ==> n !in SendAll(md5, w, numbers, xs).store.disk
    decreases |numbers|
  {
    hide UploadOne;
    if numbers != [] {
      OneKeeps(md5, w, numbers[0], xs[0], n);
      AllKeep(md5, UploadOne(md5, w, numbers[0], xs[0]), numbers[1..], xs[1..], n);
    }
  }

  /** Among any exchanges, one that works removes its file and puts its bytes into the bucket. */
  lemma {:induction false} WorkingIsSent(md5: Md5, w: World, numbers: seq<nat>, xs: seq<Exchange>, i: nat)
    requires SizesOk(w) && |numbers| == |xs| && forall j | 0 <= j < |numbers| :: numbers[j] < MAX_LOG_FILES
    requires Ascending(numbers) && i < |numbers|
    requires Matches(md5, w.store, numbers[i]) && Works(w.store, numbers[i], xs[i])
    ensures numbers[i] !in SendAll(md5, w, numbers, xs).store.disk
    ensures Bytes(w.store.disk[numbers[i]])[..w.store.sizes[numbers[i]]] in SendAll(md5, w, numbers, xs).bucket
    decreases i
  {
    var (n, w1) := (numbers[i], UploadOne(md5, w, numbers[0], xs[0]));
    if i == 0 {
      WorkRemoves(md5, w, n, xs[0]);
      hide UploadOne, Matches, Works, Bytes;
      assert w1.bucket[|w.bucket|] == Bytes(w.store.disk[n])[..w.store.sizes[n]];
      AllKeep(md5, w1, numbers[1..], xs[1..], n);
    } else {
      OtherStays(md5, w, numbers[0], xs[0], n);
      hide UploadOne, Matches, Bytes;
      assert numbers[1..][i - 1] == n && xs[1..][i - 1] == xs[i];
      WorkingIsSent(md5, w1, numbers[1..], xs[1..], i - 1);
    }
  }

  /** Every exchange of the cycle is in time. */
  predicate AllInTime(c: Cycle)
  {
    forall i | 0 <= i < |c.exchanges| :: InTime(c.exchanges[i], c.now, c.duration)
  }

  /** A cycle that is due, on time throughout and gets its report answered, removes every closed log of which the
      exchange works, and has put it into the bucket whole; but for logs longer than what is hashed of them. */
  lemma WorkingCycleUploads(md5: Md5, w: World, c: Cycle, n: nat)
    requires Sound(md5, w.store) && SizesOk(w) && Due(w, c) && c.statusOk && AllInTime(c)
    requires n in w.store.disk && !(w.store.isOpen && n == w.store.current)
    requires |Bytes(w.store.disk[n])| <= 2 * MAX_LOG_FILE_SIZE
    requires |c.exchanges| == |Listed(w.store.sizes, 0)|
    requires forall i | 0 <= i < |c.exchanges| && Listed(w.store.sizes, 0)[i] == n :: Works(w.store, n, c.exchanges[i])
    ensures n !in Cycled(md5, w, c).store.disk && Bytes(w.store.disk[n]) in Cycled(md5, w, c).bucket
  {
    hide Works, Matches, Bytes, UploadEach, Offered, SendAll, Elapsed, Sound, UploadOne, Coherent;
    var (numbers, w1) := (Listed(w.store.sizes, 0), w.(lastCycle := c.now));
    ListedInRange(w.store.sizes, 0);
    ListedAscends(w.store.sizes, 0);
    ClosedIsListed(md5, w.store, n);
    ListedExactly(w.store.sizes, 0, n);
    hide Listed;
    ClosedMatches(md5, w.store, n);
    AllIsSent(md5, w1, numbers, c.exchanges, c.now, c.duration);
    var i :| 0 <= i < |numbers| && numbers[i] == n;
    WorkingIsSent(md5, w1, numbers, c.exchanges, i);
    var b := Bytes(w.store.disk[n]);
    assert b[..|b|] == b;
  }

  lemma AllIsSent(md5: Md5, w: World, numbers: seq<nat>, xs: seq<Exchange>, start: nat, duration: nat)
    requires SizesOk(w) && |numbers| == |xs| && forall i | 0 <= i < |numbers| :: numbers[i] < MAX_LOG_FILES
    requires forall i | 0 <= i < |xs| :: InTime(xs[i], start, duration)
    ensures UploadEach(md5, w, numbers, xs, start, duration) == SendAll(md5, w, numbers, xs)
  {
    hide UploadEach, Offered, SendAll, InTime;
    EndsInTime(md5, w, numbers, xs, start, duration);
    assert numbers[..|numbers|] == numbers && xs[..|xs|] == xs;
  }

  lemma ClosedIsListed(md5: Md5, s: Store, n: nat)
    requires Sound(md5, s) && n in s.disk && !(s.isOpen && n == s.current)
    ensures n < MAX_LOG_FILES && |s.sizes| == |s.hashes| == MAX_LOG_FILES
    ensures s.sizes[n] == |Bytes(s.disk[n])| != 0 && Coherent(md5, s, n)
  {
    assert Coherent(md5, s, n);
    var es := s.disk[n];
    assert Bytes(es) == Bytes(es[..|es| - 1]) + Encode(es[|es| - 1].frame);
    hide Bytes, Encode;
  }

  // ---- erasing all ----

  lemma {:induction false} EachErased(s: Store, numbers: seq<nat>, works: nat -> bool, n: nat)
    requires |s.sizes| == |s.hashes| == MAX_LOG_FILES
    ensures
      var r := EraseEach(s, numbers, works);
      && (n in r.disk <==> n in s.disk && !(n in numbers && works(n)))
      && (n in r.disk ==> r.disk[n] == s.disk[n])
    decreases |numbers|
  {
    hide Marked;
    if numbers != [] {
      EachErased(EraseOne(s, numbers[0], works(numbers[0])), numbers[1..], works, n);
    }
  }

  /** Erasing all logs leaves on the card the new log and what the file system would not remove, unchanged. */
  lemma EraseAllErases(md5: Md5, s: Store, works: nat -> bool, headers: seq<Frame>, n: nat)
    requires Sound(md5, s) && |s.sizes| == |s.hashes| == MAX_LOG_FILES && s.current < MAX_LOG_FILES
    ensures
      var r := ErasedAll(md5, s, works, headers);
      && (n in r.disk <==> n == r.current || (n in s.disk && !works(n)))
      && r.disk[r.current] == HeaderEntries(headers)
      && (n in r.disk && n != r.current ==> r.disk[n] == s.disk[n])
  {
    var c := Closed(md5, s);
    ClosedSound(md5, s);
    assert c.disk == s.disk;
    if n in s.disk {
      ClosedIsListed(md5, c, n);
      ListedExactly(c.sizes, 0, n);
    }
    EachErased(c, Listed(c.sizes, 0), works, n);
    hide Listed, Closed, EraseEach, HeaderEntries, NextFree, Marked, Sound;
  }

  // ---- what gets into the bucket ----

  /** The attempt hands over these bytes, of the size and the digest that the inventory has for the file. */
  predicate Announced(md5: Md5, t: Attempt, b: seq<byte>)
  {
    var (s, n) := (t.store, t.number);
    n < |s.sizes| && n < |s.hashes| && t.exchange.body == Some(b) && |b| == s.sizes[n] && md5(b) == s.hashes[n]
  }

  ghost predicate SomeAnnounced(md5: Md5, ts: seq<Attempt>, b: seq<byte>)
  {
    exists k :: 0 <= k < |ts| && Announced(md5, ts[k], b)
  }

  lemma AnnouncedIn(md5: Md5, ts: seq<Attempt>, us: seq<Attempt>, b: seq<byte>)
    requires SomeAnnounced(md5, ts, b) || SomeAnnounced(md5, us, b)
    ensures SomeAnnounced(md5, ts + us, b)
  {
    hide Announced;
    if SomeAnnounced(md5, ts, b) {
      var k :| 0 <= k < |ts| && Announced(md5, ts[k], b);
      assert (ts + us)[k] == ts[k];
    } else {
      var k :| 0 <= k < |us| && Announced(md5, us[k], b);
      assert (ts + us)[|ts| + k] == us[k];
    }
  }

  lemma OneIsAnnounced(md5: Md5, w: World, n: nat, x: Exchange, b: seq<byte>)
    requires SizesOk(w) && n < MAX_LOG_FILES && b in UploadOne(md5, w, n, x).bucket
    ensures b in w.bucket || SomeAnnounced(md5, [Attempt(w.store, n, x)], b)
  {
    hide Marked, Bytes;
    var bucket := UploadOne(md5, w, n, x).bucket;
    if b !in w.bucket {
      assert bucket == w.bucket + [x.body.value] && b == x.body.value;
      assert Announced(md5, [Attempt(w.store, n, x)][0], b);
    }
  }

  lemma {:induction false} EachIsAnnounced(md5: Md5, w: World, numbers: seq<nat>, xs: seq<Exchange>,
                                           start: nat, duration: nat, b: seq<byte>)
    requires SizesOk(w) && forall i | 0 <= i < |numbers| :: numbers[i] < MAX_LOG_FILES
    requires b in UploadEach(md5, w, numbers, xs, start, duration).bucket
    ensures b in w.bucket || SomeAnnounced(md5, Offered(md5, w, numbers, xs, start, duration), b)
    decreases |numbers|
  {
    hide UploadOne, Elapsed, SomeAnnounced;
    if numbers != [] && xs != [] {
      var (w1, t) := (UploadOne(md5, w, numbers[0], xs[0]), Attempt(w.store, numbers[0], xs[0]));
      if Elapsed(xs[0].clock, start) > duration {
        OneIsAnnounced(md5, w, numbers[0], xs[0], b);
        assert Offered(md5, w, numbers, xs, start, duration) == [t] + [] == [t];
      } else {
        var rest := Offered(md5, w1, numbers[1..], xs[1..], start, duration);
        EachIsAnnounced(md5, w1, numbers[1..], xs[1..], start, duration, b);
        if b in w1.bucket {
          OneIsAnnounced(md5, w, numbers[0], xs[0], b);
        }
        if b !in w.bucket {
          AnnouncedIn(md5, [t], rest, b);
        }
      }
    }
  }

  lemma CycleIsAnnounced(md5: Md5, w: World, c: Cycle, b: seq<byte>)
    requires SizesOk(w) && b in Cycled(md5, w, c).bucket
    ensures b in w.bucket || SomeAnnounced(md5, CycleOffers(md5, w, c), b)
  {
    hide UploadEach, Offered, Listed, Elapsed, SomeAnnounced;
    ListedInRange(w.store.sizes, 0);
    if Cycled(md5, w, c).bucket != w.bucket {
      EachIsAnnounced(md5, w.(lastCycle := c.now), Listed(w.store.sizes, 0), c.exchanges, c.now, c.duration, b);
    }
  }

  /** Over any run: what gets into the bucket was handed over in some attempt of the run, with the size and the
      digest that the inventory had for the file then. */
  lemma {:induction false} RunIsAnnounced(md5: Md5, w: World, actions: seq<Action>, b: seq<byte>)
    requires SizesOk(w) && b in Run(md5, w, actions).bucket
    ensures b in w.bucket || SomeAnnounced(md5, Offers(md5, w, actions), b)
    decreases |actions|
  {
    hide Act, CycleOffers, SomeAnnounced;
    if actions != [] {
      var (a, w1) := (actions[0], Act(md5, w, actions[0]));
      RunIsAnnounced(md5, w1, actions[1..], b);
      if b in w1.bucket {
        ActIsAnnounced(md5, w, a, b);
      }
      if b !in w.bucket {
        AnnouncedIn(md5, ActOffers(md5, w, a), Offers(md5, w1, actions[1..]), b);
      }
    }
  }

  lemma ActIsAnnounced(md5: Md5, w: World, a: Action, b: seq<byte>)
    requires SizesOk(w) && b in Act(md5, w, a).bucket
    ensures b in w.bucket || SomeAnnounced(md5, ActOffers(md5, w, a), b)
  {
    hide Recorded, Handled, Stepped, EraseOne, ErasedAll, Updated, Cycled, CycleOffers, SomeAnnounced;
    if a.Upload? {
      CycleIsAnnounced(md5, w, a.cycle, b);
    }
  }
}
