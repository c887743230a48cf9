/** When an upload can take the open log away, and when it cannot. */
module OpenLog {
  import opened Options
  import opened Frames
  import opened LogState
  import opened LogSafety
  import opened UploadModel
  import opened UploadSafety
  import opened LogRuns
  import opened LogHistory
  import opened LogFates
  import opened LogPackets

  // ---- one file ----

  /** The inventory's size and digest are those of a beginning of the file. */
  predicate Matches(md5: Md5, s: Store, n: nat)
    requires |s.sizes| == |s.hashes| == MAX_LOG_FILES && n < MAX_LOG_FILES
  {
    n in s.disk && s.sizes[n] <= |Bytes(s.disk[n])| && md5(Bytes(s.disk[n])[..s.sizes[n]]) == s.hashes[n]
  }

  function AllWell(): Services { Services(true, true, true, true, true, true, true) }

  /** The exchange in which everything works and the handler gets what the logger sends. */
  function Sending(s: Store, n: nat): Exchange
    requires n < |s.sizes| && n in s.disk && s.sizes[n] <= |Bytes(s.disk[n])|
  {
    Exchange(true, Some(Bytes(s.disk[n])[..s.sizes[n]]), AllWell(), true, true, 0)
  }

  lemma SendingRemoves(md5: Md5, w: World, n: nat)
    requires SizesOk(w) && n < MAX_LOG_FILES && Matches(md5, w.store, n)
    ensures OwnBody(Attempt(w.store, n, Sending(w.store, n)))
    ensures n !in UploadOne(md5, w, n, Sending(w.store, n)).store.disk
  {
    hide Bytes;
  }

  /** Over a connection that garbles nothing, a file is removed only if it matches. */
  lemma RemovedMatches(md5: Md5, w: World, n: nat, x: Exchange)
    requires SizesOk(w) && n < MAX_LOG_FILES && OwnBody(Attempt(w.store, n, x))
    requires n in w.store.disk && n !in UploadOne(md5, w, n, x).store.disk
    ensures Matches(md5, w.store, n)
  {
    hide Bytes;
  }

  /** Over such a connection, some exchange removes a file exactly when it matches. */
  lemma SomeExchangeRemoves(md5: Md5, w: World, n: nat)
    requires SizesOk(w) && n < MAX_LOG_FILES && n in w.store.disk
    ensures Matches(md5, w.store, n)
       <==> exists x :: OwnBody(Attempt(w.store, n, x)) && n !in UploadOne(md5, w, n, x).store.disk
  {
    if Matches(md5, w.store, n) {
      SendingRemoves(md5, w, n);
    }
    hide UploadOne, OwnBody, Matches;
    if x :| OwnBody(Attempt(w.store, n, x)) && n !in UploadOne(md5, w, n, x).store.disk {
      RemovedMatches(md5, w, n, x);
    }
  }

  // ---- a cycle ----

  /** Nothing sent. */
  function Silent(): Exchange { Exchange(false, None, AllWell(), false, false, 0) }

  /** No exchange works but the one for the number, which is the last. */
  function Only(numbers: seq<nat>, n: nat, x: Exchange): seq<Exchange>
  {
    if numbers == [] then [] else if numbers[0] == n then [x] else [Silent()] + Only(numbers[1..], n, x)
  }

  lemma {:induction false} OnlyRemoves(md5: Md5, w: World, numbers: seq<nat>, n: nat, start: nat)
    requires SizesOk(w) && forall i | 0 <= i < |numbers| :: numbers[i] < MAX_LOG_FILES
    requires n in numbers && n < MAX_LOG_FILES && Matches(md5, w.store, n)
    ensures
      var xs := Only(numbers, n, Sending(w.store, n));
      && AllOwn(Offered(md5, w, numbers, xs, start, CLOCK))
      && n !in UploadEach(md5, w, numbers, xs, start, CLOCK).store.disk
    decreases |numbers|
  {
    var xs := Only(numbers, n, Sending(w.store, n));
    var w1 := UploadOne(md5, w, numbers[0], xs[0]);
    if numbers[0] == n {
      SendingRemoves(md5, w, n);
      hide Matches, OwnBody, UploadOne;
      assert xs[1..] == [];
    } else {
      assert w1 == w && OwnBody(Attempt(w.store, numbers[0], xs[0]));
      hide Matches, OwnBody, UploadOne;
      assert xs[1..] == Only(numbers[1..], n, Sending(w.store, n));
      OnlyRemoves(md5, w, numbers[1..], n, start);
      OwnOnes(Attempt(w.store, numbers[0], xs[0]), Offered(md5, w, numbers[1..], xs[1..], start, CLOCK));
    }
  }

  lemma OwnOnes(t: Attempt, ts: seq<Attempt>)
    requires OwnBody(t) && AllOwn(ts)
    ensures AllOwn([t] + ts)
  {
  }

  lemma OwnTail(t: Attempt, ts: seq<Attempt>)
    requires AllOwn([t] + ts)
    ensures OwnBody(t) && AllOwn(ts)
  {
    hide OwnBody;
    assert ([t] + ts)[0] == t;
    assert forall i | 0 <= i < |ts| :: ([t] + ts)[i + 1] == ts[i];
  }

  lemma {:induction false} EachRemovedMatches(md5: Md5, w: World, numbers: seq<nat>, xs: seq<Exchange>,
                                              start: nat, duration: nat, n: nat)
    requires SizesOk(w) && forall i | 0 <= i < |numbers| :: numbers[i] < MAX_LOG_FILES
    requires AllOwn(Offered(md5, w, numbers, xs, start, duration)) && n < MAX_LOG_FILES && n in w.store.disk
    requires n !in UploadEach(md5, w, numbers, xs, start, duration).store.disk
    ensures n in numbers && Matches(md5, w.store, n)
    decreases |numbers|
  {
    if numbers != [] && xs != [] {
      var w1 := UploadOne(md5, w, numbers[0], xs[0]);
      var t := Attempt(w.store, numbers[0], xs[0]);
      var rest := if Elapsed(xs[0].clock, start) > duration then []
                  else Offered(md5, w1, numbers[1..], xs[1..], start, duration);
      assert Offered(md5, w, numbers, xs, start, duration) == [t] + rest;
      OwnTail(t, rest);
      if numbers[0] == n && n !in w1.store.disk {
        RemovedMatches(md5, w, n, xs[0]);
      } else {
        OtherStays(md5, w, numbers[0], xs[0], n);
        hide UploadOne, OwnBody, Matches, AllOwn;
        EachRemovedMatches(md5, w1, numbers[1..], xs[1..], start, duration, n);
      }
    }
  }

  /** A file that an exchange does not remove is as before, on the card and in the inventory. */
  lemma OtherStays(md5: Md5, w: World, m: nat, x: Exchange, n: nat)
    requires SizesOk(w) && m < MAX_LOG_FILES && n < MAX_LOG_FILES && n in w.store.disk
    requires m != n || n in UploadOne(md5, w, m, x).store.disk
    ensures
      var s := UploadOne(md5, w, m, x).store;
      && n in s.disk && s.disk[n] == w.store.disk[n] && s.sizes[n] == w.store.sizes[n] && s.hashes[n] == w.store.hashes[n]
      && (Matches(md5, s, n) <==> Matches(md5, w.store, n))
  {
    hide Served, Marked, Bytes;
  }

  /** Over a connection that garbles nothing, some upload cycle takes the open log away exactly when the
      inventory lists its number, and with the size and the digest of a beginning of its file. */
  lemma SomeCycleTakesOpen(md5: Md5, w: World)
    requires SizesOk(w) && w.store.current < MAX_LOG_FILES && w.store.current in w.store.disk
    ensures w.store.sizes[w.store.current] != 0 && Matches(md5, w.store, w.store.current)
       <==> exists c :: AllOwn(CycleOffers(md5, w, c)) && w.store.current !in Cycled(md5, w, c).store.disk
  {
    var n, numbers := w.store.current, Listed(w.store.sizes, 0);
    ListedInRange(w.store.sizes, 0);
    if w.store.sizes[n] != 0 && Matches(md5, w.store, n) {
      var c := Cycle(0, 0, CLOCK, true, Only(numbers, n, Sending(w.store, n)));
      ListedExactly(w.store.sizes, 0, n);
      SendingCycle(md5, w, n);
    }
    hide UploadOne, OwnBody, Matches, AllOwn, CycleOffers, Cycled;
    if c :| AllOwn(CycleOffers(md5, w, c)) && n !in Cycled(md5, w, c).store.disk {
      CycleRemovedMatches(md5, w, c, n);
    }
  }

  lemma SendingCycle(md5: Md5, w: World, n: nat)
    requires SizesOk(w) && n < MAX_LOG_FILES && Matches(md5, w.store, n) && n in Listed(w.store.sizes, 0)
    ensures
      var c := Cycle(0, 0, CLOCK, true, Only(Listed(w.store.sizes, 0), n, Sending(w.store, n)));
      AllOwn(CycleOffers(md5, w, c)) && n !in Cycled(md5, w, c).store.disk
  {
    var w1 := w.(lastCycle := 0);
    ListedInRange(w.store.sizes, 0);
    hide Listed, Matches, OwnBody, AllOwn, Offered, UploadEach, Only, Sending;
    OnlyRemoves(md5, w1, Listed(w.store.sizes, 0), n, 0);
  }

  lemma CycleRemovedMatches(md5: Md5, w: World, c: Cycle, n: nat)
    requires SizesOk(w) && n < MAX_LOG_FILES && n in w.store.disk
    requires AllOwn(CycleOffers(md5, w, c)) && n !in Cycled(md5, w, c).store.disk
    ensures n in Listed(w.store.sizes, 0) && w.store.sizes[n] != 0 && Matches(md5, w.store, n)
  {
    ListedInRange(w.store.sizes, 0);
    hide Listed, Matches, OwnBody, AllOwn, Offered, UploadEach, Elapsed;
    EachRemovedMatches(md5, w.(lastCycle := c.now), Listed(w.store.sizes, 0), c.exchanges, c.now, c.duration, n);
  }

  // ---- where a match comes from ----

  /** Hashing the open log makes it match. */
  lemma HashedMatches(md5: Md5, s: Store)
    requires |s.sizes| == |s.hashes| == MAX_LOG_FILES && s.current < MAX_LOG_FILES && s.current in s.disk
    requires |Bytes(s.disk[s.current])| <= 2 * MAX_LOG_FILE_SIZE
    ensures Matches(md5, Updated(md5, s, s.current), s.current)
  {
    hide Bytes;
    var b := Bytes(s.disk[s.current]);
    assert b[..|b|] == b;
  }

  /** And so it stays, whatever is written to it. */
  lemma WrittenMatches(md5: Md5, s: Store, e: Entry)
    requires |s.sizes| == |s.hashes| == MAX_LOG_FILES && s.current < MAX_LOG_FILES
    requires s.current in s.disk ==> s.disk[s.current] == s.output
    requires Matches(md5, s, s.current)
    ensures Matches(md5, Written(s, e), s.current)
  {
    BytesAppend(s.output, e);
    hide Bytes, Encode;
    var (b, k) := (Bytes(s.output), s.sizes[s.current]);
    assert (b + Encode(e.frame))[..k] == b[..k];
  }

  /** The inventory still has the log that the open one replaced. */
  predicate CachedOld(md5: Md5, s: Store, before: seq<byte>)
    requires |s.sizes| == |s.hashes| == MAX_LOG_FILES
  {
    s.current < MAX_LOG_FILES && s.sizes[s.current] == |before| && s.hashes[s.current] == md5(Hashed(before))
  }

  lemma ReplacedIsCached(md5: Md5, c: Store, headers: seq<Frame>)
    requires Sound(md5, c) && !c.isOpen && NextFree(c.sizes, 0) in c.disk
    ensures |c.sizes| == |c.hashes| == MAX_LOG_FILES
    ensures CachedOld(md5, Started(c, headers), Bytes(c.disk[NextFree(c.sizes, 0)]))
  {
    var n := NextFree(c.sizes, 0);
    NextFreeInRange(c.sizes, 0);
    assert Coherent(md5, c, n);
    hide NextFree, Bytes, HeaderEntries;
  }

  /** A log that replaced an older one is safe as long as the older contents are not how its own begin; for
      the digest the logger sends is the old one, and the bytes are new. The last condition says that the
      two are not mistaken for each other. */
  lemma ReplacedLogStays(md5: Md5, w: World, c: Cycle, before: seq<byte>)
    requires SizesOk(w) && CachedOld(md5, w.store, before) && w.store.current in w.store.disk
    requires AllOwn(CycleOffers(md5, w, c))
    requires |before| <= 2 * MAX_LOG_FILE_SIZE
    requires !(before <= Bytes(w.store.disk[w.store.current]))
    requires
      var b := Bytes(w.store.disk[w.store.current]);
      |before| <= |b| && md5(b[..|before|]) == md5(before) ==> b[..|before|] == before
    ensures w.store.current in Cycled(md5, w, c).store.disk
  {
    var n := w.store.current;
    if n !in Cycled(md5, w, c).store.disk {
      CycleRemovedMatches(md5, w, c, n);
      hide Bytes;
    }
  }

  /** Hashing the open log's file lists it, and then an upload can remove it with packets that are
      nowhere else: here one packet written after the hash. */
  lemma ListedOpenLogIsLost(md5: Md5, w: World, q: Frame)
    requires Running(md5, w) && SizesOk(w) && w.store.current in w.store.disk
    requires |Bytes(w.store.output)| + |Encode(q)| <= MAX_LOG_FILE_SIZE
    ensures
      var all := Written(w.store, Data(q, false)).output;
      Bytes(all) !in w.bucket ==>
      exists x: Exchange ::
        var w1 := Act(md5, Act(md5, w, HashFile(w.store.current)), Record(q, []));
        var w2 := UploadOne(md5, w1, w.store.current, x);
        && w2.store.output == all && w2.store.current !in w2.store.disk && Bytes(all) !in w2.bucket
  {
    hide Bytes, Encode, Running, Act, Written;
    var (n, sent) := (w.store.current, Bytes(w.store.output));
    var (all, w1) := (Written(w.store, Data(q, false)).output, Act(md5, Act(md5, w, HashFile(n)), Record(q, [])));
    HashedThenRecorded(md5, w, q);
    EncodedSize(q);
    assert |Bytes(all)| > |sent|;
    var x := Exchange(true, Some(sent), AllWell(), true, true, 0);
    OldBytesRemove(md5, w1, n, sent);
    var w2 := UploadOne(md5, w1, n, x);
    hide UploadOne;
    assert w2.bucket == w.bucket + [sent];
  }

  /** The open log hashed, and one packet more: the inventory has what the file was before. */
  lemma HashedThenRecorded(md5: Md5, w: World, q: Frame)
    requires Running(md5, w) && SizesOk(w) && w.store.current in w.store.disk
    requires |Bytes(w.store.output)| + |Encode(q)| <= MAX_LOG_FILE_SIZE
    ensures
      var (n, sent) := (w.store.current, Bytes(w.store.output));
      var (all, w1) := (Written(w.store, Data(q, false)).output, Act(md5, Act(md5, w, HashFile(n)), Record(q, [])));
      && Bytes(all) == sent + Encode(q) && n < MAX_LOG_FILES
      && w1.store.output == all && w1.store.current == n && n in w1.store.disk && w1.bucket == w.bucket
      && w1.store.sizes[n] == |sent| && w1.store.hashes[n] == md5(sent)
  {
    hide Bytes, Encode, LogsOk, CacheOk;
    var (s, n) := (w.store, w.store.current);
    var sent := Bytes(s.output);
    BytesAppend(s.output, Data(q, false));
    assert Hashed(sent) == sent;
  }

  /** An exchange of old contents that the inventory still has removes the file and stores them. */
  lemma OldBytesRemove(md5: Md5, w: World, n: nat, sent: seq<byte>)
    requires SizesOk(w) && n < MAX_LOG_FILES && n in w.store.disk
    requires w.store.sizes[n] == |sent| && w.store.hashes[n] == md5(sent)
    ensures
      var w2 := UploadOne(md5, w, n, Exchange(true, Some(sent), AllWell(), true, true, 0));
      && n !in w2.store.disk && w2.store.output == w.store.output && w2.store.current == w.store.current
      && w2.bucket == w.bucket + [sent]
  {
    hide Marked;
  }

  lemma EncodedSize(f: Frame)
    ensures |Encode(f)| >= 8
  {
  }

  // ---- runs that spare the open log ----

  predicate Unlisted(s: Store)
  {
    s.isOpen ==> s.current < |s.sizes| && s.sizes[s.current] == 0
  }

  lemma {:induction false} UploadSparesUnlisted(md5: Md5, w: World, numbers: seq<nat>, xs: seq<Exchange>,
                                                start: nat, duration: nat)
    requires SizesOk(w) && forall i | 0 <= i < |numbers| :: numbers[i] < MAX_LOG_FILES
    requires w.store.isOpen && w.store.current !in numbers
    ensures
      var t := UploadEach(md5, w, numbers, xs, start, duration).store;
      && t.isOpen && t.current == w.store.current
      && (w.store.current in w.store.disk <==> t.current in t.disk)
      && (t.current < MAX_LOG_FILES ==> t.sizes[t.current] == w.store.sizes[t.current])
    decreases |numbers|
  {
    hide Served, Elapsed, Marked;
    if numbers != [] && xs != [] {
      UploadSparesUnlisted(md5, UploadOne(md5, w, numbers[0], xs[0]), numbers[1..], xs[1..], start, duration);
    }
  }

  /** An upload cycle leaves the open log's file alone when the inventory does not list its number. */
  lemma CycleSparesOpen(md5: Md5, w: World, c: Cycle)
    requires SizesOk(w) && w.store.isOpen && w.store.current < MAX_LOG_FILES && Unlisted(w.store)
    ensures
      var t := Cycled(md5, w, c).store;
      && t.isOpen && Unlisted(t) && (w.store.current in w.store.disk <==> t.current in t.disk)
  {
    hide Elapsed, UploadEach, Listed;
    ListedInRange(w.store.sizes, 0);
    ListedExactly(w.store.sizes, 0, w.store.current);
    UploadSparesUnlisted(md5, w.(lastCycle := c.now), Listed(w.store.sizes, 0), c.exchanges, c.now, c.duration);
  }

  lemma {:induction false} FreeIsUnlisted(sizes: seq<nat>, n: nat)
    requires n <= |sizes| && sizes != []
    ensures NextFree(sizes, n) < |sizes|
    ensures (exists k :: n <= k < |sizes| && sizes[k] == 0) ==> sizes[NextFree(sizes, n)] == 0
    ensures !(exists k :: n <= k < |sizes| && sizes[k] == 0) ==> NextFree(sizes, n) == 0
    decreases |sizes| - n
  {
    NextFreeInRange(sizes, n);
    if n < |sizes| {
      FreeIsUnlisted(sizes, n + 1);
      NextFreeInRange(sizes, n + 1);
    }
  }

  /** A new log is out of the inventory exactly when some number was free. */
  lemma StartUnlisted(s: Store, headers: seq<Frame>)
    requires |s.sizes| == |s.hashes| == MAX_LOG_FILES
    ensures Unlisted(Started(s, headers)) <==> exists k :: 0 <= k < MAX_LOG_FILES && s.sizes[k] == 0
  {
    hide NextFree, HeaderEntries;
    NextFreeInRange(s.sizes, 0);
    FreeIsUnlisted(s.sizes, 0);
  }

  /** No log is cut short that was not before. */
  predicate NoNewCuts(logs: seq<Log>, after: seq<Log>)
  {
    forall i | 0 <= i < |after| :: after[i].fate == CutShort ==> i < |logs| && logs[i].fate == CutShort
  }

  lemma NoCutsTransitive(a: seq<Log>, b: seq<Log>, c: seq<Log>)
    requires NoNewCuts(a, b) && NoNewCuts(b, c)
    ensures NoNewCuts(a, c)
  {
  }

  /** The action neither hashes the open log nor starts a log in a full table. */
  predicate Spares(md5: Md5, s: Store, a: Action)
    requires |s.sizes| == |s.hashes| == MAX_LOG_FILES
  {
    a != HashFile(s.current) && !StartsFull(md5, s, a)
  }

  lemma {:induction false} UploadCutsNone(md5: Md5, w: World, numbers: seq<nat>, xs: seq<Exchange>,
                                          start: nat, duration: nat)
    requires SizesOk(w) && forall i | 0 <= i < |numbers| :: numbers[i] < MAX_LOG_FILES
    requires w.store.current !in numbers
    ensures NoNewCuts(w.store.logs, UploadEach(md5, w, numbers, xs, start, duration).store.logs)
    decreases |numbers|
  {
    hide Served, Elapsed;
    if numbers != [] && xs != [] {
      var w1 := UploadOne(md5, w, numbers[0], xs[0]);
      UploadCutsNone(md5, w1, numbers[1..], xs[1..], start, duration);
      NoCutsTransitive(w.store.logs, w1.store.logs, UploadEach(md5, w1, numbers[1..], xs[1..], start, duration).store.logs);
    }
  }

  lemma CycleCutsNone(md5: Md5, w: World, c: Cycle)
    requires SizesOk(w) && w.store.isOpen && w.store.current < MAX_LOG_FILES && Unlisted(w.store)
    ensures NoNewCuts(w.store.logs, Cycled(md5, w, c).store.logs)
  {
    hide Elapsed, UploadEach, Listed;
    ListedInRange(w.store.sizes, 0);
    ListedExactly(w.store.sizes, 0, w.store.current);
    UploadCutsNone(md5, w.(lastCycle := c.now), Listed(w.store.sizes, 0), c.exchanges, c.now, c.duration);
  }

  lemma SomeFree(md5: Md5, c: Store)
    requires Sound(md5, c) && !c.isOpen && !Full(c)
    ensures |c.sizes| == |c.hashes| == MAX_LOG_FILES && exists k :: 0 <= k < MAX_LOG_FILES && c.sizes[k] == 0
  {
    var k :| 0 <= k < MAX_LOG_FILES && k !in c.disk;
    assert Coherent(md5, c, k);
    assert c.sizes[k] == 0;
  }

  /** Starting a log cuts none short. */
  lemma StartCutsNone(md5: Md5, w: World, a: Action)
    requires Running(md5, w) && SizesOk(w) && Starts(md5, w.store, a).Some?
    ensures NoNewCuts(w.store.logs, Act(md5, w, a).store.logs)
  {
    hide Starts, Act, Running, Started;
    var c := Starts(md5, w.store, a).value;
    StartsNew(md5, w, a);
    StartsFates(md5, w, a);
    StartedCutsNone(c, HeadersOf(a));
    NoCutsTransitive(w.store.logs, c.logs, Started(c, HeadersOf(a)).logs);
  }

  lemma StartedCutsNone(c: Store, headers: seq<Frame>)
    ensures NoNewCuts(c.logs, Started(c, headers).logs)
  {
    hide NextFree, HeaderEntries;
  }

  lemma StartSpares(md5: Md5, w: World, a: Action)
    requires Running(md5, w) && SizesOk(w) && Spares(md5, w.store, a) && Starts(md5, w.store, a).Some?
    ensures Unlisted(Act(md5, w, a).store) && NoNewCuts(w.store.logs, Act(md5, w, a).store.logs)
  {
    hide Starts, Act, Sound, Unlisted, Started, NoNewCuts, Running;
    var c := Starts(md5, w.store, a).value;
    StartsSound(md5, w, a);
    StartsNew(md5, w, a);
    SomeFree(md5, c);
    StartUnlisted(c, HeadersOf(a));
    StartCutsNone(md5, w, a);
  }

  lemma OthersSpare(md5: Md5, w: World, a: Action)
    requires Running(md5, w) && SizesOk(w) && Unlisted(w.store)
    requires Spares(md5, w.store, a) && Starts(md5, w.store, a).None?
    ensures Unlisted(Act(md5, w, a).store) && NoNewCuts(w.store.logs, Act(md5, w, a).store.logs)
  {
    RunningSizes(md5, w);
    hide Sound, Bytes, FileSize, FileHash, Cycled, NoNewCuts, Unlisted, Written, Started, Closed, Requested;
    hide Recorded, Rotates, EraseOne, Updated;
    var s := w.store;
    match a
    case Record(f, headers) =>
      RecordStays(md5, s, f, false, headers);
      WriteSpares(s, Data(f, false));
      RecordedAside(Written(s, Data(f, false)), s.logs, s.recorded + [f]);
    case Handle(f, noData, headers) =>
      var r := if noData then Requested(s) else s;
      RecordStays(md5, r, f, noData, headers);
      RequestSpares(s);
      WriteSpares(r, Data(f, noData));
      RecordedAside(Written(r, Data(f, noData)), s.logs, r.recorded + [f]);
      NoCutsTransitive(s.logs, r.logs, Written(r, Data(f, noData)).logs);
    case Upload(c) =>
      CycleSparesOpen(md5, w, c);
      CycleCutsNone(md5, w, c);
    case Erase(n, works) => EraseSpares(s, n, works);
    case HashFile(n) => HashSpares(md5, s, n);
    case _ =>
  }

  lemma WriteSpares(s: Store, e: Entry)
    requires Unlisted(s)
    ensures Unlisted(Written(s, e)) && NoNewCuts(s.logs, Written(s, e).logs)
  {
    WrittenFates(s, e);
  }

  lemma RequestSpares(s: Store)
    requires Unlisted(s)
    ensures Unlisted(Requested(s)) && NoNewCuts(s.logs, Requested(s).logs) && NoNewCuts(s.logs, s.logs)
  {
    RequestedFates(s);
    hide NoDataReject;
  }

  lemma RecordedAside(s: Store, logs: seq<Log>, recorded: seq<Frame>)
    requires Unlisted(s) && NoNewCuts(logs, s.logs)
    ensures Unlisted(s.(recorded := recorded)) && NoNewCuts(logs, s.(recorded := recorded).logs)
  {
  }

  lemma EraseSpares(s: Store, n: nat, works: bool)
    requires |s.sizes| == |s.hashes| == MAX_LOG_FILES && Unlisted(s)
    ensures Unlisted(EraseOne(s, n, works)) && NoNewCuts(s.logs, EraseOne(s, n, works).logs)
  {
  }

  lemma HashSpares(md5: Md5, s: Store, n: nat)
    requires |s.sizes| == |s.hashes| == MAX_LOG_FILES && Unlisted(s) && n != s.current
    ensures Unlisted(Updated(md5, s, n)) && NoNewCuts(s.logs, Updated(md5, s, n).logs)
  {
    hide FileSize, FileHash;
  }

  lemma ActSpares(md5: Md5, w: World, a: Action)
    requires Running(md5, w) && SizesOk(w) && Unlisted(w.store) && Spares(md5, w.store, a)
    ensures Unlisted(Act(md5, w, a).store) && NoNewCuts(w.store.logs, Act(md5, w, a).store.logs)
  {
    hide Running, Act, Unlisted, Starts;
    if Starts(md5, w.store, a).Some? {
      StartSpares(md5, w, a);
    } else {
      OthersSpare(md5, w, a);
    }
  }

  predicate AllSpare(md5: Md5, w: World, actions: seq<Action>)
    requires SizesOk(w)
    decreases |actions|
  {
    actions == [] || (Spares(md5, w.store, actions[0]) && AllSpare(md5, Act(md5, w, actions[0]), actions[1..]))
  }

  /** A run that never hashes the open log, and starts logs only while some number is free, keeps the open
      log out of the inventory, and no upload takes it away, whatever the network and the server do. */
  lemma {:induction false} RunSparesOpen(md5: Md5, w: World, actions: seq<Action>)
    requires Running(md5, w) && SizesOk(w) && Unlisted(w.store) && forall k | 0 <= k < |actions| :: Proper(actions[k])
    requires AllSpare(md5, w, actions)
    ensures Unlisted(Run(md5, w, actions).store) && NoNewCuts(w.store.logs, Run(md5, w, actions).store.logs)
    decreases |actions|
  {
    hide Running, Act, Unlisted, SizesOk, Spares;
    if actions != [] {
      var w1 := Act(md5, w, actions[0]);
      ActSpares(md5, w, actions[0]);
      ActRunning(md5, w, actions[0]);
      RunSparesOpen(md5, w1, actions[1..]);
      NoCutsTransitive(w.store.logs, w1.store.logs, Run(md5, w1, actions[1..]).store.logs);
    }
  }

  // ---- which logs a run cuts short ----

  /** The inventory lists the open log, and with the size and the digest of a beginning of its file. */
  predicate Takes(md5: Md5, s: Store)
    requires |s.sizes| == |s.hashes| == MAX_LOG_FILES
  {
    s.current < MAX_LOG_FILES && s.sizes[s.current] != 0 && Matches(md5, s, s.current)
  }

  /** Log `i` is the open one when an upload of the run finds it so. */
  predicate TakenWhileOpen(md5: Md5, w: World, actions: seq<Action>, i: nat)
    requires SizesOk(w)
    decreases |actions|
  {
    actions != []
    && ((actions[0].Upload? && i + 1 == |w.store.logs| && Takes(md5, w.store))
        || TakenWhileOpen(md5, Act(md5, w, actions[0]), actions[1..], i))
  }

  /** Log `i` is cut short now, and was not before. */
  predicate NewlyCut(logs: seq<Log>, after: seq<Log>, i: nat)
  {
    i < |after| && after[i].fate == CutShort && !(i < |logs| && logs[i].fate == CutShort)
  }

  lemma {:induction false} UploadChangesKept(md5: Md5, w: World, numbers: seq<nat>, xs: seq<Exchange>,
                                             start: nat, duration: nat)
    requires SizesOk(w) && forall i | 0 <= i < |numbers| :: numbers[i] < MAX_LOG_FILES
    ensures
      var (s, t) := (w.store, UploadEach(md5, w, numbers, xs, start, duration).store);
      && t.current == s.current && |t.logs| == |s.logs|
      && forall i | 0 <= i < |s.logs| :: t.logs[i].fate == s.logs[i].fate || s.logs[i].fate == Kept
    decreases |numbers|
  {
    hide Served, Elapsed;
    if numbers != [] && xs != [] {
      UploadChangesKept(md5, UploadOne(md5, w, numbers[0], xs[0]), numbers[1..], xs[1..], start, duration);
    }
  }

  lemma CycleChangesKept(md5: Md5, w: World, c: Cycle)
    requires SizesOk(w)
    ensures
      var (s, t) := (w.store, Cycled(md5, w, c).store);
      && t.current == s.current && |t.logs| == |s.logs|
      && forall i | 0 <= i < |s.logs| :: t.logs[i].fate == s.logs[i].fate || s.logs[i].fate == Kept
  {
    hide UploadEach, Elapsed, Listed;
    ListedInRange(w.store.sizes, 0);
    UploadChangesKept(md5, w.(lastCycle := c.now), Listed(w.store.sizes, 0), c.exchanges, c.now, c.duration);
  }

  lemma OpenKeptOrGone(md5: Md5, w: World)
    requires Running(md5, w)
    ensures w.store.logs != [] && w.store.current < MAX_LOG_FILES
    ensures w.store.logs[|w.store.logs| - 1].fate == Kept <==> w.store.current in w.store.disk
  {
    hide CacheOk, DiskOk, LogsOk;
  }

  /** A cycle over a connection that garbles nothing cuts at most the open log short, and then the inventory had
      it listed, and so. */
  lemma CycleCuts(md5: Md5, w: World, c: Cycle, i: nat)
    requires Running(md5, w) && SizesOk(w) && AllOwn(CycleOffers(md5, w, c))
    requires NewlyCut(w.store.logs, Cycled(md5, w, c).store.logs, i)
    ensures i + 1 == |w.store.logs| && Takes(md5, w.store)
  {
    hide Running, Cycled, AllOwn, CycleOffers, Matches, Act, Extends;
    var (s, t) := (w.store, Cycled(md5, w, c));
    ActUpload(md5, w, c);
    ActRunning(md5, w, Upload(c));
    ActExtends(md5, w, Upload(c));
    CycleChangesKept(md5, w, c);
    OpenKeptOrGone(md5, w);
    OpenKeptOrGone(md5, t);
    if i + 1 < |s.logs| {
      NoEarlierCut(s.logs, t.store.logs, i);
    } else {
      CycleRemovedMatches(md5, w, c, s.current);
    }
  }

  lemma NoEarlierCut(logs: seq<Log>, after: seq<Log>, i: nat)
    requires Extends(logs, after) && i + 1 < |logs|
    ensures !NewlyCut(logs, after, i)
  {
    assert Later(logs[i], after[i]);
  }

  /** No other action cuts a log short. */
  lemma OthersCutNone(md5: Md5, w: World, a: Action)
    requires Running(md5, w) && SizesOk(w) && !a.Upload?
    ensures NoNewCuts(w.store.logs, Act(md5, w, a).store.logs)
  {
    hide Act, Running, NoNewCuts;
    if Starts(md5, w.store, a).Some? {
      StartCutsNone(md5, w, a);
    } else {
      WritesCutNone(md5, w, a);
    }
  }

  lemma WritesCutNone(md5: Md5, w: World, a: Action)
    requires SizesOk(w) && !a.Upload? && Starts(md5, w.store, a).None?
    ensures NoNewCuts(w.store.logs, Act(md5, w, a).store.logs)
  {
    hide Bytes, FileSize, FileHash, NoNewCuts, Written, Started, Closed, Requested, EraseOne, Updated, Recorded, Rotates;
    var s := w.store;
    match a
    case Record(f, headers) =>
      RecordStays(md5, s, f, false, headers);
      SameCutsNone(s, s, Data(f, false));
    case Handle(f, noData, headers) =>
      var r := if noData then Requested(s) else s;
      RequestedFates(s);
      RecordStays(md5, r, f, noData, headers);
      SameCutsNone(s, r, Data(f, noData));
    case Erase(n, works) => EraseCutsNone(s, n, works);
    case HashFile(n) => HashCutsNone(md5, s, n);
    case _ =>
  }

  lemma SameCutsNone(s: Store, r: Store, e: Entry)
    requires SameFates(s.logs, r.logs) || r == s
    ensures NoNewCuts(s.logs, Written(r, e).logs)
  {
    WrittenFates(r, e);
    hide Written;
  }

  lemma EraseCutsNone(s: Store, n: nat, works: bool)
    requires |s.sizes| == |s.hashes| == MAX_LOG_FILES
    ensures NoNewCuts(s.logs, EraseOne(s, n, works).logs)
  {
  }

  lemma HashCutsNone(md5: Md5, s: Store, n: nat)
    requires |s.sizes| == |s.hashes| == MAX_LOG_FILES
    ensures NoNewCuts(s.logs, Updated(md5, s, n).logs)
  {
    hide FileSize, FileHash;
  }

  lemma ActCuts(md5: Md5, w: World, a: Action, i: nat)
    requires Running(md5, w) && SizesOk(w) && AllOwn(ActOffers(md5, w, a))
    requires NewlyCut(w.store.logs, Act(md5, w, a).store.logs, i)
    ensures a.Upload? && i + 1 == |w.store.logs| && Takes(md5, w.store)
  {
    hide Running, AllOwn, CycleOffers, Takes, Cycled;
    if a.Upload? {
      CycleCuts(md5, w, a.cycle, i);
    } else {
      OthersCutNone(md5, w, a);
    }
  }

  lemma OwnParts(a: seq<Attempt>, b: seq<Attempt>)
    requires AllOwn(a + b)
    ensures AllOwn(a) && AllOwn(b)
  {
    hide OwnBody;
    assert forall i | 0 <= i < |a| :: (a + b)[i] == a[i];
    assert forall i | 0 <= i < |b| :: (a + b)[|a| + i] == b[i];
  }

  /** Over a connection that garbles nothing, a run cuts a log short only by an upload at which it is the open
      log, and the inventory lists it with the size and the digest of a beginning of its file. */
  lemma {:induction false} RunCuts(md5: Md5, w: World, actions: seq<Action>, i: nat)
    requires Running(md5, w) && SizesOk(w) && forall k | 0 <= k < |actions| :: Proper(actions[k])
    requires AllOwn(Offers(md5, w, actions))
    requires NewlyCut(w.store.logs, Run(md5, w, actions).store.logs, i)
    ensures TakenWhileOpen(md5, w, actions, i)
    decreases |actions|
  {
    hide Running, Act, AllOwn, Takes, ActOffers, Proper;
    if actions != [] {
      var w1 := Act(md5, w, actions[0]);
      OwnParts(ActOffers(md5, w, actions[0]), Offers(md5, w1, actions[1..]));
      ActRunning(md5, w, actions[0]);
      if NewlyCut(w.store.logs, w1.store.logs, i) {
        ActCuts(md5, w, actions[0], i);
      } else {
        RunCuts(md5, w1, actions[1..], i);
      }
    }
  }
}
