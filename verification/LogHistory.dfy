/** What becomes of every log over a run, and which number a new log takes. */
module LogHistory {
  import opened Frames
  import opened LogState
  import opened LogSafety
  import opened UploadModel
  import opened UploadSafety
  import opened LogRuns

  /** A closed log keeps its number and contents; its fate is settled once, and never by being cut short. */
  predicate Later(x: Log, y: Log)
  {
    && y.number == x.number && y.entries == x.entries
    && (x.fate != Kept ==> y.fate == x.fate)
    && (x.fate == Kept ==> y.fate != CutShort)
  }

  /** All logs but the newest of `a` are found in `b`, in their places. */
  predicate Extends(a: seq<Log>, b: seq<Log>)
  {
    |a| <= |b| && forall i | 0 <= i < |a| - 1 :: Later(a[i], b[i])
  }

  lemma ExtendsTransitive(a: seq<Log>, b: seq<Log>, c: seq<Log>)
    requires Extends(a, b) && Extends(b, c)
    ensures Extends(a, c)
  {
  }

  lemma WrittenExtends(s: Store, e: Entry)
    ensures Extends(s.logs, Written(s, e).logs)
  {
  }

  lemma MarkedExtends(logs: seq<Log>, n: nat, fate: Fate)
    requires fate != CutShort
    ensures Extends(logs, Marked(logs, n, fate))
  {
  }

  lemma StartedExtends(s: Store, headers: seq<Frame>)
    ensures Extends(s.logs, Started(s, headers).logs)
  {
    hide NextFree, HeaderEntries;
  }

  lemma RecordedExtends(md5: Md5, s: Store, f: Frame, noData: bool, headers: seq<Frame>)
    requires |s.sizes| == |s.hashes| == MAX_LOG_FILES
    ensures Extends(s.logs, Recorded(md5, s, f, noData, headers).logs)
  {
    var w := Written(s, Data(f, noData)).(recorded := s.recorded + [f]);
    WrittenExtends(s, Data(f, noData));
    hide Bytes;
    StartedExtends(Closed(md5, w), headers);
    assert Closed(md5, w).logs == w.logs;
    hide Started, Closed, Extends, Written;
    if |Bytes(w.output)| > MAX_LOG_FILE_SIZE {
      ExtendsTransitive(s.logs, w.logs, Started(Closed(md5, w), headers).logs);
    }
  }

  lemma RequestedExtends(s: Store)
    ensures Extends(s.logs, Requested(s).logs)
  {
    hide NoDataReject;
    WrittenExtends(s, Request(NoDataReject()));
  }

  lemma HandledExtends(md5: Md5, s: Store, f: Frame, noData: bool, headers: seq<Frame>)
    requires |s.sizes| == |s.hashes| == MAX_LOG_FILES
    ensures Extends(s.logs, Handled(md5, s, f, noData, headers).logs)
  {
    hide Recorded, Requested;
    var r := if noData then Requested(s) else s;
    RequestedExtends(s);
    RecordedExtends(md5, r, f, noData, headers);
    ExtendsTransitive(s.logs, r.logs, Recorded(md5, r, f, noData, headers).logs);
  }

  lemma SteppedExtends(md5: Md5, s: Store, headers: seq<Frame>)
    requires |s.sizes| == |s.hashes| == MAX_LOG_FILES
    ensures Extends(s.logs, Stepped(md5, s, headers).logs)
  {
    assert Closed(md5, s).logs == s.logs;
    hide Started, Extends, Closed;
    StartedExtends(Closed(md5, s), headers);
  }

  lemma {:induction false} EraseEachExtends(s: Store, numbers: seq<nat>, works: nat -> bool)
    requires |s.sizes| == |s.hashes| == MAX_LOG_FILES
    ensures Extends(s.logs, EraseEach(s, numbers, works).logs)
    decreases |numbers|
  {
    if numbers != [] {
      var t := EraseOne(s, numbers[0], works(numbers[0]));
      MarkedExtends(s.logs, numbers[0], Erased);
      EraseEachExtends(t, numbers[1..], works);
      ExtendsTransitive(s.logs, t.logs, EraseEach(t, numbers[1..], works).logs);
    }
  }

  /** An upload marks closed logs as uploaded only; the open one alone can be cut short. */
  lemma UploadOneExtends(md5: Md5, w: World, n: nat, x: Exchange)
    requires Sound(md5, w.store) && n < MAX_LOG_FILES && SizesOk(w)
    ensures Extends(w.store.logs, UploadOne(md5, w, n, x).store.logs)
  {
    hide Bytes, Served, Coherent;
    var s, t := w.store, UploadOne(md5, w, n, x).store;
    if t.logs != s.logs {
      forall i | 0 <= i < |s.logs| - 1 ensures Later(s.logs[i], t.logs[i]) {
        assert KeptOk(s, s.logs[i]);
      }
    }
  }

  lemma {:induction false} UploadEachExtends(md5: Md5, w: World, numbers: seq<nat>, xs: seq<Exchange>,
                                             start: nat, duration: nat)
    requires Sound(md5, w.store) && SizesOk(w)
    requires forall i | 0 <= i < |numbers| :: numbers[i] < MAX_LOG_FILES
    ensures Extends(w.store.logs, UploadEach(md5, w, numbers, xs, start, duration).store.logs)
    decreases |numbers|
  {
    hide Sound, UploadOne, Elapsed;
    if numbers != [] && xs != [] {
      var w1 := UploadOne(md5, w, numbers[0], xs[0]);
      UploadOneExtends(md5, w, numbers[0], xs[0]);
      UploadOneSound(md5, w, numbers[0], xs[0]);
      UploadEachExtends(md5, w1, numbers[1..], xs[1..], start, duration);
      ExtendsTransitive(w.store.logs, w1.store.logs, UploadEach(md5, w1, numbers[1..], xs[1..], start, duration).store.logs);
    }
  }

  lemma ActExtends(md5: Md5, w: World, a: Action)
    requires Running(md5, w) && SizesOk(w)
    ensures Extends(w.store.logs, Act(md5, w, a).store.logs)
  {
    hide Sound, Extends, Recorded, Handled, Stepped, EraseOne, ErasedAll, Updated, Cycled;
    var s := w.store;
    match a
    case Record(f, headers) => RecordedExtends(md5, s, f, false, headers);
    case Handle(f, noData, headers) => HandledExtends(md5, s, f, noData, headers);
    case StepLog(headers) => SteppedExtends(md5, s, headers);
    case Erase(n, works) => ErasedExtends(s, n, works);
    case EraseAll(works, headers) => ErasedAllExtends(md5, s, works, headers);
    case HashFile(n) => HashedExtends(md5, s, n);
    case Upload(c) => CycledExtends(md5, w, c);
  }

  lemma ErasedExtends(s: Store, n: nat, works: bool)
    requires |s.sizes| == |s.hashes| == MAX_LOG_FILES
    ensures Extends(s.logs, EraseOne(s, n, works).logs)
  {
    MarkedExtends(s.logs, n, Erased);
  }

  lemma HashedExtends(md5: Md5, s: Store, n: nat)
    requires |s.sizes| == |s.hashes| == MAX_LOG_FILES
    ensures Extends(s.logs, Updated(md5, s, n).logs)
  {
    hide FileSize, FileHash;
  }

  lemma ErasedAllExtends(md5: Md5, s: Store, works: nat -> bool, headers: seq<Frame>)
    requires |s.sizes| == |s.hashes| == MAX_LOG_FILES
    ensures Extends(s.logs, ErasedAll(md5, s, works, headers).logs)
  {
    hide Started, EraseEach, Listed, Extends, FileHash, FileSize;
    var c := Closed(md5, s);
    assert c.logs == s.logs;
    EraseEachExtends(c, Listed(c.sizes, 0), works);
    var e := EraseEach(c, Listed(c.sizes, 0), works);
    StartedExtends(e, headers);
    ExtendsTransitive(s.logs, e.logs, Started(e, headers).logs);
  }

  lemma CycledExtends(md5: Md5, w: World, c: Cycle)
    requires Sound(md5, w.store) && SizesOk(w)
    ensures Extends(w.store.logs, Cycled(md5, w, c).store.logs)
  {
    hide Sound, UploadEach, Elapsed, Listed;
    ListedInRange(w.store.sizes, 0);
    UploadEachExtends(md5, w.(lastCycle := c.now), Listed(w.store.sizes, 0), c.exchanges, c.now, c.duration);
  }

  lemma {:induction false} RunExtends(md5: Md5, w: World, actions: seq<Action>)
    requires Running(md5, w) && SizesOk(w) && forall i | 0 <= i < |actions| :: Proper(actions[i])
    ensures Extends(w.store.logs, Run(md5, w, actions).store.logs)
    decreases |actions|
  {
    hide Running, Act, SizesOk;
    if actions != [] {
      var w1 := Act(md5, w, actions[0]);
      ActRunning(md5, w, actions[0]);
      ActExtends(md5, w, actions[0]);
      RunExtends(md5, w1, actions[1..]);
      ExtendsTransitive(w.store.logs, w1.store.logs, Run(md5, w1, actions[1..]).store.logs);
    }
  }

  // ---- from boot ----

  /** Every run from boot is one of a running logger. */
  lemma FromBoot(md5: Md5, disk: map<nat, seq<Entry>>, headers: seq<Frame>, actions: seq<Action>)
    requires headers != [] && forall n | n in disk :: n < MAX_LOG_FILES && disk[n] != []
    requires forall k | 0 <= k < |actions| :: Proper(actions[k])
    ensures SizesOk(Begin(md5, disk, headers))
    ensures Running(md5, Run(md5, Begin(md5, disk, headers), actions)) && AllStored(Begin(md5, disk, headers))
  {
    hide Running, Begin, Run, AllStored;
    BeginRunning(md5, disk, headers);
    RunRunning(md5, Begin(md5, disk, headers), actions);
  }

  lemma BeginRunning(md5: Md5, disk: map<nat, seq<Entry>>, headers: seq<Frame>)
    requires headers != [] && forall n | n in disk :: n < MAX_LOG_FILES && disk[n] != []
    ensures SizesOk(Begin(md5, disk, headers)) && Running(md5, Begin(md5, disk, headers))
    ensures AllStored(Begin(md5, disk, headers))
  {
    hide OldLogs, FileSize, FileHash, Sound, NextFree, HeaderEntries;
    BootSound(md5, disk);
    OldLogsKept(disk, MAX_LOG_FILES);
    StartedSound(md5, Booted(md5, disk), headers);
    var w := Begin(md5, disk, headers);
    forall i | 0 <= i < |w.store.logs| ensures StoredOk(w.bucket, w.store.logs[i]) {
      assert w.store.logs[i].fate != Uploaded;
    }
  }

  /** In every reachable store the cached size of a number that is not being written is the size on the
      card, zero if there is no file, and the cached digest of a file is the digest of its contents. */
  lemma CoherentFromBoot(md5: Md5, disk: map<nat, seq<Entry>>, headers: seq<Frame>, actions: seq<Action>, n: nat)
    requires headers != [] && n < MAX_LOG_FILES
    requires forall n | n in disk :: n < MAX_LOG_FILES && disk[n] != []
    requires forall k | 0 <= k < |actions| :: Proper(actions[k])
    ensures SizesOk(Begin(md5, disk, headers))
    ensures
      var s := Run(md5, Begin(md5, disk, headers), actions).store;
      && |s.sizes| == |s.hashes| == MAX_LOG_FILES
      && (n != s.current ==>
            && s.sizes[n] == FileSize(s.disk, n)
            && (n in s.disk ==> s.hashes[n] == FileHash(md5, s.disk, n)))
  {
    FromBoot(md5, disk, headers, actions);
    hide Run, FileHash, Begin;
    var s := Run(md5, Begin(md5, disk, headers), actions).store;
    assert n != s.current ==> Coherent(md5, s, n);
  }

  // ---- the number of a new log ----

  lemma {:induction false} FreeAsWalked(md5: Md5, s: Store, n: nat)
    requires Sound(md5, s) && !s.isOpen && n <= MAX_LOG_FILES
    ensures NextFree(s.sizes, n) == Walk(s.disk, n)
    ensures NextFree(s.sizes, n) in s.disk ==>
      NextFree(s.sizes, n) == 0 && forall k | n <= k < MAX_LOG_FILES :: k in s.disk
    decreases MAX_LOG_FILES - n
  {
    hide FileHash, OpenOk, LogsOk;
    if n < MAX_LOG_FILES {
      assert Coherent(md5, s, n);
      FreeAsWalked(md5, s, n + 1);
      if n in s.disk {
        BytesNotEmpty(s.disk[n]);
      }
    }
  }

  /** The inventory and a walk through the directory agree on the next number whenever no log is open;
      a new log replaces an old one only when every number is taken, and then it is number zero. */
  lemma NextNumber(md5: Md5, s: Store, headers: seq<Frame>)
    requires Sound(md5, s) && !s.isOpen
    ensures
      var n := Started(s, headers).current;
      && n == Walk(s.disk, 0)
      && (n in s.disk ==> n == 0 && forall k | 0 <= k < MAX_LOG_FILES :: k in s.disk)
      && forall i | 0 <= i < |s.logs| && s.logs[i].number != n :: Started(s, headers).logs[i] == s.logs[i]
  {
    hide NextFree, HeaderEntries, Sound;
    FreeAsWalked(md5, s, 0);
  }
}
