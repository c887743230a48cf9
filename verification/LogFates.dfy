/** How logs end: what becomes of a closed log, and what brought it about. */
module LogFates {
  import opened Options
  import opened Frames
  import opened LogState
  import opened LogSafety
  import opened UploadModel
  import opened UploadSafety
  import opened LogRuns
  import opened LogHistory

  // ---- the moments a log is started ----

  /** The store, with no log open, from which an action starts a new log; none if it starts none. */
  function Starts(md5: Md5, s: Store, a: Action): Option<Store>
    requires |s.sizes| == |s.hashes| == MAX_LOG_FILES
  {
    match a
    case Record(f, _) => Rotates(md5, s, f, false)
    case Handle(f, noData, _) => Rotates(md5, if noData then Requested(s) else s, f, noData)
    case StepLog(_) => Some(Closed(md5, s))
    case EraseAll(works, _) => Some(Cleared(md5, s, works))
    case _ => None
  }

  function Rotates(md5: Md5, s: Store, f: Frame, noData: bool): Option<Store>
    requires |s.sizes| == |s.hashes| == MAX_LOG_FILES
  {
    var w := Written(s, Data(f, noData)).(recorded := s.recorded + [f]);
    if |Bytes(w.output)| > MAX_LOG_FILE_SIZE then Some(Closed(md5, w)) else None
  }

  lemma RecordStays(md5: Md5, s: Store, f: Frame, noData: bool, headers: seq<Frame>)
    requires |s.sizes| == |s.hashes| == MAX_LOG_FILES && Rotates(md5, s, f, noData).None?
    ensures Recorded(md5, s, f, noData, headers) == Written(s, Data(f, noData)).(recorded := s.recorded + [f])
  {
    hide Written, Closed, Started, Bytes;
  }

  function Cleared(md5: Md5, s: Store, works: nat -> bool): Store
    requires |s.sizes| == |s.hashes| == MAX_LOG_FILES
  {
    var c := Closed(md5, s);
    EraseEach(c, Listed(c.sizes, 0), works)
  }

  function HeadersOf(a: Action): seq<Frame>
  {
    match a
    case Record(_, headers) => headers
    case Handle(_, _, headers) => headers
    case StepLog(headers) => headers
    case EraseAll(_, headers) => headers
    case _ => []
  }

  lemma StartsNew(md5: Md5, w: World, a: Action)
    requires SizesOk(w) && Starts(md5, w.store, a).Some?
    ensures Act(md5, w, a).store == Started(Starts(md5, w.store, a).value, HeadersOf(a))
  {
    hide Written, Closed, Started, Requested, EraseEach, Listed, Bytes;
  }

  lemma RotatesSound(md5: Md5, w: World, s: Store, f: Frame, noData: bool)
    requires Going(md5, w, s) && |s.sizes| == |s.hashes| == MAX_LOG_FILES && Rotates(md5, s, f, noData).Some?
    ensures Sound(md5, Rotates(md5, s, f, noData).value) && !Rotates(md5, s, f, noData).value.isOpen
    ensures SameFates(s.logs, Rotates(md5, s, f, noData).value.logs)
  {
    var d := Written(s, Data(f, noData));
    WriteGoing(md5, w, s, Data(f, noData));
    FlagsAside(md5, w, d, false, s.recorded + [f]);
    WrittenFates(s, Data(f, noData));
    var t := d.(recorded := s.recorded + [f]);
    assert t.current < MAX_LOG_FILES;
    hide Written, Sound;
    ClosedSound(md5, t);
    assert Closed(md5, t).logs == t.logs;
  }

  /** The same logs by number and fate. */
  predicate SameFates(a: seq<Log>, b: seq<Log>)
  {
    |a| == |b| && forall i | 0 <= i < |a| :: a[i].number == b[i].number && a[i].fate == b[i].fate
  }

  lemma WrittenFates(s: Store, e: Entry)
    ensures SameFates(s.logs, Written(s, e).logs)
  {
  }

  lemma RequestedFates(s: Store)
    ensures SameFates(s.logs, Requested(s).logs)
  {
    hide NoDataReject;
    WrittenFates(s, Request(NoDataReject()));
  }

  /** Whatever starts a log, no log is open then and the store is sound. */
  lemma StartsSound(md5: Md5, w: World, a: Action)
    requires Running(md5, w) && SizesOk(w) && Starts(md5, w.store, a).Some?
    ensures Sound(md5, Starts(md5, w.store, a).value) && !Starts(md5, w.store, a).value.isOpen
  {
    hide Sound, Rotates, Requested, Closed, Listed, EraseEach;
    RunningSizes(md5, w);
    var s := w.store;
    assert Going(md5, w, s);
    hide Going;
    match a
    case Record(f, _) => RotatesSound(md5, w, s, f, false);
    case Handle(f, noData, _) =>
      RequestGoing(md5, w, s);
      RotatesSound(md5, w, if noData then Requested(s) else s, f, noData);
    case StepLog(_) => ClosedSound(md5, s);
    case EraseAll(works, _) =>
      ClosedSound(md5, s);
      EraseEachSound(md5, Closed(md5, s), Listed(Closed(md5, s).sizes, 0), works);
  }

  predicate Full(s: Store)
  {
    forall k | 0 <= k < MAX_LOG_FILES :: k in s.disk
  }

  /** At every start of every run, by rotation, by command or after erasing all: the new log's number is the
      one a walk through the directory gives; and only in a full table is it taken, and then it is zero. */
  lemma RotationNumber(md5: Md5, w: World, a: Action)
    requires Running(md5, w) && SizesOk(w) && Starts(md5, w.store, a).Some?
    ensures
      var (c, n) := (Starts(md5, w.store, a).value, Act(md5, w, a).store.current);
      n == Walk(c.disk, 0) && (n in c.disk ==> n == 0 && Full(c))
  {
    StartsSound(md5, w, a);
    StartsNew(md5, w, a);
    hide Sound, Started, Walk, NextFree, Starts, Act;
    NextNumber(md5, Starts(md5, w.store, a).value, HeadersOf(a));
  }

  // ---- one action ----

  /** The action is a command to erase the log of this number. */
  predicate Commands(a: Action, n: nat)
  {
    a == Erase(n, true) || a.EraseAll?
  }

  /** The action starts a log when every number is on the card. */
  predicate StartsFull(md5: Md5, s: Store, a: Action)
    requires |s.sizes| == |s.hashes| == MAX_LOG_FILES
  {
    Starts(md5, s, a).Some? && Full(Starts(md5, s, a).value)
  }

  /** What may turn a kept log into one erased or overwritten. */
  predicate Caused(md5: Md5, s: Store, a: Action, x: Log, y: Log)
    requires |s.sizes| == |s.hashes| == MAX_LOG_FILES
  {
    x.fate == Kept ==>
      && (y.fate == Erased ==> Commands(a, x.number))
      && (y.fate == Overwritten ==> x.number == 0 && StartsFull(md5, s, a))
  }

  lemma StartFates(md5: Md5, c: Store, headers: seq<Frame>, i: nat)
    requires Sound(md5, c) && !c.isOpen && i < |c.logs|
    ensures i < |Started(c, headers).logs|
    ensures
      var (x, y) := (c.logs[i], Started(c, headers).logs[i]);
      && (y.fate == x.fate || (x.fate == Kept && y.fate == Overwritten))
      && (x.fate == Kept && y.fate == Overwritten ==> x.number == 0 && Full(c))
  {
    var (x, y) := (c.logs[i], Started(c, headers).logs[i]);
    NextNumber(md5, c, headers);
    assert KeptOk(c, x);
    assert x.fate == Kept ==> x.number in c.disk;
    hide Sound, NextFree, HeaderEntries, Walk, KeptOk;
  }

  lemma {:induction false} EraseFates(s: Store, numbers: seq<nat>, works: nat -> bool)
    requires |s.sizes| == |s.hashes| == MAX_LOG_FILES
    ensures
      var t := EraseEach(s, numbers, works);
      |t.logs| == |s.logs| && forall i | 0 <= i < |s.logs| ::
        t.logs[i].number == s.logs[i].number && (t.logs[i].fate == s.logs[i].fate || t.logs[i].fate == Erased)
    decreases |numbers|
  {
    if numbers != [] {
      EraseFates(EraseOne(s, numbers[0], works(numbers[0])), numbers[1..], works);
    }
  }

  lemma {:induction false} UploadFates(md5: Md5, w: World, numbers: seq<nat>, xs: seq<Exchange>,
                                       start: nat, duration: nat)
    requires SizesOk(w) && forall i | 0 <= i < |numbers| :: numbers[i] < MAX_LOG_FILES
    ensures
      var t := UploadEach(md5, w, numbers, xs, start, duration).store;
      |t.logs| == |w.store.logs| && forall i | 0 <= i < |t.logs| ::
        t.logs[i].fate == w.store.logs[i].fate || t.logs[i].fate == Uploaded || t.logs[i].fate == CutShort
    decreases |numbers|
  {
    hide Served, Elapsed;
    if numbers != [] && xs != [] {
      UploadFates(md5, UploadOne(md5, w, numbers[0], xs[0]), numbers[1..], xs[1..], start, duration);
    }
  }

  /** One action's effect on one log. */
  lemma ActCauses(md5: Md5, w: World, a: Action, i: nat)
    requires Running(md5, w) && SizesOk(w) && i < |w.store.logs|
    ensures i < |Act(md5, w, a).store.logs|
    ensures Caused(md5, w.store, a, w.store.logs[i], Act(md5, w, a).store.logs[i])
  {
    if Starts(md5, w.store, a).Some? {
      StartsCause(md5, w, a, i);
    } else {
      OthersCause(md5, w, a, i);
    }
  }

  lemma StartsCause(md5: Md5, w: World, a: Action, i: nat)
    requires Running(md5, w) && SizesOk(w) && i < |w.store.logs| && Starts(md5, w.store, a).Some?
    ensures i < |Act(md5, w, a).store.logs|
    ensures Caused(md5, w.store, a, w.store.logs[i], Act(md5, w, a).store.logs[i])
  {
    var c := Starts(md5, w.store, a).value;
    StartsSound(md5, w, a);
    StartsNew(md5, w, a);
    StartsFates(md5, w, a);
    hide Starts, Act, Sound, Started;
    StartFates(md5, c, HeadersOf(a), i);
  }

  /** Up to the start, logs are erased at most, and only when all are to be. */
  lemma StartsFates(md5: Md5, w: World, a: Action)
    requires Running(md5, w) && SizesOk(w) && Starts(md5, w.store, a).Some?
    ensures
      var (s, c) := (w.store, Starts(md5, w.store, a).value);
      |c.logs| == |s.logs| && forall i | 0 <= i < |s.logs| ::
        && c.logs[i].number == s.logs[i].number
        && (c.logs[i].fate == s.logs[i].fate || (a.EraseAll? && c.logs[i].fate == Erased))
  {
    hide Sound, Rotates, Requested, Closed, Listed, EraseEach;
    RunningSizes(md5, w);
    var s := w.store;
    assert Going(md5, w, s);
    hide Going;
    match a
    case Record(f, _) => RotatesSound(md5, w, s, f, false);
    case Handle(f, noData, _) =>
      RequestGoing(md5, w, s);
      RequestedFates(s);
      RotatesSound(md5, w, if noData then Requested(s) else s, f, noData);
    case StepLog(_) => ClosedLogs(md5, s);
    case EraseAll(works, _) =>
      ClosedLogs(md5, s);
      EraseFates(Closed(md5, s), Listed(Closed(md5, s).sizes, 0), works);
  }

  lemma ClosedLogs(md5: Md5, s: Store)
    requires |s.sizes| == |s.hashes| == MAX_LOG_FILES
    ensures Closed(md5, s).logs == s.logs
  {
    hide FileSize, FileHash;
  }

  lemma OthersCause(md5: Md5, w: World, a: Action, i: nat)
    requires Running(md5, w) && SizesOk(w) && i < |w.store.logs| && Starts(md5, w.store, a).None?
    ensures i < |Act(md5, w, a).store.logs|
    ensures Caused(md5, w.store, a, w.store.logs[i], Act(md5, w, a).store.logs[i])
  {
    hide Sound, Bytes, Written, Started, Closed, Requested, Cycled, Caused, Recorded, Rotates, EraseOne, Updated;
    var s := w.store;
    match a
    case Record(f, headers) =>
      RecordStays(md5, s, f, false, headers);
      WrittenFates(s, Data(f, false));
      SameCause(md5, s, a, s.logs[i], Written(s, Data(f, false)).logs[i]);
    case Handle(f, noData, headers) =>
      RequestedFates(s);
      var r := if noData then Requested(s) else s;
      RecordStays(md5, r, f, noData, headers);
      WrittenFates(r, Data(f, noData));
      SameCause(md5, s, a, s.logs[i], Written(r, Data(f, noData)).logs[i]);
    case Upload(c) => UploadCauses(md5, w, c, i);
    case Erase(n, works) => EraseCauses(md5, w, n, works, i);
    case HashFile(n) =>
      HashedLogs(md5, s, n);
      SameCause(md5, s, a, s.logs[i], s.logs[i]);
    case _ =>
  }

  lemma HashedLogs(md5: Md5, s: Store, n: nat)
    requires |s.sizes| == |s.hashes| == MAX_LOG_FILES
    ensures Updated(md5, s, n).logs == s.logs
  {
    hide FileSize, FileHash;
  }

  lemma SameCause(md5: Md5, s: Store, a: Action, x: Log, y: Log)
    requires |s.sizes| == |s.hashes| == MAX_LOG_FILES && y.fate == x.fate
    ensures Caused(md5, s, a, x, y)
  {
  }

  lemma EraseCauses(md5: Md5, w: World, n: nat, works: bool, i: nat)
    requires SizesOk(w) && i < |w.store.logs|
    ensures i < |Act(md5, w, Erase(n, works)).store.logs|
    ensures Caused(md5, w.store, Erase(n, works), w.store.logs[i], Act(md5, w, Erase(n, works)).store.logs[i])
  {
    hide StartsFull, Bytes;
    var s := w.store;
    assert Marked(s.logs, n, Erased)[i] == Marking(s.logs[i], n, Erased);
    hide Marked;
  }

  lemma UploadCauses(md5: Md5, w: World, c: Cycle, i: nat)
    requires SizesOk(w) && i < |w.store.logs|
    ensures i < |Act(md5, w, Upload(c)).store.logs|
    ensures Caused(md5, w.store, Upload(c), w.store.logs[i], Act(md5, w, Upload(c)).store.logs[i])
  {
    ActUpload(md5, w, c);
    CycleFates(md5, w, c);
    hide Act, Cycled, StartsFull;
  }

  lemma CycleFates(md5: Md5, w: World, c: Cycle)
    requires SizesOk(w)
    ensures
      var t := Cycled(md5, w, c).store;
      |t.logs| == |w.store.logs| && forall i | 0 <= i < |t.logs| ::
        t.logs[i].fate == w.store.logs[i].fate || t.logs[i].fate == Uploaded || t.logs[i].fate == CutShort
  {
    hide UploadEach, Elapsed, Listed;
    ListedInRange(w.store.sizes, 0);
    UploadFates(md5, w.(lastCycle := c.now), Listed(w.store.sizes, 0), c.exchanges, c.now, c.duration);
  }

  // ---- a run ----

  /** Some action of the run is a command to erase the number. */
  predicate Commanded(actions: seq<Action>, n: nat)
  {
    exists k | 0 <= k < |actions| :: Commands(actions[k], n)
  }

  /** Some action of the run starts a log in a full table. */
  predicate Filled(md5: Md5, w: World, actions: seq<Action>)
    requires SizesOk(w)
    decreases |actions|
  {
    actions != [] && (StartsFull(md5, w.store, actions[0]) || Filled(md5, Act(md5, w, actions[0]), actions[1..]))
  }

  lemma CommandedLater(actions: seq<Action>, n: nat)
    requires actions != []
    ensures Commanded(actions, n) <==> Commands(actions[0], n) || Commanded(actions[1..], n)
  {
    var rest := actions[1..];
    if Commanded(actions, n) && !Commands(actions[0], n) {
      var k :| 0 <= k < |actions| && Commands(actions[k], n);
      assert rest[k - 1] == actions[k];
    }
    if Commanded(rest, n) {
      var k :| 0 <= k < |rest| && Commands(rest[k], n);
      assert actions[k + 1] == rest[k];
    }
  }

  lemma {:induction false} RunCauses(md5: Md5, w: World, actions: seq<Action>, i: nat)
    requires Running(md5, w) && SizesOk(w) && forall k | 0 <= k < |actions| :: Proper(actions[k])
    requires i < |w.store.logs| - 1 && w.store.logs[i].fate == Kept
    ensures i < |Run(md5, w, actions).store.logs|
    ensures
      var (n, fate) := (w.store.logs[i].number, Run(md5, w, actions).store.logs[i].fate);
      && (fate == Erased ==> Commanded(actions, n))
      && (fate == Overwritten ==> n == 0 && Filled(md5, w, actions))
    decreases |actions|
  {
    hide Running, Act, SizesOk, Commands, StartsFull;
    if actions != [] {
      var w1 := Act(md5, w, actions[0]);
      ActRunning(md5, w, actions[0]);
      ActExtends(md5, w, actions[0]);
      ActCauses(md5, w, actions[0], i);
      RunExtends(md5, w1, actions[1..]);
      CommandedLater(actions, w.store.logs[i].number);
      assert Later(w.store.logs[i], w1.store.logs[i]);
      assert Later(w1.store.logs[i], Run(md5, w1, actions[1..]).store.logs[i]);
      hide Commanded;
      if w1.store.logs[i].fate == Kept {
        RunCauses(md5, w1, actions[1..], i);
      }
    }
  }

  /** Conservation. Take any moment of any run, and any continuation in which the network and the server
      fail as they like: every log closed at that moment is afterwards
      - still on the card with the same contents, or
      - whole in the bucket, or
      - erased, and then a command to erase it or all logs was given, or
      - overwritten, and then its number is zero and a log was started with every number on the card. */
  lemma Conservation(md5: Md5, w: World, actions: seq<Action>, i: nat)
    requires Running(md5, w) && AllStored(w) && SizesOk(w)
    requires forall k | 0 <= k < |actions| :: Proper(actions[k])
    requires AllGenuine(md5, Offers(md5, w, actions))
    requires i < |w.store.logs| - 1 && w.store.logs[i].fate == Kept
    ensures
      var (log, end) := (w.store.logs[i], Run(md5, w, actions));
      && i < |end.store.logs|
      && match end.store.logs[i].fate
         case Kept => log.number in end.store.disk && end.store.disk[log.number] == log.entries
         case Uploaded => Bytes(log.entries) in end.bucket
         case Erased => Commanded(actions, log.number)
         case Overwritten => log.number == 0 && Filled(md5, w, actions)
         case CutShort => false
  {
    hide Run, Bytes, CacheOk, DiskOk, Commanded, Filled, AllGenuine, Offers;
    RunRunning(md5, w, actions);
    RunStored(md5, w, actions);
    RunExtends(md5, w, actions);
    RunCauses(md5, w, actions, i);
    var end := Run(md5, w, actions);
    assert Later(w.store.logs[i], end.store.logs[i]);
    assert KeptOk(end.store, end.store.logs[i]) && StoredOk(end.bucket, end.store.logs[i]);
  }

  /** Over a connection that garbles nothing, conservation holds with no assumption on digests at all. */
  lemma ConservationUngarbled(md5: Md5, w: World, actions: seq<Action>, i: nat)
    requires Running(md5, w) && AllStored(w) && SizesOk(w)
    requires forall k | 0 <= k < |actions| :: Proper(actions[k])
    requires AllOwn(Offers(md5, w, actions))
    requires i < |w.store.logs| - 1 && w.store.logs[i].fate == Kept
    ensures
      var (log, end) := (w.store.logs[i], Run(md5, w, actions));
      && i < |end.store.logs|
      && match end.store.logs[i].fate
         case Kept => log.number in end.store.disk && end.store.disk[log.number] == log.entries
         case Uploaded => Bytes(log.entries) in end.bucket
         case Erased => Commanded(actions, log.number)
         case Overwritten => log.number == 0 && Filled(md5, w, actions)
         case CutShort => false
  {
    hide Run, Bytes, Commanded, Filled, AllGenuine, AllOwn, Offers, Running, AllStored;
    OwnIsGenuine(md5, Offers(md5, w, actions));
    Conservation(md5, w, actions, i);
  }
}
