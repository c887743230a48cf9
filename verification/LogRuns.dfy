/** Whole runs of the logger: recording, rotation, erasure, hashing and uploads in any order. */
module LogRuns {
  import opened Frames
  import opened LogState
  import opened LogSafety
  import opened UploadModel
  import opened UploadSafety

  /** What can happen to a running logger. `headers` are the packets a new file starts with, should the
      step start one: the serialiser's own and whatever the configuration asks for. */
  datatype Action =
    | Record(frame: Frame, headers: seq<Frame>)
    | Handle(frame: Frame, noData: bool, headers: seq<Frame>)
    | StepLog(headers: seq<Frame>)
    | Erase(number: nat, works: bool)
    | EraseAll(worksOn: nat -> bool, headers: seq<Frame>)
    | HashFile(number: nat)
    | Upload(cycle: Cycle)

  predicate SizesOk(w: World) { |w.store.sizes| == |w.store.hashes| == MAX_LOG_FILES }

  function Act(md5: Md5, w: World, a: Action): (r: World)
    requires SizesOk(w)
    ensures SizesOk(r)
  {
    match a
    case Record(f, headers) => w.(store := Recorded(md5, w.store, f, false, headers))
    case Handle(f, noData, headers) => w.(store := Handled(md5, w.store, f, noData, headers))
    case StepLog(headers) => w.(store := Stepped(md5, w.store, headers))
    case Erase(n, works) => w.(store := EraseOne(w.store, n, works))
    case EraseAll(works, headers) => w.(store := ErasedAll(md5, w.store, works, headers))
    case HashFile(n) => w.(store := Updated(md5, w.store, n))
    case Upload(c) => Cycled(md5, w, c)
  }

  /** A new file never starts without the serialiser's version packet. */
  lemma ActUpload(md5: Md5, w: World, c: Cycle)
    requires SizesOk(w)
    ensures Act(md5, w, Upload(c)) == Cycled(md5, w, c) && ActOffers(md5, w, Upload(c)) == CycleOffers(md5, w, c)
  {
  }

  predicate Proper(a: Action)
  {
    match a
    case Record(_, headers) => headers != []
    case Handle(_, _, headers) => headers != []
    case StepLog(headers) => headers != []
    case EraseAll(_, headers) => headers != []
    case _ => true
  }

  function Begin(md5: Md5, disk: map<nat, seq<Entry>>, headers: seq<Frame>): World
  {
    World(Started(Booted(md5, disk), headers), [], 0)
  }

  predicate Running(md5: Md5, w: World) { Sound(md5, w.store) && w.store.isOpen }

  lemma RunningSizes(md5: Md5, w: World)
    requires Running(md5, w)
    ensures SizesOk(w) && w.store.current < MAX_LOG_FILES
  {
  }

  /** Logs that are not newly uploaded keep the bucket's promise. */
  predicate NoNewUploads(logs: seq<Log>, after: seq<Log>)
  {
    forall i | 0 <= i < |after| :: after[i].fate == Uploaded ==> i < |logs| && after[i] == logs[i]
  }

  lemma StillStored(w: World, s: Store)
    requires AllStored(w) && NoNewUploads(w.store.logs, s.logs)
    ensures AllStored(w.(store := s))
  {
    forall i | 0 <= i < |s.logs| ensures StoredOk(w.bucket, s.logs[i]) {
      if s.logs[i].fate == Uploaded {
        assert StoredOk(w.bucket, w.store.logs[i]);
      }
    }
  }

  // ---- every step keeps a running logger running ----

  ghost predicate Going(md5: Md5, w: World, s: Store)
  {
    Sound(md5, s) && s.isOpen && NoNewUploads(w.store.logs, s.logs)
  }

  lemma StartGoing(md5: Md5, w: World, c: Store, headers: seq<Frame>)
    requires Sound(md5, c) && !c.isOpen && headers != [] && NoNewUploads(w.store.logs, c.logs)
    ensures Going(md5, w, Started(c, headers))
  {
    StartedSound(md5, c, headers);
    hide Sound, HeaderEntries, NextFree;
  }

  lemma StepGoing(md5: Md5, w: World, s: Store, headers: seq<Frame>)
    requires Going(md5, w, s) && headers != []
    ensures |s.sizes| == |s.hashes| == MAX_LOG_FILES
    ensures Going(md5, w, Stepped(md5, s, headers))
  {
    ClosedSound(md5, s);
    assert Closed(md5, s).logs == s.logs;
    StartGoing(md5, w, Closed(md5, s), headers);
  }

  lemma WriteGoing(md5: Md5, w: World, s: Store, e: Entry)
    requires Going(md5, w, s)
    ensures Going(md5, w, Written(s, e))
  {
    WrittenSound(md5, s, e);
    assert s.logs[|s.logs| - 1].fate != Uploaded;
    hide CacheOk, DiskOk, LogsOk, OpenOk, Sound;
  }

  lemma RequestGoing(md5: Md5, w: World, s: Store)
    requires Going(md5, w, s)
    ensures Going(md5, w, Requested(s))
  {
    hide Going, Written;
    WriteGoing(md5, w, s, Request(NoDataReject()));
    hide NoDataReject;
    FlagsAside(md5, w, Written(s, Request(NoDataReject())), true, s.recorded);
  }

  /** The request flag and the record of calls do not matter here. */
  lemma FlagsAside(md5: Md5, w: World, s: Store, emitted: bool, recorded: seq<Frame>)
    requires Going(md5, w, s)
    ensures Going(md5, w, s.(emitted := emitted)) && Going(md5, w, s.(recorded := recorded))
  {
    hide Coherent, KeptOk;
    forall n: nat | n < MAX_LOG_FILES && !(s.isOpen && n == s.current)
      ensures Coherent(md5, s.(emitted := emitted), n) && Coherent(md5, s.(recorded := recorded), n)
    {
      SameCache(md5, s, s.(emitted := emitted), n);
      SameCache(md5, s, s.(recorded := recorded), n);
    }
    forall i | 0 <= i < |s.logs|
      ensures KeptOk(s.(emitted := emitted), s.logs[i]) && KeptOk(s.(recorded := recorded), s.logs[i])
    {
      SameDisk(s, s.(emitted := emitted), s.logs[i]);
      SameDisk(s, s.(recorded := recorded), s.logs[i]);
    }
  }

  lemma SameCache(md5: Md5, s: Store, t: Store, n: nat)
    requires n < |s.sizes| == |s.hashes| && Coherent(md5, s, n)
    requires t.disk == s.disk && t.sizes == s.sizes && t.hashes == s.hashes
    ensures Coherent(md5, t, n)
  {
  }

  lemma SameDisk(s: Store, t: Store, log: Log)
    requires KeptOk(s, log) && t.disk == s.disk
    ensures KeptOk(t, log)
  {
  }

  lemma RecordGoing(md5: Md5, w: World, s: Store, f: Frame, noData: bool, headers: seq<Frame>)
    requires Going(md5, w, s) && headers != []
    ensures |s.sizes| == |s.hashes| == MAX_LOG_FILES
    ensures Going(md5, w, Recorded(md5, s, f, noData, headers))
  {
    StepGoing(md5, w, s, headers);
    WriteGoing(md5, w, s, Data(f, noData));
    hide Going, Written, Bytes;
    FlagsAside(md5, w, Written(s, Data(f, noData)), false, s.recorded + [f]);
    StepGoing(md5, w, Written(s, Data(f, noData)).(recorded := s.recorded + [f]), headers);
  }

  lemma EraseGoing(md5: Md5, w: World, s: Store, numbers: seq<nat>, works: nat -> bool)
    requires |s.sizes| == |s.hashes| == MAX_LOG_FILES
    requires NoNewUploads(w.store.logs, s.logs)
    ensures NoNewUploads(w.store.logs, EraseEach(s, numbers, works).logs)
    decreases |numbers|
  {
    if numbers != [] {
      EraseGoing(md5, w, EraseOne(s, numbers[0], works(numbers[0])), numbers[1..], works);
    }
  }

  lemma EraseAllGoing(md5: Md5, w: World, works: nat -> bool, headers: seq<Frame>)
    requires Going(md5, w, w.store) && headers != []
    ensures SizesOk(w) && Going(md5, w, ErasedAll(md5, w.store, works, headers))
  {
    ClosedSound(md5, w.store);
    var c := Closed(md5, w.store);
    assert c.logs == w.store.logs;
    EraseEachSound(md5, c, Listed(c.sizes, 0), works);
    EraseGoing(md5, w, c, Listed(c.sizes, 0), works);
    StartGoing(md5, w, EraseEach(c, Listed(c.sizes, 0), works), headers);
  }

  /** Every action leaves a running logger running, whatever the network, the server and the file system do. */
  lemma ActRunning(md5: Md5, w: World, a: Action)
    requires Running(md5, w) && Proper(a)
    ensures SizesOk(w) && Running(md5, Act(md5, w, a))
  {
    RunningSizes(md5, w);
    if a.Upload? {
      hide Cycled, Sound;
      CycleSound(md5, w, a.cycle);
    } else {
      LogActGoing(md5, w, a);
      hide Act, Sound;
    }
  }

  /** The files an action offers to the server. */
  function ActOffers(md5: Md5, w: World, a: Action): seq<Attempt>
    requires SizesOk(w)
  {
    if a.Upload? then CycleOffers(md5, w, a.cycle) else []
  }

  /** Every action keeps what was uploaded in the bucket. */
  lemma ActStored(md5: Md5, w: World, a: Action)
    requires Running(md5, w) && AllStored(w) && Proper(a) && SizesOk(w) && AllGenuine(md5, ActOffers(md5, w, a))
    ensures AllStored(Act(md5, w, a))
  {
    if a.Upload? {
      hide Cycled, Sound, AllStored, AllGenuine, CycleOffers;
      CycleStored(md5, w, a.cycle);
    } else {
      LogActGoing(md5, w, a);
      OnlyStore(md5, w, a);
      hide Act, Sound;
      StillStored(w, Act(md5, w, a).store);
    }
  }

  lemma OnlyStore(md5: Md5, w: World, a: Action)
    requires SizesOk(w) && !a.Upload?
    ensures Act(md5, w, a) == w.(store := Act(md5, w, a).store)
  {
    hide Recorded, Handled, Stepped, EraseOne, ErasedAll, Updated;
  }

  lemma LogActGoing(md5: Md5, w: World, a: Action)
    requires Running(md5, w) && Proper(a) && !a.Upload?
    ensures SizesOk(w) && Going(md5, w, Act(md5, w, a).store)
  {
    hide Recorded, Stepped, EraseOne, ErasedAll, Updated, Sound, Requested, NoNewUploads;
    RunningSizes(md5, w);
    var s := w.store;
    GoesOn(md5, w);
    hide Going;
    match a
    case Record(f, headers) => RecordGoing(md5, w, s, f, false, headers);
    case Handle(f, noData, headers) =>
      RequestGoing(md5, w, s);
      RecordGoing(md5, w, if noData then Requested(s) else s, f, noData, headers);
    case StepLog(headers) => StepGoing(md5, w, s, headers);
    case Erase(n, works) => EraseOneGoing(md5, w, n, works);
    case EraseAll(works, headers) => EraseAllGoing(md5, w, works, headers);
    case HashFile(n) => HashGoing(md5, w, n);
  }

  lemma GoesOn(md5: Md5, w: World)
    requires Running(md5, w)
    ensures Going(md5, w, w.store)
  {
  }

  lemma EraseOneGoing(md5: Md5, w: World, n: nat, works: bool)
    requires Running(md5, w) && SizesOk(w)
    ensures Going(md5, w, EraseOne(w.store, n, works))
  {
    EraseOneSound(md5, w.store, n, works);
    hide Sound;
  }

  lemma HashGoing(md5: Md5, w: World, n: nat)
    requires Running(md5, w) && SizesOk(w)
    ensures Going(md5, w, Updated(md5, w.store, n))
  {
    UpdatedSound(md5, w.store, n);
    hide Sound, FileSize, FileHash;
  }

  function Run(md5: Md5, w: World, actions: seq<Action>): (r: World)
    requires SizesOk(w)
    ensures SizesOk(r)
    decreases |actions|
  {
    if actions == [] then w else Run(md5, Act(md5, w, actions[0]), actions[1..])
  }

  /** Every run of a running logger leaves it running. */
  lemma {:induction false} RunRunning(md5: Md5, w: World, actions: seq<Action>)
    requires Running(md5, w) && forall i | 0 <= i < |actions| :: Proper(actions[i])
    ensures SizesOk(w) && Running(md5, Run(md5, w, actions))
    decreases |actions|
  {
    RunningSizes(md5, w);
    hide Running, Act, SizesOk;
    if actions != [] {
      ActRunning(md5, w, actions[0]);
      RunningSizes(md5, Act(md5, w, actions[0]));
      RunRunning(md5, Act(md5, w, actions[0]), actions[1..]);
    }
  }

  /** All files a run offers to the server. */
  function Offers(md5: Md5, w: World, actions: seq<Action>): seq<Attempt>
    requires SizesOk(w)
    decreases |actions|
  {
    if actions == [] then [] else ActOffers(md5, w, actions[0]) + Offers(md5, Act(md5, w, actions[0]), actions[1..])
  }

  lemma GenuineParts(md5: Md5, a: seq<Attempt>, b: seq<Attempt>)
    requires AllGenuine(md5, a + b)
    ensures AllGenuine(md5, a) && AllGenuine(md5, b)
  {
    hide Genuine;
    assert forall i | 0 <= i < |a| :: (a + b)[i] == a[i];
    assert forall i | 0 <= i < |b| :: (a + b)[|a| + i] == b[i];
  }

  /** Every run keeps what was uploaded in the bucket, as long as the bodies the server was handed are not
      mistaken for files. */
  lemma {:induction false} RunStored(md5: Md5, w: World, actions: seq<Action>)
    requires Running(md5, w) && AllStored(w) && SizesOk(w) && forall i | 0 <= i < |actions| :: Proper(actions[i])
    requires AllGenuine(md5, Offers(md5, w, actions))
    ensures AllStored(Run(md5, w, actions))
    decreases |actions|
  {
    hide Running, Act, SizesOk, AllStored, AllGenuine;
    if actions != [] {
      var w1 := Act(md5, w, actions[0]);
      GenuineParts(md5, ActOffers(md5, w, actions[0]), Offers(md5, w1, actions[1..]));
      ActStored(md5, w, actions[0]);
      ActRunning(md5, w, actions[0]);
      RunStored(md5, w1, actions[1..]);
    }
  }
}
