/** How large a log file gets. */
module LogLimits {
  import opened Frames
  import opened LogState
  import opened UploadModel
  import opened LogRuns
  import opened LogHistory
  import opened LogFates
  import opened LogPackets

  /** Between actions the open file is within the limit. */
  predicate Within(s: Store) { |Bytes(s.output)| <= MAX_LOG_FILE_SIZE }

  /** The packets a new file starts with fit the limit. */
  predicate Fitting(headers: seq<Frame>) { |Bytes(HeaderEntries(headers))| <= MAX_LOG_FILE_SIZE }

  predicate FittingAction(a: Action)
  {
    match a
    case Record(_, headers) => Fitting(headers)
    case Handle(_, _, headers) => Fitting(headers)
    case StepLog(headers) => Fitting(headers)
    case EraseAll(_, headers) => Fitting(headers)
    case _ => true
  }

  /** The file exceeds the limit by more than its last packet. */
  predicate TooLarge(es: seq<Entry>)
  {
    es != [] && |Bytes(es)| > MAX_LOG_FILE_SIZE + |Encode(es[|es| - 1].frame)|
  }

  /** The action is a packet without data, the file has no request yet, and has no room for one. */
  predicate Overshoots(s: Store, a: Action)
  {
    a.Handle? && a.noData && !s.emitted && |Bytes(s.output)| + 37 > MAX_LOG_FILE_SIZE
  }

  // ---- one action ----

  /** The newest log is the open one. */
  predicate Newest(s: Store)
  {
    s.logs != [] && s.logs[|s.logs| - 1].entries == s.output && s.output != []
  }

  lemma RotatedFile(md5: Md5, s: Store, f: Frame, noData: bool, headers: seq<Frame>)
    requires |s.sizes| == |s.hashes| == MAX_LOG_FILES && Newest(s)
    ensures Rotates(md5, s, f, noData).Some? <==> |Bytes(s.output)| + |Encode(f)| > MAX_LOG_FILE_SIZE
    ensures Rotates(md5, s, f, noData).Some? ==>
      var c := Rotates(md5, s, f, noData).value;
      |c.logs| == |s.logs| && c.logs[|s.logs| - 1].entries == s.output + [Data(f, noData)]
  {
    BytesAppend(s.output, Data(f, noData));
    hide Bytes, Encode, FileSize, FileHash;
  }

  lemma LastOf(md5: Md5, w: World, a: Action)
    requires SizesOk(w) && Starts(md5, w.store, a).Some? && w.store.logs != []
    requires |Starts(md5, w.store, a).value.logs| == |w.store.logs|
    ensures |Act(md5, w, a).store.logs| == |w.store.logs| + 1
    ensures
      var last := |w.store.logs| - 1;
      Act(md5, w, a).store.logs[last].entries == Starts(md5, w.store, a).value.logs[last].entries
  {
    StartsNew(md5, w, a);
    hide Starts, Act, NextFree, HeaderEntries;
  }

  lemma SizeAfter(es: seq<Entry>, f: Frame, noData: bool)
    ensures |Bytes(es + [Data(f, noData)])| == |Bytes(es)| + |Encode(f)|
    ensures |Bytes(es + [Request(NoDataReject())] + [Data(f, noData)])| == |Bytes(es)| + 37 + |Encode(f)|
  {
    BytesAppend(es, Data(f, noData));
    BytesAppend(es, Request(NoDataReject()));
    BytesAppend(es + [Request(NoDataReject())], Data(f, noData));
    hide Bytes, NoDataReject;
  }

  /** What the action says of the file it closes, if it closes one. */
  predicate ClosesWell(md5: Md5, w: World, a: Action)
    requires SizesOk(w)
  {
    && (Overshoots(w.store, a) ==> Starts(md5, w.store, a).Some?)
    && (Starts(md5, w.store, a).Some? ==>
          && |Act(md5, w, a).store.logs| == |w.store.logs| + 1 && w.store.logs != []
          && EndsWell(w.store, a, Act(md5, w, a).store.logs[|w.store.logs| - 1].entries))
  }

  predicate EndsWell(s: Store, a: Action, es: seq<Entry>) { Bounded(es, Overshoots(s, a)) }

  /** A file of at most the limit, a request and its last packet, that is too large or not. */
  predicate Bounded(es: seq<Entry>, tooLarge: bool)
  {
    && es != [] && (TooLarge(es) <==> tooLarge)
    && |Bytes(es)| <= MAX_LOG_FILE_SIZE + 37 + |Encode(es[|es| - 1].frame)|
  }

  /** What an action closes is too large exactly when the action overshoots; and then by no more than a
      request. An action that overshoots always closes the file. */
  lemma RequestOvershoots(md5: Md5, w: World, a: Action)
    requires SizesOk(w) && Newest(w.store) && Within(w.store)
    ensures ClosesWell(md5, w, a)
  {
    hide ClosesWell, Starts, Newest, Within;
    match a
    case Record(f, headers) => RecordCloses(md5, w, f, headers);
    case Handle(f, noData, headers) => HandleCloses(md5, w, f, noData, headers);
    case StepLog(headers) => StepCloses(md5, w, headers);
    case EraseAll(works, headers) => EraseCloses(md5, w, works, headers);
    case _ => OthersClose(md5, w, a);
  }

  lemma OthersClose(md5: Md5, w: World, a: Action)
    requires SizesOk(w) && (a.Erase? || a.HashFile? || a.Upload?)
    ensures ClosesWell(md5, w, a)
  {
    hide Act;
  }

  lemma StepCloses(md5: Md5, w: World, headers: seq<Frame>)
    requires SizesOk(w) && Newest(w.store) && Within(w.store)
    ensures ClosesWell(md5, w, StepLog(headers))
  {
    assert Closed(md5, w.store).logs == w.store.logs;
    hide Bytes, Act, Encode, Closed;
    LastOf(md5, w, StepLog(headers));
  }

  lemma EraseCloses(md5: Md5, w: World, works: nat -> bool, headers: seq<Frame>)
    requires SizesOk(w) && Newest(w.store) && Within(w.store)
    ensures ClosesWell(md5, w, EraseAll(works, headers))
  {
    var c := Closed(md5, w.store);
    assert c.logs == w.store.logs;
    EraseContents(c, Listed(c.sizes, 0), works);
    hide Bytes, Act, Encode, Closed, EraseEach, Listed;
    LastOf(md5, w, EraseAll(works, headers));
  }

  lemma RecordCloses(md5: Md5, w: World, f: Frame, headers: seq<Frame>)
    requires SizesOk(w) && Newest(w.store) && Within(w.store)
    ensures ClosesWell(md5, w, Record(f, headers))
  {
    SizeAfter(w.store.output, f, false);
    RotatedFile(md5, w.store, f, false, headers);
    hide Rotates, Bytes, Act, Encode;
    if Starts(md5, w.store, Record(f, headers)).Some? {
      LastOf(md5, w, Record(f, headers));
    }
  }

  /** The bytes a request takes before the packet, if one is due. */
  function Due(s: Store, noData: bool): nat { if noData && !s.emitted then 37 else 0 }

  /** The store when the packet itself is recorded. */
  function Ready(s: Store, noData: bool): Store { if noData then Requested(s) else s }

  lemma ReadyStore(s: Store, noData: bool)
    requires |s.sizes| == |s.hashes| == MAX_LOG_FILES && Newest(s)
    ensures
      var r := Ready(s, noData);
      && Newest(r) && |r.logs| == |s.logs| && |r.sizes| == |r.hashes| == MAX_LOG_FILES
      && |Bytes(r.output)| == |Bytes(s.output)| + Due(s, noData)
  {
    hide NoDataReject, Bytes;
    RequestedLog(s);
  }

  lemma HandleRotates(md5: Md5, s: Store, f: Frame, noData: bool, headers: seq<Frame>)
    requires |s.sizes| == |s.hashes| == MAX_LOG_FILES
    requires |Ready(s, noData).sizes| == |Ready(s, noData).hashes| == MAX_LOG_FILES
    ensures Starts(md5, s, Handle(f, noData, headers)) == Rotates(md5, Ready(s, noData), f, noData)
  {
    hide Requested, Rotates;
  }

  lemma HandleCloses(md5: Md5, w: World, f: Frame, noData: bool, headers: seq<Frame>)
    requires SizesOk(w) && Newest(w.store) && Within(w.store)
    ensures ClosesWell(md5, w, Handle(f, noData, headers))
  {
    hide Bytes, Act, Encode, Starts, Rotates, Overshoots, Due, EndsWell, Ready, Within;
    var (s, a, r) := (w.store, Handle(f, noData, headers), Ready(w.store, noData));
    assert s.logs != [];
    hide Newest;
    EncodeIsLong(f);
    ReadyStore(s, noData);
    HandleRotates(md5, s, f, noData, headers);
    OvershootIsOver(s, a);
    RotatedFile(md5, r, f, noData, headers);
    if Starts(md5, s, a).Some? {
      LastOf(md5, w, a);
      EndsByData(s, a, r.output);
    }
  }

  lemma OvershootIsOver(s: Store, a: Action)
    requires a.Handle?
    ensures Overshoots(s, a) ==> |Bytes(s.output)| + Due(s, a.noData) > MAX_LOG_FILE_SIZE
  {
    hide Bytes;
  }

  lemma EncodeIsLong(f: Frame)
    ensures |Encode(f)| > 0
  {
  }

  lemma EndsByData(s: Store, a: Action, es: seq<Entry>)
    requires Within(s) && a.Handle? && |Bytes(es)| == |Bytes(s.output)| + Due(s, a.noData)
    ensures EndsWell(s, a, es + [Data(a.frame, a.noData)])
  {
    BytesAppend(es, Data(a.frame, a.noData));
    hide Bytes, Encode;
  }

  lemma RequestedLog(s: Store)
    requires |s.sizes| == |s.hashes| == MAX_LOG_FILES && Newest(s)
    ensures
      var r := Requested(s);
      && Newest(r) && |r.logs| == |s.logs| && |r.sizes| == |r.hashes| == MAX_LOG_FILES
      && |Bytes(r.output)| == |Bytes(s.output)| + Due(s, true)
  {
    BytesAppend(s.output, Request(NoDataReject()));
    hide NoDataReject, Bytes;
  }

  /** No action leaves the open file over the limit. */
  lemma ActWithin(md5: Md5, w: World, a: Action)
    requires SizesOk(w) && Within(w.store) && FittingAction(a)
    ensures Within(Act(md5, w, a).store)
  {
    hide Bytes, FileSize, FileHash, NoDataReject, EraseEach, Listed, NextFree, HeaderEntries;
    match a
    case Upload(c) =>
      ListedInRange(w.store.sizes, 0);
      UploadContents(md5, w.(lastCycle := c.now), Listed(w.store.sizes, 0), c.exchanges, c.now, c.duration);
      hide UploadEach, Elapsed;
    case _ =>
  }

  // ---- a run ----

  /** Log `i` is the open one when an action of the run overshoots. */
  predicate Overshot(md5: Md5, w: World, actions: seq<Action>, i: nat)
    requires SizesOk(w)
    decreases |actions|
  {
    actions != []
    && ((i + 1 == |w.store.logs| && Overshoots(w.store, actions[0]))
        || Overshot(md5, Act(md5, w, actions[0]), actions[1..], i))
  }

  /** A running logger within the limit, whose newest log is the open one. */
  predicate Steady(md5: Md5, w: World)
  {
    Running(md5, w) && SizesOk(w) && Newest(w.store) && Within(w.store)
  }

  lemma ActSteady(md5: Md5, w: World, a: Action)
    requires Steady(md5, w) && Proper(a) && FittingAction(a)
    ensures Steady(md5, Act(md5, w, a))
    ensures |Act(md5, w, a).store.logs| == |w.store.logs| + if Starts(md5, w.store, a).Some? then 1 else 0
  {
    ActRunning(md5, w, a);
    ActWithin(md5, w, a);
    var w1 := Act(md5, w, a);
    RunningNewest(md5, w1);
    if Starts(md5, w.store, a).Some? {
      RequestOvershoots(md5, w, a);
    } else {
      SameLogs(md5, w, a);
    }
    hide Running, Act, Starts, Newest, Within, SizesOk;
    SizesStay(md5, w, a);
  }

  lemma SizesStay(md5: Md5, w: World, a: Action)
    requires SizesOk(w)
    ensures SizesOk(Act(md5, w, a))
  {
  }

  lemma RunningNewest(md5: Md5, w: World)
    requires Running(md5, w)
    ensures Newest(w.store)
  {
  }

  lemma SameLogs(md5: Md5, w: World, a: Action)
    requires SizesOk(w) && Starts(md5, w.store, a).None? && w.store.logs != []
    ensures |Act(md5, w, a).store.logs| == |w.store.logs|
  {
    hide Bytes, FileSize, FileHash, NoDataReject;
    match a
    case Upload(c) =>
      ListedInRange(w.store.sizes, 0);
      UploadContents(md5, w.(lastCycle := c.now), Listed(w.store.sizes, 0), c.exchanges, c.now, c.duration);
      hide UploadEach, Elapsed, Listed;
    case _ =>
  }

  lemma NoOvershot(md5: Md5, w: World, i: nat)
    requires SizesOk(w)
    ensures !Overshot(md5, w, [], i)
  {
  }

  lemma {:induction false} OvershotIsLater(md5: Md5, w: World, actions: seq<Action>, i: nat)
    requires Steady(md5, w) && i + 1 < |w.store.logs|
    requires forall k | 0 <= k < |actions| :: Proper(actions[k]) && FittingAction(actions[k])
    ensures SizesOk(w) && !Overshot(md5, w, actions, i)
    decreases |actions|
  {
    hide Steady, Act, Overshoots, Starts, SizesOk, Overshot, Proper, FittingAction;
    SteadySizes(md5, w);
    if actions == [] {
      NoOvershot(md5, w, i);
    } else {
      ActSteady(md5, w, actions[0]);
      SteadySizes(md5, Act(md5, w, actions[0]));
      OvershotIsLater(md5, Act(md5, w, actions[0]), actions[1..], i);
      FirstOf(md5, w, actions, i);
    }
  }

  lemma SteadySizes(md5: Md5, w: World)
    requires Steady(md5, w)
    ensures SizesOk(w) && Running(md5, w) && w.store.logs != []
  {
  }

  /** Over any run: of the logs open at its start or made in it, exactly those are too large that were open
      when a packet without data came, with no request in the file yet and no room for one. */
  lemma {:induction false} SizeBound(md5: Md5, w: World, actions: seq<Action>, i: nat)
    requires Steady(md5, w) && SizesOk(w)
    requires forall k | 0 <= k < |actions| :: Proper(actions[k]) && FittingAction(actions[k])
    requires |w.store.logs| <= i + 1 && i < |Run(md5, w, actions).store.logs|
    ensures Bounded(Run(md5, w, actions).store.logs[i].entries, Overshot(md5, w, actions, i))
    decreases |actions|
  {
    hide Steady, Act, Starts, Overshoots, Bounded, Run, Overshot, FittingAction, Proper;
    if actions == [] {
      NoneOvershot(md5, w, i);
    } else {
      var (a, w1) := (actions[0], Act(md5, w, actions[0]));
      ActSteady(md5, w, a);
      SteadySizes(md5, w1);
      FirstOf(md5, w, actions, i);
      if i + 1 == |w.store.logs| && Starts(md5, w.store, a).Some? {
        ClosedNow(md5, w, a, actions[1..]);
      } else {
        if i + 1 == |w.store.logs| {
          StaysOpen(md5, w, a);
        }
        SizeBound(md5, w1, actions[1..], i);
      }
    }
  }

  lemma NoneOvershot(md5: Md5, w: World, i: nat)
    requires Steady(md5, w) && SizesOk(w) && |w.store.logs| <= i + 1 && i < |Run(md5, w, []).store.logs|
    ensures Run(md5, w, []) == w && Bounded(w.store.logs[i].entries, Overshot(md5, w, [], i))
  {
    hide Bytes, Encode;
  }

  lemma FirstOf(md5: Md5, w: World, actions: seq<Action>, i: nat)
    requires SizesOk(w) && actions != []
    ensures Run(md5, w, actions) == Run(md5, Act(md5, w, actions[0]), actions[1..])
    ensures Overshot(md5, w, actions, i)
       <==> (i + 1 == |w.store.logs| && Overshoots(w.store, actions[0]))
            || Overshot(md5, Act(md5, w, actions[0]), actions[1..], i)
  {
  }

  lemma StaysOpen(md5: Md5, w: World, a: Action)
    requires Steady(md5, w) && SizesOk(w) && Starts(md5, w.store, a).None?
    ensures !Overshoots(w.store, a)
  {
    RequestOvershoots(md5, w, a);
  }

  /** The open log is closed by the action, and stays as it is from then on. */
  lemma ClosedNow(md5: Md5, w: World, a: Action, rest: seq<Action>)
    requires Steady(md5, w) && SizesOk(w) && Proper(a) && FittingAction(a) && Starts(md5, w.store, a).Some?
    requires forall k | 0 <= k < |rest| :: Proper(rest[k]) && FittingAction(rest[k])
    ensures
      var (w1, i) := (Act(md5, w, a), |w.store.logs| - 1);
      && !Overshot(md5, w1, rest, i) && 0 <= i < |Run(md5, w1, rest).store.logs|
      && EndsWell(w.store, a, Run(md5, w1, rest).store.logs[i].entries)
  {
    hide Steady, Act, Starts, Overshoots, Bounded, EndsWell, Overshot, Run, Proper, FittingAction;
    var (w1, i) := (Act(md5, w, a), |w.store.logs| - 1);
    ActSteady(md5, w, a);
    EndedWell(md5, w, a);
    RunKeeps(md5, w1, rest, i);
    OvershotIsLater(md5, w1, rest, i);
  }

  lemma EndedWell(md5: Md5, w: World, a: Action)
    requires Steady(md5, w) && SizesOk(w) && Starts(md5, w.store, a).Some?
    ensures
      var i := |w.store.logs| - 1;
      0 <= i && |Act(md5, w, a).store.logs| == i + 2 && EndsWell(w.store, a, Act(md5, w, a).store.logs[i].entries)
  {
    hide Running, Act, Starts, EndsWell, Newest, Within;
    RequestOvershoots(md5, w, a);
  }

  /** What is closed keeps its contents. */
  lemma RunKeeps(md5: Md5, w: World, rest: seq<Action>, i: nat)
    requires Steady(md5, w) && SizesOk(w) && i + 1 < |w.store.logs|
    requires forall k | 0 <= k < |rest| :: Proper(rest[k]) && FittingAction(rest[k])
    ensures i < |Run(md5, w, rest).store.logs|
    ensures Run(md5, w, rest).store.logs[i].entries == w.store.logs[i].entries
  {
    hide Steady, Running, Run, Proper, FittingAction;
    SteadySizes(md5, w);
    RunExtends(md5, w, rest);
    assert Later(w.store.logs[i], Run(md5, w, rest).store.logs[i]);
  }

  /** A logger that has just started is steady, so that all this holds of every run from boot. */
  lemma BootSteady(md5: Md5, disk: map<nat, seq<Entry>>, headers: seq<Frame>)
    requires headers != [] && Fitting(headers) && forall n | n in disk :: n < MAX_LOG_FILES && disk[n] != []
    ensures SizesOk(Begin(md5, disk, headers)) && Steady(md5, Begin(md5, disk, headers))
    ensures Begin(md5, disk, headers).store.output == HeaderEntries(headers) && !Begin(md5, disk, headers).store.emitted
  {
    BeginRunning(md5, disk, headers);
    RunningNewest(md5, Begin(md5, disk, headers));
    hide Sound, Bytes, OldLogs, FileSize, FileHash, NextFree, HeaderEntries;
  }

  // ---- the range is reached ----

  /** The packet recorded for an NMEA0183 sentence: its time and its text. */
  function SentencePacket(stamp: nat, text: seq<byte>): Frame
  {
    Frame(10, LittleEndian(stamp, 4) + text)
  }

  function Repeated(a: Action, k: nat): seq<Action> { if k == 0 then [] else Repeated(a, k - 1) + [a] }

  lemma {:induction false} RunMore(md5: Md5, w: World, actions: seq<Action>, a: Action)
    requires SizesOk(w)
    ensures Run(md5, w, actions + [a]) == Act(md5, Run(md5, w, actions), a)
    decreases |actions|
  {
    hide Act;
    var t := actions + [a];
    if actions == [] {
      assert t[0] == a && t[1..] == [];
    } else {
      assert t[0] == actions[0] && t[1..] == actions[1..] + [a];
      RunMore(md5, Act(md5, w, actions[0]), actions[1..], a);
    }
  }

  lemma RecordFits(md5: Md5, w: World, f: Frame, headers: seq<Frame>)
    requires SizesOk(w) && |Bytes(w.store.output)| + |Encode(f)| <= MAX_LOG_FILE_SIZE
    ensures
      var s := Act(md5, w, Record(f, headers)).store;
      |Bytes(s.output)| == |Bytes(w.store.output)| + |Encode(f)| && s.emitted == w.store.emitted
  {
    BytesAppend(w.store.output, Data(f, false));
    hide Bytes, Encode;
  }

  /** A packet of size `d` recorded `k` times. */
  lemma {:induction false} Fill(md5: Md5, w: World, f: Frame, headers: seq<Frame>, k: nat, d: nat)
    requires SizesOk(w) && d == |Encode(f)| && |Bytes(w.store.output)| + Product(k, d) <= MAX_LOG_FILE_SIZE
    ensures
      var s := Run(md5, w, Repeated(Record(f, headers), k)).store;
      |Bytes(s.output)| == |Bytes(w.store.output)| + Product(k, d) && s.emitted == w.store.emitted
  {
    hide Bytes, Encode, Act;
    if k > 0 {
      var (a, run) := (Record(f, headers), Repeated(Record(f, headers), k - 1));
      assert Product(k, d) == Product(k - 1, d) + d;
      Fill(md5, w, f, headers, k - 1, d);
      hide Product, Run;
      RunMore(md5, w, run, a);
      RecordFits(md5, Run(md5, w, run), f, headers);
    }
  }

  function Product(k: nat, d: nat): nat { if k == 0 then 0 else Product(k - 1, d) + d }

  /** How often a step fits the room, and no oftener. */
  function Times(room: nat, d: nat): (k: nat)
    requires d >= 1
    ensures Product(k, d) <= room < Product(k, d) + d
  {
    if room < d then 0 else Times(room - d, d) + 1
  }

  function Room(headers: seq<Frame>): nat
    requires Fitting(headers)
  {
    MAX_LOG_FILE_SIZE - |Bytes(HeaderEntries(headers))|
  }

  /** From boot, the packet recorded as often as it fits. */
  function FilledUp(md5: Md5, disk: map<nat, seq<Entry>>, headers: seq<Frame>, p: Frame): (w: World)
    requires Fitting(headers) && SizesOk(Begin(md5, disk, headers))
    ensures SizesOk(w)
  {
    Run(md5, Begin(md5, disk, headers), Repeated(Record(p, headers), Times(Room(headers), |Encode(p)|)))
  }

  lemma FilledIsFull(md5: Md5, disk: map<nat, seq<Entry>>, headers: seq<Frame>, p: Frame)
    requires headers != [] && Fitting(headers) && forall n | n in disk :: n < MAX_LOG_FILES && disk[n] != []
    ensures SizesOk(Begin(md5, disk, headers))
    ensures
      var w := FilledUp(md5, disk, headers, p);
      Steady(md5, w) && !w.store.emitted && |Bytes(w.store.output)| + |Encode(p)| > MAX_LOG_FILE_SIZE
  {
    var w0 := Begin(md5, disk, headers);
    BootSteady(md5, disk, headers);
    EncodeIsLong(p);
    var d, room := |Encode(p)|, Room(headers);
    var k := Times(room, d);
    hide Bytes, Encode, HeaderEntries, Begin, Run, Repeated, Steady, SizesOk, Times, Product;
    Fill(md5, w0, p, headers, k, d);
    RepeatedFits(Record(p, headers), k);
    SteadyRun(md5, w0, Repeated(Record(p, headers), k));
  }

  /** The overshoot happens: from boot, with sentences of at most 25 characters, say "$SDDPT,12.3,0.5*7B",
      recorded as often as they fit, and then any packet without data. */
  lemma LimitIsReached(md5: Md5, disk: map<nat, seq<Entry>>, headers: seq<Frame>, stamp: nat, text: seq<byte>, f: Frame)
    requires headers != [] && Fitting(headers) && forall n | n in disk :: n < MAX_LOG_FILES && disk[n] != []
    requires |text| <= 25
    ensures SizesOk(Begin(md5, disk, headers))
    ensures
      var w := FilledUp(md5, disk, headers, SentencePacket(stamp, text));
      var end := Act(md5, w, Handle(f, true, headers));
      && Overshoots(w.store, Handle(f, true, headers)) && w.store.logs != []
      && |end.store.logs| == |w.store.logs| + 1 && TooLarge(end.store.logs[|w.store.logs| - 1].entries)
  {
    hide FilledUp, Act, Bytes, Encode, Starts, TooLarge, Begin, SentencePacket, Steady, Newest, Within, Fitting;
    var p := SentencePacket(stamp, text);
    SentenceIsShort(stamp, text);
    FilledIsFull(md5, disk, headers, p);
    var w := FilledUp(md5, disk, headers, p);
    SteadyParts(md5, w);
    RequestOvershoots(md5, w, Handle(f, true, headers));
  }

  lemma SentenceIsShort(stamp: nat, text: seq<byte>)
    ensures |Encode(SentencePacket(stamp, text))| == |text| + 12
  {
  }

  lemma SteadyParts(md5: Md5, w: World)
    requires Steady(md5, w)
    ensures SizesOk(w) && Newest(w.store) && Within(w.store) && w.store.logs != []
  {
  }

  lemma {:induction false} RepeatedFits(a: Action, k: nat)
    ensures forall i | 0 <= i < |Repeated(a, k)| :: Repeated(a, k)[i] == a
  {
    if k > 0 {
      RepeatedFits(a, k - 1);
    }
  }

  lemma {:induction false} SteadyRun(md5: Md5, w: World, actions: seq<Action>)
    requires Steady(md5, w) && forall k | 0 <= k < |actions| :: Proper(actions[k]) && FittingAction(actions[k])
    ensures SizesOk(w) && Steady(md5, Run(md5, w, actions))
    decreases |actions|
  {
    SteadySizes(md5, w);
    hide Steady, Act, SizesOk, Proper, FittingAction;
    if actions != [] {
      ActSteady(md5, w, actions[0]);
      SteadySizes(md5, Act(md5, w, actions[0]));
      SteadyRun(md5, Act(md5, w, actions[0]), actions[1..]);
    }
  }
}
