/** What the log files hold: the recorded packets, in order and whole, behind the requests they need. */
module LogPackets {
  import opened Frames
  import opened LogState
  import opened UploadModel
  import opened LogRuns

  /** The packets of a file that came through `Record`, in order. */
  function DataOf(es: seq<Entry>): seq<Frame>
  {
    if es == [] then []
    else
      var last := es[|es| - 1];
      DataOf(es[..|es| - 1]) + (if last.Data? then [last.frame] else [])
  }

  function Requests(es: seq<Entry>): nat
  {
    if es == [] then 0 else Requests(es[..|es| - 1]) + (if es[|es| - 1].Request? then 1 else 0)
  }

  /** Headers stand first; every packet marked as lacking data has a request before it in the same file,
      and the file holds at most one request. */
  predicate LogShape(es: seq<Entry>)
  {
    && Requests(es) <= 1
    && (forall i | 0 <= i < |es| && es[i].Request? :: es[i].frame == NoDataReject())
    && (forall i, j | 0 <= i < j < |es| && es[j].Header? :: es[i].Header?)
    && forall i | 0 <= i < |es| && es[i].Data? && es[i].noData :: Requests(es[..i]) == 1
  }

  predicate LogOk(log: Log) { LogShape(log.entries) }

  /** The recorded packets of logs boot..n, file after file in the order of creation. */
  function Flat(logs: seq<Log>, boot: nat, n: nat): seq<Frame>
    requires n <= |logs|
  {
    if n <= boot then [] else Flat(logs, boot, n - 1) + DataOf(logs[n - 1].entries)
  }

  /** Logs from number `boot` on were made in this run. */
  predicate Orderly(s: Store, boot: nat)
  {
    && s.isOpen && boot < |s.logs| && s.logs[|s.logs| - 1].entries == s.output
    && (forall i | boot <= i < |s.logs| :: LogOk(s.logs[i]))
    && Flat(s.logs, boot, |s.logs|) == s.recorded
    && (s.emitted <==> Requests(s.output) == 1)
  }

  predicate SameContents(a: seq<Log>, b: seq<Log>, n: nat)
  {
    n <= |a| && n <= |b| && forall i | 0 <= i < n :: a[i].entries == b[i].entries
  }

  lemma {:induction false} FlatSame(a: seq<Log>, b: seq<Log>, boot: nat, n: nat)
    requires SameContents(a, b, n)
    ensures Flat(a, boot, n) == Flat(b, boot, n)
  {
    hide DataOf;
    if n > boot {
      FlatSame(a, b, boot, n - 1);
    }
  }

  // ---- one packet more ----

  lemma ShapeAppend(es: seq<Entry>, e: Entry)
    requires LogShape(es) && !e.Header?
    requires e.Request? ==> Requests(es) == 0 && e.frame == NoDataReject()
    requires e.Data? && e.noData ==> Requests(es) == 1
    ensures LogShape(es + [e])
    ensures Requests(es + [e]) == Requests(es) + (if e.Request? then 1 else 0)
    ensures DataOf(es + [e]) == DataOf(es) + (if e.Data? then [e.frame] else [])
  {
    hide NoDataReject;
    var t := es + [e];
    assert t[..|es|] == es;
    forall i | 0 <= i < |t| && t[i].Data? && t[i].noData ensures Requests(t[..i]) == 1 {
      if i < |es| {
        assert t[..i] == es[..i];
      }
    }
  }

  lemma BytesAppend(es: seq<Entry>, e: Entry)
    ensures Bytes(es + [e]) == Bytes(es) + Encode(e.frame)
  {
    assert (es + [e])[..|es|] == es;
  }

  lemma {:induction false} OnlyHeaders(headers: seq<Frame>)
    ensures
      var es := HeaderEntries(headers);
      Requests(es) == 0 && DataOf(es) == [] && forall i | 0 <= i < |es| :: es[i].Header?
  {
    if headers != [] {
      OnlyHeaders(headers[..|headers| - 1]);
      var es := HeaderEntries(headers[..|headers| - 1]);
      HeaderAdds(es, headers[|headers| - 1]);
      hide Requests, DataOf;
    }
  }

  lemma HeaderAdds(es: seq<Entry>, f: Frame)
    ensures Requests(es + [Header(f)]) == Requests(es) && DataOf(es + [Header(f)]) == DataOf(es)
  {
    assert (es + [Header(f)])[..|es|] == es;
    assert DataOf(es) + [] == DataOf(es);
  }

  lemma HeaderShape(headers: seq<Frame>)
    ensures
      var es := HeaderEntries(headers);
      && LogShape(es) && Requests(es) == 0 && DataOf(es) == []
      && forall i | 0 <= i < |es| :: es[i].Header?
  {
    OnlyHeaders(headers);
    hide NoDataReject, Requests, DataOf, HeaderEntries;
  }

  // ---- each step ----

  /** What the store says of its logs while none is open. */
  predicate Filed(logs: seq<Log>, boot: nat, recorded: seq<Frame>)
  {
    && boot <= |logs|
    && (forall i | boot <= i < |logs| :: LogOk(logs[i]))
    && Flat(logs, boot, |logs|) == recorded
  }

  lemma FiledSame(a: seq<Log>, b: seq<Log>, boot: nat, recorded: seq<Frame>)
    requires Filed(a, boot, recorded) && |a| == |b| && SameContents(a, b, |a|)
    ensures Filed(b, boot, recorded)
  {
    FlatSame(a, b, boot, |a|);
    hide LogShape, Flat;
    forall i | boot <= i < |b| ensures LogOk(b[i]) {
      assert LogOk(a[i]);
    }
  }

  lemma FiledPush(logs: seq<Log>, boot: nat, recorded: seq<Frame>, log: Log)
    requires Filed(logs, boot, recorded) && LogOk(log) && DataOf(log.entries) == []
    ensures Filed(logs + [log], boot, recorded)
  {
    hide LogOk, DataOf;
    var t := logs + [log];
    FlatSame(logs, t, boot, |logs|);
    assert recorded + [] == recorded;
    assert forall i | boot <= i < |logs| :: t[i] == logs[i];
  }

  lemma StartedOrderly(s: Store, boot: nat, headers: seq<Frame>)
    requires Filed(s.logs, boot, s.recorded)
    ensures Orderly(Started(s, headers), boot)
  {
    var t, es := Started(s, headers), HeaderEntries(headers);
    var marked := Marked(s.logs, t.current, Overwritten);
    HeaderShape(headers);
    hide NextFree, HeaderEntries, LogShape, Filed, Requests, DataOf, Bytes;
    FiledSame(s.logs, marked, boot, s.recorded);
    assert LogOk(Log(t.current, es, Kept));
    FiledPush(marked, boot, s.recorded, Log(t.current, es, Kept));
    assert boot <= |s.logs| by { FiledLength(s.logs, boot, s.recorded); }
    FiledOpen(t, boot);
  }

  lemma FiledLength(logs: seq<Log>, boot: nat, recorded: seq<Frame>)
    requires Filed(logs, boot, recorded)
    ensures boot <= |logs|
  {
  }

  /** The packet joins the newest log. */
  lemma WrittenOrderly(s: Store, boot: nat, f: Frame, noData: bool)
    requires Orderly(s, boot) && (noData ==> s.emitted)
    ensures
      var w := Written(s, Data(f, noData));
      && Filed(w.logs, boot, s.recorded + [f])
      && w.isOpen && boot < |w.logs| && w.logs[|w.logs| - 1].entries == w.output
      && (w.emitted <==> Requests(w.output) == 1)
      && |w.output| == |s.output| + 1
  {
    hide Bytes, LogShape, Flat, DataOf, Requests, Filed, LogOk, Written, Orderly;
    OrderlyOpen(s, boot);
    WrittenLast(s, Data(f, noData));
    DataAppended(s, boot, f, noData);
    OrderlyFiled(s, boot);
    var (es, last) := (s.output + [Data(f, noData)], s.logs[|s.logs| - 1]);
    ShapeOk(last.(entries := es));
    LastReplaced(s.logs, boot, s.recorded, last.(entries := es), [f]);
  }

  lemma OrderlyOpen(s: Store, boot: nat)
    requires Orderly(s, boot)
    ensures s.isOpen && boot < |s.logs| && s.logs[|s.logs| - 1].entries == s.output
    ensures s.emitted <==> Requests(s.output) == 1
  {
    hide LogOk, Flat, Requests;
  }

  lemma ShapeOk(log: Log)
    requires LogShape(log.entries)
    ensures LogOk(log)
  {
    hide LogShape;
  }

  lemma WrittenLast(s: Store, e: Entry)
    requires s.logs != []
    ensures
      var (w, n) := (Written(s, e), |s.logs| - 1);
      && w.output == s.output + [e] && w.logs == s.logs[n := s.logs[n].(entries := s.output + [e])]
      && w.isOpen == s.isOpen && w.emitted == s.emitted && w.recorded == s.recorded
  {
  }

  lemma DataAppended(s: Store, boot: nat, f: Frame, noData: bool)
    requires Orderly(s, boot) && (noData ==> s.emitted)
    ensures
      var es := s.output + [Data(f, noData)];
      && LogShape(es)
      && Requests(es) == Requests(s.output) && DataOf(es) == DataOf(s.output) + [f]
  {
    ShapeStays(s, boot);
    ShapeAppend(s.output, Data(f, noData));
    hide Bytes, LogShape, Flat, DataOf, Requests;
    assert (s.output + [Data(f, noData)])[..|s.output|] == s.output;
  }

  /** The newest log with more packets in it. */
  lemma LastReplaced(logs: seq<Log>, boot: nat, recorded: seq<Frame>, log: Log, more: seq<Frame>)
    requires Filed(logs, boot, recorded) && boot < |logs| && LogOk(log)
    requires DataOf(log.entries) == DataOf(logs[|logs| - 1].entries) + more
    ensures Filed(logs[|logs| - 1 := log], boot, recorded + more)
  {
    hide LogOk, DataOf;
    var last := |logs| - 1;
    var t := logs[last := log];
    FlatSame(logs, t, boot, last);
    assert Flat(logs, boot, last) + (DataOf(logs[last].entries) + more) == recorded + more;
    assert forall i | boot <= i < last :: t[i] == logs[i];
  }

  lemma ShapeStays(s: Store, boot: nat)
    requires Orderly(s, boot)
    ensures LogShape(s.output)
  {
    assert LogOk(s.logs[|s.logs| - 1]);
  }

  lemma RecordedOrderly(md5: Md5, s: Store, boot: nat, f: Frame, noData: bool, headers: seq<Frame>)
    requires |s.sizes| == |s.hashes| == MAX_LOG_FILES
    requires Orderly(s, boot) && (noData ==> s.emitted)
    ensures Orderly(Recorded(md5, s, f, noData, headers), boot)
  {
    hide Bytes, Written, Filed, Started, Flat, LogOk, Requests;
    WrittenOrderly(s, boot, f, noData);
    var w := Written(s, Data(f, noData)).(recorded := s.recorded + [f]);
    if |Bytes(w.output)| > MAX_LOG_FILE_SIZE {
      assert Closed(md5, w).logs == w.logs && Closed(md5, w).recorded == w.recorded;
      StartedOrderly(Closed(md5, w), boot, headers);
    } else {
      FiledOpen(w, boot);
    }
  }

  lemma FiledOpen(w: Store, boot: nat)
    requires Filed(w.logs, boot, w.recorded) && w.isOpen && boot < |w.logs|
    requires w.logs[|w.logs| - 1].entries == w.output && (w.emitted <==> Requests(w.output) == 1)
    ensures Orderly(w, boot)
  {
  }

  lemma OrderlyFiled(w: Store, boot: nat)
    requires Orderly(w, boot)
    ensures Filed(w.logs, boot, w.recorded)
  {
  }

  lemma RequestedOrderly(s: Store, boot: nat)
    requires Orderly(s, boot)
    ensures Orderly(Requested(s), boot) && Requested(s).emitted
  {
    if !s.emitted {
      RequestFiled(s, boot);
      hide Written, Orderly, NoDataReject;
      FlagOrderly(Written(s, Request(NoDataReject())), boot);
    }
  }

  lemma FlagOrderly(w: Store, boot: nat)
    requires Filed(w.logs, boot, w.recorded) && w.isOpen && boot < |w.logs|
    requires w.logs[|w.logs| - 1].entries == w.output && Requests(w.output) == 1
    ensures Orderly(w.(emitted := true), boot)
  {
    hide *;
    FiledOpen(w.(emitted := true), boot);
  }

  /** The request joins the newest log. */
  lemma RequestFiled(s: Store, boot: nat)
    requires Orderly(s, boot) && !s.emitted
    ensures
      var w := Written(s, Request(NoDataReject()));
      && Filed(w.logs, boot, w.recorded) && w.isOpen && boot < |w.logs|
      && w.logs[|w.logs| - 1].entries == w.output && Requests(w.output) == 1
  {
    hide Bytes, LogShape, Flat, DataOf, Requests, Filed, LogOk, Written, Orderly, NoDataReject;
    OrderlyOpen(s, boot);
    WrittenLast(s, Request(NoDataReject()));
    RequestAppended(s, boot);
    OrderlyFiled(s, boot);
    var (es, last) := (s.output + [Request(NoDataReject())], s.logs[|s.logs| - 1]);
    ShapeOk(last.(entries := es));
    assert DataOf(s.output) + [] == DataOf(s.output) && s.recorded + [] == s.recorded;
    LastReplaced(s.logs, boot, s.recorded, last.(entries := es), []);
  }

  lemma RequestAppended(s: Store, boot: nat)
    requires Orderly(s, boot) && !s.emitted
    ensures
      var es := s.output + [Request(NoDataReject())];
      LogShape(es) && Requests(es) == 1 && DataOf(es) == DataOf(s.output)
  {
    hide LogShape, NoDataReject;
    ShapeStays(s, boot);
    ZeroOrOne(s.output);
    ShapeAppend(s.output, Request(NoDataReject()));
    hide Bytes, Flat, DataOf, Requests;
    assert DataOf(s.output) + [] == DataOf(s.output);
  }

  lemma ZeroOrOne(es: seq<Entry>)
    requires LogShape(es)
    ensures Requests(es) == 0 || Requests(es) == 1
  {
  }

  lemma {:induction false} UploadContents(md5: Md5, w: World, numbers: seq<nat>, xs: seq<Exchange>,
                                          start: nat, duration: nat)
    requires SizesOk(w) && forall i | 0 <= i < |numbers| :: numbers[i] < MAX_LOG_FILES
    ensures
      var (s, t) := (w.store, UploadEach(md5, w, numbers, xs, start, duration).store);
      && |s.logs| == |t.logs| && SameContents(s.logs, t.logs, |s.logs|)
      && t.isOpen == s.isOpen && t.output == s.output && t.emitted == s.emitted && t.recorded == s.recorded
    decreases |numbers|
  {
    hide Served, Elapsed;
    if numbers != [] && xs != [] {
      UploadContents(md5, UploadOne(md5, w, numbers[0], xs[0]), numbers[1..], xs[1..], start, duration);
    }
  }

  lemma {:induction false} EraseContents(s: Store, numbers: seq<nat>, works: nat -> bool)
    requires |s.sizes| == |s.hashes| == MAX_LOG_FILES
    ensures
      var t := EraseEach(s, numbers, works);
      && |s.logs| == |t.logs| && SameContents(s.logs, t.logs, |s.logs|) && t.recorded == s.recorded
    decreases |numbers|
  {
    if numbers != [] {
      EraseContents(EraseOne(s, numbers[0], works(numbers[0])), numbers[1..], works);
    }
  }

  lemma SameOrderly(s: Store, t: Store, boot: nat)
    requires Orderly(s, boot)
    requires |s.logs| == |t.logs| && SameContents(s.logs, t.logs, |s.logs|)
    requires t.isOpen == s.isOpen && t.output == s.output && t.emitted == s.emitted && t.recorded == s.recorded
    ensures Orderly(t, boot)
  {
    hide LogOk, Flat, Requests;
    OrderlyFiled(s, boot);
    FiledSame(s.logs, t.logs, boot, s.recorded);
    FiledOpen(t, boot);
  }

  lemma ActOrderly(md5: Md5, w: World, a: Action, boot: nat)
    requires SizesOk(w) && Orderly(w.store, boot)
    ensures Orderly(Act(md5, w, a).store, boot)
  {
    hide Orderly, Recorded, Handled, Stepped, EraseOne, ErasedAll, Updated, Cycled;
    var s := w.store;
    match a
    case Record(f, headers) => RecordedOrderly(md5, s, boot, f, false, headers);
    case Handle(f, noData, headers) => HandledOrderly(md5, s, boot, f, noData, headers);
    case StepLog(headers) => SteppedOrderly(md5, s, boot, headers);
    case Erase(n, works) => ErasedOrderly(s, boot, n, works);
    case EraseAll(works, headers) => ErasedAllOrderly(md5, s, boot, works, headers);
    case HashFile(n) => HashedOrderly(md5, s, boot, n);
    case Upload(c) => CycledOrderly(md5, w, c, boot);
  }

  lemma ErasedOrderly(s: Store, boot: nat, n: nat, works: bool)
    requires |s.sizes| == |s.hashes| == MAX_LOG_FILES && Orderly(s, boot)
    ensures Orderly(EraseOne(s, n, works), boot)
  {
    hide Orderly;
    SameOrderly(s, EraseOne(s, n, works), boot);
  }

  lemma HashedOrderly(md5: Md5, s: Store, boot: nat, n: nat)
    requires |s.sizes| == |s.hashes| == MAX_LOG_FILES && Orderly(s, boot)
    ensures Orderly(Updated(md5, s, n), boot)
  {
    hide Orderly, FileSize, FileHash;
    SameOrderly(s, Updated(md5, s, n), boot);
  }

  lemma HandledOrderly(md5: Md5, s: Store, boot: nat, f: Frame, noData: bool, headers: seq<Frame>)
    requires |s.sizes| == |s.hashes| == MAX_LOG_FILES && Orderly(s, boot)
    ensures Orderly(Handled(md5, s, f, noData, headers), boot)
  {
    hide Recorded, Requested, Orderly;
    if noData {
      RequestedOrderly(s, boot);
    }
    RecordedOrderly(md5, if noData then Requested(s) else s, boot, f, noData, headers);
  }

  lemma SteppedOrderly(md5: Md5, s: Store, boot: nat, headers: seq<Frame>)
    requires |s.sizes| == |s.hashes| == MAX_LOG_FILES && Orderly(s, boot)
    ensures Orderly(Stepped(md5, s, headers), boot)
  {
    OrderlyFiled(s, boot);
    hide Filed, Orderly, Started;
    StartedOrderly(Closed(md5, s), boot, headers);
  }

  lemma CycledOrderly(md5: Md5, w: World, c: Cycle, boot: nat)
    requires SizesOk(w) && Orderly(w.store, boot)
    ensures Orderly(Cycled(md5, w, c).store, boot)
  {
    hide Orderly, UploadEach, Elapsed, Listed;
    var s := w.store;
    ListedInRange(s.sizes, 0);
    var w1 := w.(lastCycle := c.now);
    UploadContents(md5, w1, Listed(s.sizes, 0), c.exchanges, c.now, c.duration);
    SameOrderly(s, UploadEach(md5, w1, Listed(s.sizes, 0), c.exchanges, c.now, c.duration).store, boot);
  }

  lemma ErasedAllOrderly(md5: Md5, s: Store, boot: nat, works: nat -> bool, headers: seq<Frame>)
    requires |s.sizes| == |s.hashes| == MAX_LOG_FILES && Orderly(s, boot)
    ensures Orderly(ErasedAll(md5, s, works, headers), boot)
  {
    OrderlyFiled(s, boot);
    hide Orderly, Filed, Started, EraseEach, Listed, FileSize, FileHash;
    var c := Closed(md5, s);
    EraseContents(c, Listed(c.sizes, 0), works);
    var e := EraseEach(c, Listed(c.sizes, 0), works);
    FiledSame(c.logs, e.logs, boot, s.recorded);
    StartedOrderly(e, boot, headers);
  }

  lemma {:induction false} RunOrderly(md5: Md5, w: World, actions: seq<Action>, boot: nat)
    requires SizesOk(w) && Orderly(w.store, boot)
    ensures Orderly(Run(md5, w, actions).store, boot)
    decreases |actions|
  {
    hide Act, Orderly, SizesOk;
    if actions != [] {
      ActOrderly(md5, w, actions[0], boot);
      RunOrderly(md5, Act(md5, w, actions[0]), actions[1..], boot);
    }
  }
}
