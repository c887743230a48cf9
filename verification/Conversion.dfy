/** The conversion of NMEA2000 files: what is counted, and what is written. */
module Conversion {
  import opened Options
  import opened Frames
  import opened CanId
  import opened LogState
  import opened LogPackets
  import opened Tallies

  /** A packet as the converter sees it: its payload when it is of a kind that is converted, and whether a
      field of it holds no data. */
  datatype Item = Item(pgn: bv32, source: bv32, converted: Option<Frame>, noData: bool)

  type Counts = map<bv32, nat>

  /** The part of the counts whose tag gives a certain source. */
  function OfSource(m: Counts, source: bv32): Counts { Part(m, TagSource, source) }

  /** The part of the counts whose tag gives a certain PGN. */
  function OfPgn(m: Counts, pgn: bv32): Counts { Part(m, TagPgn, pgn) }

  // ---- writing ----

  /** The serialiser: packets not written yet that every file starts with, and the file. */
  datatype Output = Output(version: Option<Frame>, metadata: Option<Frame>, written: seq<Entry>)

  const PKT_VERSION := 0

  function FlushedVersion(o: Output): Output
  {
    if o.version.Some? then o.(version := None, written := o.written + [Header(o.version.value)]) else o
  }

  function FlushedMetadata(o: Output): Output
  {
    if o.metadata.Some? then o.(metadata := None, written := o.written + [Header(o.metadata.value)]) else o
  }

  /** One call of `Process`. */
  function Processed(o: Output, e: Entry): Output
  {
    if e.frame.id == PKT_VERSION then o
    else
      var f := FlushedMetadata(FlushedVersion(o));
      f.(written := f.written + [e])
  }

  class Serialiser {
    var version: Option<Frame>
    var metadata: Option<Frame>
    var written: seq<Entry>

    /** Both packets are prepared, and neither is written yet. */
    constructor (version: Frame, metadata: Frame)
      ensures Now() == Output(Some(version), Some(metadata), [])
    {
      this.version, this.metadata, written := Some(version), Some(metadata), [];
    }

    function Now(): Output
      reads this
    {
      Output(version, metadata, written)
    }

    method Process(e: Entry) returns (ok: bool)
      modifies this
      ensures Now() == Processed(old(Now()), e) && ok == (e.frame.id != PKT_VERSION)
    {
      if e.frame.id == PKT_VERSION {
        return false;
      }
      if version != None {
        written := written + [Header(version.value)];
        version := None;
      }
      if metadata != None {
        written := written + [Header(metadata.value)];
        metadata := None;
      }
      written := written + [e];
      ok := true;
    }
  }

  // ---- counting ----

  datatype Tally = Tally(
    packets: nat, control: nat, rejected: nat, conversions: nat, bad: nat, noData: nat,
    byPgn: Counts, byPair: Counts, bySource: Counts, noDataByPair: Counts,
    requested: bool, output: Output)

  /** A packet is counted before anything else. */
  function Counted(t: Tally, p: Item): Tally
  {
    t.(byPgn := Bump(t.byPgn, p.pgn), byPair := Bump(t.byPair, Tag(p.pgn, p.source)),
       bySource := Bump(t.bySource, p.source),
       control := if p.pgn == CONTROL then t.control + 1 else t.control, packets := t.packets + 1)
  }

  /** The first packet without data makes the request. */
  function Noted(t: Tally, p: Item): Tally
  {
    if !p.noData then t
    else
      t.(noData := t.noData + 1, noDataByPair := Bump(t.noDataByPair, Tag(p.pgn, p.source)), requested := true,
         output := if t.requested then t.output else Processed(t.output, Request(NoDataReject())))
  }

  function Emitted(t: Tally, p: Item): Tally
  {
    if p.converted.None? then t
    else
      var f := p.converted.value;
      t.(conversions := t.conversions + 1, output := Processed(t.output, Data(f, p.noData)),
         bad := if f.id == PKT_VERSION then t.bad + 1 else t.bad)
  }

  function Took(t: Tally, p: Item, reject: set<bv32>): Tally
  {
    var c := Counted(t, p);
    if p.source in reject then c.(rejected := c.rejected + 1) else Emitted(Noted(c, p), p)
  }

  function TookAll(t: Tally, ps: seq<Item>, reject: set<bv32>): Tally
  {
    if ps == [] then t else Took(TookAll(t, ps[..|ps| - 1], reject), ps[|ps| - 1], reject)
  }

  function Start(output: Output): Tally
  {
    Tally(0, 0, 0, 0, 0, 0, map[], map[], map[], map[], false, output)
  }

  class Converter {
    const ser: Serialiser
    const reject: set<bv32>
    var packets: nat
    var control: nat
    var rejected: nat
    var conversions: nat
    var bad: nat
    var noData: nat
    var byPgn: Counts
    var byPair: Counts
    var bySource: Counts
    var noDataByPair: Counts
    var requested: bool

    constructor (ser: Serialiser, reject: set<bv32>)
      ensures this.ser == ser && this.reject == reject && Now() == Start(ser.Now())
    {
      this.ser, this.reject := ser, reject;
      packets, control, rejected, conversions, bad, noData := 0, 0, 0, 0, 0, 0;
      byPgn, byPair, bySource, noDataByPair := map[], map[], map[], map[];
      requested := false;
    }

    function Now(): Tally
      reads this, ser
    {
      Tally(packets, control, rejected, conversions, bad, noData, byPgn, byPair, bySource, noDataByPair,
            requested, ser.Now())
    }

    method Take(p: Item)
      modifies this, ser
      ensures Now() == Took(old(Now()), p, reject)
    {
      hide Counted, Noted, Emitted;
      CountPacket(p);
      if p.source !in reject {
        Note(p);
        Emit(p);
      } else {
        rejected := rejected + 1;
      }
    }

    method CountPacket(p: Item)
      modifies this
      ensures Now() == Counted(old(Now()), p)
    {
      byPgn := Bump(byPgn, p.pgn);
      byPair := Bump(byPair, Tag(p.pgn, p.source));
      bySource := Bump(bySource, p.source);
      if p.pgn == CONTROL {
        control := control + 1;
      }
      packets := packets + 1;
    }

    method Note(p: Item)
      modifies this, ser
      ensures Now() == Noted(old(Now()), p)
    {
      hide NoDataReject, Processed;
      if p.noData {
        noData := noData + 1;
        noDataByPair := Bump(noDataByPair, Tag(p.pgn, p.source));
        if !requested {
          var ok := ser.Process(Request(NoDataReject()));
          requested := true;
        }
      }
    }

    method Emit(p: Item)
      modifies this, ser
      ensures Now() == Emitted(old(Now()), p)
    {
      hide Processed;
      if p.converted.Some? {
        conversions := conversions + 1;
        var ok := ser.Process(Data(p.converted.value, p.noData));
        if !ok {
          bad := bad + 1;
        }
      }
    }

    /** The conversion loop. */
    method Convert(source: seq<Item>)
      modifies this, ser
      ensures Now() == TookAll(old(Now()), source, reject)
    {
      hide Took;
      for i := 0 to |source|
        invariant Now() == TookAll(old(Now()), source[..i], reject)
      {
        assert source[..i + 1][..i] == source[..i];
        Take(source[i]);
      }
      assert source[..|source|] == source;
    }
  }

  // ---- the totals ----

  /** The PGN under which the statistics show a packet. */
  function Shown(pgn: bv32): bv32 { if pgn == CONTROL then 0xF_FFFF else pgn }

  /** The packet has the fields of some identifier, or is a control packet. */
  predicate Decoded(p: Item)
  {
    && TagSource(Tag(p.pgn, p.source)) == p.source && TagPgn(Tag(p.pgn, p.source)) == Shown(p.pgn)
    && p.pgn != 0xF_FFFF
  }

  /** The packet of any identifier is of this kind, and so is every packet read from a file. */
  lemma AddressedIsDecoded(id: bv32, converted: Option<Frame>, noData: bool)
    ensures Decoded(Item(Addressed(id).pgn, Addressed(id).source, converted, noData))
  {
    ControlTag();
    if id != 0xFFFF_FFFF {
      TagUnpacks(id);
      DecodedRange(id);
    }
    hide Tag, TagPgn, TagSource, CanIdToN2k;
  }

  predicate AllDecoded(ps: seq<Item>)
  {
    forall i | 0 <= i < |ps| :: Decoded(ps[i])
  }

  /** What the converter makes of the packets of a file. */
  function Items(msgs: seq<Msg>, convert: Msg -> (Option<Frame>, bool)): (r: seq<Item>)
    ensures |r| == |msgs|
    ensures forall i | 0 <= i < |r| ::
              r[i] == Item(msgs[i].pgn, msgs[i].source, convert(msgs[i]).0, convert(msgs[i]).1)
  {
    seq(|msgs|, i requires 0 <= i < |msgs| =>
      Item(msgs[i].pgn, msgs[i].source, convert(msgs[i]).0, convert(msgs[i]).1))
  }

  lemma {:induction false} FileIsDecoded(file: seq<byte>, convert: Msg -> (Option<Frame>, bool))
    ensures AllDecoded(Items(ReadAll(file), convert))
    decreases |file|
  {
    hide Decoded, Addressed;
    var r := NextRead(file);
    if r.Packet? {
      FileIsDecoded(r.rest, convert);
      var items, rest := Items(ReadAll(file), convert), Items(ReadAll(r.rest), convert);
      AddressedIsDecoded(Word(file[2..6]), items[0].converted, items[0].noData);
      assert Decoded(items[0]);
      forall i | 0 < i < |items| ensures Decoded(items[i]) {
        assert items[i] == rest[i - 1];
      }
    }
  }

  /** How often a PGN was counted, by the number it is shown under. */
  function CountShown(m: Counts, shown: bv32): nat
  {
    if shown == CONTROL then 0 else if shown == 0xF_FFFF then Count(m, CONTROL) else Count(m, shown)
  }

  /** What a packet can be counted as. */
  datatype Kind = HasPgn(pgn: bv32) | HasSource(source: bv32) | Rejected | LacksData | Converted | Refused

  predicate Is(p: Item, kind: Kind, reject: set<bv32>)
  {
    match kind
    case HasPgn(pgn) => p.pgn == pgn
    case HasSource(source) => p.source == source
    case Rejected => p.source in reject
    case LacksData => p.source !in reject && p.noData
    case Converted => p.source !in reject && p.converted.Some?
    case Refused => p.source !in reject && p.converted.Some? && p.converted.value.id == PKT_VERSION
  }

  function One(b: bool): nat { if b then 1 else 0 }

  function HowMany(ps: seq<Item>, kind: Kind, reject: set<bv32>): nat
  {
    if ps == [] then 0 else HowMany(ps[..|ps| - 1], kind, reject) + One(Is(ps[|ps| - 1], kind, reject))
  }

  /** All totals are the number of packets, and each counter is the number of packets of its kind. */
  ghost predicate Accounted(t: Tally, ps: seq<Item>, reject: set<bv32>)
  {
    && t.packets == Sum(t.byPgn) == Sum(t.bySource) == Sum(t.byPair) == |ps|
    && t.control == HowMany(ps, HasPgn(CONTROL), reject)
    && t.rejected == HowMany(ps, Rejected, reject)
    && t.noData == Sum(t.noDataByPair) == HowMany(ps, LacksData, reject)
    && t.conversions == HowMany(ps, Converted, reject) && t.bad == HowMany(ps, Refused, reject)
    && (t.requested <==> t.noData > 0)
  }

  lemma {:induction false} TotalsAgree(output: Output, ps: seq<Item>, reject: set<bv32>)
    ensures Accounted(TookAll(Start(output), ps, reject), ps, reject)
  {
    hide *;
    if ps == [] {
      NoneAccounted(output, ps, reject);
    } else {
      var n := |ps| - 1;
      var t, p := TookAll(Start(output), ps[..n], reject), ps[n];
      TotalsAgree(output, ps[..n], reject);
      OneAccounted(t, ps[..n], p, reject);
      TookLast(Start(output), ps, reject);
      Rejoined(ps);
    }
  }

  lemma Rejoined<T>(s: seq<T>)
    requires s != []
    ensures s[..|s| - 1] + [s[|s| - 1]] == s
  {
  }

  lemma NoneAccounted(output: Output, ps: seq<Item>, reject: set<bv32>)
    requires ps == []
    ensures Accounted(TookAll(Start(output), ps, reject), ps, reject)
  {
  }

  lemma TookLast(t: Tally, ps: seq<Item>, reject: set<bv32>)
    requires ps != []
    ensures TookAll(t, ps, reject) == Took(TookAll(t, ps[..|ps| - 1], reject), ps[|ps| - 1], reject)
  {
    hide Took;
  }

  lemma HowManyMore(ps: seq<Item>, p: Item, kind: Kind, reject: set<bv32>)
    ensures HowMany(ps + [p], kind, reject) == HowMany(ps, kind, reject) + One(Is(p, kind, reject))
  {
    hide Is;
    assert (ps + [p])[..|ps|] == ps;
  }

  lemma OneAccounted(t: Tally, ps: seq<Item>, p: Item, reject: set<bv32>)
    requires Accounted(t, ps, reject)
    ensures Accounted(Took(t, p, reject), ps + [p], reject)
  {
    hide Took, Sum, Is, HowMany;
    TookTotals(t, p, reject);
    TookCounts(t, p, reject);
    HowManyMore(ps, p, HasPgn(CONTROL), reject);
    HowManyMore(ps, p, Rejected, reject);
    HowManyMore(ps, p, LacksData, reject);
    HowManyMore(ps, p, Converted, reject);
    HowManyMore(ps, p, Refused, reject);
  }

  /** One packet's effect on the totals. */
  lemma TookTotals(t: Tally, p: Item, reject: set<bv32>)
    ensures
      var u := Took(t, p, reject);
      && u.packets == t.packets + 1 && Sum(u.byPgn) == Sum(t.byPgn) + 1
      && Sum(u.bySource) == Sum(t.bySource) + 1 && Sum(u.byPair) == Sum(t.byPair) + 1
      && u.control == t.control + One(Is(p, HasPgn(CONTROL), reject))
  {
    hide Took, Tag, Sum, Bump;
    CountedMaps(t, p, reject);
    SumBump(t.byPgn, p.pgn);
    SumBump(t.bySource, p.source);
    SumBump(t.byPair, Tag(p.pgn, p.source));
  }

  /** One packet's effect on the other counters. */
  lemma TookCounts(t: Tally, p: Item, reject: set<bv32>)
    ensures
      var u := Took(t, p, reject);
      && u.rejected == t.rejected + One(Is(p, Rejected, reject))
      && u.noData == t.noData + One(Is(p, LacksData, reject))
      && Sum(u.noDataByPair) == Sum(t.noDataByPair) + One(Is(p, LacksData, reject))
      && u.conversions == t.conversions + One(Is(p, Converted, reject))
      && u.bad == t.bad + One(Is(p, Refused, reject))
      && u.requested == (t.requested || Is(p, LacksData, reject))
  {
    hide Tag, Sum, Bump, Processed, NoDataReject;
    SumBump(t.noDataByPair, Tag(p.pgn, p.source));
  }

  /** The maps count each PGN and each source. */
  lemma {:induction false} MapsCount(output: Output, ps: seq<Item>, reject: set<bv32>, k: bv32)
    ensures
      var t := TookAll(Start(output), ps, reject);
      Count(t.byPgn, k) == HowMany(ps, HasPgn(k), reject) && Count(t.bySource, k) == HowMany(ps, HasSource(k), reject)
  {
    if ps != [] {
      hide *;
      var n := |ps| - 1;
      var t, p := TookAll(Start(output), ps[..n], reject), ps[n];
      MapsCount(output, ps[..n], reject, k);
      OneCounted(t, p, reject, k);
      TookLast(Start(output), ps, reject);
      Rejoined(ps);
      HowManyMore(ps[..n], p, HasPgn(k), reject);
      HowManyMore(ps[..n], p, HasSource(k), reject);
    }
  }

  lemma OneCounted(t: Tally, p: Item, reject: set<bv32>, k: bv32)
    ensures
      var u := Took(t, p, reject);
      && Count(u.byPgn, k) == Count(t.byPgn, k) + One(Is(p, HasPgn(k), reject))
      && Count(u.bySource, k) == Count(t.bySource, k) + One(Is(p, HasSource(k), reject))
  {
    hide Took, Count, Bump;
    CountedMaps(t, p, reject);
    CountBump(t.byPgn, p.pgn, k);
    CountBump(t.bySource, p.source, k);
  }

  /** For each source, the counts by pair of PGN and source add up to what was counted for that source; and
      likewise for each PGN as it is shown. */
  lemma {:induction false} PairsGroup(output: Output, ps: seq<Item>, reject: set<bv32>, source: bv32, shown: bv32)
    requires AllDecoded(ps)
    ensures
      var t := TookAll(Start(output), ps, reject);
      && Sum(OfSource(t.byPair, source)) == Count(t.bySource, source)
      && Sum(OfPgn(t.byPair, shown)) == CountShown(t.byPgn, shown)
  {
    if ps == [] {
      assert OfSource(map[], source) == map[] && OfPgn(map[], shown) == map[];
    } else {
      hide Took, TookAll, Start, Sum, OfSource, OfPgn, Count, Bump, Tag, CountShown;
      var n := |ps| - 1;
      var t, p := TookAll(Start(output), ps[..n], reject), ps[n];
      PairsGroup(output, ps[..n], reject, source, shown);
      CountedMaps(t, p, reject);
      TookLast(Start(output), ps, reject);
      GroupOne(t, p, source, shown);
    }
  }

  lemma CountedMaps(t: Tally, p: Item, reject: set<bv32>)
    ensures
      var u := Took(t, p, reject);
      && u.byPair == Bump(t.byPair, Tag(p.pgn, p.source)) && u.byPgn == Bump(t.byPgn, p.pgn)
      && u.bySource == Bump(t.bySource, p.source) && u.packets == t.packets + 1
      && u.control == if p.pgn == CONTROL then t.control + 1 else t.control
  {
    hide Bump, Tag, Noted, Emitted, Counted;
    CountedFields(t, p);
    var c := Counted(t, p);
    MapsKept(c, Noted(c, p), p);
  }

  lemma CountedFields(t: Tally, p: Item)
    ensures
      var c := Counted(t, p);
      && c.byPair == Bump(t.byPair, Tag(p.pgn, p.source)) && c.byPgn == Bump(t.byPgn, p.pgn)
      && c.bySource == Bump(t.bySource, p.source) && c.packets == t.packets + 1
      && c.control == if p.pgn == CONTROL then t.control + 1 else t.control
  {
    hide Bump, Tag;
  }

  /** What comes after the counting does not count. */
  lemma MapsKept(t: Tally, n: Tally, p: Item)
    requires n == Noted(t, p)
    ensures
      var e := Emitted(n, p);
      && e.byPair == n.byPair == t.byPair && e.byPgn == n.byPgn == t.byPgn && e.bySource == n.bySource == t.bySource
      && e.packets == n.packets == t.packets && e.control == n.control == t.control
  {
    hide Bump, Tag, Processed, NoDataReject;
  }

  lemma GroupOne(t: Tally, p: Item, source: bv32, shown: bv32)
    requires Decoded(p)
    requires Sum(OfSource(t.byPair, source)) == Count(t.bySource, source)
    requires Sum(OfPgn(t.byPair, shown)) == CountShown(t.byPgn, shown)
    ensures
      var tag := Tag(p.pgn, p.source);
      && Sum(OfSource(Bump(t.byPair, tag), source)) == Count(Bump(t.bySource, p.source), source)
      && Sum(OfPgn(Bump(t.byPair, tag), shown)) == CountShown(Bump(t.byPgn, p.pgn), shown)
  {
    var tag := Tag(p.pgn, p.source);
    hide Sum, Part, Tag, TagPgn, TagSource;
    PartBump(t.byPair, TagSource, tag, source);
    PartBump(t.byPair, TagPgn, tag, shown);
    SumBump(OfSource(t.byPair, source), tag);
    SumBump(OfPgn(t.byPair, shown), tag);
  }

  // ---- what the output looks like ----

  /** The file starts with its two headers, and what follows is neither header nor version packet. */
  predicate Opens(es: seq<Entry>, version: Frame, metadata: Frame)
  {
    && |es| >= 2 && es[0] == Header(version) && es[1] == Header(metadata)
    && forall i | 2 <= i < |es| :: !es[i].Header? && es[i].frame.id != PKT_VERSION
  }

  /** Nothing is written, or the file starts with the version and the metadata, and what follows is no
      version packet; requests and packets without data are as in a log of the logger. */
  predicate OutputOk(o: Output, version: Frame, metadata: Frame)
  {
    if o.written == [] then o == Output(Some(version), Some(metadata), [])
    else
      && o.version.None? && o.metadata.None? && |o.written| >= 3
      && Opens(o.written, version, metadata) && LogShape(o.written)
  }

  lemma StartOk(version: Frame, metadata: Frame)
    ensures OutputOk(Output(Some(version), Some(metadata), []), version, metadata)
    ensures Requests([]) == 0
  {
  }

  lemma ProcessedOk(o: Output, e: Entry, version: Frame, metadata: Frame)
    requires OutputOk(o, version, metadata) && !e.Header? && e.frame.id != PKT_VERSION
    requires e.Request? ==> Requests(o.written) == 0 && e.frame == NoDataReject()
    requires e.Data? && e.noData ==> Requests(o.written) == 1
    ensures OutputOk(Processed(o, e), version, metadata)
    ensures Requests(Processed(o, e).written) == Requests(o.written) + (if e.Request? then 1 else 0)
  {
    var es := Begun(o, version, metadata);
    BegunShape(o, version, metadata);
    ProcessedTo(o, e, version, metadata);
    hide NoDataReject, LogShape, Requests, Processed, OutputOk, Begun, Opens;
    ShapeAppend(es, e);
    OpensAppend(es, e, version, metadata);
    OpensIsOk(es + [e], version, metadata);
  }

  lemma OpensAppend(es: seq<Entry>, e: Entry, version: Frame, metadata: Frame)
    requires Opens(es, version, metadata) && !e.Header? && e.frame.id != PKT_VERSION
    ensures Opens(es + [e], version, metadata) && |es + [e]| >= 3
  {
    assert forall i | 2 <= i < |es| :: (es + [e])[i] == es[i];
  }

  lemma OpensIsOk(es: seq<Entry>, version: Frame, metadata: Frame)
    requires Opens(es, version, metadata) && |es| >= 3 && LogShape(es)
    ensures OutputOk(Output(None, None, es), version, metadata)
  {
    hide LogShape;
  }

  /** What stands in the file when the next packet is written. */
  function Begun(o: Output, version: Frame, metadata: Frame): seq<Entry>
  {
    if o.written == [] then [Header(version), Header(metadata)] else o.written
  }

  lemma BegunShape(o: Output, version: Frame, metadata: Frame)
    requires OutputOk(o, version, metadata)
    ensures
      var es := Begun(o, version, metadata);
      LogShape(es) && Requests(es) == Requests(o.written) && Opens(es, version, metadata)
  {
    HeadersShape(version, metadata);
    hide NoDataReject, LogShape, Requests;
  }

  lemma ProcessedTo(o: Output, e: Entry, version: Frame, metadata: Frame)
    requires OutputOk(o, version, metadata) && e.frame.id != PKT_VERSION
    ensures Processed(o, e) == Output(None, None, Begun(o, version, metadata) + [e])
  {
    hide LogShape;
    assert [] + [Header(version)] + [Header(metadata)] == [Header(version), Header(metadata)];
  }

  lemma HeadersShape(version: Frame, metadata: Frame)
    ensures
      var es := [Header(version), Header(metadata)];
      LogShape(es) && Requests(es) == 0 && Requests([]) == 0
  {
    hide NoDataReject;
    assert [Header(version), Header(metadata)][..1] == [Header(version)];
    assert [Header(version)][..0] == [];
    assert Requests([Header(version)]) == 0;
  }

  /** Whatever is converted, a file that is not empty starts with one version packet and the base metadata
      and has no other version packet; the request is made once, before the first packet without data. */
  lemma {:induction false} OutputShape(version: Frame, metadata: Frame, first: Option<Frame>, ps: seq<Item>, reject: set<bv32>)
    ensures
      var o := Output(Some(version), Some(metadata), []);
      var begun := if first.Some? then Processed(o, Data(first.value, false)) else o;
      var t := TookAll(Start(begun), ps, reject);
      && OutputOk(t.output, version, metadata)
      && (t.requested <==> Requests(t.output.written) == 1) && (!t.requested <==> Requests(t.output.written) == 0)
  {
    var o := Output(Some(version), Some(metadata), []);
    StartOk(version, metadata);
    if ps == [] {
      hide OutputOk, NoDataReject, LogShape;
      if first.Some? && first.value.id != PKT_VERSION {
        ProcessedOk(o, Data(first.value, false), version, metadata);
      }
    } else {
      var n := |ps| - 1;
      OutputShape(version, metadata, first, ps[..n], reject);
      var begun := if first.Some? then Processed(o, Data(first.value, false)) else o;
      TookOk(TookAll(Start(begun), ps[..n], reject), ps[n], reject, version, metadata);
      hide Took, OutputOk, Requests;
    }
  }

  /** A packet of an accepted source that was converted, and does not claim to be a version. */
  function PassedOne(p: Item, reject: set<bv32>): seq<Frame>
  {
    if p.source !in reject && p.converted.Some? && p.converted.value.id != PKT_VERSION then [p.converted.value] else []
  }

  function Passed(ps: seq<Item>, reject: set<bv32>): seq<Frame>
  {
    if ps == [] then []
    else Passed(ps[..|ps| - 1], reject) + PassedOne(ps[|ps| - 1], reject)
  }

  /** The output, less its headers and the request, is exactly the packets converted, in their order. */
  lemma {:induction false} OutputData(output: Output, ps: seq<Item>, reject: set<bv32>)
    ensures DataOf(TookAll(Start(output), ps, reject).output.written) == DataOf(output.written) + Passed(ps, reject)
  {
    hide Took, Start, DataOf, PassedOne;
    if ps == [] {
      NoOutput(output, reject);
      Joined(DataOf(output.written), [], []);
    } else {
      hide TookAll;
      var n := |ps| - 1;
      var t, p := TookAll(Start(output), ps[..n], reject), ps[n];
      OutputData(output, ps[..n], reject);
      TookLast(Start(output), ps, reject);
      TookData(t, p, reject);
      Joined(DataOf(output.written), Passed(ps[..n], reject), PassedOne(p, reject));
    }
  }

  lemma NoOutput(output: Output, reject: set<bv32>)
    ensures TookAll(Start(output), [], reject).output == output
  {
  }

  lemma Joined<T>(a: seq<T>, b: seq<T>, c: seq<T>)
    ensures a + (b + c) == a + b + c && (b == [] ==> a + b == a)
  {
  }

  lemma ProcessedData(o: Output, e: Entry)
    ensures DataOf(Processed(o, e).written)
         == DataOf(o.written) + (if e.Data? && e.frame.id != PKT_VERSION then [e.frame] else [])
  {
    var v := FlushedVersion(o);
    var f := FlushedMetadata(v);
    if o.version.Some? {
      DataMore(o.written, Header(o.version.value));
    }
    if o.metadata.Some? {
      DataMore(v.written, Header(o.metadata.value));
    }
    DataMore(f.written, e);
    hide DataOf;
  }

  lemma DataMore(es: seq<Entry>, e: Entry)
    ensures DataOf(es + [e]) == DataOf(es) + (if e.Data? then [e.frame] else [])
  {
    assert (es + [e])[..|es|] == es;
  }

  lemma TookData(t: Tally, p: Item, reject: set<bv32>)
    ensures DataOf(Took(t, p, reject).output.written) == DataOf(t.output.written) + PassedOne(p, reject)
  {
    var n := Noted(Counted(t, p), p);
    NotedData(Counted(t, p), p);
    EmittedData(n, p);
    hide DataOf, Noted, Emitted, Bump, Tag;
    assert DataOf(t.output.written) + [] == DataOf(t.output.written);
  }

  lemma NotedData(t: Tally, p: Item)
    ensures DataOf(Noted(t, p).output.written) == DataOf(t.output.written)
  {
    ProcessedData(t.output, Request(NoDataReject()));
    hide DataOf, Processed, NoDataReject, Bump, Tag;
    assert DataOf(t.output.written) + [] == DataOf(t.output.written);
  }

  lemma EmittedData(t: Tally, p: Item)
    ensures DataOf(Emitted(t, p).output.written)
         == if p.converted.Some? && p.converted.value.id != PKT_VERSION
            then DataOf(t.output.written) + [p.converted.value] else DataOf(t.output.written)
  {
    if p.converted.Some? {
      ProcessedData(t.output, Data(p.converted.value, p.noData));
    }
    hide DataOf, Processed;
    assert DataOf(t.output.written) + [] == DataOf(t.output.written);
  }

  predicate Writing(t: Tally, version: Frame, metadata: Frame)
  {
    && OutputOk(t.output, version, metadata)
    && (t.requested <==> Requests(t.output.written) == 1) && (!t.requested <==> Requests(t.output.written) == 0)
  }

  lemma TookOk(t: Tally, p: Item, reject: set<bv32>, version: Frame, metadata: Frame)
    requires Writing(t, version, metadata)
    ensures Writing(Took(t, p, reject), version, metadata)
  {
    hide OutputOk, Requests, NoDataReject, Processed, Bump, Tag;
    var c := Counted(t, p);
    if p.source !in reject {
      NotedOk(c, p, version, metadata);
      EmittedOk(Noted(c, p), p, version, metadata);
    }
  }

  lemma NotedOk(t: Tally, p: Item, version: Frame, metadata: Frame)
    requires Writing(t, version, metadata)
    ensures Writing(Noted(t, p), version, metadata) && (p.noData ==> Noted(t, p).requested)
  {
    RequestId();
    hide OutputOk, Requests, NoDataReject, Processed, Bump, Tag;
    if p.noData && !t.requested {
      ProcessedOk(t.output, Request(NoDataReject()), version, metadata);
    }
  }

  lemma RequestId()
    ensures NoDataReject().id == 13
  {
  }

  lemma EmittedOk(t: Tally, p: Item, version: Frame, metadata: Frame)
    requires Writing(t, version, metadata) && (p.noData ==> t.requested)
    ensures Writing(Emitted(t, p), version, metadata)
  {
    hide OutputOk, Requests, NoDataReject;
    if p.converted.Some? && p.converted.value.id != PKT_VERSION {
      ProcessedOk(t.output, Data(p.converted.value, p.noData), version, metadata);
    }
  }
}
