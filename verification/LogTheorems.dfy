/** What a run of the logger leaves in its files. */
module LogTheorems {
  import opened Options
  import opened Frames
  import opened LogState
  import opened UploadModel
  import opened LogRuns
  import opened LogPackets

  // ---- the record of calls ----

  /** The packets handed to the logger, in order. */
  function Calls(actions: seq<Action>): seq<Frame>
  {
    if actions == [] then []
    else
      (match actions[0]
       case Record(f, _) => [f]
       case Handle(f, _, _) => [f]
       case _ => []) + Calls(actions[1..])
  }

  lemma ActCalls(md5: Md5, w: World, a: Action)
    requires SizesOk(w)
    ensures Act(md5, w, a).store.recorded == w.store.recorded + Calls([a])
  {
    hide Bytes, FileHash, FileSize, NoDataReject;
    assert [a][1..] == [];
    match a
    case EraseAll(works, headers) =>
      var c := Closed(md5, w.store);
      EraseContents(c, Listed(c.sizes, 0), works);
    case Upload(c) =>
      ListedInRange(w.store.sizes, 0);
      UploadContents(md5, w.(lastCycle := c.now), Listed(w.store.sizes, 0), c.exchanges, c.now, c.duration);
    case _ =>
  }

  lemma {:induction false} RunCalls(md5: Md5, w: World, actions: seq<Action>)
    requires SizesOk(w)
    ensures Run(md5, w, actions).store.recorded == w.store.recorded + Calls(actions)
    decreases |actions|
  {
    hide Act, SizesOk;
    if actions != [] {
      ActCalls(md5, w, actions[0]);
      RunCalls(md5, Act(md5, w, actions[0]), actions[1..]);
      assert [actions[0]][1..] == [] && Calls([]) == [];
      assert Calls(actions) == Calls([actions[0]]) + Calls(actions[1..]);
    } else {
      assert w.store.recorded + [] == w.store.recorded;
    }
  }

  lemma BeginOrderly(md5: Md5, disk: map<nat, seq<Entry>>, headers: seq<Frame>)
    ensures Orderly(Begin(md5, disk, headers).store, |OldLogs(disk, MAX_LOG_FILES)|)
    ensures Begin(md5, disk, headers).store.recorded == []
  {
    hide OldLogs, Bytes, FileSize, FileHash, LogOk;
    var b := Booted(md5, disk);
    assert Flat(b.logs, |b.logs|, |b.logs|) == [];
    StartedOrderly(b, |b.logs|, headers);
  }

  /** Over any run from boot: reading the files made in it in the order of their creation, and leaving
      out start-of-file packets and requests, gives exactly the packets handed to the logger; in each
      file a packet without data has the request before it, and there is at most one request. */
  lemma RotationKeepsPackets(md5: Md5, disk: map<nat, seq<Entry>>, headers: seq<Frame>, actions: seq<Action>)
    ensures SizesOk(Begin(md5, disk, headers))
    ensures
      var (logs, boot) := (Run(md5, Begin(md5, disk, headers), actions).store.logs, |OldLogs(disk, MAX_LOG_FILES)|);
      && Flat(logs, boot, |logs|) == Calls(actions)
      && forall i | boot <= i < |logs| :: LogShape(logs[i].entries)
  {
    hide Begin, Run, OldLogs, Calls;
    BeginSizes(md5, disk, headers);
    var w, boot := Begin(md5, disk, headers), |OldLogs(disk, MAX_LOG_FILES)|;
    BeginOrderly(md5, disk, headers);
    RunOrderly(md5, w, actions, boot);
    RunCalls(md5, w, actions);
    hide LogShape, Flat;
    var logs := Run(md5, w, actions).store.logs;
    assert [] + Calls(actions) == Calls(actions);
    forall i | boot <= i < |logs| ensures LogShape(logs[i].entries) {
      assert LogOk(logs[i]);
    }
  }

  lemma BeginSizes(md5: Md5, disk: map<nat, seq<Entry>>, headers: seq<Frame>)
    ensures SizesOk(Begin(md5, disk, headers))
  {
    hide OldLogs, FileSize, FileHash;
  }

  // ---- reading a file back ----

  function FramesOf(es: seq<Entry>): (r: seq<Frame>)
    ensures |r| == |es|
  {
    if es == [] then [] else FramesOf(es[..|es| - 1]) + [es[|es| - 1].frame]
  }

  lemma {:induction false} BytesOfFrames(es: seq<Entry>)
    ensures Bytes(es) == EncodeAll(FramesOf(es))
  {
    hide Encode;
    if es != [] {
      BytesOfFrames(es[..|es| - 1]);
      var last := es[|es| - 1].frame;
      EncodeAppend(FramesOf(es[..|es| - 1]), [last]);
      assert [last][1..] == [] && EncodeAll([last]) == Encode(last);
    }
  }

  /** The reader finds in the bytes of a log exactly its packets, in order. */
  lemma LogReadsBack(es: seq<Entry>)
    requires AllEncodable(FramesOf(es))
    ensures ReadPackets(Bytes(es)) == FramesOf(es)
  {
    BytesOfFrames(es);
    ReadBack(FramesOf(es));
  }

  // ---- headers and requests ----

  lemma {:induction false} HeadersAreWritten(headers: seq<Frame>)
    ensures FramesOf(HeaderEntries(headers)) == headers
    ensures forall i | 0 <= i < |headers| :: HeaderEntries(headers)[i] == Header(headers[i])
  {
    if headers != [] {
      HeadersAreWritten(headers[..|headers| - 1]);
    }
  }

  /** A log that has just been started reads as the packets it was started with. */
  lemma StartedReadsBack(s: Store, headers: seq<Frame>)
    requires AllEncodable(headers)
    ensures
      var r := Started(s, headers);
      && r.current in r.disk && r.disk[r.current] == r.output && !r.emitted
      && ReadPackets(Bytes(r.output)) == headers
  {
    hide Bytes, ReadPackets, NextFree, Marked;
    HeadersAreWritten(headers);
    LogReadsBack(HeaderEntries(headers));
  }

  /** The reader of an algorithm request: two strings, each behind its length. */
  function RequestFields(buffer: seq<byte>): Option<(seq<byte>, seq<byte>)>
  {
    if |buffer| < 4 then None
    else
      var n := FromLittleEndian(buffer[..4]);
      if |buffer| < 4 + n + 4 then None
      else
        var m := FromLittleEndian(buffer[4 + n..4 + n + 4]);
        if |buffer| < 4 + n + 4 + m then None
        else Some((buffer[4..4 + n], buffer[4 + n + 4..4 + n + 4 + m]))
  }

  lemma FieldsReadBack(a: seq<byte>, b: seq<byte>)
    requires |a| < WORD && |b| < WORD
    ensures RequestFields(LittleEndian(|a|, 4) + a + LittleEndian(|b|, 4) + b) == Some((a, b))
  {
    WordFits(|a|);
    WordFits(|b|);
    hide LittleEndian, FromLittleEndian, RequestFields;
    FourPieces(LittleEndian(|a|, 4), a, LittleEndian(|b|, 4), b);
    FieldsAreRead(LittleEndian(|a|, 4) + a + LittleEndian(|b|, 4) + b, LittleEndian(|a|, 4), a, LittleEndian(|b|, 4), b);
  }

  lemma FieldsAreRead(s: seq<byte>, n: seq<byte>, a: seq<byte>, m: seq<byte>, b: seq<byte>)
    requires |n| == |m| == 4 && |s| == 8 + |a| + |b| && FromLittleEndian(n) == |a| && FromLittleEndian(m) == |b|
    requires s[..4] == n && s[4..4 + |a|] == a && s[4 + |a|..8 + |a|] == m && s[8 + |a|..8 + |a| + |b|] == b
    ensures RequestFields(s) == Some((a, b))
  {
    hide FromLittleEndian;
  }

  lemma FourPieces<T>(n: seq<T>, a: seq<T>, m: seq<T>, b: seq<T>)
    ensures
      var (s, i, j) := (n + a + m + b, |n| + |a|, |n| + |a| + |m|);
      && |s| == j + |b|
      && s[..|n|] == n && s[|n|..i] == a && s[i..j] == m && s[j..j + |b|] == b
  {
  }

  /** A string is stored as the codes of its characters. */
  lemma {:induction false} AsciiAt(s: string, i: nat)
    requires (forall j | 0 <= j < |s| :: s[j] < 128 as char) && i < |s|
    ensures Ascii(s)[i] == s[i] as int
  {
    if i > 0 {
      AsciiAt(s[1..], i - 1);
    }
  }

  lemma NameIsText(i: nat)
    requires i < 12
    ensures RequestName()[i] == "nodatareject"[i] as int
  {
    AsciiAt("nodatareject", i);
  }

  lemma ParametersAreText(i: nat)
    requires i < 9
    ensures RequestParameters()[i] == "phase=raw"[i] as int
  {
    AsciiAt("phase=raw", i);
  }

  /** The request a logger writes is read as one for the algorithm "nodatareject" with "phase=raw". */
  lemma RequestReadsBack()
    ensures NoDataReject().id == 13
    ensures RequestFields(NoDataReject().payload) == Some((RequestName(), RequestParameters()))
    ensures forall i | 0 <= i < 12 :: RequestName()[i] == "nodatareject"[i] as int
    ensures forall i | 0 <= i < 9 :: RequestParameters()[i] == "phase=raw"[i] as int
  {
    hide RequestName, RequestParameters, RequestFields, LittleEndian;
    FieldsReadBack(RequestName(), RequestParameters());
    forall i | 0 <= i < 12 ensures RequestName()[i] == "nodatareject"[i] as int {
      NameIsText(i);
    }
    forall i | 0 <= i < 9 ensures RequestParameters()[i] == "phase=raw"[i] as int {
      ParametersAreText(i);
    }
  }
}
