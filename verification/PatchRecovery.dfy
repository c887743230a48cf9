/** A hunk that breaks off: what the parser makes of the rest of the stream. */
module PatchRecovery {
  import opened Options
  import opened Text
  import opened PatchModel
  import opened PatchParse
  import opened PatchGrammar

  // ---- a broken hunk ----

  /** The lines have tags and places left, and do not use up the counts. */
  predicate Filling(text: seq<string>, src: nat, tgt: nat)
  {
    (src > 0 || tgt > 0)
    && (text == [] ||
        (&& text[0] != ""
         && (text[0][0] == ' ' || text[0][0] == '-' || text[0][0] == '+' || text[0][0] == '\\')
         && FromSource(text[0]) <= src && FromTarget(text[0]) <= tgt
         && Filling(text[1..], src - FromSource(text[0]), tgt - FromTarget(text[0]))))
  }

  /** A line that is no body line, and begins no hunk. */
  predicate Breaks(line: string) { !OnlyEol(line) && !IsTag(line[0]) && HunkHead(line).None? }

  /** Lines the parser passes over until it can go on. */
  predicate AreSkipped(lines: seq<string>)
  {
    lines == []
    || (HunkHead(lines[0]).None? && !StartsWith(lines[0], "--- ") && AreSkipped(lines[1..]))
  }

  predicate IsBroken(h: HunkPart)
  {
    HunkHead(h.head).Some?
    && Filling(ClaimedAll(h.body), HunkHead(h.head).value.linessrc, HunkHead(h.head).value.linestgt)
  }

  /** Passing over lines, after a hunk was given up. */
  function Skipping(e: nat, items: seq<Patch>, p: Patch, h: Hunk, a: nat, b: nat): State
  {
    State(items, e, true, p, h, a, b, [], None, false, false, false, false, true, false, false)
  }

  function Spoiled(h: Hunk): Hunk { h.(invalid := true) }

  // ---- one line ----

  /** The hunk is recorded as invalid, and an error is counted. */
  lemma BreakingLine(e: nat, items: seq<Patch>, p: Patch, h: Hunk, a: nat, b: nat, line: string)
    requires a <= h.linessrc && b <= h.linestgt && (a < h.linessrc || b < h.linestgt) && Breaks(line)
    ensures Step(InBody(e, items, p, h, a, b), line) == Skipping(e + 1, items, AddHunk(p, Spoiled(h)), Spoiled(h), a, b)
  {
    var st := InBody(e, items, p, h, a, b);
    BodyOnly(st, line);
    Prefixes(line);
    assert !StartsWith(line, "--- ") by { assert line[0] != '-'; }
    hide Step, OnlyEol, HunkHead, StartsWith;
    var flow := HunkBody(st, line);
    assert flow == Next(Skipping(e + 1, items, AddHunk(p, Spoiled(h)), Spoiled(h), a, b), line);
    assert HunkSkip(flow.st, line) == flow.st;
    AfterNothing(st, line);
  }

  lemma SkippedLine(e: nat, items: seq<Patch>, p: Patch, h: Hunk, a: nat, b: nat, line: string)
    requires HunkHead(line).None? && !StartsWith(line, "--- ")
    ensures Step(Skipping(e, items, p, h, a, b), line) == Skipping(e, items, p, h, a, b)
  {
    hide HunkHead, StartsWith;
  }

  /** At a line that begins a hunk or a patch the parser goes on as behind a complete hunk. */
  lemma ResumingLine(e: nat, items: seq<Patch>, p: Patch, h: Hunk, a: nat, b: nat, line: string)
    requires HunkHead(line).Some? || StartsWith(line, "--- ")
    ensures Step(Skipping(e, items, p, h, a, b), line) == Step(Ready(e, items, p, h, a, b), line)
  {
    if StartsWith(line, "--- ") {
      StartIsNoHead(line);
    }
    Prefixes(line);
    hide HunkHead, StartsWith, TakeBodyLine, FileName;
  }

  // ---- the stretch ----

  lemma {:induction false} FillingRun(e: nat, items: seq<Patch>, p: Patch, h: Hunk, a: nat, b: nat, body: seq<string>)
    requires a <= h.linessrc && b <= h.linestgt && Filling(ClaimedAll(body), h.linessrc - a, h.linestgt - b)
    ensures
      var c := ClaimedAll(body);
      var (a1, b1) := (a + SourceCount(c), b + TargetCount(c));
      && a1 <= h.linessrc && b1 <= h.linestgt && (a1 < h.linessrc || b1 < h.linestgt)
      && Run(InBody(e, items, p, h, a, b), body) == InBody(e, items, p, h.(text := h.text + c), a1, b1)
    decreases |body|
  {
    hide Step, AddHunk, Claimed, FromSource, FromTarget, Run, Longer;
    if body == [] {
      RunNothing(InBody(e, items, p, h, a, b));
      assert h.text + [] == h.text;
    } else {
      var (line, rest) := (body[0], body[1..]);
      var (c, text) := (Claimed(line), ClaimedAll(rest));
      assert body == [line] + rest;
      RunCons(InBody(e, items, p, h, a, b), line, rest);
      assert ClaimedAll(body) == [c] + text && ClaimedAll(body)[1..] == text;
      BodyLine(e, items, p, h, a, b, line);
      LongerMore(h, c, text);
      FillingRun(e, items, p, Longer(h, c), a + FromSource(c), b + FromTarget(c), rest);
    }
  }

  lemma {:induction false} SkippedRun(e: nat, items: seq<Patch>, p: Patch, h: Hunk, a: nat, b: nat, lines: seq<string>)
    requires AreSkipped(lines)
    ensures Run(Skipping(e, items, p, h, a, b), lines) == Skipping(e, items, p, h, a, b)
    decreases |lines|
  {
    hide Step, HunkHead, StartsWith;
    if lines != [] {
      SkippedLine(e, items, p, h, a, b, lines[0]);
      SkippedRun(e, items, p, h, a, b, lines[1..]);
    }
  }

  /** From a broken hunk's first line to where the parser can go on. */
  lemma BrokenRun(st: State, e: nat, items: seq<Patch>, p: Patch, part: HunkPart, bad: string, junk: seq<string>)
    returns (a: nat, b: nat)
    requires IsBroken(part) && Breaks(bad) && AreSkipped(junk)
    requires Step(st, part.head) == InBody(e, items, p, HunkHead(part.head).value, 0, 0)
    ensures
      var h := Spoiled(HunkOf(part));
      Run(st, HunkText(part) + ([bad] + junk)) == Skipping(e + 1, items, AddHunk(p, h), h, a, b)
  {
    HeadIsBare(part.head);
    hide Step, HunkHead, Filling, Breaks, AreSkipped, AddHunk, Run, ClaimedAll, Spoiled;
    a, b := BrokenBody(e, items, p, HunkHead(part.head).value, part.body, bad, junk);
    Pieces(part.head, part.body, [bad] + junk);
    RunCons(st, part.head, part.body + ([bad] + junk));
  }

  lemma BrokenBody(e: nat, items: seq<Patch>, p: Patch, g: Hunk, body: seq<string>, bad: string, junk: seq<string>)
    returns (a: nat, b: nat)
    requires g.text == [] && Filling(ClaimedAll(body), g.linessrc, g.linestgt) && Breaks(bad) && AreSkipped(junk)
    ensures
      var h := Spoiled(g.(text := ClaimedAll(body)));
      Run(InBody(e, items, p, g, 0, 0), body + ([bad] + junk)) == Skipping(e + 1, items, AddHunk(p, h), h, a, b)
  {
    hide Step, Filling, Breaks, AreSkipped, AddHunk, Run, SourceCount, TargetCount, Spoiled, InBody, Skipping;
    FillingRun(e, items, p, g, 0, 0, body);
    var c := ClaimedAll(body);
    hide ClaimedAll;
    a, b := SourceCount(c), TargetCount(c);
    assert [] + c == c;
    BrokenOff(e, items, p, g.(text := c), a, b, bad, junk);
    RunAppend(InBody(e, items, p, g, 0, 0), body, [bad] + junk);
  }

  lemma Pieces<T>(head: T, body: seq<T>, rest: seq<T>)
    ensures ([head] + body) + rest == [head] + (body + rest)
  {
  }

  lemma BrokenOff(e: nat, items: seq<Patch>, p: Patch, h: Hunk, a: nat, b: nat, bad: string, junk: seq<string>)
    requires a <= h.linessrc && b <= h.linestgt && (a < h.linessrc || b < h.linestgt)
    requires Breaks(bad) && AreSkipped(junk)
    ensures Run(InBody(e, items, p, h, a, b), [bad] + junk)
         == Skipping(e + 1, items, AddHunk(p, Spoiled(h)), Spoiled(h), a, b)
  {
    hide Step, Run, AddHunk, Breaks, AreSkipped, Spoiled;
    BreakingLine(e, items, p, h, a, b, bad);
    SkippedRun(e + 1, items, AddHunk(p, Spoiled(h)), Spoiled(h), a, b, junk);
    RunCons(InBody(e, items, p, h, a, b), bad, junk);
  }

  // ---- what follows ----

  /** More hunks of the patch, or the next patch at once, or nothing. */
  predicate Resumes(hs: seq<HunkPart>, bs: seq<Block>)
  {
    AreHunks(hs) && AreBlocks(bs, false) && (hs == [] && bs != [] ==> bs[0].header == [])
  }

  lemma ResumesAt(hs: seq<HunkPart>, bs: seq<Block>)
    requires Resumes(hs, bs) && (hs != [] || bs != [])
    ensures
      var rest := HunksText(hs) + BlocksText(bs);
      rest != [] && (HunkHead(rest[0]).Some? || StartsWith(rest[0], "--- "))
  {
    hide HunkHead, StartsWith, Fills, FileName;
    if hs != [] {
      assert HunksText(hs)[0] == hs[0].head;
    } else {
      assert HunksText(hs) == [];
      var b := bs[0];
      FrontBegins(b);
      assert BlocksText(bs)[0] == BlockText(b)[0] == b.sources[0];
      assert NamesFile(b.sources[0], "--- ");
    }
  }

  lemma FrontBegins(b: Block)
    requires b.header == [] && b.sources != []
    ensures BlockText(b) != [] && BlockText(b)[0] == b.sources[0]
  {
    assert FrontText(b) == b.sources + [b.target];
  }

  /** Behind a broken hunk everything that follows is read as it means, and no further error is counted. */
  lemma ResumedRun(e: nat, items: seq<Patch>, p: Patch, h: Hunk, a: nat, b: nat, hs: seq<HunkPart>, bs: seq<Block>)
    requires Resumes(hs, bs) && e > 0
    ensures Close(EndOfScan(Run(Skipping(e, items, p, h, a, b), HunksText(hs) + BlocksText(bs))))
         == Parsed(items + [p.(hunks := p.hunks + HunksOf(hs))] + PatchesOf(bs, false), e, false)
  {
    hide Step, HunkHead, StartsWith, HunkOf, IsHunk, IsBlock, PatchOf, BlockText, HunkText;
    var rest := HunksText(hs) + BlocksText(bs);
    if hs == [] && bs == [] {
      assert p.hunks + [] == p.hunks;
      assert items + [p] + [] == items + [p];
    } else {
      ResumesAt(hs, bs);
      ResumingLine(e, items, p, h, a, b, rest[0]);
      assert Run(Skipping(e, items, p, h, a, b), rest) == Run(Ready(e, items, p, h, a, b), rest);
      var h1, a1, b1 := HunksRun(e, items, p, h, a, b, hs);
      var q := p.(hunks := p.hunks + HunksOf(hs));
      var p2, h2, a2, b2, items2 := BlocksRun(e, items, q, h1, a1, b1, bs);
      RunAppend(Ready(e, items, p, h, a, b), HunksText(hs), BlocksText(bs));
    }
  }

  /** The start of a stream: complete patches, and of one more the front and some hunks. */
  lemma OpenRun(bs: seq<Block>, q: Block) returns (st: State, items: seq<Patch>, p: Patch)
    requires AreBlocks(bs, true) && IsFront(q, bs == []) && AreHunks(q.hunks)
    ensures st == Run(Start, BlocksText(bs) + BlockText(q))
    ensures items == PatchesOf(bs, true) && p == FrontOf(q, bs == []).(hunks := HunksOf(q.hunks))
    ensures forall line | HunkHead(line).Some? :: Step(st, line) == InBody(0, items, p, HunkHead(line).value, 0, 0)
  {
    hide Step, HunkHead, IsBlock, HunkOf, IsHunk, PatchOf, FrontOf, IsFront, FrontText;
    var (s, items0, p0, h, a, b) := (Start, [], NoPatch, NoHunk, 0, 0);
    if bs != [] {
      hide Run, BlockText;
      h, a, b := BlockRun(Start, 0, [], false, NoPatch, NoHunk, 0, 0, bs[0]);
      RunAppend(Start, BlockText(bs[0]), BlocksText(bs[1..]));
      p0, h, a, b, items0 := BlocksRun(0, [], PatchOf(bs[0], true), h, a, b, bs[1..]);
      assert [] + [PatchOf(bs[0], true)] + PatchesOf(bs[1..], false) == PatchesOf(bs, true);
      s := Ready(0, items0, p0, h, a, b);
    } else {
      RunNothing(Start);
    }
    items, p := PatchesOf(bs, true), FrontOf(q, bs == []).(hunks := HunksOf(q.hunks));
    RunAppend(Start, BlocksText(bs), BlockText(q));
    st := Run(s, BlockText(q));
    FrontRun(s, items0, bs != [], p0, h, a, b, q, items);
  }

  lemma FrontRun(s: State, items0: seq<Patch>, started: bool, p0: Patch, h: Hunk, a: nat, b: nat, q: Block, items: seq<Patch>)
    requires Begins(s, 0, items0, started, p0, h, a, b) && IsFront(q, !started) && AreHunks(q.hunks)
    requires items == if started then items0 + [p0] else items0
    ensures
      var (st, p) := (Run(s, BlockText(q)), FrontOf(q, !started).(hunks := HunksOf(q.hunks)));
      forall line | HunkHead(line).Some? :: Step(st, line) == InBody(0, items, p, HunkHead(line).value, 0, 0)
  {
    hide Step, HunkHead, HunkOf, IsHunk, IsFront, FrontText, Begins;
    NamesRun(s, 0, items0, started, p0, h, a, b, q);
    RunAppend(s, FrontText(q), HunksText(q.hunks));
    var front := FrontOf(q, !started);
    hide FrontOf, Run;
    if q.hunks == [] {
      RunNothing(Expecting(0, items, front, h, a, b));
      forall line | HunkHead(line).Some?
        ensures Step(Run(s, BlockText(q)), line) == InBody(0, items, front, HunkHead(line).value, 0, 0) {
        ExpectingLine(0, items, front, h, a, b, line);
      }
    } else {
      var h1, a1, b1 := FirstRun(0, items, front, h, a, b, q.hunks);
      var p := front.(hunks := HunksOf(q.hunks));
      forall line | HunkHead(line).Some?
        ensures Step(Run(s, BlockText(q)), line) == InBody(0, items, p, HunkHead(line).value, 0, 0) {
        ReadyLine(0, items, p, h1, a1, b1, line);
      }
    }
  }

  /** One hunk breaks off, at a line that is no body line; behind it stand lines that are passed over, and then
      the stream goes on. It is no success, with just one error; the hunk is recorded as invalid, with the lines it
      has; and all before and behind it is read as it means. */
  lemma BrokenHunkIsolated(bs: seq<Block>, q: Block, part: HunkPart, bad: string, junk: seq<string>,
                           hs: seq<HunkPart>, more: seq<Block>)
    requires AreBlocks(bs, true) && IsFront(q, bs == []) && AreHunks(q.hunks)
    requires IsBroken(part) && Breaks(bad) && AreSkipped(junk) && Resumes(hs, more)
    ensures
      var lines := BlocksText(bs) + BlockText(q) + (HunkText(part) + ([bad] + junk)) + (HunksText(hs) + BlocksText(more));
      var hunks := HunksOf(q.hunks) + [Spoiled(HunkOf(part))] + HunksOf(hs);
      Parse(lines)
      == Parsed(PatchesOf(bs, true) + [FrontOf(q, bs == []).(hunks := hunks)] + PatchesOf(more, false), 1, false)
  {
    hide Step, HunkHead, AreBlocks, IsFront, FrontOf, AreHunks, IsBroken, Breaks, AreSkipped, Resumes, BlocksText, HunksText;
    hide Run, HunkText, PatchesOf, HunksOf, HunkOf, Spoiled, BlockText, Close, EndOfScan;
    var st, items, p := OpenRun(bs, q);
    assert HunkHead(part.head).Some? by { BrokenHasHead(part); }
    var a, b := BrokenRun(st, 0, items, p, part, bad, junk);
    var h := Spoiled(HunkOf(part));
    ResumedRun(1, items, AddHunk(p, h), h, a, b, hs, more);
    var (x, y, z) := (BlocksText(bs) + BlockText(q), HunkText(part) + ([bad] + junk), HunksText(hs) + BlocksText(more));
    RunAppend(Start, x + y, z);
    RunAppend(Start, x, y);
  }

  lemma BrokenHasHead(part: HunkPart)
    requires IsBroken(part)
    ensures HunkHead(part.head).Some?
  {
    hide HunkHead, Filling;
  }
}
