/** The lines of a unified diff, and that the parser reports success for these and no others. */
module PatchGrammar {
  import opened Options
  import opened Text
  import opened PatchModel
  import opened PatchParse

  // ---- the grammar ----

  /** A hunk as it stands in the stream. */
  datatype HunkPart = HunkPart(head: string, body: seq<string>)

  /** A patch as it stands in the stream: lines of no meaning, the source line, the target line, the hunks.
      Of several source lines in a row the last one counts. */
  datatype Block = Block(header: seq<string>, sources: seq<string>, target: string, hunks: seq<HunkPart>)

  /** A body line; one without any text stands for a blank. */
  function Claimed(line: string): string { if OnlyEol(line) then " " + line else line }

  function ClaimedAll(body: seq<string>): (r: seq<string>)
    ensures |r| == |body|
  {
    if body == [] then [] else [Claimed(body[0])] + ClaimedAll(body[1..])
  }

  function FromSource(line: string): nat { if line != "" && (line[0] == '-' || line[0] == ' ') then 1 else 0 }
  function FromTarget(line: string): nat { if line != "" && (line[0] == '+' || line[0] == ' ') then 1 else 0 }

  /** The lines have tags and use up the counts, and not before the last. */
  predicate Fills(text: seq<string>, src: nat, tgt: nat)
  {
    && text != [] && text[0] != ""
    && (text[0][0] == ' ' || text[0][0] == '-' || text[0][0] == '+' || text[0][0] == '\\')
    && FromSource(text[0]) <= src && FromTarget(text[0]) <= tgt
    && var (s, t) := (src - FromSource(text[0]), tgt - FromTarget(text[0]));
       if |text| == 1 then s == 0 && t == 0 else (s > 0 || t > 0) && Fills(text[1..], s, t)
  }

  function SourceCount(text: seq<string>): nat
  {
    if text == [] then 0 else FromSource(text[0]) + SourceCount(text[1..])
  }

  function TargetCount(text: seq<string>): nat
  {
    if text == [] then 0 else FromTarget(text[0]) + TargetCount(text[1..])
  }

  /** A hunk whose ranges count its body lines. */
  predicate Counted(h: Hunk)
  {
    Tagged(h.text) && SourceCount(h.text) == h.linessrc && TargetCount(h.text) == h.linestgt
  }

  lemma {:induction false} FillsCounts(text: seq<string>, src: nat, tgt: nat)
    requires Fills(text, src, tgt)
    ensures Tagged(text) && SourceCount(text) == src && TargetCount(text) == tgt
  {
    hide FromSource, FromTarget;
    if |text| == 1 {
      assert text[1..] == [];
    } else {
      FillsCounts(text[1..], src - FromSource(text[0]), tgt - FromTarget(text[0]));
    }
  }

  /** Marker lines are not counted: the last line of a body is not one, if it has any other. */
  lemma {:induction false} CountsFill(text: seq<string>, src: nat, tgt: nat)
    requires Tagged(text) && text != [] && SourceCount(text) == src && TargetCount(text) == tgt
    requires var last := text[|text| - 1]; last != "" && last[0] != '\\'
    ensures Fills(text, src, tgt) && (src > 0 || tgt > 0)
  {
    if |text| == 1 {
      assert text[1..] == [];
    } else {
      CountsFill(text[1..], src - FromSource(text[0]), tgt - FromTarget(text[0]));
    }
  }

  predicate IsHunk(h: HunkPart)
  {
    HunkHead(h.head).Some? && Fills(ClaimedAll(h.body), HunkHead(h.head).value.linessrc, HunkHead(h.head).value.linestgt)
  }

  predicate AreHunks(hs: seq<HunkPart>) { hs == [] || (IsHunk(hs[0]) && AreHunks(hs[1..])) }

  /** A file's name is what stands between the four characters and the first tab, without the blanks around it;
      there must be something. */
  lemma FileNameExactly(prefix: string, name: string, stamp: string)
    requires |prefix| == 4 && '\t' !in name && (stamp == "" || stamp[0] == '\t')
    ensures FileName(prefix + name + stamp) == if name == "" then None else Some(Strip(name))
  {
    hide IndexFrom, Strip;
    var rest := name + stamp;
    assert (prefix + name + stamp)[4..] == rest;
    assert forall i | 0 <= i < |name| :: rest[i] == name[i] && name[i] in name;
    assert stamp != "" ==> rest[|name|] == '\t';
    var k := IndexFrom(rest, '\t', 0);
    assert k == |name| && rest[..k] == name;
  }

  predicate NoNames(header: seq<string>)
  {
    header == [] || (!StartsWith(header[0], "--- ") && NoNames(header[1..]))
  }

  predicate NamesFile(line: string, prefix: string) { StartsWith(line, prefix) && |line| >= 4 && FileName(line).Some? }

  predicate AreSources(lines: seq<string>) { lines == [] || (NamesFile(lines[0], "--- ") && AreSources(lines[1..])) }

  /** Lines that can stand behind a hunk without belonging to it. */
  predicate IsBetween(lines: seq<string>) { NoNames(lines) && (lines != [] ==> HunkHead(lines[0]).None?) }

  /** What comes before the hunks of a patch. */
  predicate IsFront(b: Block, first: bool)
  {
    && (if first then NoNames(b.header) else IsBetween(b.header))
    && b.sources != [] && AreSources(b.sources) && NamesFile(b.target, "+++ ")
  }

  predicate IsBlock(b: Block, first: bool) { IsFront(b, first) && b.hunks != [] && AreHunks(b.hunks) }

  predicate AreBlocks(bs: seq<Block>, first: bool)
  {
    bs == [] || (IsBlock(bs[0], first) && AreBlocks(bs[1..], false))
  }

  // ---- its lines and its meaning ----

  function HunkText(h: HunkPart): seq<string> { [h.head] + h.body }

  function HunksText(hs: seq<HunkPart>): seq<string>
  {
    if hs == [] then [] else HunkText(hs[0]) + HunksText(hs[1..])
  }

  function FrontText(b: Block): seq<string> { b.header + (b.sources + [b.target]) }

  function BlockText(b: Block): seq<string> { FrontText(b) + HunksText(b.hunks) }

  function BlocksText(bs: seq<Block>): seq<string>
  {
    if bs == [] then [] else BlockText(bs[0]) + BlocksText(bs[1..])
  }

  function HunkOf(h: HunkPart): Hunk
    requires HunkHead(h.head).Some?
  {
    HunkHead(h.head).value.(text := ClaimedAll(h.body))
  }

  function HunksOf(hs: seq<HunkPart>): (r: seq<Hunk>)
    requires AreHunks(hs)
    ensures |r| == |hs|
  {
    if hs == [] then [] else [HunkOf(hs[0])] + HunksOf(hs[1..])
  }

  function NameOf(line: string): string
    requires |line| >= 4 && FileName(line).Some?
  {
    FileName(line).value
  }

  function FrontOf(b: Block, first: bool): Patch
    requires IsFront(b, first)
  {
    SourceAt(b.sources, |b.sources| - 1);
    Patch(NameOf(b.sources[|b.sources| - 1]), NameOf(b.target), b.header, [])
  }

  function PatchOf(b: Block, first: bool): Patch
    requires IsBlock(b, first)
  {
    FrontOf(b, first).(hunks := HunksOf(b.hunks))
  }

  function PatchesOf(bs: seq<Block>, first: bool): (r: seq<Patch>)
    requires AreBlocks(bs, first)
    ensures |r| == |bs|
  {
    if bs == [] then [] else [PatchOf(bs[0], first)] + PatchesOf(bs[1..], false)
  }

  lemma {:induction false} SourceAt(lines: seq<string>, i: nat)
    requires AreSources(lines) && i < |lines|
    ensures NamesFile(lines[i], "--- ")
  {
    if i > 0 {
      SourceAt(lines[1..], i - 1);
    }
  }

  // ---- the parser's states while no error is counted ----

  /** Inside the body of hunk `h`, with `a` source and `b` target lines counted. */
  function InBody(e: nat, items: seq<Patch>, p: Patch, h: Hunk, a: nat, b: nat): State
  {
    State(items, e, true, p, h, a, b, [], None, false, false, false, true, false, false, false)
  }

  /** Behind a complete hunk. */
  function Ready(e: nat, items: seq<Patch>, p: Patch, h: Hunk, a: nat, b: nat): State
  {
    State(items, e, true, p, h, a, b, [], None, false, false, false, false, false, true, false)
  }

  /** In front of the first hunk of a patch. */
  function Expecting(e: nat, items: seq<Patch>, p: Patch, h: Hunk, a: nat, b: nat): State
  {
    State(items, e, true, p, h, a, b, [], None, false, false, true, false, false, false, false)
  }

  /** Collecting header lines; `started` says whether a patch came before. */
  function Scanning(e: nat, items: seq<Patch>, started: bool, p: Patch, h: Hunk, a: nat, b: nat,
                    header: seq<string>, scanning: bool): State
  {
    State(items, e, started, p, h, a, b, header, None, true, false, false, false, false, false, scanning)
  }

  /** The source name is known, the target name is not. */
  function Named(e: nat, items: seq<Patch>, started: bool, p: Patch, h: Hunk, a: nat, b: nat,
                 header: seq<string>, source: string): State
  {
    State(items, e, started, p, h, a, b, header, Some(source), false, true, false, false, false, false, false)
  }

  // ---- one line in each of them ----

  predicate Failed(st: State, e: nat) { st.errors > e }

  lemma TakeKeepsErrors(st: State, line: string)
    ensures TakeBodyLine(st, line).errors >= st.errors
  {
    GivingUpCounts(st);
    hide IsTag, AddHunk, GiveUp;
  }

  lemma GivingUpCounts(st: State)
    ensures GiveUp(st).errors == st.errors + 1
  {
    hide AddHunk;
  }

  lemma BodyKeepsErrors(st: State, line: string)
    ensures HunkBody(st, line).st.errors >= st.errors
  {
    hide OnlyEol, TakeBodyLine, AddHunk;
    TakeKeepsErrors(st, Claimed(line));
  }

  lemma SkipKeepsErrors(st: State, line: string)
    ensures HunkSkip(st, line).errors == st.errors
  {
    hide HunkHead, StartsWith;
  }

  lemma NamesKeepErrors(st: State, line: string)
    ensures FileNames(st, line).st.errors >= st.errors
  {
    hide FileName;
    Prefixes(line);
    hide StartsWith;
    if st.filenames && !StartsWith(line, "--- ") && StartsWith(line, "+++ ") && FileName(line).Some? {
      BegunKeepsErrors(st, FileName(line).value);
    }
    hide Begun;
  }

  lemma BegunKeepsErrors(st: State, target: string)
    ensures Begun(st, target).errors == st.errors
  {
  }

  lemma HeadKeepsErrors(st: State, line: string)
    ensures HeadLine(st, line).errors >= st.errors
  {
    hide HunkHead;
  }

  lemma EntryKeepsErrors(st: State, line: string)
    ensures ScanHeader(Decide(st, line), line).st.errors == st.errors
  {
    hide HunkHead, StartsWith, Decide;
    DecideKeepsErrors(st, line);
  }

  lemma DecideKeepsErrors(st: State, line: string)
    ensures Decide(st, line).errors == st.errors
  {
    hide HunkHead, StartsWith;
  }

  lemma AfterKeepsErrors(st: State, line: string)
    ensures After(st, line).errors >= HunkBody(st, line).st.errors >= st.errors
  {
    BodyKeepsErrors(st, line);
    var b := HunkBody(st, line);
    hide HunkBody, HunkSkip, FileNames, HeadLine;
    if b.Next? {
      SkipKeepsErrors(b.st, b.line);
      var s := HunkSkip(b.st, b.line);
      NamesKeepErrors(s, b.line);
      var c := FileNames(s, b.line);
      if c.Next? {
        HeadKeepsErrors(c.st, c.line);
      }
    }
  }

  lemma {:induction false} RunKeepsErrors(st: State, lines: seq<string>)
    ensures Run(st, lines).errors >= st.errors
    decreases |lines|
  {
    hide Step;
    if lines != [] {
      StepKeepsErrors(st, lines[0]);
      RunKeepsErrors(Step(st, lines[0]), lines[1..]);
    }
  }

  lemma StepKeepsErrors(st: State, line: string)
    ensures Step(st, line).errors >= st.errors
  {
    hide After, ScanHeader, Decide;
    EntryKeepsErrors(st, line);
    var a := ScanHeader(Decide(st, line), line);
    if a.Next? {
      AfterKeepsErrors(a.st, a.line);
    }
  }

  function Longer(h: Hunk, line: string): Hunk { h.(text := h.text + [line]) }

  /** A body line is claimed if it has a tag and a place left; then the hunk is complete or goes on. */
  lemma BodyLine(e: nat, items: seq<Patch>, p: Patch, h: Hunk, a: nat, b: nat, line: string)
    ensures
      var (c, st) := (Claimed(line), Step(InBody(e, items, p, h, a, b), line));
      var (a1, b1, h1) := (a + FromSource(c), b + FromTarget(c), Longer(h, Claimed(line)));
      if c == "" || !IsTag(c[0]) || a1 > h.linessrc || b1 > h.linestgt then Failed(st, e)
      else if a1 == h.linessrc && b1 == h.linestgt then st == Ready(e, items, AddHunk(p, h1), h1, a1, b1)
      else st == InBody(e, items, p, h1, a1, b1)
  {
    var st := InBody(e, items, p, h, a, b);
    BodyOnly(st, line);
    AfterKeepsErrors(st, line);
    hide Step, After, OnlyEol, StartsWith, HunkHead;
    var flow := HunkBody(st, line);
    if flow.Next? && flow.st.errors == e {
      NothingAfter(flow.st, flow.line);
      AfterNothing(st, line);
    } else if flow.Done? {
      AfterDone(st, line);
    }
  }

  lemma Prefixes(line: string)
    ensures StartsWith(line, "--- ") ==> |line| >= 4 && !StartsWith(line, "+++ ")
    ensures StartsWith(line, "+++ ") ==> |line| >= 4
  {
    assert StartsWith(line, "--- ") ==> line[0] == "--- "[0];
    assert StartsWith(line, "+++ ") ==> line[0] == "+++ "[0];
  }

  lemma AfterDone(st: State, line: string)
    requires HunkBody(st, line).Done?
    ensures After(st, line) == HunkBody(st, line).st
  {
    hide HunkBody, HunkSkip, FileNames, HeadLine;
  }

  lemma AfterNothing(st: State, line: string)
    requires
      var b := HunkBody(st, line);
      b.Next? && HunkSkip(b.st, b.line) == b.st && FileNames(b.st, b.line) == Next(b.st, b.line)
      && HeadLine(b.st, b.line) == b.st
    ensures After(st, line) == HunkBody(st, line).st
  {
    hide HunkBody, HunkSkip, FileNames, HeadLine;
  }

  lemma BodyOnly(st: State, line: string)
    requires !st.hunkparsed && !st.headscan && !st.scanning
    ensures Step(st, line) == After(st, line)
  {
    hide After, StartsWith, HunkHead;
  }

  lemma NothingAfter(st: State, line: string)
    requires !st.hunkskip && !st.filenames && !st.hunkhead
    ensures HunkSkip(st, line) == st && FileNames(st, line) == Next(st, line) && HeadLine(st, line) == st
  {
    hide StartsWith, HunkHead, FileName;
  }

  /** In front of a patch's first hunk only a hunk's first line will do. */
  lemma ExpectingLine(e: nat, items: seq<Patch>, p: Patch, h: Hunk, a: nat, b: nat, line: string)
    requires p.hunks == []
    ensures
      var st := Step(Expecting(e, items, p, h, a, b), line);
      if HunkHead(line).Some? then st == InBody(e, items, p, HunkHead(line).value, 0, 0) else Failed(st, e)
  {
    hide HunkHead, StartsWith, TakeBodyLine, FileName;
  }

  /** Behind a complete hunk comes another one, the next patch's source line, or something else. */
  lemma ReadyLine(e: nat, items: seq<Patch>, p: Patch, h: Hunk, a: nat, b: nat, line: string)
    ensures
      var st := Step(Ready(e, items, p, h, a, b), line);
      if HunkHead(line).Some? then st == InBody(e, items, p, HunkHead(line).value, 0, 0)
      else if !StartsWith(line, "--- ") then st == Scanning(e, items, true, p, h, a, b, [line], true)
      else if NamesFile(line, "--- ") then st == Named(e, items, true, p, h, a, b, [], NameOf(line))
      else Failed(st, e)
  {
    hide HunkHead, TakeBodyLine, FileName;
    Prefixes(line);
    hide StartsWith;
  }

  lemma ScanningLine(e: nat, items: seq<Patch>, started: bool, p: Patch, h: Hunk, a: nat, b: nat,
                     header: seq<string>, scanning: bool, line: string)
    ensures
      var st := Step(Scanning(e, items, started, p, h, a, b, header, scanning), line);
      if !StartsWith(line, "--- ") then st == Scanning(e, items, started, p, h, a, b, header + [line], true)
      else if NamesFile(line, "--- ") then st == Named(e, items, started, p, h, a, b, header, NameOf(line))
      else Failed(st, e)
  {
    hide HunkHead, TakeBodyLine, FileName;
    Prefixes(line);
    hide StartsWith;
  }

  lemma NamedLine(e: nat, items: seq<Patch>, started: bool, p: Patch, h: Hunk, a: nat, b: nat,
                  header: seq<string>, source: string, line: string)
    ensures
      var st := Step(Named(e, items, started, p, h, a, b, header, source), line);
      if NamesFile(line, "--- ") then st == Named(e, items, started, p, h, a, b, header, NameOf(line))
      else if NamesFile(line, "+++ ") then
        st == Expecting(e, if started then items + [p] else items, Patch(source, NameOf(line), header, []), h, a, b)
      else Failed(st, e)
  {
    hide HunkHead, TakeBodyLine, FileName;
    Prefixes(line);
    hide StartsWith;
  }

  lemma {:induction false} RunAppend(st: State, a: seq<string>, b: seq<string>)
    ensures Run(st, a + b) == Run(Run(st, a), b)
    decreases |a|
  {
    hide Step;
    if a == [] {
      assert a + b == b;
    } else {
      assert (a + b)[0] == a[0] && (a + b)[1..] == a[1..] + b;
      RunAppend(Step(st, a[0]), a[1..], b);
    }
  }

  lemma RunCons(st: State, line: string, rest: seq<string>)
    ensures Run(st, [line] + rest) == Run(Step(st, line), rest)
  {
    hide Step;
    assert ([line] + rest)[0] == line && ([line] + rest)[1..] == rest;
  }

  // ---- what the grammar allows is read as it means ----

  lemma {:induction false} BodyRun(e: nat, items: seq<Patch>, p: Patch, h: Hunk, a: nat, b: nat, body: seq<string>)
    requires a <= h.linessrc && b <= h.linestgt && Fills(ClaimedAll(body), h.linessrc - a, h.linestgt - b)
    ensures
      var h1 := h.(text := h.text + ClaimedAll(body));
      Run(InBody(e, items, p, h, a, b), body) == Ready(e, items, AddHunk(p, h1), h1, h.linessrc, h.linestgt)
    decreases |body|
  {
    hide Step, AddHunk, Claimed, FromSource, FromTarget, Run, Longer;
    var (line, rest) := (body[0], body[1..]);
    var (c, text) := (Claimed(line), ClaimedAll(rest));
    assert body == [line] + rest;
    RunCons(InBody(e, items, p, h, a, b), line, rest);
    assert ClaimedAll(body) == [c] + text && ClaimedAll(body)[1..] == text;
    BodyLine(e, items, p, h, a, b, line);
    LongerMore(h, c, text);
    if rest == [] {
      RunNothing(Step(InBody(e, items, p, h, a, b), line));
    } else {
      BodyRun(e, items, p, Longer(h, c), a + FromSource(c), b + FromTarget(c), rest);
    }
  }

  lemma LongerMore(h: Hunk, c: string, text: seq<string>)
    ensures
      var h1 := Longer(h, c);
      && h1.linessrc == h.linessrc && h1.linestgt == h.linestgt
      && h1.(text := h1.text + text) == h.(text := h.text + ([c] + text))
      && (text == [] ==> h1 == h.(text := h.text + ([c] + text)))
  {
    assert h.text + ([c] + text) == h.text + [c] + text;
  }

  lemma HunkRun(e: nat, items: seq<Patch>, p: Patch, h: HunkPart)
    requires IsHunk(h)
    ensures
      var g := HunkHead(h.head).value;
      Run(InBody(e, items, p, g, 0, 0), h.body) == Ready(e, items, AddHunk(p, HunkOf(h)), HunkOf(h), g.linessrc, g.linestgt)
  {
    hide Step, Fills, HunkHead;
    var g := HunkHead(h.head).value;
    HeadIsBare(h.head);
    BodyRun(e, items, p, g, 0, 0, h.body);
    assert [] + ClaimedAll(h.body) == ClaimedAll(h.body);
  }

  lemma HeadIsBare(line: string)
    requires HunkHead(line).Some?
    ensures HunkHead(line).value.text == [] && !HunkHead(line).value.invalid
  {
    hide ReadRange, StartsWith;
  }

  /** Hunks behind a complete hunk. */
  lemma {:induction false} HunksRun(e: nat, items: seq<Patch>, p: Patch, h: Hunk, a: nat, b: nat, hs: seq<HunkPart>)
    returns (h': Hunk, a': nat, b': nat)
    requires AreHunks(hs)
    ensures Run(Ready(e, items, p, h, a, b), HunksText(hs))
         == Ready(e, items, p.(hunks := p.hunks + HunksOf(hs)), h', a', b')
    decreases |hs|
  {
    hide Step, IsHunk, HunkHead, HunkOf;
    if hs == [] {
      h', a', b' := h, a, b;
      assert p.hunks + [] == p.hunks;
    } else {
      assert HunkHead(hs[0].head).Some? by { IsHunkHasHead(hs[0]); }
      ReadyLine(e, items, p, h, a, b, hs[0].head);
      h', a', b' := RestRun(Ready(e, items, p, h, a, b), e, items, p, hs);
    }
  }

  lemma IsHunkHasHead(h: HunkPart)
    requires IsHunk(h)
    ensures HunkHead(h.head).Some?
  {
    hide HunkHead, Fills;
  }

  /** From where the first of the hunks has been recognised. */
  lemma {:induction false} RestRun(st: State, e: nat, items: seq<Patch>, p: Patch, hs: seq<HunkPart>)
    returns (h': Hunk, a': nat, b': nat)
    requires hs != [] && AreHunks(hs) && HunkHead(hs[0].head).Some?
    requires Step(st, hs[0].head) == InBody(e, items, p, HunkHead(hs[0].head).value, 0, 0)
    ensures Run(st, HunksText(hs)) == Ready(e, items, p.(hunks := p.hunks + HunksOf(hs)), h', a', b')
    decreases |hs|, 0
  {
    hide Step, IsHunk, HunkHead, HunkOf;
    var (h, g) := (hs[0], HunkHead(hs[0].head).value);
    HunkRun(e, items, p, h);
    h', a', b' := HunksRun(e, items, AddHunk(p, HunkOf(h)), HunkOf(h), g.linessrc, g.linestgt, hs[1..]);
    assert p.hunks + [HunkOf(h)] + HunksOf(hs[1..]) == p.hunks + HunksOf(hs);
    assert HunksText(hs) == [h.head] + (h.body + HunksText(hs[1..]));
    RunCons(st, h.head, h.body + HunksText(hs[1..]));
    RunAppend(Step(st, h.head), h.body, HunksText(hs[1..]));
  }

  /** All the hunks of a patch. */
  lemma FirstRun(e: nat, items: seq<Patch>, p: Patch, h: Hunk, a: nat, b: nat, hs: seq<HunkPart>)
    returns (h': Hunk, a': nat, b': nat)
    requires hs != [] && AreHunks(hs) && p.hunks == []
    ensures Run(Expecting(e, items, p, h, a, b), HunksText(hs)) == Ready(e, items, p.(hunks := HunksOf(hs)), h', a', b')
  {
    hide Step, IsHunk, HunkHead, HunkOf;
    IsHunkHasHead(hs[0]);
    ExpectingLine(e, items, p, h, a, b, hs[0].head);
    h', a', b' := RestRun(Expecting(e, items, p, h, a, b), e, items, p, hs);
    assert [] + HunksOf(hs) == HunksOf(hs);
  }

  lemma {:induction false} ScanRun(e: nat, items: seq<Patch>, started: bool, p: Patch, h: Hunk, a: nat, b: nat,
                                   header: seq<string>, scanning: bool, lines: seq<string>)
    requires NoNames(lines)
    ensures Run(Scanning(e, items, started, p, h, a, b, header, scanning), lines)
         == Scanning(e, items, started, p, h, a, b, header + lines, scanning || lines != [])
    decreases |lines|
  {
    hide StartsWith, Step;
    if lines == [] {
      assert header + lines == header;
    } else {
      ScanningLine(e, items, started, p, h, a, b, header, scanning, lines[0]);
      ScanRun(e, items, started, p, h, a, b, header + [lines[0]], true, lines[1..]);
      assert header + [lines[0]] + lines[1..] == header + lines;
    }
  }

  lemma {:induction false} SourcesRun(e: nat, items: seq<Patch>, started: bool, p: Patch, h: Hunk, a: nat, b: nat,
                                      header: seq<string>, source: string, lines: seq<string>)
    requires AreSources(lines)
    ensures Run(Named(e, items, started, p, h, a, b, header, source), lines)
         == Named(e, items, started, p, h, a, b, header, EndName(source, lines))
    decreases |lines|
  {
    hide Step, FileName, StartsWith;
    if lines != [] {
      NamedLine(e, items, started, p, h, a, b, header, source, lines[0]);
      SourcesRun(e, items, started, p, h, a, b, header, NameOf(lines[0]), lines[1..]);
    }
  }

  /** The name that counts when source lines follow one another. */
  function EndName(source: string, lines: seq<string>): string
    requires AreSources(lines)
  {
    if lines == [] then source
    else
      SourceAt(lines, |lines| - 1);
      NameOf(lines[|lines| - 1])
  }

  /** Where a patch may begin: at the start, or behind a complete hunk. */
  predicate Begins(st: State, e: nat, items: seq<Patch>, started: bool, p: Patch, h: Hunk, a: nat, b: nat)
  {
    st == if started then Ready(e, items, p, h, a, b) else Scanning(e, items, false, p, h, a, b, [], false)
  }

  /** From there the header and one source line lead to where the name is known. */
  lemma HeaderRun(st: State, e: nat, items: seq<Patch>, started: bool, p: Patch, h: Hunk, a: nat, b: nat,
                  header: seq<string>, source: string)
    requires Begins(st, e, items, started, p, h, a, b)
    requires if started then IsBetween(header) else NoNames(header)
    requires NamesFile(source, "--- ")
    ensures Run(st, header + [source]) == Named(e, items, started, p, h, a, b, header, NameOf(source))
  {
    RunAppend(st, header, [source]);
    NameIsNoHead(source);
    hide Step, HunkHead, FileName, StartsWith;
    var end := Run(st, header);
    RunCons(end, source, []);
    if started && header == [] {
      ReadyLine(e, items, p, h, a, b, source);
    } else {
      ScanBehind(st, e, items, started, p, h, a, b, header);
      ScanningLine(e, items, started, p, h, a, b, header, header != [], source);
    }
  }

  lemma NameIsNoHead(line: string)
    requires NamesFile(line, "--- ")
    ensures HunkHead(line).None?
  {
    assert line[0] == "--- "[0] && "@@ -"[0] != '-';
  }

  /** Lines between the patches are collected as a header. */
  lemma ScanBehind(st: State, e: nat, items: seq<Patch>, started: bool, p: Patch, h: Hunk, a: nat, b: nat, header: seq<string>)
    requires Begins(st, e, items, started, p, h, a, b)
    requires if started then IsBetween(header) && header != [] else NoNames(header)
    ensures Run(st, header) == Scanning(e, items, started, p, h, a, b, header, header != [])
  {
    hide Step, HunkHead, StartsWith;
    if started {
      ReadyLine(e, items, p, h, a, b, header[0]);
      ScanRun(e, items, true, p, h, a, b, [header[0]], true, header[1..]);
      assert [header[0]] + header[1..] == header;
    } else {
      ScanRun(e, items, false, p, h, a, b, [], false, header);
      assert [] + header == header;
    }
  }

  /** So do all lines up to the target line lead to the first hunk. */
  lemma NamesRun(st: State, e: nat, items: seq<Patch>, started: bool, p: Patch, h: Hunk, a: nat, b: nat, block: Block)
    requires Begins(st, e, items, started, p, h, a, b) && IsFront(block, !started)
    ensures Run(st, FrontText(block))
         == Expecting(e, if started then items + [p] else items, FrontOf(block, !started), h, a, b)
  {
    hide Step, HunkHead, NoNames, IsBetween, AreHunks, FileName, Run;
    var (first, more) := (block.sources[0], block.sources[1..]);
    SourceAt(block.sources, 0);
    SourceAt(block.sources, |block.sources| - 1);
    TargetIsNoSource(block.target);
    hide NamesFile;
    NameIsLong(first, "--- ");
    HeaderRun(st, e, items, started, p, h, a, b, block.header, first);
    SourcesRun(e, items, started, p, h, a, b, block.header, NameOf(first), more);
    var named := Named(e, items, started, p, h, a, b, block.header, EndName(NameOf(first), more));
    NamedLine(e, items, started, p, h, a, b, block.header, EndName(NameOf(first), more), block.target);
    assert FrontText(block) == (block.header + [first]) + (more + [block.target]);
    RunAppend(st, block.header + [first], more + [block.target]);
    RunAppend(Run(st, block.header + [first]), more, [block.target]);
    RunOne(named, block.target);
  }

  lemma RunOne(st: State, line: string)
    ensures Run(st, [line]) == Step(st, line)
  {
    hide Step;
    assert [line][1..] == [];
  }

  lemma BlockRun(st: State, e: nat, items: seq<Patch>, started: bool, p: Patch, h: Hunk, a: nat, b: nat, block: Block)
    returns (h': Hunk, a': nat, b': nat)
    requires Begins(st, e, items, started, p, h, a, b) && IsBlock(block, !started)
    ensures Run(st, BlockText(block))
         == Ready(e, if started then items + [p] else items, PatchOf(block, !started), h', a', b')
  {
    hide Step, HunkHead, NoNames, IsBetween, AreHunks, FileName, Begins, NamesFile, Run;
    NamesRun(st, e, items, started, p, h, a, b, block);
    var bare := FrontOf(block, !started);
    h', a', b' := FirstRun(e, if started then items + [p] else items, bare, h, a, b, block.hunks);
    RunAppend(st, FrontText(block), HunksText(block.hunks));
  }

  lemma NameIsLong(line: string, prefix: string)
    requires NamesFile(line, prefix)
    ensures |line| >= 4 && FileName(line).Some?
  {
  }

  lemma TargetIsNoSource(line: string)
    requires NamesFile(line, "+++ ")
    ensures !NamesFile(line, "--- ")
  {
    Prefixes(line);
    hide FileName;
  }

  lemma {:induction false} BlocksRun(e: nat, items: seq<Patch>, p: Patch, h: Hunk, a: nat, b: nat, bs: seq<Block>)
    returns (p': Patch, h': Hunk, a': nat, b': nat, items': seq<Patch>)
    requires AreBlocks(bs, false)
    ensures Run(Ready(e, items, p, h, a, b), BlocksText(bs)) == Ready(e, items', p', h', a', b')
    ensures items' + [p'] == items + [p] + PatchesOf(bs, false)
    decreases |bs|
  {
    hide Step, IsBlock, BlockText, PatchOf;
    if bs == [] {
      p', h', a', b', items' := p, h, a, b, items;
      assert items + [p] + [] == items + [p];
    } else {
      var h1, a1, b1 := BlockRun(Ready(e, items, p, h, a, b), e, items, true, p, h, a, b, bs[0]);
      RunAppend(Ready(e, items, p, h, a, b), BlockText(bs[0]), BlocksText(bs[1..]));
      p', h', a', b', items' := BlocksRun(e, items + [p], PatchOf(bs[0], false), h1, a1, b1, bs[1..]);
      assert items + [p] + [PatchOf(bs[0], false)] + PatchesOf(bs[1..], false) == items + [p] + PatchesOf(bs, false);
    }
  }

  /** The text of a diff: patches, and behind them lines of no meaning. */
  predicate IsDiff(bs: seq<Block>, tail: seq<string>) { bs != [] && AreBlocks(bs, true) && IsBetween(tail) }

  /** What the grammar allows is read without an error, as what it means. */
  lemma ParsesAsMeant(bs: seq<Block>, tail: seq<string>)
    requires IsDiff(bs, tail)
    ensures Parse(BlocksText(bs) + tail) == Parsed(PatchesOf(bs, true), 0, true)
  {
    hide Step, IsBlock, BlockText, PatchOf, Run;
    var h1, a1, b1 := BlockRun(Start, 0, [], false, NoPatch, NoHunk, 0, 0, bs[0]);
    RunAppend(Start, BlockText(bs[0]), BlocksText(bs[1..]));
    var p', h', a', b', items' := BlocksRun(0, [], PatchOf(bs[0], true), h1, a1, b1, bs[1..]);
    assert [] + [PatchOf(bs[0], true)] + PatchesOf(bs[1..], false) == PatchesOf(bs, true);
    RunAppend(Start, BlocksText(bs), tail);
    var ready := Ready(0, items', p', h', a', b');
    if tail == [] {
      RunNothing(ready);
    } else {
      ScanBehind(ready, 0, items', true, p', h', a', b', tail);
    }
  }

  lemma RunNothing(st: State)
    ensures Run(st, []) == st
  {
  }

  // ---- nothing else is read without an error ----

  /** The stream may end here with success. */
  predicate Good(st: State) { Close(EndOfScan(st)).ok }

  lemma GoodIsClean(st: State)
    requires Good(st)
    ensures st.errors == 0
  {
  }

  lemma GoodStep(st: State, lines: seq<string>)
    requires lines != [] && Good(Run(st, lines))
    ensures Step(st, lines[0]).errors == 0 && Good(Run(Step(st, lines[0]), lines[1..]))
  {
    hide Step, Good;
    GoodIsClean(Run(st, lines));
    RunKeepsErrors(Step(st, lines[0]), lines[1..]);
  }

  /** Inside a body the lines complete it. */
  lemma {:induction false} BodyBack(items: seq<Patch>, p: Patch, h: Hunk, a: nat, b: nat, lines: seq<string>)
    returns (body: seq<string>, rest: seq<string>)
    requires a <= h.linessrc && b <= h.linestgt && Good(Run(InBody(0, items, p, h, a, b), lines))
    ensures lines == body + rest && |rest| < |lines|
    ensures Fills(ClaimedAll(body), h.linessrc - a, h.linestgt - b)
    decreases |lines|
  {
    hide Step, AddHunk, Claimed, FromSource, FromTarget, Close;
    if lines == [] {
      NotInside(InBody(0, items, p, h, a, b));
      assert false;
    }
    var (line, c) := (lines[0], Claimed(lines[0]));
    GoodStep(InBody(0, items, p, h, a, b), lines);
    BodyLine(0, items, p, h, a, b, line);
    var (a1, b1) := (a + FromSource(c), b + FromTarget(c));
    if a1 == h.linessrc && b1 == h.linestgt {
      body, rest := [line], lines[1..];
      assert ClaimedAll(body) == [c] by { assert body[1..] == []; }
    } else {
      var more;
      more, rest := BodyBack(items, p, Longer(h, c), a1, b1, lines[1..]);
      body := [line] + more;
      assert lines == [line] + lines[1..] && body[1..] == more;
      assert ClaimedAll(body) == [c] + ClaimedAll(more) && ClaimedAll(body)[1..] == ClaimedAll(more);
    }
  }

  lemma NotInside(st: State)
    requires st.hunkbody || st.filenames || st.hunkhead
    requires !st.hunkparsed && !st.hunkskip && !st.headscan
    ensures !Good(st)
  {
  }

  /** A hunk's first line is followed by its body. */
  lemma HunkBack(st: State, items: seq<Patch>, p: Patch, lines: seq<string>)
    returns (h: HunkPart, rest: seq<string>)
    requires lines != [] && HunkHead(lines[0]).Some? && Good(Run(st, lines))
    requires Step(st, lines[0]) == InBody(0, items, p, HunkHead(lines[0]).value, 0, 0)
    ensures IsHunk(h) && lines == HunkText(h) + rest
  {
    hide Step, HunkHead, Fills, Good, AddHunk;
    GoodStep(st, lines);
    HeadIsBare(lines[0]);
    var body;
    body, rest := BodyBack(items, p, HunkHead(lines[0]).value, 0, 0, lines[1..]);
    h := HunkPart(lines[0], body);
    assert lines == [lines[0]] + lines[1..];
  }

  /** One hunk's lines bring the parser behind it. */
  lemma PartRun(st: State, items: seq<Patch>, p: Patch, part: HunkPart, rest: seq<string>)
    requires IsHunk(part) && Step(st, part.head) == InBody(0, items, p, HunkHead(part.head).value, 0, 0)
    ensures
      var g := HunkHead(part.head).value;
      Run(st, HunkText(part) + rest)
      == Run(Ready(0, items, AddHunk(p, HunkOf(part)), HunkOf(part), g.linessrc, g.linestgt), rest)
  {
    hide Step, HunkHead, Fills, AddHunk, HunkOf;
    HunkRun(0, items, p, part);
    assert HunkText(part) + rest == [part.head] + (part.body + rest);
    RunCons(st, part.head, part.body + rest);
    RunAppend(Step(st, part.head), part.body, rest);
  }

  /** How many lines there are before the first source line. */
  function Nameless(lines: seq<string>): (k: nat)
    ensures k <= |lines| && NoNames(lines[..k])
    ensures k < |lines| ==> StartsWith(lines[k], "--- ")
  {
    if lines == [] || StartsWith(lines[0], "--- ") then 0
    else
      var k := 1 + Nameless(lines[1..]);
      assert lines[..k][1..] == lines[1..][..k - 1];
      k
  }

  /** Where the source name is known, more source lines and the target line follow. */
  lemma {:induction false} NamedBack(items: seq<Patch>, started: bool, p: Patch, h: Hunk, a: nat, b: nat,
                                     header: seq<string>, source: string, lines: seq<string>)
    returns (sources: seq<string>, target: string, rest: seq<string>)
    requires Good(Run(Named(0, items, started, p, h, a, b, header, source), lines))
    ensures AreSources(sources) && NamesFile(target, "+++ ") && lines == sources + ([target] + rest)
    decreases |lines|
  {
    hide Step, Good, FileName, StartsWith;
    if lines == [] {
      NotInside(Named(0, items, started, p, h, a, b, header, source));
      assert false;
    }
    GoodStep(Named(0, items, started, p, h, a, b, header, source), lines);
    NamedLine(0, items, started, p, h, a, b, header, source, lines[0]);
    assert lines == [lines[0]] + lines[1..];
    if NamesFile(lines[0], "--- ") {
      var more;
      more, target, rest := NamedBack(items, started, p, h, a, b, header, NameOf(lines[0]), lines[1..]);
      sources := [lines[0]] + more;
      assert sources[1..] == more;
    } else {
      sources, target, rest := [], lines[0], lines[1..];
    }
  }

  /** The line behind the header names a source. */
  lemma SourceBack(st: State, items: seq<Patch>, started: bool, p: Patch, h: Hunk, a: nat, b: nat,
                   header: seq<string>, line: string, rest: seq<string>)
    requires Begins(st, 0, items, started, p, h, a, b) && Good(Run(st, header + ([line] + rest)))
    requires if started then IsBetween(header) else NoNames(header)
    requires StartsWith(line, "--- ")
    ensures NamesFile(line, "--- ")
  {
    hide Step, HunkHead, FileName, StartsWith, Good;
    RunAppend(st, header, [line] + rest);
    StartIsNoHead(line);
    assert ([line] + rest)[0] == line;
    GoodStep(Run(st, header), [line] + rest);
    if started && header == [] {
      ReadyLine(0, items, p, h, a, b, line);
    } else {
      ScanBehind(st, 0, items, started, p, h, a, b, header);
      ScanningLine(0, items, started, p, h, a, b, header, header != [], line);
    }
  }

  lemma StartIsNoHead(line: string)
    requires StartsWith(line, "--- ")
    ensures HunkHead(line).None?
  {
    assert line[0] == "--- "[0] && "@@ -"[0] != '-';
  }

  /** No patch has begun: the stream is no diff. */
  lemma NothingBegun(st: State)
    requires !st.started && st.items == [] && !st.hunkparsed && !st.hunkskip
    ensures !Good(st)
  {
  }

  /** Behind a complete hunk: more hunks, more patches, and lines of no meaning. */
  lemma {:induction false} ReadyBack(items: seq<Patch>, p: Patch, h: Hunk, a: nat, b: nat, lines: seq<string>)
    returns (hs: seq<HunkPart>, bs: seq<Block>, tail: seq<string>)
    requires Good(Run(Ready(0, items, p, h, a, b), lines))
    ensures AreHunks(hs) && AreBlocks(bs, false) && IsBetween(tail)
    ensures lines == HunksText(hs) + (BlocksText(bs) + tail)
    decreases |lines|, 3
  {
    hide Step, HunkHead, Good, StartsWith, IsHunk, HunkOf, FileName, HunkText;
    var st := Ready(0, items, p, h, a, b);
    if lines == [] {
      hs, bs, tail := [], [], [];
      return;
    }
    GoodStep(st, lines);
    ReadyLine(0, items, p, h, a, b, lines[0]);
    if HunkHead(lines[0]).Some? {
      hs, bs, tail := HunkThenBack(st, items, p, lines);
    } else {
      hs := [];
      bs, tail := BetweenBack(st, items, true, p, h, a, b, lines);
      assert HunksText(hs) + (BlocksText(bs) + tail) == lines;
    }
  }

  /** A hunk, and what can be behind it. */
  lemma {:induction false} HunkThenBack(st: State, items: seq<Patch>, p: Patch, lines: seq<string>)
    returns (hs: seq<HunkPart>, bs: seq<Block>, tail: seq<string>)
    requires lines != [] && HunkHead(lines[0]).Some? && Good(Run(st, lines))
    requires Step(st, lines[0]) == InBody(0, items, p, HunkHead(lines[0]).value, 0, 0)
    ensures hs != [] && AreHunks(hs) && AreBlocks(bs, false) && IsBetween(tail)
    ensures lines == HunksText(hs) + (BlocksText(bs) + tail)
    decreases |lines|, 0
  {
    hide Step, HunkHead, Good, StartsWith, HunkOf, FileName, AddHunk, HunksText, BlocksText, AreHunks, AreBlocks, IsBetween;
    hide Fills, ClaimedAll;
    var part, rest := HunkBack(st, items, p, lines);
    assert |rest| < |lines| && part.head == lines[0];
    PartRun(st, items, p, part, rest);
    var (g, q) := (HunkHead(part.head).value, AddHunk(p, HunkOf(part)));
    var more;
    more, bs, tail := ReadyBack(items, q, HunkOf(part), g.linessrc, g.linestgt, rest);
    hs := [part] + more;
    OneHunkMore(part, more, BlocksText(bs) + tail);
  }

  lemma OneHunkMore(part: HunkPart, more: seq<HunkPart>, rest: seq<string>)
    ensures HunksText([part] + more) + rest == HunkText(part) + (HunksText(more) + rest)
    ensures IsHunk(part) && AreHunks(more) ==> AreHunks([part] + more)
  {
    hide IsHunk, HunkText;
    assert ([part] + more)[1..] == more;
  }

  /** Where a patch may begin: patches, and lines of no meaning behind them. */
  lemma {:induction false} BetweenBack(st: State, items: seq<Patch>, started: bool, p: Patch, h: Hunk, a: nat, b: nat,
                                       lines: seq<string>)
    returns (bs: seq<Block>, tail: seq<string>)
    requires Begins(st, 0, items, started, p, h, a, b) && (!started ==> items == []) && Good(Run(st, lines))
    requires started && lines != [] ==> HunkHead(lines[0]).None?
    ensures AreBlocks(bs, !started) && IsBetween(tail) && lines == BlocksText(bs) + tail
    ensures started || bs != []
    decreases |lines|, 2
  {
    hide Step, HunkHead, Good, StartsWith, FileName;
    var k := Nameless(lines);
    var header := lines[..k];
    assert header != [] ==> header[0] == lines[0];
    if k == |lines| {
      assert header == lines;
      if !started {
        ScanBehind(st, 0, items, started, p, h, a, b, header);
        NothingBegun(Run(st, lines));
        assert false;
      }
      bs, tail := [], lines;
      assert BlocksText(bs) + tail == lines;
    } else {
      assert lines == header + ([lines[k]] + lines[k + 1..]);
      bs, tail := BlockBack(st, items, started, p, h, a, b, header, lines[k], lines[k + 1..]);
    }
  }

  /** A header and a source line are followed by the rest of a patch. */
  lemma {:induction false} BlockBack(st: State, items: seq<Patch>, started: bool, p: Patch, h: Hunk, a: nat, b: nat,
                                     header: seq<string>, line: string, after: seq<string>)
    returns (bs: seq<Block>, tail: seq<string>)
    requires Begins(st, 0, items, started, p, h, a, b) && Good(Run(st, header + ([line] + after)))
    requires if started then IsBetween(header) else NoNames(header)
    requires StartsWith(line, "--- ")
    ensures AreBlocks(bs, !started) && IsBetween(tail) && header + ([line] + after) == BlocksText(bs) + tail && bs != []
    decreases |header| + 1 + |after|, 1
  {
    hide Step, HunkHead, Good, StartsWith, FileName, Begins, Run, AreHunks, IsBetween, NoNames, AreBlocks, BlocksText;
    SourceBack(st, items, started, p, h, a, b, header, line, after);
    NameIsLong(line, "--- ");
    HeaderRun(st, 0, items, started, p, h, a, b, header, line);
    hide AreSources, NamesFile;
    assert header + ([line] + after) == (header + [line]) + after;
    RunAppend(st, header + [line], after);
    var more, target, rest := NamedBack(items, started, p, h, a, b, header, NameOf(line), after);
    var q := TargetRun(items, started, p, h, a, b, header, NameOf(line), more, target, rest);
    var hs, bs0, tail0 := ExpectingBack(if started then items + [p] else items, q, h, a, b, rest);
    bs, tail := [Block(header, [line] + more, target, hs)] + bs0, tail0;
    Assemble(header, line, more, target, hs, bs0, tail0, started);
  }

  lemma Assemble(header: seq<string>, line: string, more: seq<string>, target: string, hs: seq<HunkPart>,
                 bs: seq<Block>, tail: seq<string>, started: bool)
    requires if started then IsBetween(header) else NoNames(header)
    requires NamesFile(line, "--- ") && AreSources(more) && NamesFile(target, "+++ ")
    requires hs != [] && AreHunks(hs) && AreBlocks(bs, false)
    ensures
      var all := [Block(header, [line] + more, target, hs)] + bs;
      && AreBlocks(all, !started)
      && BlocksText(all) + tail == header + ([line] + (more + ([target] + (HunksText(hs) + (BlocksText(bs) + tail)))))
  {
    hide NoNames, IsBetween, NamesFile, IsHunk, HunksText;
    var block := Block(header, [line] + more, target, hs);
    assert ([line] + more)[1..] == more && ([block] + bs)[1..] == bs;
    assert IsBlock(block, !started);
    Regroup(header, [line], more, [target], HunksText(hs), BlocksText(bs), tail);
  }

  lemma Regroup<T>(a: seq<T>, b: seq<T>, c: seq<T>, d: seq<T>, e: seq<T>, f: seq<T>, g: seq<T>)
    ensures ((a + ((b + c) + d)) + e + f) + g == a + (b + (c + (d + (e + (f + g)))))
  {
  }

  /** The names lead to where the first hunk is expected. */
  lemma TargetRun(items: seq<Patch>, started: bool, p: Patch, h: Hunk, a: nat, b: nat, header: seq<string>,
                  source: string, more: seq<string>, target: string, rest: seq<string>) returns (q: Patch)
    requires AreSources(more) && NamesFile(target, "+++ ")
    requires Good(Run(Named(0, items, started, p, h, a, b, header, source), more + ([target] + rest)))
    ensures q.hunks == []
    ensures Good(Run(Expecting(0, if started then items + [p] else items, q, h, a, b), rest))
  {
    hide Step, Good, StartsWith, FileName, Run;
    SourcesRun(0, items, started, p, h, a, b, header, source, more);
    var named := Named(0, items, started, p, h, a, b, header, EndName(source, more));
    RunAppend(Named(0, items, started, p, h, a, b, header, source), more, [target] + rest);
    TargetIsNoSource(target);
    NameIsLong(target, "+++ ");
    hide NamesFile;
    NamedLine(0, items, started, p, h, a, b, header, EndName(source, more), target);
    RunCons(named, target, rest);
    q := Patch(EndName(source, more), NameOf(target), header, []);
  }

  /** The first hunk of a patch, and what can be behind it. */
  lemma {:induction false} ExpectingBack(items: seq<Patch>, p: Patch, h: Hunk, a: nat, b: nat, lines: seq<string>)
    returns (hs: seq<HunkPart>, bs: seq<Block>, tail: seq<string>)
    requires p.hunks == [] && Good(Run(Expecting(0, items, p, h, a, b), lines))
    ensures hs != [] && AreHunks(hs) && AreBlocks(bs, false) && IsBetween(tail)
    ensures lines == HunksText(hs) + (BlocksText(bs) + tail)
    decreases |lines|, 1
  {
    hide Step, HunkHead, Good, StartsWith, IsHunk, FileName;
    if lines == [] {
      NotInside(Expecting(0, items, p, h, a, b));
      assert false;
    }
    GoodStep(Expecting(0, items, p, h, a, b), lines);
    ExpectingLine(0, items, p, h, a, b, lines[0]);
    hs, bs, tail := HunkThenBack(Expecting(0, items, p, h, a, b), items, p, lines);
  }

  /** Whatever the input: when no error is reported, it is the text of a diff. */
  lemma SuccessIsDiff(lines: seq<string>) returns (bs: seq<Block>, tail: seq<string>)
    requires Parse(lines).ok
    ensures IsDiff(bs, tail) && lines == BlocksText(bs) + tail
    ensures Parse(lines) == Parsed(PatchesOf(bs, true), 0, true)
  {
    hide Run, Step, AreBlocks, PatchesOf;
    bs, tail := BetweenBack(Start, [], false, NoPatch, NoHunk, 0, 0, lines);
    ParsesAsMeant(bs, tail);
  }

  ghost predicate Means(lines: seq<string>, bs: seq<Block>, tail: seq<string>, ps: seq<Patch>)
  {
    IsDiff(bs, tail) && lines == BlocksText(bs) + tail && ps == PatchesOf(bs, true)
  }

  /** The parser reports success for the texts of diffs, and no others, and returns just what they mean. */
  lemma ParsesExactly(lines: seq<string>, ps: seq<Patch>)
    ensures Parse(lines) == Parsed(ps, 0, true) <==> exists bs, tail :: Means(lines, bs, tail, ps)
    ensures Parse(lines).ok ==> Parse(lines).errors == 0
  {
    hide Parse, IsDiff, PatchesOf;
    if Parse(lines).ok {
      var bs, tail := SuccessIsDiff(lines);
      if Parse(lines).items == ps {
        assert Means(lines, bs, tail, ps);
      }
    }
    if bs, tail :| Means(lines, bs, tail, ps) {
      ParsesAsMeant(bs, tail);
    }
  }
}
