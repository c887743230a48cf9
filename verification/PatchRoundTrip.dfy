/** Parsing what was written gives the patch set back. */
module PatchRoundTrip {
  import opened Text
  import opened PatchModel
  import opened PatchParse
  import opened PatchGrammar
  import opened PatchPrint

  // ---- what is written is the text of a diff ----

  function PartOf(h: Hunk, how: Layout): HunkPart { HunkPart(HeadText(h, how), BodyText(h, how)) }

  function PartsOf(hunks: seq<Hunk>, how: Layout): (r: seq<HunkPart>)
    ensures |r| == |hunks|
  {
    if hunks == [] then [] else [PartOf(hunks[0], how)] + PartsOf(hunks[1..], how)
  }

  function BlockOf(p: Patch, how: Layout): Block
  {
    Block(Printed(p.header), [SourceLine(p, how)], TargetLine(p, how), PartsOf(p.hunks, how))
  }

  function BlocksOf(ps: seq<Patch>, hows: seq<Layout>): (r: seq<Block>)
    requires |hows| == |ps|
    ensures |r| == |ps|
  {
    if ps == [] then [] else [BlockOf(ps[0], hows[0])] + BlocksOf(ps[1..], hows[1..])
  }

  lemma PartIsHunk(h: Hunk, how: Layout)
    requires Readable(h)
    ensures IsHunk(PartOf(h, how)) && HunkOf(PartOf(h, how)) == Shown(h, how)
  {
    hide HunkHead, HeadText, ClaimedAll, Trimmed, Tagged, Fills, SourceCount, TargetCount;
    PrintedIsSame(h.text);
    TrimmedIsClaimed(h.text);
    HeadReadBack(h, how);
    CountsFill(h.text, h.linessrc, h.linestgt);
  }

  lemma {:induction false} PartsAreHunks(hunks: seq<Hunk>, how: Layout)
    requires AllReadable(hunks)
    ensures AreHunks(PartsOf(hunks, how)) && HunksOf(PartsOf(hunks, how)) == ShownHunks(hunks, how)
    ensures HunksText(PartsOf(hunks, how)) == AllHunkLines(hunks, how)
  {
    hide Readable, IsHunk, HeadText, BodyText, HunkHead;
    if hunks != [] {
      PartIsHunk(hunks[0], how);
      PartsAreHunks(hunks[1..], how);
      assert PartsOf(hunks, how)[1..] == PartsOf(hunks[1..], how);
    }
  }

  lemma NamesAreRead(p: Patch, how: Layout)
    requires IsName(p.source) && IsName(p.target) && IsLayout(how)
    ensures NamesFile(SourceLine(p, how), "--- ") && NameOf(SourceLine(p, how)) == p.source
    ensures NamesFile(TargetLine(p, how), "+++ ") && NameOf(TargetLine(p, how)) == p.target
  {
    NameReadBack("--- ", p.source, how.sourceStamp);
    NameReadBack("+++ ", p.target, how.targetStamp);
    hide FileName, IsName, IsStamp;
    assert SourceLine(p, how)[..4] == "--- " && TargetLine(p, how)[..4] == "+++ ";
  }

  lemma PatchIsBlock(p: Patch, how: Layout, first: bool)
    requires Writable(p, first) && IsLayout(how)
    ensures IsBlock(BlockOf(p, how), first) && PatchOf(BlockOf(p, how), first) == ShownPatch(p, how)
    ensures BlockText(BlockOf(p, how)) == PatchLines(p, how)
  {
    hide FileName, Readable, Chomp, StartsWith, HunkHead;
    PrintedIsSame(p.header);
    NamesAreRead(p, how);
    PartsAreHunks(p.hunks, how);
    hide Printed, AllHunkLines, HunksText, AreHunks, HunksOf, NamesFile, SourceLine, TargetLine, IsBetween, NoNames;
    hide ShownHunks, IsName, AllReadable, NameOf;
    var sources := [SourceLine(p, how)];
    assert sources[1..] == [] && AreSources(sources);
    Regroup(Printed(p.header), sources, [TargetLine(p, how)], AllHunkLines(p.hunks, how));
  }

  lemma Regroup<T>(a: seq<T>, b: seq<T>, c: seq<T>, d: seq<T>)
    ensures (a + (b + c)) + d == a + (b + (c + d))
  {
  }

  lemma {:induction false} PatchesAreBlocks(ps: seq<Patch>, hows: seq<Layout>, first: bool)
    requires |hows| == |ps| && AllWritable(ps, first) && AreLayouts(hows)
    ensures AreBlocks(BlocksOf(ps, hows), first) && PatchesOf(BlocksOf(ps, hows), first) == ShownPatches(ps, hows)
    ensures BlocksText(BlocksOf(ps, hows)) == AllLines(ps, hows)
  {
    hide Writable, IsLayout, IsBlock, BlockOf, PatchOf, BlockText, PatchLines;
    if ps != [] {
      PatchIsBlock(ps[0], hows[0], first);
      PatchesAreBlocks(ps[1..], hows[1..], false);
      assert BlocksOf(ps, hows)[1..] == BlocksOf(ps[1..], hows[1..]);
    }
  }

  // ---- the round trip ----

  /** A patch set in any layouts, parsed: no error, and the same patches with the same names, ranges and lines;
      with the descriptions, where they were written. */
  lemma PrintThenParse(ps: seq<Patch>, hows: seq<Layout>)
    requires ps != [] && AllWritable(ps, true) && |hows| == |ps| && AreLayouts(hows)
    ensures Parse(AllLines(ps, hows)) == Parsed(ShownPatches(ps, hows), 0, true)
  {
    hide Parse, BlocksOf, PatchesOf, BlocksText, AllLines, ShownPatches, AreBlocks;
    PatchesAreBlocks(ps, hows, true);
    var bs := BlocksOf(ps, hows);
    ParsesAsMeant(bs, []);
    assert BlocksText(bs) + [] == BlocksText(bs);
  }

  function DiffLayouts(n: nat, times: seq<(string, string)>): (r: seq<Layout>)
    requires |times| == n
    ensures |r| == n
  {
    if n == 0 then [] else [DiffLayout(times[0].0, times[0].1)] + DiffLayouts(n - 1, times[1..])
  }

  predicate AreTimes(times: seq<(string, string)>)
  {
    times == [] || ('\n' !in times[0].0 && '\n' !in times[0].1 && AreTimes(times[1..]))
  }

  /** As `diff -u` writes it, everything comes back. */
  lemma DiffThenParse(ps: seq<Patch>, times: seq<(string, string)>)
    requires ps != [] && AllWritable(ps, true) && |times| == |ps| && AreTimes(times)
    ensures Parse(AllLines(ps, DiffLayouts(|ps|, times))) == Parsed(ps, 0, true)
  {
    hide Parse, AllWritable, AllLines;
    DiffShowsAll(ps, times);
    PrintThenParse(ps, DiffLayouts(|ps|, times));
  }

  lemma {:induction false} DiffShowsAll(ps: seq<Patch>, times: seq<(string, string)>)
    requires |times| == |ps| && AreTimes(times)
    ensures AreLayouts(DiffLayouts(|ps|, times)) && ShownPatches(ps, DiffLayouts(|ps|, times)) == ps
  {
    if ps != [] {
      DiffShowsAll(ps[1..], times[1..]);
      AllShown(ps[0].hunks, DiffLayout(times[0].0, times[0].1));
      assert [ps[0]] + ps[1..] == ps;
      assert DiffLayouts(|ps|, times)[1..] == DiffLayouts(|ps| - 1, times[1..]);
    }
  }

  lemma {:induction false} AllShown(hunks: seq<Hunk>, how: Layout)
    requires how.described
    ensures ShownHunks(hunks, how) == hunks
  {
    if hunks != [] {
      AllShown(hunks[1..], how);
    }
  }
}
