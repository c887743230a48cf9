/** What a parse that reports success guarantees, for every input. */
module PatchSound {
  import opened PatchModel
  import opened PatchParse
  import opened PatchGrammar

  /** A complete hunk: its ranges count its body lines. */
  predicate AllCounted(hunks: seq<Hunk>)
  {
    hunks == [] || (Counted(hunks[0]) && !hunks[0].invalid && AllCounted(hunks[1..]))
  }

  /** A patch `apply` can work on: at least one hunk, and every hunk complete. */
  predicate Usable(p: Patch) { p.hunks != [] && AllCounted(p.hunks) }

  predicate AllUsable(ps: seq<Patch>) { ps == [] || (Usable(ps[0]) && AllUsable(ps[1..])) }

  lemma {:induction false} PartsCounted(hs: seq<HunkPart>)
    requires AreHunks(hs)
    ensures AllCounted(HunksOf(hs))
  {
    hide HunkHead, Fills, Tagged, SourceCount, TargetCount, ClaimedAll;
    if hs != [] {
      HeadIsBare(hs[0].head);
      var g := HunkHead(hs[0].head).value;
      FillsCounts(ClaimedAll(hs[0].body), g.linessrc, g.linestgt);
      PartsCounted(hs[1..]);
    }
  }

  lemma {:induction false} BlocksUsable(bs: seq<Block>, first: bool)
    requires AreBlocks(bs, first)
    ensures AllUsable(PatchesOf(bs, first))
  {
    hide AllCounted, AreHunks, HunksOf, NamesFile, AreSources, IsBetween, NoNames;
    if bs != [] {
      PartsCounted(bs[0].hunks);
      BlocksUsable(bs[1..], false);
      assert PatchesOf(bs, first)[1..] == PatchesOf(bs[1..], false);
    }
  }

  /** Whatever the input: a parse without errors holds at least one patch, every patch at least one hunk,
      and every hunk exactly the source and target lines its ranges announce, each with a known tag. */
  lemma SuccessIsUsable(lines: seq<string>)
    requires Parse(lines).ok
    ensures Parse(lines).items != [] && AllUsable(Parse(lines).items)
  {
    hide Parse, AreBlocks, PatchesOf, AllUsable;
    var bs, tail := SuccessIsDiff(lines);
    BlocksUsable(bs, true);
  }

  lemma {:induction false} CountedIsTagged(hunks: seq<Hunk>)
    requires AllCounted(hunks)
    ensures AllTagged(hunks)
  {
    hide Tagged, SourceCount, TargetCount;
    if hunks != [] {
      CountedIsTagged(hunks[1..]);
    }
  }

  lemma {:induction false} UsableAt(ps: seq<Patch>, i: nat)
    requires AllUsable(ps) && i < |ps|
    ensures Usable(ps[i])
  {
    hide Usable;
    if i > 0 {
      UsableAt(ps[1..], i - 1);
    }
  }

  /** So every patch of such a parse meets what applying it demands: it has hunks, and their lines have tags. */
  lemma SuccessCanBeApplied(lines: seq<string>, i: nat)
    requires Parse(lines).ok && i < |Parse(lines).items|
    ensures Parse(lines).items[i].hunks != [] && AllTagged(Parse(lines).items[i].hunks)
  {
    hide Parse, AllCounted;
    SuccessIsUsable(lines);
    UsableAt(Parse(lines).items, i);
    CountedIsTagged(Parse(lines).items[i].hunks);
  }

  /** A complete hunk without marker lines has as many source and target texts as its ranges say. */
  lemma {:induction false} CountsAreSides(text: seq<string>)
    requires Tagged(text)
    ensures |Pick(text, Source)| == SourceCount(text) && |Pick(text, Target)| == TargetCount(text)
  {
    if text != [] {
      CountsAreSides(text[1..]);
    }
  }
}
