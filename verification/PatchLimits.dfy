/** What a patched file looks like to the checker and to a second `apply`, and where the code falls
    short of what its callers may expect. */
module PatchLimits {
  import opened Text
  import opened PatchModel
  import opened PatchApply
  import opened PatchRevert
  import opened PatchTexts

  lemma {:induction false} KeptIsTarget(text: seq<string>)
    requires Tagged(text) && Pick(text, Marker) == []
    ensures Kept(text) == Pick(text, Target)
  {
    if text != [] {
      KeptIsTarget(text[1..]);
    }
  }

  /** The hunks in order and apart, by their lines in the patched file. */
  predicate TargetsOrdered(hunks: seq<Hunk>)
  {
    && (forall i | 0 <= i < |hunks| :: hunks[i].starttgt >= 1)
    && forall i | 0 < i < |hunks| :: hunks[i - 1].starttgt + |New(hunks[i - 1])| <= hunks[i].starttgt
  }

  /** The file holds the hunk's target texts at its target start. */
  predicate TargetStands(file: seq<string>, h: Hunk)
  {
    && 1 <= h.starttgt && h.starttgt - 1 + |New(h)| <= |file|
    && forall j | 0 <= j < |New(h)| :: Rstrip(file[h.starttgt - 1 + j]) == New(h)[j]
  }

  /** A file is taken for patched exactly when every hunk's target texts stand at its target start. */
  lemma PatchedExactly(file: seq<string>, hunks: seq<Hunk>)
    requires AllTagged(hunks) && Unmarked(hunks) && TargetsOrdered(hunks)
    ensures Patched(file, hunks) <==> forall i | 0 <= i < |hunks| :: TargetStands(file, hunks[i])
  {
    hide Pick, Agree, Kept, Place, Tagged, TargetStands, KeptStands;
    forall i | 0 <= i < |hunks| ensures KeptStands(file, hunks, i) <==> TargetStands(file, hunks[i]) {
      PlaceIsTarget(hunks, i);
      KeptAt(hunks, i);
      StandsThere(file, hunks, i);
    }
  }

  lemma StandsThere(file: seq<string>, hunks: seq<Hunk>, i: nat)
    requires i < |hunks| && 1 <= hunks[i].starttgt == Place(hunks, i) + 1 && Kept(hunks[i].text) == New(hunks[i])
    ensures KeptStands(file, hunks, i) <==> TargetStands(file, hunks[i])
  {
    hide Pick, Kept, Place, Rstrip;
  }

  lemma {:induction false} KeptAt(hunks: seq<Hunk>, i: nat)
    requires AllTagged(hunks) && Unmarked(hunks) && i < |hunks|
    ensures Kept(hunks[i].text) == New(hunks[i])
  {
    hide Tagged, Pick, Kept;
    if i > 0 {
      KeptAt(hunks[1..], i - 1);
    } else {
      KeptIsTarget(hunks[0].text);
    }
  }

  /** Ordered hunks are looked for at their target starts. */
  lemma {:induction false} PlaceIsTarget(hunks: seq<Hunk>, i: nat)
    requires AllTagged(hunks) && Unmarked(hunks) && TargetsOrdered(hunks) && i < |hunks|
    ensures Place(hunks, i) == hunks[i].starttgt - 1
  {
    hide Tagged, Pick, Kept, AllTagged, Unmarked;
    if i > 0 {
      PlaceIsTarget(hunks, i - 1);
      KeptAt(hunks, i - 1);
    }
  }

  /** So a file that lacks one text of one hunk is not taken for patched. */
  lemma MissingIsNotPatched(file: seq<string>, hunks: seq<Hunk>, i: nat, j: nat)
    requires AllTagged(hunks) && Unmarked(hunks) && TargetsOrdered(hunks) && i < |hunks| && j < |New(hunks[i])|
    requires
      var at := hunks[i].starttgt - 1 + j;
      |file| <= at || Rstrip(file[at]) != New(hunks[i])[j]
    ensures !Patched(file, hunks)
  {
    PatchedExactly(file, hunks);
    hide Pick, Patched, AllTagged, Unmarked, Rstrip;
    assert !TargetStands(file, hunks[i]);
  }

  lemma ReversedOrder(hunks: seq<Hunk>)
    requires AllTagged(hunks) && Ordered(ReversedAll(hunks))
    ensures TargetsOrdered(hunks)
  {
    hide Pick, AllTagged, Tagged;
    var back := ReversedAll(hunks);
    forall i | 0 <= i < |hunks| ensures back[i].startsrc == hunks[i].starttgt && |Old(back[i])| == |New(hunks[i])| {
      ReversedAllAt(hunks, i);
      TaggedAt(hunks, i);
      ReversalSwapsSides(hunks[i].text);
    }
  }

  /** What `apply` wrote, `_match_file_hunks` recognises. */
  lemma PatchedIsRecognised(src: seq<string>, hunks: seq<Hunk>)
    requires Proper(hunks) && CanPatch(src, hunks)
    ensures Patched(Stream(src, hunks, 0), hunks)
  {
    hide Stream, Pick, Agree, Ordered, Tagged, TargetsFollow, Texts, LastLineMatches, SourceAgrees;
    TextsComeBack(src, hunks);
    ReversedOrder(hunks);
    var (out, back) := (Stream(src, hunks, 0), ReversedAll(hunks));
    AllAgreeByIndex(out, back);
    forall i | 0 <= i < |hunks| ensures TargetStands(out, hunks[i]) {
      assert SourceAgrees(out, back[i]);
      ReversedAllAt(hunks, i);
      TaggedAt(hunks, i);
      ReversalSwapsSides(hunks[i].text);
      AgreesIsStands(out, hunks[i]);
    }
    hide TargetStands;
    PatchedExactly(out, hunks);
  }

  lemma AgreesIsStands(out: seq<string>, h: Hunk)
    requires SourceAgrees(out, Reversed(h)) && Old(Reversed(h)) == New(h)
    ensures TargetStands(out, h)
  {
    hide Pick, Rstrip;
  }

  /** The hunks lie in order inside `size` lines, of which `pos` are behind, counting for each its old lines
      and its backslash markers. */
  predicate MarkersFit(hunks: seq<Hunk>, pos: nat, size: nat)
    decreases |hunks|
  {
    if hunks == [] then pos <= size
    else
      var h := hunks[0];
      pos < h.startsrc && MarkersFit(hunks[1..], h.startsrc - 1 + |Old(h)| + |Pick(h.text, Marker)|, size)
  }

  /** The lines the hunks add, less those they remove, less one for each marker. */
  function GrowthLessMarkers(hunks: seq<Hunk>): int
  {
    if hunks == [] then 0
    else
      var h := hunks[0];
      |New(h)| - |Old(h)| - |Pick(h.text, Marker)| + GrowthLessMarkers(hunks[1..])
  }

  /** With backslash markers: every marker line loses a line of the file behind its hunk. */
  lemma {:induction false} MarkersLoseLines(src: seq<string>, hunks: seq<Hunk>, pos: nat)
    requires AllTagged(hunks) && MarkersFit(hunks, pos, |src|)
    ensures pos <= |src| && |Stream(src, hunks, pos)| == |src| - pos + GrowthLessMarkers(hunks)
    decreases |hunks|, if hunks == [] then 0 else hunks[0].startsrc - pos
  {
    hide Body, Pick, Tagged;
    if hunks == [] {
    } else if pos + 1 < hunks[0].startsrc {
      MarkersLoseLines(src, hunks, pos + 1);
    } else {
      MarkersConsume(src, hunks[0].text, pos);
      MarkersLoseLines(src, hunks[1..], pos + |Old(hunks[0])| + |Pick(hunks[0].text, Marker)|);
    }
  }

  /** A hunk without target lines has no way back: reversed, it has no source lines, and no file meets that. */
  lemma NoWayBack(out: seq<string>, hunks: seq<Hunk>, i: nat)
    requires AllTagged(hunks) && i < |hunks| && New(hunks[i]) == []
    ensures !CanPatch(out, ReversedAll(hunks))
  {
    ReversedAllAt(hunks, i);
    TaggedAt(hunks, i);
    ReversalSwapsSides(hunks[i].text);
    assert !HeadMatches(out, ReversedAll(hunks)[i]);
  }
}
