/** A second `apply` of the same patch. */
module PatchAgain {
  import opened Text
  import opened Splicing
  import opened PatchModel
  import opened PatchLineEnds
  import opened PatchApply
  import opened PatchRevert
  import opened PatchTexts
  import opened PatchWritten
  import opened PatchLimits

  /** A second `apply` finds nothing to do when some hunk that the hunks before it do not move has its
      old and new texts differ at an index inside both and before the last old line. */
  lemma SecondApplyRefuses(src: seq<string>, hunks: seq<Hunk>, i: nat, j: nat)
    requires Proper(hunks) && CanPatch(src, hunks)
    requires i < |hunks| && hunks[i].starttgt == hunks[i].startsrc
    requires j + 1 < |Old(hunks[i])| && j < |New(hunks[i])| && Old(hunks[i])[j] != New(hunks[i])[j]
    ensures !CanPatch(Stream(src, hunks, 0), hunks) && Patched(Stream(src, hunks, 0), hunks)
  {
    hide Stream, Pick, Tagged, TargetsFollow, Ordered, HeadMatches, Agree;
    var out := Stream(src, hunks, 0);
    PatchedIsRecognised(src, hunks);
    NewStands(src, hunks, i);
    NewStandsThere(out, hunks[i], j);
    hide Patched;
    assert !HeadMatches(out, hunks[i]);
  }

  /** Every hunk's new texts stand in the patched file at its target start. */
  lemma NewStands(src: seq<string>, hunks: seq<Hunk>, i: nat)
    requires Proper(hunks) && CanPatch(src, hunks) && i < |hunks|
    ensures hunks[i].starttgt >= 1 && Agree(Stream(src, hunks, 0), hunks[i].starttgt - 1, New(hunks[i]))
  {
    hide Stream, Pick, Tagged, TargetsFollow, Ordered, HeadMatches, Agree, ReversedText, Texts, LastLineMatches;
    TextsComeBack(src, hunks);
    hide CanPatch;
    AllAgreeByIndex(Stream(src, hunks, 0), ReversedAll(hunks));
    ReversedAllAt(hunks, i);
    TaggedAt(hunks, i);
    ReversalSwapsSides(hunks[i].text);
    assert SourceAgrees(Stream(src, hunks, 0), ReversedAll(hunks)[i]);
  }

  lemma NewStandsThere(out: seq<string>, h: Hunk, j: nat)
    requires h.startsrc >= 1 && Agree(out, h.startsrc - 1, New(h))
    requires j + 1 < |Old(h)| && j < |New(h)| && Old(h)[j] != New(h)[j]
    ensures !HeadMatches(out, h)
  {
    hide Pick, Rstrip;
  }

  // ---- when it is accepted ----

  /** The hunk's old texts, but for the last, stand among `texts` at its source start, and there is a line for
      the last. */
  predicate HeadStands(texts: seq<string>, h: Hunk)
  {
    var (start, n) := (h.startsrc - 1, |Old(h)| - 1);
    0 <= start && 0 <= n && start + n < |texts| && texts[start..start + n] == Old(h)[..n]
  }

  lemma HeadIsSlice(file: seq<string>, h: Hunk)
    ensures HeadMatches(file, h) <==> HeadStands(Texts(file), h)
  {
    hide Pick, Texts, Rstrip;
    var (start, n) := (h.startsrc - 1, |Old(h)| - 1);
    if 0 <= start && 0 <= n && start + n < |file| {
      AgreeIsSlice(file, start, Old(h)[..n]);
      assert HeadMatches(file, h) <==> Agree(file, start, Old(h)[..n]);
    }
  }

  function Growth(hunks: seq<Hunk>): int
  {
    if hunks == [] then 0 else |New(hunks[0])| - |Old(hunks[0])| + Growth(hunks[1..])
  }

  lemma {:induction false} WeaveGrows(texts: seq<string>, hunks: seq<Hunk>, pos: nat)
    requires Fits(TextEdits(hunks), pos, |texts|)
    ensures |Weave(texts, TextEdits(hunks), pos)| == |texts| - pos + Growth(hunks)
    decreases |hunks|, |texts| - pos
  {
    hide Pick;
    if hunks == [] {
    } else if pos < TextEdits(hunks)[0].start {
      WeaveGrows(texts, hunks, pos + 1);
    } else {
      assert TextEdits(hunks)[1..] == TextEdits(hunks[1..]);
      WeaveGrows(texts, hunks[1..], pos + |Old(hunks[0])|);
    }
  }

  /** A second `apply` takes the patch again exactly when, in the texts that the first one leaves, every hunk's
      old texts but the last stand at its source start. Then the file changes in size once more. */
  lemma SecondApplyRepeats(src: seq<string>, hunks: seq<Hunk>)
    requires Placed(hunks) && CanPatch(src, hunks)
    ensures Fits(TextEdits(hunks), 0, |src|)
    ensures
      var (out, texts) := (Stream(src, hunks, 0), Weave(Texts(src), TextEdits(hunks), 0));
      && (CanPatch(out, hunks) <==> forall i | 0 <= i < |hunks| :: HeadStands(texts, hunks[i]))
      && (CanPatch(out, hunks) ==> |Stream(out, hunks, 0)| == |src| + 2 * Growth(hunks))
  {
    var out := Stream(src, hunks, 0);
    AcceptedTexts(src, hunks);
    hide Pick, Texts, Stream, Weave, Tagged, Fits, HeadMatches, HeadStands, TextEdits;
    WeaveGrows(Texts(src), hunks, 0);
    forall i | 0 <= i < |hunks| ensures HeadMatches(out, hunks[i]) <==> HeadStands(Texts(out), hunks[i]) {
      HeadIsSlice(out, hunks[i]);
    }
    if CanPatch(out, hunks) {
      AcceptedTexts(out, hunks);
      WeaveGrows(Texts(out), hunks, 0);
    }
  }

  // ---- hunks that keep their sizes ----

  predicate KeepSizes(hunks: seq<Hunk>)
  {
    forall i | 0 <= i < |hunks| :: |Old(hunks[i])| == |New(hunks[i])|
  }

  /** Old and new texts are the same but for the last. */
  predicate ChangesLastOnly(h: Hunk)
  {
    |Old(h)| == |New(h)| >= 1 && Old(h)[..|Old(h)| - 1] == New(h)[..|New(h)| - 1]
  }

  /** Such a patch is accepted again exactly when no hunk changes a line before its last; and then the
      second `apply` leaves the texts as the first one made them. */
  lemma SecondApplyOfSameSizes(src: seq<string>, hunks: seq<Hunk>)
    requires Proper(hunks) && CanPatch(src, hunks) && KeepSizes(hunks)
    ensures
      var out := Stream(src, hunks, 0);
      && (CanPatch(out, hunks) <==> forall i | 0 <= i < |hunks| :: ChangesLastOnly(hunks[i]))
      && (CanPatch(out, hunks) ==> Texts(Stream(out, hunks, 0)) == Texts(out))
  {
    hide Tagged, Ordered, TargetsFollow, Stream, HeadMatches, ChangesLastOnly, Pick, Texts, Agree;
    var out := Stream(src, hunks, 0);
    forall i | 0 <= i < |hunks| ensures HeadMatches(out, hunks[i]) <==> ChangesLastOnly(hunks[i]) {
      assert |Old(hunks[i])| >= 1;
      NewStands(src, hunks, i);
      TargetsStay(hunks, i);
      HeadAgain(out, hunks[i]);
    }
    if CanPatch(out, hunks) {
      SameAgain(src, hunks);
    }
  }

  lemma HeadAgain(out: seq<string>, h: Hunk)
    requires h.startsrc >= 1 && Agree(out, h.startsrc - 1, New(h)) && |Old(h)| == |New(h)| >= 1
    ensures HeadMatches(out, h) <==> ChangesLastOnly(h)
  {
    hide Pick, Rstrip;
    var n := |Old(h)| - 1;
    if ChangesLastOnly(h) {
      assert forall j | 0 <= j < n :: Old(h)[j] == Old(h)[..n][j] == New(h)[j];
    }
    if HeadMatches(out, h) {
      assert forall j | 0 <= j < n :: Old(h)[j] == New(h)[j];
    }
  }

  lemma {:induction false} TargetsStay(hunks: seq<Hunk>, i: nat)
    requires TargetsFollow(hunks, 0) && KeepSizes(hunks) && i < |hunks|
    ensures hunks[i].starttgt == hunks[i].startsrc
  {
    hide Pick;
    if i > 0 {
      var t := hunks[1..];
      assert forall k | 0 <= k < |t| :: t[k] == hunks[k + 1];
      TargetsStay(t, i - 1);
    }
  }

  /** Replacing what was added by itself. */
  lemma SameAgain(src: seq<string>, hunks: seq<Hunk>)
    requires Proper(hunks) && CanPatch(src, hunks) && KeepSizes(hunks) && CanPatch(Stream(src, hunks, 0), hunks)
    ensures Texts(Stream(Stream(src, hunks, 0), hunks, 0)) == Texts(Stream(src, hunks, 0))
  {
    var (out, es) := (Stream(src, hunks, 0), TextEdits(hunks));
    AcceptedTexts(src, hunks);
    AcceptedTexts(out, hunks);
    SizesOfEdits(hunks);
    hide *;
    MirrorUndoes(es, 0, 0, |src|);
    MirrorRestores(Texts(src), es, Texts(out));
    RestoredInPlace(Texts(out), Mirror(es, 0));
    RestoredIsWeave(Texts(out), es, Mirror(es, 0), 0);
  }

  lemma RestoredInPlace<T>(out: seq<T>, back: seq<Edit<T>>)
    requires HoldsAdded(out, back, 0)
    ensures Fits(back, 0, |out|) && Restored(out, back, 0) == out
  {
    RestoredIffInPlace(out, back, 0);
    hide Restored, InPlace, Fits;
    assert out[0..] == out;
  }

  predicate SameSizes<T>(edits: seq<Edit<T>>)
  {
    edits == [] || (|edits[0].added| == |edits[0].removed| && SameSizes(edits[1..]))
  }

  lemma {:induction false} SizesOfEdits(hunks: seq<Hunk>)
    requires KeepSizes(hunks)
    ensures SameSizes(TextEdits(hunks))
  {
    hide Pick;
    if hunks != [] {
      var t := hunks[1..];
      assert forall k | 0 <= k < |t| :: t[k] == hunks[k + 1];
      SizesOfEdits(t);
    }
  }

  /** When nothing moves, the edits write what the undoing edits look for. */
  lemma {:induction false} RestoredIsWeave<T>(out: seq<T>, edits: seq<Edit<T>>, back: seq<Edit<T>>, pos: nat)
    requires Undoes(back, edits, 0) && SameSizes(edits) && Fits(back, pos, |out|) && Fits(edits, pos, |out|)
    ensures Restored(out, back, pos) == Weave(out, edits, pos)
    decreases |edits|, |out| - pos
  {
    if edits == [] {
    } else if pos < edits[0].start {
      RestoredIsWeave(out, edits, back, pos + 1);
      hide Fits, Undoes, SameSizes;
    } else {
      var next := pos + |edits[0].removed|;
      RestoredIsWeave(out, edits[1..], back[1..], next);
      OneWeave(out, edits, pos);
      OneRestored(out, back, pos);
      hide *;
    }
  }

  lemma OneWeave<T>(out: seq<T>, edits: seq<Edit<T>>, pos: nat)
    requires edits != [] && pos == edits[0].start && Fits(edits, pos, |out|)
    ensures Weave(out, edits, pos) == edits[0].added + Weave(out, edits[1..], pos + |edits[0].removed|)
  {
  }

  lemma OneRestored<T>(out: seq<T>, back: seq<Edit<T>>, pos: nat)
    requires back != [] && pos == back[0].start && Fits(back, pos, |out|)
    ensures Restored(out, back, pos) == back[0].removed + Restored(out, back[1..], pos + |back[0].removed|)
  {
  }

  /** In a file with one line end, of which the lines put in front have no other, the same texts are the same
      file: so the second `apply` then changes nothing at all. */
  lemma SecondApplyChangesNothing(src: seq<string>, hunks: seq<Hunk>, nl: Ending)
    requires Proper(hunks) && CanPatch(src, hunks) && KeepSizes(hunks) && CanPatch(Stream(src, hunks, 0), hunks)
    requires EndsIn(src, nl) && LeadEnds(hunks, Chars(nl))
    ensures Stream(Stream(src, hunks, 0), hunks, 0) == Stream(src, hunks, 0)
  {
    var out := Stream(src, hunks, 0);
    hide Stream, CanPatch, KeepSizes, Proper, Uniform, Texts, Lead;
    OutEndsIn(src, hunks, nl);
    OutEndsIn(out, hunks, nl);
    SameAgain(src, hunks);
    SameTexts(Stream(out, hunks, 0), out, Chars(nl));
  }

  lemma OutEndsIn(src: seq<string>, hunks: seq<Hunk>, nl: Ending)
    requires Proper(hunks) && CanPatch(src, hunks) && EndsIn(src, nl) && LeadEnds(hunks, Chars(nl))
    ensures EndsIn(Stream(src, hunks, 0), nl)
  {
    hide Stream, CanPatch, Ordered, Unmarked, AllTagged, Uniform, Lead, Written, Weave, Fits, Pick, Stands, AtTheTop;
    ApplyMakesEdits(src, hunks, nl);
    OutShape(src, hunks, nl);
    WholeEndsIn(Stream(src, hunks, 0), |Lead(hunks)|, nl);
  }

  lemma WholeEndsIn(out: seq<string>, k: nat, nl: Ending)
    requires EndsInFrom(out, k, nl) && Uniform(out[..k], Chars(nl))
    ensures EndsIn(out, nl)
  {
    hide Uniform;
    UniformConcat(out[..k], out[k..], Chars(nl));
    assert out[..k] + out[k..] == out;
  }

  lemma {:induction false} SameTexts(a: seq<string>, b: seq<string>, nl: string)
    requires Uniform(a, nl) && Uniform(b, nl) && Texts(a) == Texts(b)
    ensures a == b
  {
    hide Rstrip;
    if a != [] {
      assert Texts(a)[0] == Texts(b)[0] && Texts(a)[1..] == Texts(b)[1..];
      SameTexts(a[1..], b[1..], nl);
      assert a == [a[0]] + a[1..] && b == [b[0]] + b[1..];
    }
  }
}
