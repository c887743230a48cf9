/** Applying and reverting, as far as the texts of the lines go: for any file and any patch, whatever ends
    their lines have. */
module PatchTexts {
  import opened Text
  import opened Splicing
  import opened PatchModel
  import opened PatchApply
  import opened PatchRevert

  function TextEdit(h: Hunk): Edit<string>
  {
    Edit(if h.startsrc == 0 then 0 else h.startsrc - 1, Old(h), New(h))
  }

  /** The texts each hunk replaces, and by what. */
  function TextEdits(hunks: seq<Hunk>): (r: seq<Edit<string>>)
    ensures |r| == |hunks|
  {
    if hunks == [] then [] else [TextEdit(hunks[0])] + TextEdits(hunks[1..])
  }

  lemma {:induction false} TextsOfPick(text: seq<string>, side: Side)
    ensures Texts(Pick(text, side)) == Pick(text, side)
  {
    if text != [] {
      TextsOfPick(text[1..], side);
      if OnSide(text[0], side) {
        var t := Rstrip(text[0][1..]);
        assert t + "" == t;
        RstripUnique(t, t, "");
      }
    }
  }

  lemma {:induction false} TextsStand(hunks: seq<Hunk>)
    requires forall i | 0 <= i < |hunks| :: hunks[i].startsrc >= 1
    ensures Stands(hunks, TextEdits(hunks))
  {
    hide Texts, Pick;
    if hunks != [] {
      TextsOfPick(hunks[0].text, Source);
      TextsOfPick(hunks[0].text, Target);
      assert forall i | 0 <= i < |hunks[1..]| :: hunks[1..][i] == hunks[i + 1];
      TextsStand(hunks[1..]);
    }
  }

  // ---- the stream ----

  lemma {:induction false} TextsConcat(a: seq<string>, b: seq<string>)
    ensures Texts(a + b) == Texts(a) + Texts(b)
  {
    hide Rstrip;
    if a == [] {
      assert a + b == b;
    } else {
      assert (a + b)[1..] == a[1..] + b;
      TextsConcat(a[1..], b);
    }
  }

  lemma {:induction false} TextsSuffix(a: seq<string>, pos: nat)
    requires pos <= |a|
    ensures Texts(a[pos..]) == Texts(a)[pos..]
  {
    hide Rstrip;
    if pos > 0 {
      assert a[1..][pos - 1..] == a[pos..];
      TextsSuffix(a[1..], pos - 1);
    }
  }

  lemma {:induction false} BodyTexts(src: seq<string>, text: seq<string>, pos: nat)
    requires Tagged(text) && Pick(text, Marker) == []
    ensures Texts(Body(src, text, pos).out) == Pick(text, Target)
    ensures Body(src, text, pos).pos == pos + |Pick(text, Source)|
  {
    hide Emit, Rstrip;
    if text != [] {
      var next := if text[0][0] == '+' then pos else pos + 1;
      BodyTexts(src, text[1..], next);
      EmitText(src, next, text[0][1..]);
    }
  }

  /** What `patch_stream` writes has the texts of the file with each hunk's old texts replaced by its new. */
  lemma {:induction false} StreamTexts(src: seq<string>, hunks: seq<Hunk>, pos: nat)
    requires AllTagged(hunks) && Unmarked(hunks) && forall i | 0 <= i < |hunks| :: hunks[i].startsrc >= 1
    requires Fits(TextEdits(hunks), pos, |src|)
    ensures Texts(Stream(src, hunks, pos)) == Weave(Texts(src), TextEdits(hunks), pos)
    decreases |hunks|, if hunks == [] then 0 else hunks[0].startsrc - pos
  {
    hide Body, Tagged, Pick, Texts, Stream, Weave, Fits;
    if hunks == [] {
      TextsEnd(src, hunks, pos);
    } else if pos + 1 < hunks[0].startsrc {
      TextsSkip(src, hunks, pos);
      StreamTexts(src, hunks, pos + 1);
    } else {
      assert forall i | 0 <= i < |hunks[1..]| :: hunks[1..][i] == hunks[i + 1];
      TextsBody(src, hunks, pos);
      StreamTexts(src, hunks[1..], pos + |Old(hunks[0])|);
    }
  }

  lemma TextsEnd(src: seq<string>, hunks: seq<Hunk>, pos: nat)
    requires hunks == [] && pos <= |src|
    ensures Texts(Stream(src, hunks, pos)) == Weave(Texts(src), TextEdits(hunks), pos)
  {
    TextsSuffix(src, pos);
    hide Texts;
  }

  lemma TextsSkip(src: seq<string>, hunks: seq<Hunk>, pos: nat)
    requires AllTagged(hunks) && hunks != [] && pos + 1 < hunks[0].startsrc && Fits(TextEdits(hunks), pos, |src|)
    ensures Fits(TextEdits(hunks), pos + 1, |src|)
    ensures Texts(Stream(src, hunks, pos)) == [Texts(src)[pos]] + Texts(Stream(src, hunks, pos + 1))
    ensures Weave(Texts(src), TextEdits(hunks), pos) == [Texts(src)[pos]] + Weave(Texts(src), TextEdits(hunks), pos + 1)
  {
    TextsAt(src, pos);
    TextsOne(src[pos]);
    TextsConcat([src[pos]], Stream(src, hunks, pos + 1));
    hide Texts, Body, Tagged, Pick, Rstrip;
  }

  lemma TextsOne(line: string)
    ensures Texts([line]) == [Rstrip(line)]
  {
    hide Rstrip;
    assert [line][1..] == [];
  }

  lemma TextsBody(src: seq<string>, hunks: seq<Hunk>, pos: nat)
    requires AllTagged(hunks) && Unmarked(hunks) && hunks != [] && 1 <= hunks[0].startsrc <= pos + 1
    requires Fits(TextEdits(hunks), pos, |src|)
    ensures
      var next := pos + |Old(hunks[0])|;
      && Fits(TextEdits(hunks[1..]), next, |src|)
      && Texts(Stream(src, hunks, pos)) == New(hunks[0]) + Texts(Stream(src, hunks[1..], next))
      && Weave(Texts(src), TextEdits(hunks), pos) == New(hunks[0]) + Weave(Texts(src), TextEdits(hunks[1..]), next)
  {
    var b := Body(src, hunks[0].text, pos);
    BodyTexts(src, hunks[0].text, pos);
    TextsConcat(b.out, Stream(src, hunks[1..], b.pos));
    hide Texts, Body, Tagged, Pick;
    assert TextEdits(hunks)[1..] == TextEdits(hunks[1..]);
  }

  // ---- agreement ----

  /** A file has texts in place exactly when these are a stretch of its texts. */
  lemma AgreeIsSlice(file: seq<string>, start: nat, texts: seq<string>)
    requires start + |texts| <= |file|
    ensures Agree(file, start, texts) <==> Texts(file)[start..start + |texts|] == texts
  {
    hide Texts, Rstrip;
    var slice := Texts(file)[start..start + |texts|];
    forall j | 0 <= j < |texts| ensures slice[j] == Rstrip(file[start + j]) {
      TextsAt(file, start + j);
    }
    if Agree(file, start, texts) {
      assert forall j | 0 <= j < |texts| :: slice[j] == texts[j];
    }
  }

  lemma {:induction false} TextsInPlace(file: seq<string>, hunks: seq<Hunk>, pos: nat)
    requires Fits(TextEdits(hunks), pos, |file|) && forall i | 0 <= i < |hunks| :: hunks[i].startsrc >= 1
    ensures InPlace(Texts(file), TextEdits(hunks), pos) <==> AllAgree(file, hunks)
    decreases |hunks|
  {
    hide Pick, Texts, Agree;
    if hunks != [] {
      var h := hunks[0];
      AgreeIsSlice(file, h.startsrc - 1, Old(h));
      assert forall i | 0 <= i < |hunks[1..]| :: hunks[1..][i] == hunks[i + 1];
      TextsInPlace(file, hunks[1..], h.startsrc - 1 + |Old(h)|);
    }
  }

  // ---- apply, then revert ----

  lemma {:induction false} MirrorOfTexts(hunks: seq<Hunk>, pos: nat, at: nat, size: nat)
    requires AllTagged(hunks) && forall i | 0 <= i < |hunks| :: hunks[i].startsrc >= 1
    requires Fits(TextEdits(hunks), pos, size) && TargetsFollow(hunks, at - pos)
    ensures Mirror(TextEdits(hunks), at - pos) == TextEdits(ReversedAll(hunks))
    ensures forall i | 0 <= i < |hunks| :: ReversedAll(hunks)[i].startsrc >= 1
  {
    hide Tagged, Pick, ReversedText;
    if hunks != [] {
      var (h, back) := (hunks[0], ReversedAll(hunks));
      ReversalSwapsSides(h.text);
      assert forall i | 0 <= i < |hunks[1..]| :: hunks[1..][i] == hunks[i + 1];
      assert TextEdits(hunks)[1..] == TextEdits(hunks[1..]) && back[1..] == ReversedAll(hunks[1..]);
      assert h.startsrc - 1 + at - pos >= 0;
      MirrorOfTexts(hunks[1..], h.startsrc - 1 + |Old(h)|, h.startsrc - 1 + at - pos + |New(h)|, size);
      assert forall i | 1 <= i < |back| :: back[i] == back[1..][i - 1];
    }
  }

  /** An accepted patch replaces texts. */
  lemma AcceptedTexts(src: seq<string>, hunks: seq<Hunk>)
    requires Placed(hunks) && CanPatch(src, hunks)
    ensures Fits(TextEdits(hunks), 0, |src|)
    ensures Texts(Stream(src, hunks, 0)) == Weave(Texts(src), TextEdits(hunks), 0)
  {
    hide Pick, Texts, Stream, Weave, Tagged, Fits;
    assert EndInside(hunks, |src|);
    TextsStand(hunks);
    OrderedFits(hunks, TextEdits(hunks), 0, |src|);
    StreamTexts(src, hunks, 0);
  }

  lemma BackTexts(src: seq<string>, hunks: seq<Hunk>)
    requires Proper(hunks) && CanPatch(src, hunks)
    ensures Fits(TextEdits(hunks), 0, |src|)
    ensures
      var (out, bs) := (Texts(Stream(src, hunks, 0)), TextEdits(ReversedAll(hunks)));
      && HoldsAdded(out, bs, 0) && Weave(out, bs, 0) == Restored(Texts(src), TextEdits(hunks), 0)
      && forall i | 0 <= i < |hunks| :: ReversedAll(hunks)[i].startsrc >= 1
  {
    AcceptedTexts(src, hunks);
    hide Pick, Texts, Stream, Weave, Restored, Tagged, Fits, InPlace, TextEdits, ReversedAll, HeadMatches, Mirror;
    MirrorOfTexts(hunks, 0, 0, |src|);
    MirrorRestores(Texts(src), TextEdits(hunks), Texts(Stream(src, hunks, 0)));
  }

  /** Whenever `apply` accepts a proper patch, `revert` accepts the result: the reversed hunks are ordered and
      the patched file meets them in full. The texts of the file are back to what they were exactly when each
      hunk's last source line, the one line `apply` does not compare, had been in the file. */
  lemma TextsComeBack(src: seq<string>, hunks: seq<Hunk>)
    requires Proper(hunks) && CanPatch(src, hunks)
    ensures
      var (out, back) := (Stream(src, hunks, 0), ReversedAll(hunks));
      && AllTagged(back) && Unmarked(back) && Ordered(back) && AllAgree(out, back) && CanPatch(out, back)
      && (Texts(Stream(out, back, 0)) == Texts(src) <==> forall i | 0 <= i < |hunks| :: LastLineMatches(src, hunks[i]))
  {
    var (out, back) := (Stream(src, hunks, 0), ReversedAll(hunks));
    ReversedTagged(hunks);
    BackTexts(src, hunks);
    hide Pick, Texts, Stream, Weave, Restored, Tagged, Fits, InPlace, TextEdits, ReversedAll, HeadMatches, LastLineMatches;
    TextsStand(back);
    FitsOrdered(back, TextEdits(back), 0, |out|);
    TextsInPlace(out, back, 0);
    BackHeads(out, hunks);
    StreamTexts(out, back, 0);
    RestoredIffInPlace(Texts(src), TextEdits(hunks), 0);
    TextsInPlace(src, hunks, 0);
    AllHeadsPlusLasts(src, hunks);
    assert Texts(src)[0..] == Texts(src);
  }

  lemma BackHeads(out: seq<string>, hunks: seq<Hunk>)
    requires AllTagged(hunks) && SomeNew(hunks) && AllAgree(out, ReversedAll(hunks))
    ensures CanPatch(out, ReversedAll(hunks))
  {
    hide AllTagged, SourceAgrees, HeadMatches;
    var back := ReversedAll(hunks);
    AllAgreeByIndex(out, back);
    forall i | 0 <= i < |back| ensures HeadMatches(out, back[i]) {
      ReversedAllAt(hunks, i);
      TaggedAt(hunks, i);
      ReversalSwapsSides(hunks[i].text);
      AgreementIsHead(out, back[i]);
    }
  }

  lemma {:induction false} TaggedAt(hunks: seq<Hunk>, i: nat)
    requires AllTagged(hunks) && i < |hunks|
    ensures Tagged(hunks[i].text)
  {
    if i > 0 {
      TaggedAt(hunks[1..], i - 1);
    }
  }
}
