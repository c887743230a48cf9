/** Patches and files that fall short of what `apply` and `revert` may be expected to do. */
module PatchExamples {
  import opened Text
  import opened Splicing
  import opened PatchModel
  import opened PatchLineEnds
  import opened PatchApply
  import opened PatchRevert
  import opened PatchTexts
  import opened PatchWritten
  import opened PatchAgain

  /** A single hunk with a line on either side, that starts at the same line of both files, is proper. */
  lemma OneHunk(h: Hunk)
    requires Tagged(h.text) && Pick(h.text, Marker) == [] && |Old(h)| >= 1 && |New(h)| >= 1
    requires h.startsrc == h.starttgt >= 1
    ensures Proper([h])
  {
    hide Pick, Tagged, Old, New;
    var one := [h];
    assert one[1..] == [] && one[0] == h;
    assert AllTagged(one) && Unmarked(one) && TargetsFollow(one, 0);
  }

  // ---- a last line that does not match ----

  /** There are proper patches that `apply` accepts and `revert` does not undo, and that a second
      `apply` makes again. */
  lemma BothShortfallsOccur()
    ensures
      var h := Hunk(1, 2, 1, 3, "", false, [" a\n", "-b\n", "+c\n", "+d\n"]);
      var src := ["a\n", "x\n"];
      var out := Stream(src, [h], 0);
      && Proper([h]) && EndsIn(src, LF) && CanPatch(src, [h])
      && AllTagged(ReversedAll([h])) && Stream(out, ReversedAll([h]), 0) != src
      && CanPatch(out, [h]) && |Stream(out, [h], 0)| > |out|
  {
    var h := Hunk(1, 2, 1, 3, "", false, [" a\n", "-b\n", "+c\n", "+d\n"]);
    var src := ["a\n", "x\n"];
    LastLineSides(h, src);
    hide Stream, Uniform, CanPatch, Proper, LastLineMatches, AllTagged, Pick, Texts, Rstrip;
    TextsComeBack(src, [h]);
    assert [h][0] == h && Placed([h]);
    SecondApplyRepeats(src, [h]);
    RepeatedTexts(h, src);
    OneGrowth(h, src);
  }

  lemma RepeatedTexts(h: Hunk, src: seq<string>)
    requires h.startsrc == 1 && Old(h) == ["a", "b"] && New(h) == ["a", "c", "d"] && Texts(src) == ["a", "x"]
    ensures Fits(TextEdits([h]), 0, 2) && HeadStands(Weave(Texts(src), TextEdits([h]), 0), h) && Growth([h]) == 1
  {
    hide Pick, Texts;
    var es := TextEdits([h]);
    assert [h][1..] == [] && es == [Edit(0, ["a", "b"], ["a", "c", "d"])] && es[1..] == [];
    assert Weave(["a", "x"], es, 0) == ["a", "c", "d"];
    assert ["a", "c", "d"][0..1] == ["a", "b"][..1];
  }

  lemma OneGrowth(h: Hunk, src: seq<string>)
    requires Placed([h]) && CanPatch(src, [h]) && Growth([h]) == 1
    ensures |Stream(src, [h], 0)| == |src| + 1
  {
    AcceptedTexts(src, [h]);
    hide Stream, Placed, CanPatch, Texts, Weave, Growth, Fits, Pick;
    WeaveGrows(Texts(src), [h], 0);
  }

  lemma ExampleText()
    ensures
      var t := [" a\n", "-b\n", "+c\n", "+d\n"];
      && Pick(t, Source) == ["a", "b"] && Pick(t, Target) == ["a", "c", "d"]
      && Tagged(t) && Pick(t, Marker) == []
  {
    hide Rstrip;
    RstripUnique("a\n", "a", "\n");
    RstripUnique("b\n", "b", "\n");
    RstripUnique("c\n", "c", "\n");
    RstripUnique("d\n", "d", "\n");
    var t, t1, t2, t3 := [" a\n", "-b\n", "+c\n", "+d\n"], ["-b\n", "+c\n", "+d\n"], ["+c\n", "+d\n"], ["+d\n"];
    assert t[1..] == t1 && t1[1..] == t2 && t2[1..] == t3 && t3[1..] == [];
    assert " a\n"[1..] == "a\n" && "-b\n"[1..] == "b\n" && "+c\n"[1..] == "c\n" && "+d\n"[1..] == "d\n";
    assert Tagged(t3) && Pick(t3, Marker) == [] && Pick(t3, Source) == [] && Pick(t3, Target) == ["d"];
    assert Tagged(t2) && Pick(t2, Marker) == [] && Pick(t2, Source) == [] && Pick(t2, Target) == ["c", "d"];
    assert Tagged(t1) && Pick(t1, Marker) == [] && Pick(t1, Source) == ["b"] && Pick(t1, Target) == ["c", "d"];
  }

  lemma LastLineSides(h: Hunk, src: seq<string>)
    requires h == Hunk(1, 2, 1, 3, "", false, [" a\n", "-b\n", "+c\n", "+d\n"]) && src == ["a\n", "x\n"]
    ensures Old(h) == ["a", "b"] && New(h) == ["a", "c", "d"] && Texts(src) == ["a", "x"]
    ensures Proper([h]) && EndsIn(src, LF) && CanPatch(src, [h]) && !LastLineMatches(src, h)
  {
    hide Rstrip, Pick, Tagged, Proper;
    ExampleText();
    OneHunk(h);
    RstripUnique("a\n", "a", "\n");
    RstripUnique("x\n", "x", "\n");
    assert ["a\n", "x\n"][1..] == ["x\n"] && ["x\n"][1..] == [];
    assert Uniform(["x\n"], "\n") && Texts(["x\n"]) == ["x"];
  }

  // ---- line ends ----

  /** A file with CRLF and a patch with LF, every line of which matches: the file does not come back, because
      `revert` writes the first line before it has read any. */
  lemma LineEndsMatter()
    ensures
      var h := Hunk(1, 2, 1, 2, "", false, ["-a\n", "+c\n", " b\n"]);
      var src := ["a\r\n", "b\r\n"];
      var out := Stream(src, [h], 0);
      && Proper([h]) && EndsIn(src, CRLF) && CanPatch(src, [h]) && LastLineMatches(src, h)
      && AllTagged(ReversedAll([h])) && CanPatch(out, ReversedAll([h])) && Stream(out, ReversedAll([h]), 0) != src
  {
    var h := Hunk(1, 2, 1, 2, "", false, ["-a\n", "+c\n", " b\n"]);
    var src := ["a\r\n", "b\r\n"];
    ForeignSides(h, src);
    ForeignLeads(h);
    hide Stream, Uniform, CanPatch, Proper, LastLineMatches, AllTagged, Pick, Lead, RevertEnds;
    RevertEndsUsual([h], CRLF);
    ApplyThenRevert(src, [h], CRLF);
  }

  lemma ForeignSides(h: Hunk, src: seq<string>)
    requires h == Hunk(1, 2, 1, 2, "", false, ["-a\n", "+c\n", " b\n"]) && src == ["a\r\n", "b\r\n"]
    ensures Proper([h]) && EndsIn(src, CRLF) && CanPatch(src, [h]) && LastLineMatches(src, h)
  {
    hide Rstrip, Pick, Tagged, Proper;
    ForeignText();
    OneHunk(h);
    RstripUnique("a\r\n", "a", "\r\n");
    RstripUnique("b\r\n", "b", "\r\n");
    assert ["a\r\n", "b\r\n"][1..] == ["b\r\n"] && ["b\r\n"][1..] == [];
    assert Uniform(["b\r\n"], "\r\n");
  }

  lemma ForeignText()
    ensures
      var t := ["-a\n", "+c\n", " b\n"];
      && Pick(t, Source) == ["a", "b"] && Pick(t, Target) == ["c", "b"]
      && Tagged(t) && Pick(t, Marker) == []
  {
    hide Rstrip;
    RstripUnique("a\n", "a", "\n");
    RstripUnique("b\n", "b", "\n");
    RstripUnique("c\n", "c", "\n");
    var t, t1, t2 := ["-a\n", "+c\n", " b\n"], ["+c\n", " b\n"], [" b\n"];
    assert t[1..] == t1 && t1[1..] == t2 && t2[1..] == [];
    assert " b\n"[1..] == "b\n" && "-a\n"[1..] == "a\n" && "+c\n"[1..] == "c\n";
    assert Tagged(t2) && Pick(t2, Marker) == [] && Pick(t2, Source) == ["b"] && Pick(t2, Target) == ["b"];
    assert Tagged(t1) && Pick(t1, Marker) == [] && Pick(t1, Source) == ["b"] && Pick(t1, Target) == ["c", "b"];
  }

  lemma ForeignLeads(h: Hunk)
    requires h == Hunk(1, 2, 1, 2, "", false, ["-a\n", "+c\n", " b\n"])
    ensures LeadEnds([h], "\r\n") && !LeadEnds(ReversedAll([h]), "\r\n")
  {
    var (t, r) := (h.text, ReversedText(h.text));
    assert LeadRun(t) == [] && Lead([h]) == [];
    assert r[0] == ReversedLine("-a\n") == "+a\n" && r[1..] == ReversedText(t[1..]) && r[1] == "-c\n";
    assert LeadRun(r[1..]) == [] && "+a\n"[1..] == "a\n" && LeadRun(r) == ["a\n"];
    assert ReversedAll([h])[0] == Reversed(h);
    RstripUnique("a\n", "a", "\n");
    assert "a" + "\r\n" != "a\n";
  }
}
