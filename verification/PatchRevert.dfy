/** Applying a patch, reversing it, and what hunks and edits have to do with each other. */
module PatchRevert {
  import opened Text
  import opened Splicing
  import opened PatchModel
  import opened PatchApply
  import opened PatchLineEnds

  // ---- one file: apply ----

  datatype Outcome = Crashed | Applied(file: seq<string>, ok: bool)

  /** `apply` on one existing file, given as its lines. The result says what the file holds afterwards
      and whether the call reports success. */
  method Apply(file: seq<string>, hunks: seq<Hunk>, backupExists: bool) returns (o: Outcome)
    requires AllTagged(hunks) && forall i | 0 <= i < |file| :: file[i] != ""
    ensures hunks == [] ==> o == Crashed
    ensures hunks != [] && Ordered(hunks) ==> o.Applied?
    ensures hunks != [] && Ordered(hunks) && CanPatch(file, hunks) ==>
      o == Applied(if backupExists then file else Stream(file, hunks, 0), true)
    ensures hunks != [] && Ordered(hunks) && !CanPatch(file, hunks) ==>
      o == Applied(file, Patched(file, hunks) && forall i | 0 <= i < |hunks| :: Decided(file, hunks[i]))
  {
    var v := Validate(file, hunks);
    if v.Raised? {
      return Crashed;
    }
    var errors := if v.premature then 1 else 0;
    if v.valid < |hunks| {
      var already := MatchFileHunks(file, hunks);
      if !already {
        errors := errors + 1;
      }
    }
    var content := file;
    if v.canPatch {
      if !backupExists {
        content := PatchStream(file, hunks);
      }
    }
    assert v.canPatch && Ordered(hunks) ==> forall i | 0 <= i < |hunks| :: Decided(file, hunks[i]);
    o := Applied(content, errors == 0);
  }

  // ---- _reverse ----

  class HunkRecord {
    var startsrc: nat
    var linessrc: nat
    var starttgt: nat
    var linestgt: nat
    var desc: string
    var invalid: bool
    var text: seq<string>

    constructor (h: Hunk)
      ensures View() == h
    {
      startsrc, linessrc, starttgt, linestgt := h.startsrc, h.linessrc, h.starttgt, h.linestgt;
      desc, invalid, text := h.desc, h.invalid, h.text;
    }

    function View(): Hunk
      reads this
    {
      Hunk(startsrc, linessrc, starttgt, linestgt, desc, invalid, text)
    }

    /** The loop body of `_reverse` for one hunk: exchange the ranges and flip the tags, line by line. */
    method Reverse()
      modifies this
      ensures View() == Reversed(old(View()))
    {
      hide ReversedText;
      startsrc, starttgt := starttgt, startsrc;
      linessrc, linestgt := linestgt, linessrc;
      ghost var was := text;
      var i := 0;
      while i < |text|
        invariant i <= |text| == |was| && text == ReversedText(was)[..i] + was[i..]
        invariant startsrc == old(starttgt) && starttgt == old(startsrc) && unchanged(`desc, `invalid)
        invariant linessrc == old(linestgt) && linestgt == old(linessrc)
      {
        var line := text[i];
        ReversedTextAt(was, i);
        PrefixStep(ReversedText(was), was, i);
        if line != "" && line[0] == '+' {
          text := text[i := "-" + line[1..]];
        } else if line != "" && line[0] == '-' {
          text := text[i := "+" + line[1..]];
        }
        assert text == (ReversedText(was)[..i] + was[i..])[i := ReversedText(was)[i]];
        i := i + 1;
      }
    }
  }

  lemma PrefixStep<T>(r: seq<T>, was: seq<T>, i: nat)
    requires i < |r| == |was|
    ensures (r[..i] + was[i..])[i] == was[i]
    ensures (r[..i] + was[i..])[i := r[i]] == r[..i + 1] + was[i + 1..]
  {
  }

  lemma {:induction false} ReversedTextAt(text: seq<string>, i: nat)
    requires i < |text|
    ensures ReversedText(text)[i] == ReversedLine(text[i])
  {
    if i > 0 {
      ReversedTextAt(text[1..], i - 1);
    }
  }

  /** Reverses every hunk of a patch where it stands. */
  method ReverseInPlace(hunks: seq<HunkRecord>)
    requires forall i, j | 0 <= i < j < |hunks| :: hunks[i] != hunks[j]
    modifies hunks
    ensures forall i | 0 <= i < |hunks| :: hunks[i].View() == Reversed(old(hunks[i].View()))
  {
    var k := 0;
    while k < |hunks|
      invariant k <= |hunks|
      invariant forall i | 0 <= i < k :: hunks[i].View() == Reversed(old(hunks[i].View()))
      invariant forall i | k <= i < |hunks| :: hunks[i].View() == old(hunks[i].View())
    {
      hunks[k].Reverse();
      k := k + 1;
    }
  }

  // ---- from line numbers to edits ----

  lemma OrderedTail(hunks: seq<Hunk>)
    requires Ordered(hunks) && hunks != []
    ensures Ordered(hunks[1..]) && hunks[0].startsrc >= 1
    ensures |hunks| > 1 ==> hunks[0].startsrc + |Old(hunks[0])| <= hunks[1].startsrc
  {
    hide Old;
    var t := hunks[1..];
    forall i | 0 < i < |t| ensures t[i - 1].startsrc + |Old(t[i - 1])| <= t[i].startsrc {
      assert t[i] == hunks[i + 1] && t[i - 1] == hunks[i];
    }
  }

  /** Every hunk's source range ends inside a file of `size` lines. */
  predicate EndInside(hunks: seq<Hunk>, size: nat)
  {
    forall i | 0 <= i < |hunks| :: hunks[i].startsrc - 1 + |Old(hunks[i])| <= size
  }

  function Texts(lines: seq<string>): (r: seq<string>)
    ensures |r| == |lines|
  {
    if lines == [] then [] else [Rstrip(lines[0])] + Texts(lines[1..])
  }

  /** The edits stand where the hunks do, with the texts of their two sides, whatever the line ends. */
  predicate Stands(hunks: seq<Hunk>, es: seq<Edit<string>>)
  {
    && |es| == |hunks|
    && (hunks == [] ||
        (&& hunks[0].startsrc == es[0].start + 1
         && Texts(es[0].removed) == Old(hunks[0]) && Texts(es[0].added) == New(hunks[0])
         && Stands(hunks[1..], es[1..])))
  }

  /** Ordered hunks inside the file are fitting edits. */
  lemma {:induction false} OrderedFits(hunks: seq<Hunk>, es: seq<Edit<string>>, pos: nat, size: nat)
    requires Ordered(hunks) && EndInside(hunks, size) && pos <= size && Stands(hunks, es)
    requires hunks != [] ==> pos < hunks[0].startsrc
    ensures Fits(es, pos, size)
  {
    hide Old, New, Texts;
    if hunks != [] {
      OrderedTail(hunks);
      assert forall i | 0 <= i < |hunks[1..]| :: hunks[1..][i] == hunks[i + 1];
      OrderedFits(hunks[1..], es[1..], hunks[0].startsrc - 1 + |Old(hunks[0])|, size);
    }
  }

  /** Fitting edits stand for ordered hunks inside the file. */
  lemma {:induction false} FitsOrdered(hunks: seq<Hunk>, es: seq<Edit<string>>, pos: nat, size: nat)
    requires Fits(es, pos, size) && Stands(hunks, es)
    ensures Ordered(hunks) && EndInside(hunks, size)
    ensures hunks != [] ==> pos < hunks[0].startsrc
  {
    hide Old, New, Texts;
    if hunks != [] {
      var t := hunks[1..];
      assert forall i | 0 <= i < |t| :: t[i] == hunks[i + 1];
      FitsOrdered(t, es[1..], hunks[0].startsrc - 1 + |Old(hunks[0])|, size);
      forall i | 0 < i < |hunks| ensures hunks[i - 1].startsrc + |Old(hunks[i - 1])| <= hunks[i].startsrc {
        if i > 1 {
          assert t[i - 1] == hunks[i] && t[i - 2] == hunks[i - 1];
        }
      }
    }
  }

  /** A stretch of the file is the terminated texts exactly when its lines, stripped, are the texts. */
  lemma {:induction false} SliceIsTerminated(src: seq<string>, start: nat, texts: seq<string>, nl: string)
    requires Uniform(src, nl) && start + |texts| <= |src|
    ensures src[start..start + |texts|] == Terminated(texts, nl) <==> Agree(src, start, texts)
    decreases |texts|
  {
    hide Rstrip;
    if texts != [] {
      UniformAt(src, start, nl);
      SliceIsTerminated(src, start + 1, texts[1..], nl);
      AgreeCons(src, start, texts[0], texts[1..]);
      assert texts == [texts[0]] + texts[1..];
      SliceCons(src, start, |texts|);
      SameText(src[start], texts[0], nl);
      hide Uniform, UniformLine, Agree;
      HeadAndTail(src[start], src[start + 1..start + |texts|], texts[0] + nl, Terminated(texts[1..], nl));
    }
  }

  lemma SliceCons<T>(src: seq<T>, start: nat, n: nat)
    requires n > 0 && start + n <= |src|
    ensures src[start..start + n] == [src[start]] + src[start + 1..start + n]
  {
  }

  lemma SameText(line: string, text: string, nl: string)
    requires UniformLine(line, nl)
    ensures line == text + nl <==> Rstrip(line) == text
  {
    if line == text + nl {
      assert line[..|text|] == text && line[..|Rstrip(line)|] == Rstrip(line);
    }
  }

  predicate SourceAgrees(src: seq<string>, h: Hunk)
  {
    1 <= h.startsrc && Agree(src, h.startsrc - 1, Old(h))
  }

  predicate AllAgree(src: seq<string>, hunks: seq<Hunk>)
  {
    hunks == [] || (SourceAgrees(src, hunks[0]) && AllAgree(src, hunks[1..]))
  }

  lemma {:induction false} AllAgreeByIndex(src: seq<string>, hunks: seq<Hunk>)
    ensures AllAgree(src, hunks) <==> forall i | 0 <= i < |hunks| :: SourceAgrees(src, hunks[i])
  {
    hide SourceAgrees;
    if hunks != [] {
      var t := hunks[1..];
      AllAgreeByIndex(src, t);
      assert forall i | 0 <= i < |t| :: t[i] == hunks[i + 1];
      assert forall i | 0 < i < |hunks| :: hunks[i] == t[i - 1];
    }
  }

  lemma TextsAt(lines: seq<string>, j: nat)
    requires j < |lines|
    ensures Texts(lines)[j] == Rstrip(lines[j])
  {
    hide Rstrip;
    if j > 0 {
      TextsAt(lines[1..], j - 1);
    }
  }

  /** Lines in place have their texts in place. */
  lemma SliceAgrees(src: seq<string>, start: nat, lines: seq<string>)
    requires start + |lines| <= |src| && src[start..start + |lines|] == lines
    ensures Agree(src, start, Texts(lines))
  {
    hide Texts, Rstrip;
    forall j | 0 <= j < |lines| ensures Rstrip(src[start + j]) == Texts(lines)[j] {
      TextsAt(lines, j);
      assert src[start..start + |lines|][j] == lines[j];
    }
  }

  /** What is removed are the old texts, in the line end of the file. */
  predicate RemovedEnds(hunks: seq<Hunk>, es: seq<Edit<string>>, nl: string)
  {
    && |es| == |hunks|
    && (hunks == [] || (es[0].removed == Terminated(Old(hunks[0]), nl) && RemovedEnds(hunks[1..], es[1..], nl)))
  }

  lemma RemovedInPlace(src: seq<string>, h: Hunk, e: Edit<string>, nl: string)
    requires Uniform(src, nl) && e.start + |e.removed| <= |src|
    requires h.startsrc == e.start + 1 && Texts(e.removed) == Old(h)
    ensures src[e.start..e.start + |e.removed|] == e.removed
       <==> SourceAgrees(src, h) && e.removed == Terminated(Old(h), nl)
  {
    hide Uniform, Texts, Old, Agree;
    if src[e.start..e.start + |e.removed|] == e.removed {
      SliceAgrees(src, e.start, e.removed);
    }
    SliceIsTerminated(src, e.start, Old(h), nl);
  }

  /** The edits find their removed lines in place exactly when every hunk's source texts are in the file, and
      what is removed ends as the file does. */
  lemma {:induction false} InPlaceIsAgreement(src: seq<string>, hunks: seq<Hunk>, es: seq<Edit<string>>, pos: nat, nl: string)
    requires Uniform(src, nl) && Stands(hunks, es) && Fits(es, pos, |src|)
    ensures InPlace(src, es, pos) <==> AllAgree(src, hunks) && RemovedEnds(hunks, es, nl)
    decreases |hunks|
  {
    hide Old, New, Uniform, Texts, SourceAgrees, Terminated;
    if hunks != [] {
      RemovedInPlace(src, hunks[0], es[0], nl);
      InPlaceIsAgreement(src, hunks[1..], es[1..], es[0].start + |es[0].removed|, nl);
    }
  }

  // ---- the way back ----

  /** They stand where the reversed hunks do, when each target start follows from the hunks before. */
  lemma {:induction false} MirrorStands(hunks: seq<Hunk>, es: seq<Edit<string>>, pos: nat, at: nat, size: nat)
    requires AllTagged(hunks) && Stands(hunks, es) && Fits(es, pos, size) && TargetsFollow(hunks, at - pos)
    ensures Stands(ReversedAll(hunks), Mirror(es, at - pos))
  {
    hide Tagged, Pick, Texts, ReversedText;
    if hunks != [] {
      var (h, e) := (hunks[0], es[0]);
      ReversalSwapsSides(h.text);
      MirrorStands(hunks[1..], es[1..], e.start + |e.removed|, e.start + at - pos + |e.added|, size);
      assert ReversedAll(hunks)[1..] == ReversedAll(hunks[1..]);
    }
  }

  lemma {:induction false} ReversedMarkers(text: seq<string>)
    ensures Pick(ReversedText(text), Marker) == Pick(text, Marker)
  {
    if text != [] {
      assert ReversedText(text)[1..] == ReversedText(text[1..]);
      ReversedMarkers(text[1..]);
    }
  }

  lemma {:induction false} ReversedTagged(hunks: seq<Hunk>)
    requires AllTagged(hunks)
    ensures AllTagged(ReversedAll(hunks)) && (Unmarked(hunks) ==> Unmarked(ReversedAll(hunks)))
  {
    hide Tagged, Pick, ReversedText;
    if hunks != [] {
      ReversalSwapsSides(hunks[0].text);
      ReversedMarkers(hunks[0].text);
      ReversedTagged(hunks[1..]);
      assert ReversedAll(hunks)[1..] == ReversedAll(hunks[1..]);
    }
  }

  lemma {:induction false} ReversedAllAt(hunks: seq<Hunk>, i: nat)
    requires i < |hunks|
    ensures ReversedAll(hunks)[i] == Reversed(hunks[i])
  {
    if i > 0 {
      ReversedAllAt(hunks[1..], i - 1);
    }
  }

  // ---- the patched file is a file again ----

  lemma {:induction false} UniformConcat(a: seq<string>, b: seq<string>, nl: string)
    requires Uniform(a, nl) && Uniform(b, nl)
    ensures Uniform(a + b, nl)
  {
    if a == [] {
      assert a + b == b;
    } else {
      assert (a + b)[1..] == a[1..] + b;
      UniformConcat(a[1..], b, nl);
    }
  }

  lemma UniformOne(l: string, nl: string)
    requires UniformLine(l, nl)
    ensures Uniform([l], nl)
  {
    assert [l][1..] == [];
  }

  lemma {:induction false} UniformSuffix(a: seq<string>, pos: nat, nl: string)
    requires Uniform(a, nl) && pos <= |a|
    ensures Uniform(a[pos..], nl)
  {
    if pos > 0 {
      assert a[1..][pos - 1..] == a[pos..];
      UniformSuffix(a[1..], pos - 1, nl);
    }
  }

  lemma {:induction false} TerminatedUniform(text: seq<string>, side: Side, nl: Ending)
    requires nl == LF || nl == CRLF
    ensures Uniform(Terminated(Pick(text, side), Chars(nl)), Chars(nl))
    ensures Texts(Terminated(Pick(text, side), Chars(nl))) == Pick(text, side)
  {
    if text != [] {
      TerminatedUniform(text[1..], side, nl);
      if OnSide(text[0], side) {
        var t := Rstrip(text[0][1..]);
        RstripUnique(t + Chars(nl), t, Chars(nl));
      }
    }
  }

  /** The lines a reader finds in `bytes`: each up to and including the next LF. */
  function LinesOf(bytes: string): seq<string>
    decreases |bytes|
  {
    if bytes == "" then []
    else
      var i := IndexFrom(bytes, '\n', 0);
      if i == |bytes| then [bytes] else [bytes[..i + 1]] + LinesOf(bytes[i + 1..])
  }

  function Joined(lines: seq<string>): string
  {
    if lines == [] then "" else lines[0] + Joined(lines[1..])
  }

  /** A line as it stands in a file: its only LF, if it has one, is its end, and all lines but the last have one. */
  predicate AreFileLines(lines: seq<string>)
  {
    lines == [] ||
    (&& lines[0] != "" && '\n' !in lines[0][..|lines[0]| - 1]
     && (|lines| > 1 ==> lines[0][|lines[0]| - 1] == '\n')
     && AreFileLines(lines[1..]))
  }

  lemma ReadStep(bytes: string, i: nat)
    requires bytes != "" && i == IndexFrom(bytes, '\n', 0)
    ensures i == |bytes| ==> LinesOf(bytes) == [bytes]
    ensures i < |bytes| ==> LinesOf(bytes) == [bytes[..i + 1]] + LinesOf(bytes[i + 1..])
  {
    hide IndexFrom;
  }

  /** A file is read as lines that make it up, whatever their ends. */
  lemma {:induction false} ReadIsFile(bytes: string)
    ensures AreFileLines(LinesOf(bytes)) && Joined(LinesOf(bytes)) == bytes
    decreases |bytes|
  {
    hide IndexFrom, LinesOf;
    if bytes == "" {
      NoLines();
    } else {
      var i := IndexFrom(bytes, '\n', 0);
      FirstIsLine(bytes);
      ReadStep(bytes, i);
      if i == |bytes| {
        assert [bytes][1..] == [] && bytes + "" == bytes;
      } else {
        ReadIsFile(bytes[i + 1..]);
        assert ([bytes[..i + 1]] + LinesOf(bytes[i + 1..]))[1..] == LinesOf(bytes[i + 1..]);
        assert bytes[..i + 1] + bytes[i + 1..] == bytes;
      }
    }
  }

  lemma NoLines()
    ensures LinesOf("") == []
  {
  }

  /** Lines that are written out are read again as they were. */
  lemma {:induction false} RereadLines(lines: seq<string>)
    requires AreFileLines(lines)
    ensures LinesOf(Joined(lines)) == lines
  {
    hide IndexFrom, LinesOf;
    if lines == [] {
      NoLines();
    } else {
      var (l, rest) := (lines[0], lines[1..]);
      RereadLines(rest);
      LineStands(l, Joined(rest), rest == []);
      ReadStep(l + Joined(rest), IndexFrom(l + Joined(rest), '\n', 0));
      assert [l] + rest == lines;
      if rest == [] {
        NoLines();
        assert l + "" == l;
      }
    }
  }

  /** So a file is read as the lines it is made of, and in no other way. */
  lemma LinesExactly(bytes: string, lines: seq<string>)
    ensures LinesOf(bytes) == lines <==> AreFileLines(lines) && Joined(lines) == bytes
  {
    hide LinesOf, AreFileLines, Joined;
    ReadIsFile(bytes);
    if AreFileLines(lines) && Joined(lines) == bytes {
      RereadLines(lines);
    }
  }

  /** The first LF of a line and what is behind it ends the line. */
  lemma LineStands(l: string, rest: string, last: bool)
    requires l != "" && '\n' !in l[..|l| - 1] && (last ==> rest == "") && (!last ==> l[|l| - 1] == '\n')
    ensures
      var i := IndexFrom(l + rest, '\n', 0);
      && (l[|l| - 1] == '\n' ==> i == |l| - 1) && (l[|l| - 1] != '\n' ==> i == |l + rest|)
    ensures (l + rest)[..|l|] == l && (l + rest)[|l|..] == rest
  {
    hide IndexFrom;
    assert forall j | 0 <= j < |l| - 1 :: (l + rest)[j] == l[..|l| - 1][j];
    assert (l + rest)[|l| - 1] == l[|l| - 1];
  }

  lemma FirstIsLine(bytes: string)
    requires bytes != ""
    ensures
      var i := IndexFrom(bytes, '\n', 0);
      && (i < |bytes| ==> bytes[i] == '\n' && '\n' !in bytes[..i] && bytes[..i + 1][..i] == bytes[..i])
      && (i == |bytes| ==> '\n' !in bytes && '\n' !in bytes[..|bytes| - 1])
  {
    hide IndexFrom;
  }

  // ---- the theorems ----

  predicate SomeOld(hunks: seq<Hunk>) { forall i | 0 <= i < |hunks| :: |Old(hunks[i])| >= 1 }
  predicate SomeNew(hunks: seq<Hunk>) { forall i | 0 <= i < |hunks| :: |New(hunks[i])| >= 1 }

  /** Hunks in order, each with a line to start from, whatever ends their lines have. */
  predicate Placed(hunks: seq<Hunk>)
  {
    AllTagged(hunks) && Unmarked(hunks) && Ordered(hunks) && SomeOld(hunks)
  }

  /** A hunk list as `diff -u` produces it. */
  predicate Proper(hunks: seq<Hunk>) { Placed(hunks) && SomeNew(hunks) && TargetsFollow(hunks, 0) }

  /** The line `apply` never looks at: the last source line of the hunk. */
  predicate LastLineMatches(src: seq<string>, h: Hunk)
  {
    var last := h.startsrc + |Old(h)| - 2;
    |Old(h)| >= 1 && 0 <= last < |src| && Rstrip(src[last]) == Old(h)[|Old(h)| - 1]
  }

  lemma HeadPlusLast(src: seq<string>, h: Hunk)
    requires HeadMatches(src, h)
    ensures SourceAgrees(src, h) <==> LastLineMatches(src, h)
  {
    hide Old, Rstrip;
    var n, start := |Old(h)|, h.startsrc - 1;
    if LastLineMatches(src, h) {
      forall j | 0 <= j < n ensures Rstrip(src[start + j]) == Old(h)[j] {
      }
    }
  }

  lemma AllHeadsPlusLasts(src: seq<string>, hunks: seq<Hunk>)
    requires CanPatch(src, hunks)
    ensures AllAgree(src, hunks) <==> forall i | 0 <= i < |hunks| :: LastLineMatches(src, hunks[i])
  {
    hide HeadMatches, SourceAgrees, LastLineMatches;
    AllAgreeByIndex(src, hunks);
    forall i | 0 <= i < |hunks|
      ensures SourceAgrees(src, hunks[i]) <==> LastLineMatches(src, hunks[i])
    {
      HeadPlusLast(src, hunks[i]);
    }
  }

  lemma AgreementIsHead(src: seq<string>, h: Hunk)
    requires SourceAgrees(src, h) && |Old(h)| >= 1
    ensures HeadMatches(src, h)
  {
    hide Old, Rstrip;
  }
}
