/** The change statistics of a patch, and how the patched file really grows. */
module PatchStats {
  import opened Text
  import opened Splicing
  import opened PatchModel
  import opened PatchApply
  import opened PatchRevert
  import opened PatchLineEnds
  import opened PatchWritten
  import opened PatchParse

  // ---- counting ----

  datatype Stat = Stat(insert: nat, delete: nat, delta: int)

  /** One body line counted. */
  function Added(s: Stat, line: string): Stat
  {
    if StartsWith(line, "+") then s.(insert := s.insert + 1, delta := s.delta + |line| - 1)
    else if StartsWith(line, "-") then s.(delete := s.delete + 1, delta := s.delta - (|line| - 1))
    else s
  }

  function Plus(a: Stat, b: Stat): Stat { Stat(a.insert + b.insert, a.delete + b.delete, a.delta + b.delta) }

  function StatOf(text: seq<string>): Stat
  {
    if text == [] then Stat(0, 0, 0) else Plus(StatOf(text[..|text| - 1]), Added(Stat(0, 0, 0), text[|text| - 1]))
  }

  function StatOfAll(hunks: seq<Hunk>): Stat
  {
    if hunks == [] then Stat(0, 0, 0) else Plus(StatOfAll(hunks[..|hunks| - 1]), StatOf(hunks[|hunks| - 1].text))
  }

  /** `diffstat`, less its layout: the insertions and deletions of each file, and the change in bytes of all. */
  method DiffStat(items: seq<Patch>) returns (insert: seq<nat>, delete: seq<nat>, delta: int)
    ensures |insert| == |delete| == |items|
    ensures forall k | 0 <= k < |items| ::
              insert[k] == StatOfAll(items[k].hunks).insert && delete[k] == StatOfAll(items[k].hunks).delete
    ensures delta == DeltaOf(items)
  {
    insert, delete, delta := [], [], 0;
    for n := 0 to |items|
      invariant |insert| == |delete| == n && delta == DeltaOf(items[..n])
      invariant forall k | 0 <= k < n ::
                  insert[k] == StatOfAll(items[k].hunks).insert && delete[k] == StatOfAll(items[k].hunks).delete
    {
      assert items[..n + 1][..n] == items[..n];
      var s := PatchStat(items[n].hunks);
      insert, delete, delta := insert + [s.insert], delete + [s.delete], delta + s.delta;
    }
    assert items[..|items|] == items;
  }

  function DeltaOf(items: seq<Patch>): int
  {
    if items == [] then 0 else DeltaOf(items[..|items| - 1]) + StatOfAll(items[|items| - 1].hunks).delta
  }

  method PatchStat(hunks: seq<Hunk>) returns (s: Stat)
    ensures s == StatOfAll(hunks)
  {
    s := Stat(0, 0, 0);
    for h := 0 to |hunks|
      invariant s == StatOfAll(hunks[..h])
    {
      assert hunks[..h + 1][..h] == hunks[..h];
      s := TextStat(hunks[h].text, s);
    }
    assert hunks[..|hunks|] == hunks;
  }

  method TextStat(text: seq<string>, before: Stat) returns (s: Stat)
    ensures s == Plus(before, StatOf(text))
  {
    hide Added, Plus;
    s := before;
    PlusNothing(before);
    for l := 0 to |text|
      invariant s == Plus(before, StatOf(text[..l]))
    {
      assert text[..l + 1][..l] == text[..l];
      AddedLater(before, StatOf(text[..l]), text[l]);
      s := Added(s, text[l]);
    }
    assert text[..|text|] == text;
  }

  lemma PlusNothing(s: Stat)
    ensures Plus(s, Stat(0, 0, 0)) == s
  {
  }

  lemma AddedLater(a: Stat, b: Stat, line: string)
    ensures Added(Plus(a, b), line) == Plus(a, Plus(b, Added(Stat(0, 0, 0), line)))
  {
    hide StartsWith;
  }

  lemma {:induction false} StatCons(line: string, text: seq<string>)
    ensures StatOf([line] + text) == Plus(Added(Stat(0, 0, 0), line), StatOf(text))
  {
    hide StartsWith;
    var t := [line] + text;
    if text == [] {
      assert t == [line] && t[..0] == [];
    } else {
      StatCons(line, text[..|text| - 1]);
      assert t[..|t| - 1] == [line] + text[..|text| - 1];
    }
  }

  lemma {:induction false} StatAllCons(h: Hunk, hunks: seq<Hunk>)
    ensures StatOfAll([h] + hunks) == Plus(StatOf(h.text), StatOfAll(hunks))
  {
    hide StatOf;
    var hs := [h] + hunks;
    if hunks == [] {
      assert hs == [h] && hs[..0] == [];
    } else {
      StatAllCons(h, hunks[..|hunks| - 1]);
      assert hs[..|hs| - 1] == [h] + hunks[..|hunks| - 1];
    }
  }

  // ---- what is counted ----

  /** All body lines of the hunks, in order. */
  function AllText(hunks: seq<Hunk>): seq<string>
  {
    if hunks == [] then [] else AllText(hunks[..|hunks| - 1]) + hunks[|hunks| - 1].text
  }

  /** The lines that start with `tag`. */
  function Places(text: seq<string>, tag: char): set<int>
  {
    set i | 0 <= i < |text| && text[i] != "" && text[i][0] == tag
  }

  lemma {:induction false} StatOfConcat(a: seq<string>, b: seq<string>)
    ensures StatOf(a + b) == Plus(StatOf(a), StatOf(b))
  {
    hide Added;
    if b == [] {
      assert a + b == a;
    } else {
      var n := |b| - 1;
      StatOfConcat(a, b[..n]);
      assert (a + b)[..|a + b| - 1] == a + b[..n];
    }
  }

  lemma {:induction false} AllCountedTogether(hunks: seq<Hunk>)
    ensures StatOfAll(hunks) == StatOf(AllText(hunks))
  {
    if hunks != [] {
      var n := |hunks| - 1;
      AllCountedTogether(hunks[..n]);
      StatOfConcat(AllText(hunks[..n]), hunks[n].text);
    }
  }

  lemma {:induction false} CountedLines(text: seq<string>)
    ensures StatOf(text).insert == |Places(text, '+')| && StatOf(text).delete == |Places(text, '-')|
  {
    if text != [] {
      var n := |text| - 1;
      CountedLines(text[..n]);
      PlacesMore(text, '+');
      PlacesMore(text, '-');
      hide Places;
      assert StartsWith(text[n], "+") <==> text[n] != "" && text[n][0] == '+';
      assert StartsWith(text[n], "-") <==> text[n] != "" && text[n][0] == '-';
    }
  }

  lemma PlacesMore(text: seq<string>, tag: char)
    requires text != []
    ensures
      var n := |text| - 1;
      |Places(text, tag)| == |Places(text[..n], tag)| + (if text[n] != "" && text[n][0] == tag then 1 else 0)
  {
    var n := |text| - 1;
    var before := Places(text[..n], tag);
    if text[n] != "" && text[n][0] == tag {
      assert Places(text, tag) == before + {n};
    } else {
      assert Places(text, tag) == before;
    }
  }

  /** The insertions of a patch are its lines with a plus, the deletions those with a minus. */
  lemma InsertedAndDeleted(hunks: seq<Hunk>)
    ensures StatOfAll(hunks).insert == |Places(AllText(hunks), '+')|
    ensures StatOfAll(hunks).delete == |Places(AllText(hunks), '-')|
  {
    AllCountedTogether(hunks);
    CountedLines(AllText(hunks));
  }

  // ---- what the statistics mean ----

  /** The characters of a file. */
  function Size(lines: seq<string>): nat { if lines == [] then 0 else |lines[0]| + Size(lines[1..]) }

  /** The lines of one side, as they stand in the patch. */
  function Raw(text: seq<string>, side: Side): (r: seq<string>)
    ensures |r| == |Pick(text, side)|
  {
    if text == [] then []
    else if OnSide(text[0], side) then [text[0][1..]] + Raw(text[1..], side) else Raw(text[1..], side)
  }

  /** A body's statistics are the difference of its two sides as they stand in the patch. */
  lemma {:induction false} SidesDiffer(text: seq<string>)
    requires Tagged(text)
    ensures |Pick(text, Target)| - |Pick(text, Source)| == StatOf(text).insert - StatOf(text).delete
    ensures Size(Raw(text, Target)) - Size(Raw(text, Source)) == StatOf(text).delta
  {
    hide Rstrip;
    if text != [] {
      SidesDiffer(text[1..]);
      StatCons(text[0], text[1..]);
      assert text == [text[0]] + text[1..];
      hide StatOf;
      OneLine(text);
    }
  }

  lemma OneLine(text: seq<string>)
    requires text != [] && text[0] != "" && IsTag(text[0][0])
    ensures
      var (rest, s) := (text[1..], Added(Stat(0, 0, 0), text[0]));
      && |Pick(text, Target)| - |Pick(rest, Target)| - (|Pick(text, Source)| - |Pick(rest, Source)|)
         == s.insert - s.delete
      && Size(Raw(text, Target)) - Size(Raw(rest, Target)) - (Size(Raw(text, Source)) - Size(Raw(rest, Source)))
         == s.delta
  {
    var line := text[0];
    SizeCons(line[1..], Raw(text[1..], Target));
    SizeCons(line[1..], Raw(text[1..], Source));
    assert StartsWith(line, "+") == (line[0] == '+') && StartsWith(line, "-") == (line[0] == '-');
    RawCons(text, Target);
    RawCons(text, Source);
    PickCons(text, Target);
    PickCons(text, Source);
    hide Size, Rstrip, Pick, Raw, StartsWith;
  }

  lemma SizeCons(line: string, lines: seq<string>)
    ensures Size([line] + lines) == |line| + Size(lines)
  {
    assert ([line] + lines)[1..] == lines;
  }

  lemma RawCons(text: seq<string>, side: Side)
    requires text != []
    ensures Raw(text, side)
         == if OnSide(text[0], side) then [text[0][1..]] + Raw(text[1..], side) else Raw(text[1..], side)
  {
  }

  lemma PickCons(text: seq<string>, side: Side)
    requires text != []
    ensures Pick(text, side)
         == if OnSide(text[0], side) then [Rstrip(text[0][1..])] + Pick(text[1..], side) else Pick(text[1..], side)
  {
  }

  lemma {:induction false} SizeConcat(a: seq<string>, b: seq<string>)
    ensures Size(a + b) == Size(a) + Size(b)
  {
    if a == [] {
      assert a + b == b;
    } else {
      assert (a + b)[1..] == a[1..] + b;
      SizeConcat(a[1..], b);
    }
  }

  /** How much longer, in characters, the lines of the patch are where they are written, or stand in the file,
      than in the patch itself: what the change of line ends adds to the new lines, less what it adds to the old. */
  function Converted(hunks: seq<Hunk>, es: seq<Edit<string>>, nl: string): int
    requires |es| == |hunks|
  {
    if hunks == [] then 0
    else
      var (h, e) := (hunks[0], es[0]);
      Size(e.added) - Size(Raw(h.text, Target)) - (Size(Terminated(Old(h), nl)) - Size(Raw(h.text, Source)))
      + Converted(hunks[1..], es[1..], nl)
  }

  /** Edited and restored differ by the statistics and the change of line ends, wherever the edits are. */
  lemma {:induction false} EditsGrow(src: seq<string>, hunks: seq<Hunk>, es: seq<Edit<string>>, nl: string, pos: nat)
    requires AllTagged(hunks) && Stands(hunks, es) && Fits(es, pos, |src|) && Fits(Edits(hunks, nl), pos, |src|)
    ensures
      var (out, was, s) := (Weave(src, es, pos), Restored(src, Edits(hunks, nl), pos), StatOfAll(hunks));
      && |out| - |was| == s.insert - s.delete
      && Size(out) - Size(was) == s.delta + Converted(hunks, es, nl)
    decreases |hunks|, |src| - pos
  {
    hide Pick, Terminated, Tagged, Texts, Size, StatOf, StatOfAll, Weave, Restored, Raw;
    var fs := Edits(hunks, nl);
    if hunks == [] {
      NoStat();
      NoEdits(src, nl, pos);
    } else if pos < es[0].start {
      EditsGrow(src, hunks, es, nl, pos + 1);
      OneSkip(src, es, pos);
      OneSkip(src, fs, pos);
      SizeConcat([src[pos]], Weave(src, es, pos + 1));
      SizeConcat([src[pos]], Restored(src, fs, pos + 1));
    } else {
      var next := pos + |es[0].removed|;
      EditsGrow(src, hunks[1..], es[1..], nl, next);
      OneEdit(src, es, pos);
      OneEdit(src, fs, pos);
      SidesDiffer(hunks[0].text);
      StatAllCons(hunks[0], hunks[1..]);
      assert [hunks[0]] + hunks[1..] == hunks && fs[1..] == Edits(hunks[1..], nl);
      SizeConcat(es[0].added, Weave(src, es[1..], next));
      SizeConcat(fs[0].removed, Restored(src, fs[1..], next));
    }
  }

  lemma NoEdits(src: seq<string>, nl: string, pos: nat)
    requires pos <= |src|
    ensures Weave(src, [], pos) == Restored(src, Edits([], nl), pos) == src[pos..]
  {
  }

  lemma OneSkip(src: seq<string>, es: seq<Edit<string>>, pos: nat)
    requires es != [] && Fits(es, pos, |src|) && pos < es[0].start
    ensures Fits(es, pos + 1, |src|)
    ensures Weave(src, es, pos) == [src[pos]] + Weave(src, es, pos + 1)
    ensures Restored(src, es, pos) == [src[pos]] + Restored(src, es, pos + 1)
  {
  }

  lemma OneEdit(src: seq<string>, es: seq<Edit<string>>, pos: nat)
    requires es != [] && Fits(es, pos, |src|) && pos == es[0].start
    ensures
      var next := pos + |es[0].removed|;
      && Weave(src, es, pos) == es[0].added + Weave(src, es[1..], next)
      && Restored(src, es, pos) == es[0].removed + Restored(src, es[1..], next)
  {
  }

  lemma NoStat()
    ensures StatOfAll([]) == Stat(0, 0, 0)
  {
  }

  /** The file a proper patch makes has as many lines more than it had as the statistics say, whatever they
      were. In characters it grows by what the statistics say and what the change of line ends adds, and by what
      the lines that were never compared were short of the old texts; those lines were right exactly when the
      file with the old texts written in is the file itself. */
  lemma StatisticsAreGrowth(src: seq<string>, hunks: seq<Hunk>, nl: Ending)
    requires Proper(hunks) && EndsIn(src, nl) && CanPatch(src, hunks)
    ensures Fits(Edits(hunks, Chars(nl)), 0, |src|)
    ensures
      var (out, s, was) := (Stream(src, hunks, 0), StatOfAll(hunks), Restored(src, Edits(hunks, Chars(nl)), 0));
      && |out| == |src| + s.insert - s.delete
      && Size(out) - Size(src)
         == s.delta + Converted(hunks, Written(hunks, Chars(nl)), Chars(nl)) + (Size(was) - Size(src))
      && ((forall i | 0 <= i < |hunks| :: LastLineMatches(src, hunks[i])) <==> was == src)
  {
    var (es, fs) := (Written(hunks, Chars(nl)), Edits(hunks, Chars(nl)));
    assert EndInside(hunks, |src|);
    ApplyMakesEdits(src, hunks, nl);
    EditsStand(hunks, nl);
    hide Uniform, Stream, Weave, Restored, InPlace, Pick, StatOfAll, Size, HeadMatches, LastLineMatches, Fits, Edits;
    hide Written, Stands, Converted, Tagged, RemovedEnds;
    OrderedFits(hunks, fs, 0, |src|);
    EditsGrow(src, hunks, es, Chars(nl), 0);
    RestoredIffInPlace(src, fs, 0);
    EditsEnd(hunks, Chars(nl));
    InPlaceIsAgreement(src, hunks, fs, 0, Chars(nl));
    AllHeadsPlusLasts(src, hunks);
    assert src[0..] == src;
  }

  lemma {:induction false} EditsEnd(hunks: seq<Hunk>, nl: string)
    ensures RemovedEnds(hunks, Edits(hunks, nl), nl)
  {
    hide Pick, Terminated;
    if hunks != [] {
      EditsEnd(hunks[1..], nl);
    }
  }

  /** The hunks' lines end as the file's do. */
  predicate EndAlike(hunks: seq<Hunk>, nl: string)
  {
    hunks == [] || (LinesEnd(hunks[0].text, nl) && EndAlike(hunks[1..], nl))
  }

  predicate LinesEnd(text: seq<string>, nl: string)
  {
    text == [] || (text[0] != "" && UniformLine(text[0][1..], nl) && LinesEnd(text[1..], nl))
  }

  lemma {:induction false} RawIsTerminated(text: seq<string>, side: Side, nl: string)
    requires LinesEnd(text, nl)
    ensures Raw(text, side) == Terminated(Pick(text, side), nl)
  {
    hide Rstrip;
    if text != [] {
      RawIsTerminated(text[1..], side, nl);
    }
  }

  lemma {:induction false} LeadLinesEnd(text: seq<string>, nl: string)
    requires LinesEnd(text, nl)
    ensures Uniform(LeadRun(text), nl)
  {
    hide Rstrip;
    if text != [] && IsAdded(text[0]) {
      LeadLinesEnd(text[1..], nl);
      assert LeadRun(text)[1..] == LeadRun(text[1..]);
    }
  }

  lemma {:induction false} LaterConverted(hunks: seq<Hunk>, lead: seq<string>, nl: Ending)
    requires (nl == LF || nl == CRLF) && EndAlike(hunks, Chars(nl))
    ensures Converted(hunks, LaterEdits(hunks, lead, Chars(nl)), Chars(nl)) == 0
  {
    hide Raw, Pick, Put, PutBack, Terminated, LinesEnd, Size;
    if hunks != [] {
      RawIsTerminated(hunks[0].text, Source, Chars(nl));
      RawIsTerminated(hunks[0].text, Target, Chars(nl));
      PutOne(hunks[0].text, nl);
      LaterConverted(hunks[1..], lead, nl);
    }
  }

  /** Then nothing is converted, and the statistics are the growth of the file when the uncompared lines were right. */
  lemma NothingConverted(hunks: seq<Hunk>, nl: Ending)
    requires (nl == LF || nl == CRLF) && EndAlike(hunks, Chars(nl))
    ensures Converted(hunks, Written(hunks, Chars(nl)), Chars(nl)) == 0 && LeadEnds(hunks, Chars(nl))
  {
    hide Raw, Pick, TopEdit, LaterEdits, Terminated, LinesEnd, Size, Uniform, LeadRun, Rstrip;
    if AtTheTop(hunks) {
      var h := hunks[0];
      LeadLinesEnd(h.text, Chars(nl));
      RawIsTerminated(h.text, Source, Chars(nl));
      RawIsTerminated(h.text, Target, Chars(nl));
      TopIsTarget(h, nl);
      LaterConverted(hunks[1..], Lead(hunks), nl);
      assert Written(hunks, Chars(nl))[1..] == LaterEdits(hunks[1..], Lead(hunks), Chars(nl));
    } else {
      LaterConverted(hunks, [], nl);
      NoneUniform(Chars(nl));
    }
  }

  lemma NoneUniform(nl: string)
    ensures Uniform([], nl)
  {
  }
}
