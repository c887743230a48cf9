/** Printing a patch set, and reading it back. */
module PatchPrint {
  import opened Options
  import opened Text
  import opened PatchModel
  import opened PatchParse
  import opened PatchHead
  import opened PatchGrammar

  // ---- layouts ----

  /** How a patch is written down: whether a count of one is left out, whether the descriptions are there, whether
      blanks at the end of a line without text are lost, and what stands behind the two names. */
  datatype Layout = Layout(short: bool, described: bool, trimmed: bool, sourceStamp: string, targetStamp: string)

  /** `dump` writes all counts, and only what is needed. */
  const Dumped := Layout(false, false, false, "", "")

  /** `diff -u` leaves out a count of one, and writes a tab and the time of the file behind a name. */
  function DiffLayout(sourceTime: string, targetTime: string): Layout
  {
    Layout(true, true, false, "\t" + sourceTime, "\t" + targetTime)
  }

  /** Python's rstrip('\n'). */
  function Chomp(s: string): (r: string)
    ensures r <= s
  {
    if s != "" && s[|s| - 1] == '\n' then Chomp(s[..|s| - 1]) else s
  }

  function Printed(lines: seq<string>): seq<string>
  {
    if lines == [] then [] else [Chomp(lines[0]) + "\n"] + Printed(lines[1..])
  }

  function CountText(n: nat, how: Layout): string { if how.short && n == 1 then "" else "," + Decimal(n) }

  function DescriptionText(h: Hunk, how: Layout): string { if how.described && h.desc != "" then " " + h.desc else "" }

  function HeadText(h: Hunk, how: Layout): string
  {
    "@@ -" + (Decimal(h.startsrc) + CountText(h.linessrc, how) + (" +" + (Decimal(h.starttgt) + CountText(h.linestgt, how)
      + (" @@" + (DescriptionText(h, how) + "\n")))))
  }

  function TrimmedLine(line: string): string
  {
    if line == " \n" then "\n" else if line == " \r\n" then "\r\n" else line
  }

  function Trimmed(lines: seq<string>): (r: seq<string>)
    ensures |r| == |lines|
  {
    if lines == [] then [] else [TrimmedLine(lines[0])] + Trimmed(lines[1..])
  }

  function BodyText(h: Hunk, how: Layout): seq<string> { if how.trimmed then Trimmed(Printed(h.text)) else Printed(h.text) }

  function HunkLines(h: Hunk, how: Layout): seq<string> { [HeadText(h, how)] + BodyText(h, how) }

  function AllHunkLines(hunks: seq<Hunk>, how: Layout): seq<string>
  {
    if hunks == [] then [] else HunkLines(hunks[0], how) + AllHunkLines(hunks[1..], how)
  }

  function SourceLine(p: Patch, how: Layout): string { "--- " + p.source + (how.sourceStamp + "\n") }

  function TargetLine(p: Patch, how: Layout): string { "+++ " + p.target + (how.targetStamp + "\n") }

  function PatchLines(p: Patch, how: Layout): seq<string>
  {
    Printed(p.header) + ([SourceLine(p, how)] + ([TargetLine(p, how)] + AllHunkLines(p.hunks, how)))
  }

  /** Every patch in a layout of its own. */
  function AllLines(ps: seq<Patch>, hows: seq<Layout>): seq<string>
    requires |hows| == |ps|
  {
    if ps == [] then [] else PatchLines(ps[0], hows[0]) + AllLines(ps[1..], hows[1..])
  }

  function Alike(n: nat, how: Layout): (r: seq<Layout>)
    ensures |r| == n
  {
    if n == 0 then [] else [how] + Alike(n - 1, how)
  }

  // ---- dump ----

  method Dump(ps: seq<Patch>) returns (lines: seq<string>)
    ensures lines == AllLines(ps, Alike(|ps|, Dumped))
  {
    hide Printed, AllHunkLines, PatchLines;
    lines := [];
    for i := 0 to |ps|
      invariant lines + AllLines(ps[i..], Alike(|ps| - i, Dumped)) == AllLines(ps, Alike(|ps|, Dumped))
    {
      ghost var start := lines;
      assert ps[i..][0] == ps[i] && ps[i..][1..] == ps[i + 1..];
      assert Alike(|ps| - i, Dumped)[1..] == Alike(|ps| - i - 1, Dumped);
      lines := DumpPatch(ps[i], lines);
      Associate(start, PatchLines(ps[i], Dumped), AllLines(ps[i + 1..], Alike(|ps| - i - 1, Dumped)));
    }
  }

  method DumpPatch(p: Patch, lines0: seq<string>) returns (lines: seq<string>)
    ensures lines == lines0 + PatchLines(p, Dumped)
  {
    hide Printed, AllHunkLines;
    lines := PrintLines(p.header, lines0);
    lines := lines + ["--- " + p.source + "\n", "+++ " + p.target + "\n"];
    assert SourceLine(p, Dumped) == "--- " + p.source + "\n" && TargetLine(p, Dumped) == "+++ " + p.target + "\n";
    lines := DumpHunks(p.hunks, lines);
  }

  lemma Associate(a: seq<string>, b: seq<string>, c: seq<string>)
    ensures (a + b) + c == a + (b + c)
  {
  }

  method PrintLines(text: seq<string>, lines0: seq<string>) returns (lines: seq<string>)
    ensures lines == lines0 + Printed(text)
  {
    lines := lines0;
    var i := 0;
    while i < |text|
      invariant i <= |text| && lines + Printed(text[i..]) == lines0 + Printed(text)
    {
      assert text[i..][0] == text[i] && text[i..][1..] == text[i + 1..];
      Associate(lines, [Chomp(text[i]) + "\n"], Printed(text[i + 1..]));
      lines := lines + [Chomp(text[i]) + "\n"];
      i := i + 1;
    }
  }

  method DumpHunks(hunks: seq<Hunk>, lines0: seq<string>) returns (lines: seq<string>)
    ensures lines == lines0 + AllHunkLines(hunks, Dumped)
  {
    hide Printed, HeadText;
    lines := lines0;
    for i := 0 to |hunks|
      invariant lines + AllHunkLines(hunks[i..], Dumped) == lines0 + AllHunkLines(hunks, Dumped)
    {
      ghost var start := lines;
      var h := hunks[i];
      assert hunks[i..][0] == h && hunks[i..][1..] == hunks[i + 1..];
      DumpedHead(h);
      lines := lines + ["@@ -" + Decimal(h.startsrc) + "," + Decimal(h.linessrc)
                        + " +" + Decimal(h.starttgt) + "," + Decimal(h.linestgt) + " @@\n"];
      lines := PrintLines(h.text, lines);
      assert lines == start + HunkLines(h, Dumped);
      Associate(start, HunkLines(h, Dumped), AllHunkLines(hunks[i + 1..], Dumped));
    }
  }

  lemma DumpedHead(h: Hunk)
    ensures HeadText(h, Dumped)
         == "@@ -" + Decimal(h.startsrc) + "," + Decimal(h.linessrc)
            + " +" + Decimal(h.starttgt) + "," + Decimal(h.linestgt) + " @@\n"
  {
    hide Decimal;
  }

  // ---- what can be read back ----

  /** One line of a stream, with its LF. */
  predicate IsLine(l: string) { |l| > 0 && l[|l| - 1] == '\n' && '\n' !in l[..|l| - 1] }

  predicate AreLines(text: seq<string>) { text == [] || (IsLine(text[0]) && AreLines(text[1..])) }

  /** A hunk whose ranges count its body lines; a marker line may stand anywhere but at the end. */
  predicate Readable(h: Hunk)
  {
    && !h.invalid && Counted(h) && AreLines(h.text)
    && h.text != [] && h.text[|h.text| - 1] != "" && h.text[|h.text| - 1][0] != '\\'
    && IsDescription(h.desc)
  }

  predicate IsDescription(desc: string) { '\n' !in desc && (desc == "" || !IsBlank(desc[|desc| - 1])) }

  predicate AllReadable(hunks: seq<Hunk>)
  {
    hunks == [] || (Readable(hunks[0]) && AllReadable(hunks[1..]))
  }

  predicate IsName(name: string)
  {
    && name != "" && !IsBlank(name[0]) && !IsBlank(name[|name| - 1])
    && '\t' !in name && '\n' !in name
  }

  /** Nothing, or a tab and the time of a file. */
  predicate IsStamp(stamp: string) { stamp == "" || (stamp[0] == '\t' && '\n' !in stamp) }

  predicate IsLayout(how: Layout) { IsStamp(how.sourceStamp) && IsStamp(how.targetStamp) }

  predicate AreLayouts(hows: seq<Layout>) { hows == [] || (IsLayout(hows[0]) && AreLayouts(hows[1..])) }

  /** A patch that can stand behind another one, or first. */
  predicate Writable(p: Patch, first: bool)
  {
    && IsName(p.source) && IsName(p.target)
    && AreLines(p.header) && (if first then NoNames(p.header) else IsBetween(p.header))
    && p.hunks != [] && AllReadable(p.hunks)
  }

  predicate AllWritable(ps: seq<Patch>, first: bool)
  {
    ps == [] || (Writable(ps[0], first) && AllWritable(ps[1..], false))
  }

  /** What a layout keeps of a hunk: all, or all but the description. */
  function Shown(h: Hunk, how: Layout): Hunk { if how.described then h else h.(desc := "") }

  function ShownHunks(hunks: seq<Hunk>, how: Layout): seq<Hunk>
  {
    if hunks == [] then [] else [Shown(hunks[0], how)] + ShownHunks(hunks[1..], how)
  }

  function ShownPatch(p: Patch, how: Layout): Patch { p.(hunks := ShownHunks(p.hunks, how)) }

  function ShownPatches(ps: seq<Patch>, hows: seq<Layout>): seq<Patch>
    requires |hows| == |ps|
  {
    if ps == [] then [] else [ShownPatch(ps[0], hows[0])] + ShownPatches(ps[1..], hows[1..])
  }

  // ---- lines and patterns ----

  lemma {:induction false} PrintedIsSame(text: seq<string>)
    requires AreLines(text)
    ensures Printed(text) == text
  {
    if text != [] {
      ChompLine(text[0]);
      PrintedIsSame(text[1..]);
    }
  }

  lemma ChompLine(l: string)
    requires IsLine(l)
    ensures Chomp(l) + "\n" == l
  {
    var body := l[..|l| - 1];
    assert body != "" ==> body[|body| - 1] in body;
    assert Chomp(l) == Chomp(body) == body;
  }

  /** A body is claimed as it was, also when blanks were lost. */
  lemma {:induction false} TrimmedIsClaimed(text: seq<string>)
    requires Tagged(text)
    ensures ClaimedAll(text) == text == ClaimedAll(Trimmed(text))
  {
    if text != [] {
      assert !IsEol(text[0][0]);
      assert !OnlyEol(text[0]);
      assert OnlyEol("\n") && " " + "\n" == " \n" && OnlyEol("\r\n") && " " + "\r\n" == " \r\n";
      TrimmedIsClaimed(text[1..]);
      assert Trimmed(text)[1..] == Trimmed(text[1..]);
    }
  }

  function RangeOf(start: nat, count: nat, how: Layout): Written
  {
    Written(Decimal(start), if how.short && count == 1 then None else Some(Decimal(count)))
  }

  lemma RangePrinted(start: nat, count: nat, how: Layout)
    ensures
      var w := RangeOf(start, count, how);
      && IsRange(w) && Value(w.start) == start && CountOf(w) == count
      && RangeText(w) == Decimal(start) + CountText(count, how)
  {
    ValueOfDecimal(start);
    ValueOfDecimal(count);
    hide Decimal, Value;
  }

  /** A hunk's first line is read as the hunk's ranges, also where a count of one is left out. */
  lemma HeadReadBack(h: Hunk, how: Layout)
    requires IsDescription(h.desc)
    ensures HunkHead(HeadText(h, how)) == Some(Shown(h, how).(invalid := false, text := []))
  {
    hide HunkHead, Decimal, Value, CountOf, CountText, RangeText, IsRange, Description;
    var (src, tgt) := (RangeOf(h.startsrc, h.linessrc, how), RangeOf(h.starttgt, h.linestgt, how));
    RangePrinted(h.startsrc, h.linessrc, how);
    RangePrinted(h.starttgt, h.linestgt, how);
    HeadIsRead(src, tgt, DescriptionText(h, how) + "\n");
    DescriptionIsRead(h.desc);
    assert "" + "\n" == "\n";
    assert HeadText(h, how) == HeadLineText(src, tgt, DescriptionText(h, how) + "\n");
  }

  lemma NameReadBack(prefix: string, name: string, stamp: string)
    requires |prefix| == 4 && IsName(name) && IsStamp(stamp)
    ensures FileName(prefix + name + (stamp + "\n")) == Some(name)
  {
    hide IndexFrom, Strip;
    var line := prefix + name + (stamp + "\n");
    var rest := line[4..];
    assert rest == name + (stamp + "\n");
    assert forall i | 0 <= i < |name| :: rest[i] == name[i] && name[i] in name;
    var k := IndexFrom(rest, '\t', 0);
    if stamp == "" {
      assert rest == name + "\n";
      assert k == |rest| && rest[..k] == rest;
      StripName(name);
    } else {
      assert rest[|name|] == '\t';
      assert k == |name| && rest[..k] == name;
      StripNothing(name);
    }
  }

  lemma StripNothing(name: string)
    requires name != "" && !IsBlank(name[0]) && !IsBlank(name[|name| - 1])
    ensures Strip(name) == name
  {
    assert StripRight(name) == name;
  }
}
