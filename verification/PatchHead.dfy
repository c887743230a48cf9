/** The first line of a hunk, as a pattern: two ranges, in each of which the count may be left out. */
module PatchHead {
  import opened Options
  import opened Text
  import opened PatchModel
  import opened PatchParse

  /** A range as it is written: digits, and perhaps a comma and digits. */
  datatype Written = Written(start: string, count: Option<string>)

  predicate AllDigits(s: string) { s != "" && forall i | 0 <= i < |s| :: IsDigit(s[i]) }

  predicate IsRange(w: Written) { AllDigits(w.start) && (w.count.Some? ==> AllDigits(w.count.value)) }

  function RangeText(w: Written): string { w.start + (if w.count.Some? then "," + w.count.value else "") }

  /** A count that is left out is one. */
  function CountOf(w: Written): nat
    requires IsRange(w)
  {
    if w.count.Some? then Value(w.count.value) else 1
  }

  function HeadLineText(src: Written, tgt: Written, tail: string): string
  {
    "@@ -" + (RangeText(src) + (" +" + (RangeText(tgt) + (" @@" + tail))))
  }

  lemma DigitsSpan(digits: string, rest: string)
    requires AllDigits(digits) && (rest == "" || !IsDigit(rest[0]))
    ensures DigitSpan(digits + rest) == |digits|
    ensures (digits + rest)[..|digits|] == digits && (digits + rest)[|digits|..] == rest
  {
    var s := digits + rest;
    var k := DigitSpan(s);
    assert forall i | 0 <= i < |digits| :: s[i] == digits[i];
    assert rest != "" ==> s[|digits|] == rest[0];
  }

  lemma RangeIsRead(w: Written, rest: string)
    requires IsRange(w) && rest != "" && rest[0] == ' '
    ensures ReadRange(RangeText(w) + rest) == Some(Range(Value(w.start), CountOf(w), rest))
  {
    hide DigitSpan, Value, ReadRange, AllDigits;
    if w.count.None? {
      StartIsRead(w.start, rest);
      assert RangeText(w) + rest == w.start + rest;
    } else {
      BothAreRead(w.start, w.count.value, rest);
      assert RangeText(w) + rest == w.start + ("," + (w.count.value + rest));
    }
  }

  lemma StartIsRead(start: string, rest: string)
    requires AllDigits(start) && rest != "" && rest[0] == ' '
    ensures ReadRange(start + rest) == Some(Range(Value(start), 1, rest))
  {
    DigitsSpan(start, rest);
    hide DigitSpan, Value;
  }

  lemma BothAreRead(start: string, count: string, rest: string)
    requires AllDigits(start) && AllDigits(count) && rest != "" && rest[0] == ' '
    ensures ReadRange(start + ("," + (count + rest))) == Some(Range(Value(start), Value(count), rest))
  {
    var tail := "," + (count + rest);
    DigitsSpan(start, tail);
    DigitsSpan(count, rest);
    hide DigitSpan, Value;
    assert tail[1..] == count + rest;
  }

  lemma ReadIsRange(s: string) returns (w: Written)
    requires ReadRange(s).Some?
    ensures IsRange(w) && s == RangeText(w) + ReadRange(s).value.rest
  {
    hide Value, DigitSpan, RangeText, AllDigits;
    var k := DigitSpan(s);
    SpanIsDigits(s);
    var rest := s[k..];
    if rest != "" && rest[0] == ',' && DigitSpan(rest[1..]) > 0 {
      SpanIsDigits(rest[1..]);
      w := Written(s[..k], Some(rest[1..][..DigitSpan(rest[1..])]));
      BothStand(s, k, DigitSpan(rest[1..]));
    } else {
      w := Written(s[..k], None);
      StartStands(s, k);
    }
  }

  lemma SpanIsDigits(s: string)
    ensures DigitSpan(s) > 0 ==> AllDigits(s[..DigitSpan(s)])
  {
    hide DigitSpan;
  }

  lemma StartStands(s: string, k: nat)
    requires k <= |s|
    ensures s == RangeText(Written(s[..k], None)) + s[k..]
  {
  }

  lemma BothStand(s: string, k: nat, m: nat)
    requires k < |s| && s[k] == ',' && k + 1 + m <= |s|
    ensures
      var rest := s[k..];
      s == RangeText(Written(s[..k], Some(rest[1..][..m]))) + rest[1..][m..]
  {
  }

  /** A line of this form is a hunk's first line, with these numbers. */
  lemma HeadIsRead(src: Written, tgt: Written, tail: string)
    requires IsRange(src) && IsRange(tgt)
    ensures HunkHead(HeadLineText(src, tgt, tail))
         == Some(Hunk(Value(src.start), CountOf(src), Value(tgt.start), CountOf(tgt), Description(tail), false, []))
  {
    hide ReadRange, RangeText, Value, Description, CountOf;
    var end := " @@" + tail;
    var mid := " +" + (RangeText(tgt) + end);
    var line := HeadLineText(src, tgt, tail);
    assert line[..4] == "@@ -" && line[4..] == RangeText(src) + mid;
    assert mid[..2] == " +" && mid[2..] == RangeText(tgt) + end && end[..3] == " @@" && end[3..] == tail;
    RangeIsRead(src, mid);
    RangeIsRead(tgt, end);
  }

  /** And there is no other. */
  lemma HeadHasForm(line: string) returns (src: Written, tgt: Written, tail: string)
    requires HunkHead(line).Some?
    ensures IsRange(src) && IsRange(tgt) && line == HeadLineText(src, tgt, tail)
  {
    hide ReadRange, IsRange, RangeText, Description;
    src := ReadIsRange(line[4..]);
    var mid := ReadRange(line[4..]).value.rest;
    tgt := ReadIsRange(mid[2..]);
    var end := ReadRange(mid[2..]).value.rest;
    tail := end[3..];
    Prefixed(line, "@@ -");
    Prefixed(mid, " +");
    Prefixed(end, " @@");
  }

  lemma Prefixed(s: string, prefix: string)
    requires StartsWith(s, prefix)
    ensures s == prefix + s[|prefix|..]
  {
  }

  ghost predicate Writes(src: Written, tgt: Written, tail: string, line: string)
  {
    IsRange(src) && IsRange(tgt) && line == HeadLineText(src, tgt, tail)
  }

  /** A line begins a hunk exactly when it has this form; and then the form gives the hunk's numbers. */
  lemma HeadExactly(line: string)
    ensures HunkHead(line).Some? <==> exists src, tgt, tail :: Writes(src, tgt, tail, line)
    ensures forall src, tgt, tail | Writes(src, tgt, tail, line) ::
              HunkHead(line)
              == Some(Hunk(Value(src.start), CountOf(src), Value(tgt.start), CountOf(tgt), Description(tail), false, []))
  {
    hide HunkHead, HeadLineText, Value, CountOf, Description;
    if HunkHead(line).Some? {
      var src, tgt, tail := HeadHasForm(line);
      assert Writes(src, tgt, tail, line);
    }
    forall src, tgt, tail | Writes(src, tgt, tail, line)
      ensures HunkHead(line)
           == Some(Hunk(Value(src.start), CountOf(src), Value(tgt.start), CountOf(tgt), Description(tail), false, []))
    {
      HeadIsRead(src, tgt, tail);
    }
  }

  /** What stands behind the ranges is read without the blank before it and the blanks behind it. */
  lemma DescriptionIsRead(desc: string)
    requires '\n' !in desc && (desc == "" || !IsBlank(desc[|desc| - 1]))
    ensures Description(" " + desc + "\n") == desc
    ensures Description("\n") == ""
  {
    hide IndexFrom, StripRight;
    var tail := " " + desc + "\n";
    assert forall i | 0 <= i < |desc| :: tail[i + 1] == desc[i] && desc[i] in desc;
    var k := IndexFrom(tail, '\n', 0);
    assert tail[|desc| + 1] == '\n' && k == |desc| + 1;
    assert tail[..k] == " " + desc && tail[..k][1..] == desc;
    StripRightNone(desc);
    assert IndexFrom("\n", '\n', 0) == 0 by { assert "\n"[0] == '\n'; }
  }

  lemma StripRightNone(s: string)
    requires s == "" || !IsBlank(s[|s| - 1])
    ensures StripRight(s) == s
  {
  }
}
