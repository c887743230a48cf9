/** Text helpers shared by the models: line ends, decimal numbers, white space. */
module Text {

  /** The longest prefix of `s` that is free of CR and LF at its end: Python's rstrip(b"\r\n"). */
  function Rstrip(s: string): (r: string)
    ensures r <= s
    ensures r == [] || !IsEol(r[|r| - 1])
    ensures forall i | |r| <= i < |s| :: IsEol(s[i])
  {
    if s == [] then [] else if IsEol(s[|s| - 1]) then Rstrip(s[..|s| - 1]) else s
  }

  predicate IsEol(c: char) { c == '\r' || c == '\n' }

  predicate IsDigit(c: char) { '0' <= c <= '9' }

  predicate StartsWith(s: string, prefix: string) { prefix <= s }

  /** Only the prefix that ends outside CR and LF, with nothing else behind it, is the stripped text. */
  lemma RstripUnique(s: string, body: string, end: string)
    requires s == body + end
    requires body == [] || !IsEol(body[|body| - 1])
    requires forall i | 0 <= i < |end| :: IsEol(end[i])
    ensures Rstrip(s) == body
  {
    var r := Rstrip(s);
    assert forall i | 0 <= i < |end| :: s[|body| + i] == end[i];
    assert forall i | |body| <= i < |s| :: s[i] == end[i - |body|];
    assert |body| > 0 ==> s[|body| - 1] == body[|body| - 1];
    assert |r| == |body|;
  }

  /** Decimal digits of `n`, as a number is printed. */
  function Decimal(n: nat): (s: string)
    ensures |s| > 0 && forall i | 0 <= i < |s| :: IsDigit(s[i])
  {
    if n < 10 then [DigitChar(n)] else Decimal(n / 10) + [DigitChar(n % 10)]
  }

  function DigitChar(d: nat): (c: char)
    requires d < 10
    ensures IsDigit(c) && (c as int) == '0' as int + d
  {
    ('0' as int + d) as char
  }

  /** The number a run of decimal digits denotes. */
  function Value(s: string): nat
    requires forall i | 0 <= i < |s| :: IsDigit(s[i])
  {
    if s == [] then 0 else assert IsDigit(s[|s| - 1]); 10 * Value(s[..|s| - 1]) + (s[|s| - 1] as int - '0' as int)
  }

  /** Length of the longest run of digits `s` starts with. */
  function DigitSpan(s: string): (k: nat)
    ensures k <= |s|
    ensures forall i | 0 <= i < k :: IsDigit(s[i])
    ensures k < |s| ==> !IsDigit(s[k])
  {
    if s == [] || !IsDigit(s[0]) then 0 else 1 + DigitSpan(s[1..])
  }

  lemma {:induction false} ValueOfDecimal(n: nat)
    ensures Value(Decimal(n)) == n
  {
    var s := Decimal(n);
    if n < 10 {
      assert s[..|s| - 1] == [];
    } else {
      assert s[..|s| - 1] == Decimal(n / 10);
      ValueOfDecimal(n / 10);
    }
  }

  function Power10(n: nat): nat { if n == 0 then 1 else 10 * Power10(n - 1) }

  predicate AreDigits(s: string) { forall i | 0 <= i < |s| :: IsDigit(s[i]) }

  /** The first digit counts most: each stands for its value times a power of ten. */
  lemma {:induction false} ValueByPlaces(c: char, rest: string)
    requires IsDigit(c) && AreDigits(rest)
    ensures AreDigits([c] + rest)
    ensures Value([c] + rest) == (c as int - '0' as int) * Power10(|rest|) + Value(rest)
  {
    var s := [c] + rest;
    assert forall i | 0 < i < |s| :: s[i] == rest[i - 1];
    if rest == "" {
      assert s == [c] && s[..0] == "" && Power10(0) == 1;
    } else {
      var n := |rest| - 1;
      ValueByPlaces(c, rest[..n]);
      assert s[..|s| - 1] == [c] + rest[..n] && s[|s| - 1] == rest[n];
      var d := c as int - '0' as int;
      assert 10 * (d * Power10(n)) == d * Power10(n + 1);
    }
  }

  /** A number is printed without zeros in front, and no other digits without them stand for it. */
  lemma {:induction false} DecimalExactly(s: string)
    requires s != "" && AreDigits(s)
    ensures s == Decimal(Value(s)) <==> |s| == 1 || s[0] != '0'
    ensures |s| > 1 && s[0] != '0' ==> Value(s) >= 10
  {
    var n := |s| - 1;
    var d := s[n] as int - '0' as int;
    if n == 0 {
      OneDigit(s);
    } else {
      DecimalExactly(s[..n]);
      var v := Value(s[..n]);
      assert Value(s) == 10 * v + d && s == s[..n] + [s[n]];
      if n == 1 {
        OneDigit(s[..1]);
      }
      hide Value;
      LastDigit(v, d);
      hide Decimal, DigitChar;
      if v > 0 {
        assert Decimal(Value(s)) == Decimal(v) + [s[n]];
        assert s == Decimal(v) + [s[n]] <==> s[..n] == Decimal(v) by {
          assert (Decimal(v) + [s[n]])[..|Decimal(v)|] == Decimal(v);
        }
      } else {
        assert |Decimal(Value(s))| == 1;
      }
    }
  }

  lemma OneDigit(s: string)
    requires |s| == 1 && IsDigit(s[0])
    ensures Value(s) == s[0] as int - '0' as int && s == Decimal(Value(s))
  {
    assert s[..0] == "" && s == [s[0]];
  }

  lemma LastDigit(v: nat, d: nat)
    requires d < 10
    ensures v > 0 ==> Decimal(10 * v + d) == Decimal(v) + [DigitChar(d)]
    ensures v == 0 ==> Decimal(10 * v + d) == [DigitChar(d)]
  {
    assert (10 * v + d) / 10 == v && (10 * v + d) % 10 == d;
  }

  /** A printed number in front of a non-digit is read back, and reading stops where printing did. */
  lemma ReadDecimal(n: nat, rest: string)
    requires rest == [] || !IsDigit(rest[0])
    ensures DigitSpan(Decimal(n) + rest) == |Decimal(n)|
    ensures (Decimal(n) + rest)[..|Decimal(n)|] == Decimal(n) && Value(Decimal(n)) == n
    ensures (Decimal(n) + rest)[|Decimal(n)|..] == rest
  {
    ValueOfDecimal(n);
    var s := Decimal(n) + rest;
    var k := DigitSpan(s);
    assert forall i | 0 <= i < |Decimal(n)| :: s[i] == Decimal(n)[i];
    assert rest != [] ==> s[|Decimal(n)|] == rest[0];
  }

  /** Where `c` first occurs in `s` at or after `from`, or |s| when it does not. */
  function IndexFrom<T(==)>(s: seq<T>, c: T, from: nat): (i: nat)
    requires from <= |s|
    ensures from <= i <= |s|
    ensures forall j | from <= j < i :: s[j] != c
    ensures i < |s| ==> s[i] == c
    decreases |s| - from
  {
    if from == |s| || s[from] == c then from else IndexFrom(s, c, from + 1)
  }

  predicate IsBlank(c: char)
  {
    c == ' ' || c == '\t' || c == '\n' || c == '\r' || c == 11 as char || c == 12 as char
  }

  /** Python's strip(): no blank at either end. */
  function Strip(s: string): (r: string)
    ensures r == [] || (!IsBlank(r[0]) && !IsBlank(r[|r| - 1]))
    decreases |s|
  {
    if s == [] then []
    else if IsBlank(s[0]) then Strip(s[1..])
    else StripRight(s)
  }

  function StripRight(s: string): (r: string)
    ensures r <= s
    ensures r == [] || !IsBlank(r[|r| - 1])
    ensures forall i | |r| <= i < |s| :: IsBlank(s[i])
  {
    if s == [] then [] else if IsBlank(s[|s| - 1]) then StripRight(s[..|s| - 1]) else s
  }

  /** Only blanks are stripped. */
  lemma {:induction false} StripParts(s: string) returns (front: string, back: string)
    ensures s == front + Strip(s) + back
    ensures forall i | 0 <= i < |front| :: IsBlank(front[i])
    ensures forall i | 0 <= i < |back| :: IsBlank(back[i])
    decreases |s|
  {
    hide IsBlank;
    if s == [] {
      front, back := [], [];
    } else if IsBlank(s[0]) {
      front, back := StripParts(s[1..]);
      front := [s[0]] + front;
    } else {
      var r := StripRight(s);
      front, back := [], s[|r|..];
    }
  }

  lemma StripName(name: string)
    requires name != [] && !IsBlank(name[0]) && !IsBlank(name[|name| - 1])
    ensures Strip(name + "\n") == name
  {
    var s := name + "\n";
    var r := StripRight(s);
    assert s[|name|] == '\n' && s[|name| - 1] == name[|name| - 1];
    assert r == name;
  }
}
