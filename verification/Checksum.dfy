/** The NMEA0183 checksum: how the simulator makes it, and how the logger and the TeamSurv reader check it. */
module Checksum {

  type Char = bv8

  const NUL: Char := 0
  const LF: Char := 10
  const CR: Char := 13
  const DOLLAR: Char := 36
  const STAR: Char := 42

  predicate Printable(c: Char) { 32 <= c <= 126 }

  predicate AllPrintable(s: seq<Char>)
  {
    forall i | 0 <= i < |s| :: Printable(s[i])
  }

  function Xor(s: seq<Char>): Char
  {
    if s == [] then 0 else Xor(s[..|s| - 1]) ^ s[|s| - 1]
  }

  lemma XorMore(s: seq<Char>, a: nat, i: nat)
    requires a <= i < |s|
    ensures Xor(s[a..i + 1]) == Xor(s[a..i]) ^ s[i]
  {
    assert s[a..i + 1][..i - a] == s[a..i];
  }

  lemma XorNone(s: seq<Char>, a: nat)
    ensures a <= |s| ==> Xor(s[a..a]) == 0
  {
  }

  function HexDigit(n: Char): (c: Char)
    requires n < 16
    ensures 48 <= c <= 57 || 65 <= c <= 70
  {
    if n < 10 then 48 + n else 55 + n
  }

  /** Two upper-case hexadecimal digits. */
  function Hex(n: Char): (s: seq<Char>)
    ensures |s| == 2 && forall i | 0 <= i < 2 :: 48 <= s[i] <= 57 || 65 <= s[i] <= 70
  {
    [HexDigit(n >> 4), HexDigit(n & 15)]
  }

  lemma HexInjective(a: Char, b: Char)
    requires Hex(a) == Hex(b)
    ensures a == b
  {
    assert HexDigit(a >> 4) == Hex(a)[0] == Hex(b)[0] == HexDigit(b >> 4);
    assert HexDigit(a & 15) == Hex(a)[1] == Hex(b)[1] == HexDigit(b & 15);
    assert a >> 4 == b >> 4 && a & 15 == b & 15;
  }

  // ---- reading hexadecimal ----

  predicate IsHexDigit(c: Char) { 48 <= c <= 57 || 65 <= c <= 70 }

  /** '0' to '9' are 0 to 9, 'A' to 'F' are 10 to 15. */
  function DigitValue(c: Char): (v: Char)
    requires IsHexDigit(c)
    ensures v < 16
  {
    if c <= 57 then c - 48 else 10 + (c - 65)
  }

  /** The two characters are upper-case digits that stand for `n`. */
  predicate Denotes(s: seq<Char>, n: Char)
  {
    && |s| == 2 && IsHexDigit(s[0]) && IsHexDigit(s[1])
    && 16 * DigitValue(s[0]) + DigitValue(s[1]) == n
  }

  /** What is printed stands for the number, and nothing else does. */
  lemma HexExactly(s: seq<Char>, n: Char)
    ensures Denotes(s, n) <==> s == Hex(n)
  {
    HexDenotes(n);
    if Denotes(s, n) {
      SameDigits(s[0], s[1], Hex(n)[0], Hex(n)[1]);
      assert s == [s[0], s[1]] && Hex(n) == [Hex(n)[0], Hex(n)[1]];
    }
  }

  lemma HexDenotes(n: Char)
    ensures Denotes(Hex(n), n)
  {
    DigitReadBack(n >> 4);
    DigitReadBack(n & 15);
    assert 16 * (n >> 4) + (n & 15) == n;
    hide HexDigit, DigitValue;
  }

  lemma DigitReadBack(d: Char)
    requires d < 16
    ensures DigitValue(HexDigit(d)) == d
  {
  }

  lemma SameDigits(a: Char, b: Char, c: Char, d: Char)
    requires IsHexDigit(a) && IsHexDigit(b) && IsHexDigit(c) && IsHexDigit(d)
    requires 16 * DigitValue(a) + DigitValue(b) == 16 * DigitValue(c) + DigitValue(d)
    ensures a == c && b == d
  {
    SameValues(DigitValue(a), DigitValue(b), DigitValue(c), DigitValue(d));
  }

  lemma SameValues(a: Char, b: Char, c: Char, d: Char)
    requires a < 16 && b < 16 && c < 16 && d < 16 && 16 * a + b == 16 * c + d
    ensures a == c && b == d
  {
  }

  /** Changing one character changes the checksum by the difference of the two. */
  lemma {:induction false} XorChange(s: seq<Char>, k: nat, c: Char)
    requires k < |s|
    ensures Xor(s[k := c]) == Xor(s) ^ s[k] ^ c
  {
    var n := |s| - 1;
    if k == n {
      assert s[k := c][..n] == s[..n];
    } else {
      XorChange(s[..n], k, c);
      assert s[k := c][..n] == s[..n][k := c];
    }
  }

  // ---- making it ----

  /** The exclusive-or of everything between the first and the last character of the message. */
  method ComputeChecksum(msg: seq<Char>) returns (chk: Char)
    ensures chk == if |msg| < 2 then 0 else Xor(msg[1..|msg| - 1])
  {
    XorNone(msg, 1);
    hide Xor;
    chk := 0;
    var i, length := 1, |msg|;
    while i < length - 1
      invariant 1 <= i && (i <= length - 1 || i == 1)
      invariant chk == if i <= length - 1 then Xor(msg[1..i]) else 0
    {
      XorMore(msg, 1, i);
      chk := chk ^ msg[i];
      i := i + 1;
    }
  }

  /** A sentence as the generators print it, less the line end. */
  function Built(payload: seq<Char>): (t: seq<Char>)
    ensures |t| == |payload| + 4
  {
    [DOLLAR] + payload + [STAR] + Hex(Xor(payload))
  }

  method BuildSentence(payload: seq<Char>) returns (msg: seq<Char>)
    ensures msg == Built(payload) + [CR, LF]
    ensures |msg| == |payload| + 6 && Denotes(msg[|payload| + 2..|payload| + 4], Xor(payload))
  {
    msg := [DOLLAR] + payload + [STAR];
    var chk := ComputeChecksum(msg);
    assert msg[1..|msg| - 1] == payload;
    ghost var start := msg;
    msg := msg + Hex(chk) + [CR, LF];
    HexExactly(Hex(chk), chk);
    hide Hex, Xor, Denotes;
    assert (start + Hex(chk) + [CR, LF])[|start|..|start| + 2] == Hex(chk);
  }

  // ---- the logger's check ----

  const BUFFER := 128

  /** A sentence buffer: its last place is never written, and stays NUL. */
  predicate IsBuffer(buf: seq<Char>) { |buf| == BUFFER && buf[BUFFER - 1] == NUL }

  /** The first '*' from `i` on among the first `n` characters, or where the search ends without one. */
  function FirstStar(buf: seq<Char>, i: nat, n: nat): (k: nat)
    requires n <= |buf|
    ensures i <= k && (k <= n || k == i)
    ensures forall j | i <= j < k :: buf[j] != STAR
    ensures k < n ==> buf[k] == STAR
    decreases n - i
  {
    if i >= n || buf[i] == STAR then i else FirstStar(buf, i + 1, n)
  }

  /** The four characters "*HH" and NUL stand at `i`; the comparison ends at the first difference. */
  predicate Matches(buf: seq<Char>, i: nat, chk: Char)
    requires IsBuffer(buf) && i < BUFFER
  {
    && buf[i] == STAR
    && buf[i + 1] == Hex(chk)[0]
    && buf[i + 2] == Hex(chk)[1]
    && buf[i + 3] == NUL
  }

  predicate IsValid(buf: seq<Char>, n: nat)
    requires IsBuffer(buf) && n < BUFFER
  {
    var k := FirstStar(buf, 1, n);
    AllPrintable(buf[1..k]) && k != n && Matches(buf, k, Xor(buf[1..k]))
  }

  /** `Sentence::Valid`, over a buffer whose first `n` characters belong to the sentence. */
  method Valid(buf: array<Char>, n: nat) returns (r: bool)
    requires IsBuffer(buf[..]) && n < BUFFER
    ensures r == IsValid(buf[..], n)
  {
    XorNone(buf[..], 1);
    hide Xor;
    var checksum: Char := 0;
    var i := 1;
    ghost var b := buf[..];
    while i < n && buf[i] != STAR
      invariant 1 <= i && (i <= n || i == 1)
      invariant FirstStar(b, 1, n) == FirstStar(b, i, n)
      invariant AllPrintable(b[1..i]) && checksum == Xor(b[1..i])
    {
      if !Printable(buf[i]) {
        StarLater(b, i, n);
        return false;
      }
      XorMore(b, 1, i);
      checksum := checksum ^ buf[i];
      i := i + 1;
    }
    if i == n {
      return false;
    }
    r := && buf[i] == STAR
         && buf[i + 1] == Hex(checksum)[0]
         && buf[i + 2] == Hex(checksum)[1]
         && buf[i + 3] == NUL;
  }

  lemma StarLater(b: seq<Char>, i: nat, n: nat)
    requires IsBuffer(b) && 1 <= i < n < BUFFER && b[i] != STAR && !Printable(b[i])
    ensures FirstStar(b, i, n) > i
    ensures !AllPrintable(b[1..FirstStar(b, i, n)])
  {
    var k := FirstStar(b, i, n);
    assert b[1..k][i - 1] == b[i];
  }

  // ---- what the check means ----

  /** A text in an otherwise empty buffer. */
  function Padded(t: seq<Char>): (b: seq<Char>)
    requires |t| < BUFFER
    ensures IsBuffer(b) && b[..|t|] == t && forall i | |t| <= i < BUFFER :: b[i] == NUL
  {
    t + seq(BUFFER - |t|, _ => NUL)
  }

  /** The text has a printable payload without '*' up to `k`, and there '*', two hexadecimal digits that stand for
      the exclusive-or of the payload, and the end of the string. */
  predicate CheckedAt(t: seq<Char>, k: nat)
  {
    && 1 <= k && k + 3 <= |t|
    && (forall i | 1 <= i < k :: 32 <= t[i] <= 126 && t[i] != STAR)
    && t[k] == STAR && Denotes(t[k + 1..k + 3], Xor(t[1..k]))
    && (k + 3 == |t| || t[k + 3] == NUL)
  }

  lemma CheckedAtHex(t: seq<Char>, k: nat)
    ensures CheckedAt(t, k)
       <==> && 1 <= k && k + 3 <= |t|
            && AllPrintable(t[1..k]) && STAR !in t[1..k]
            && t[k] == STAR && t[k + 1..k + 3] == Hex(Xor(t[1..k]))
            && (k + 3 == |t| || t[k + 3] == NUL)
  {
    hide Denotes, Hex, Xor, AllPrintable;
    if 1 <= k && k + 3 <= |t| {
      HexExactly(t[k + 1..k + 3], Xor(t[1..k]));
      PlainPart(t, k);
    }
  }

  lemma PlainPart(t: seq<Char>, k: nat)
    requires 1 <= k <= |t|
    ensures AllPrintable(t[1..k]) && STAR !in t[1..k] <==> forall i | 1 <= i < k :: 32 <= t[i] <= 126 && t[i] != STAR
  {
    assert forall i | 1 <= i < k :: t[1..k][i - 1] == t[i];
  }

  /** Such an ending starts among the first `n` characters. */
  predicate CheckedBy(t: seq<Char>, n: nat)
  {
    exists k | 0 <= k < n :: CheckedAt(t, k)
  }

  predicate Checked(t: seq<Char>) { CheckedBy(t, |t|) }

  lemma FirstStarIs(t: seq<Char>, k: nat, n: nat)
    requires |t| < BUFFER && 1 <= k < |t| && k < n < BUFFER && t[k] == STAR && STAR !in t[1..k]
    ensures FirstStar(Padded(t), 1, n) == k
  {
    var b := Padded(t);
    var s := FirstStar(b, 1, n);
    assert forall j | 0 <= j < |t| :: b[j] == b[..|t|][j];
    assert forall j | 1 <= j < k :: t[1..k][j - 1] == t[j];
  }

  /** A sentence is judged valid exactly when it has this form. */
  lemma ValidIffChecked(t: seq<Char>)
    requires 1 <= |t| < BUFFER
    ensures IsValid(Padded(t), |t|) <==> Checked(t)
  {
    ValidAtLength(t, |t|);
  }

  /** Judged by the length of another sentence, the text in the buffer is valid exactly when its '*' is among
      that many characters: what follows the '*' is compared whatever the length. */
  lemma ValidAtLength(t: seq<Char>, n: nat)
    requires |t| < BUFFER && 1 <= n < BUFFER
    ensures IsValid(Padded(t), n) <==> CheckedBy(t, n)
  {
    if IsValid(Padded(t), n) {
      ValidIsChecked(t, n);
    }
    if CheckedBy(t, n) {
      var k :| 0 <= k < n && CheckedAt(t, k);
      CheckedIsValid(t, k, n);
    }
  }

  lemma ValidIsChecked(t: seq<Char>, n: nat)
    requires |t| < BUFFER && 1 <= n < BUFFER && IsValid(Padded(t), n)
    ensures CheckedBy(t, n)
  {
    hide Xor;
    var b := Padded(t);
    assert forall j | 0 <= j < |t| :: b[j] == b[..|t|][j] == t[j];
    var s := FirstStar(b, 1, n);
    assert s + 3 <= |t|;
    assert b[1..s] == t[1..s];
    hide FirstStar, Padded;
    assert t[s + 1..s + 3] == Hex(Xor(t[1..s]));
    CheckedAtHex(t, s);
    assert CheckedAt(t, s);
  }

  lemma CheckedIsValid(t: seq<Char>, k: nat, n: nat)
    requires |t| < BUFFER && k < n < BUFFER && CheckedAt(t, k)
    ensures IsValid(Padded(t), n)
  {
    hide Xor;
    var b := Padded(t);
    assert forall j | 0 <= j < |t| :: b[j] == b[..|t|][j] == t[j];
    CheckedAtHex(t, k);
    hide CheckedAt, Hex;
    FirstStarIs(t, k, n);
    hide FirstStar, Padded;
    assert b[1..k] == t[1..k];
    assert b[k + 1] == t[k + 1..k + 3][0] && b[k + 2] == t[k + 1..k + 3][1];
  }

  lemma BuiltParts(payload: seq<Char>)
    ensures
      var (t, n) := (Built(payload), |payload|);
      t[1..n + 1] == payload && t[n + 1] == STAR && t[n + 2..n + 4] == Hex(Xor(payload))
  {
    hide Xor, Hex;
    Parts(payload, Hex(Xor(payload)));
    assert Built(payload) == [DOLLAR] + payload + [STAR] + Hex(Xor(payload));
    hide Built;
  }

  lemma Parts(payload: seq<Char>, h: seq<Char>)
    requires |h| == 2
    ensures
      var (t, n) := ([DOLLAR] + payload + [STAR] + h, |payload|);
      t[1..n + 1] == payload && t[n + 1] == STAR && t[n + 2..n + 4] == h
  {
  }

  /** What the generators build, the logger accepts. */
  lemma BuiltIsValid(payload: seq<Char>)
    requires AllPrintable(payload) && STAR !in payload && |payload| + 4 < BUFFER
    ensures IsValid(Padded(Built(payload)), |Built(payload)|)
  {
    BuiltParts(payload);
    CheckedAtHex(Built(payload), |payload| + 1);
    hide Hex, Xor, Built, CheckedAt;
    assert CheckedAt(Built(payload), |payload| + 1);
    ValidIffChecked(Built(payload));
  }

  /** One wrong character, anywhere behind the leading '$', and the logger rejects the sentence. */
  lemma OneErrorIsFound(payload: seq<Char>, k: nat, c: Char)
    requires AllPrintable(payload) && STAR !in payload && |payload| + 4 < BUFFER
    requires 1 <= k < |payload| + 4 && c != Built(payload)[k]
    ensures
      var t := Built(payload)[k := c];
      !IsValid(Padded(t), |t|)
  {
    var (t0, n) := (Built(payload), |payload|);
    var t := t0[k := c];
    BuiltParts(payload);
    ValidIffChecked(t);
    if Checked(t) {
      var j :| 0 <= j < |t| && CheckedAt(t, j);
      if k <= n {
        PayloadErrorFound(payload, k, c, j);
      } else {
        TailErrorFound(payload, k, c, j);
      }
    }
  }

  lemma PayloadErrorFound(payload: seq<Char>, k: nat, c: Char, j: nat)
    requires AllPrintable(payload) && STAR !in payload
    requires 1 <= k <= |payload| && c != payload[k - 1]
    ensures !CheckedAt(Built(payload)[k := c], j)
  {
    var (t0, n) := (Built(payload), |payload|);
    var t := t0[k := c];
    BuiltParts(payload);
    assert forall i | 1 <= i <= n :: t0[i] == t0[1..n + 1][i - 1] == payload[i - 1];
    CheckedAtHex(t, j);
    hide Xor, Hex, Built, CheckedAt;
    if j <= n {
      assert 1 <= j && j != k ==> t[j] != STAR;
      assert j == k ==> j + 3 < |t| && t[j + 3] != NUL by {
        TailNotNul(payload);
      }
    } else if j == n + 1 {
      assert t[1..n + 1] == payload[k - 1 := c];
      assert t[n + 2..n + 4] == t0[n + 2..n + 4] == Hex(Xor(payload));
      XorChange(payload, k - 1, c);
      SameXor(Xor(payload), payload[k - 1], c);
      if Hex(Xor(payload)) == Hex(Xor(payload[k - 1 := c])) {
        HexInjective(Xor(payload), Xor(payload[k - 1 := c]));
      }
    }
  }

  lemma TailNotNul(payload: seq<Char>)
    requires AllPrintable(payload)
    ensures forall i | 1 <= i < |payload| + 4 :: Built(payload)[i] != NUL
  {
    BuiltParts(payload);
    var (t, n) := (Built(payload), |payload|);
    hide Built, Xor;
    forall i | 1 <= i < n + 4 ensures t[i] != NUL {
      if i <= n {
        assert t[i] == t[1..n + 1][i - 1];
      } else if i > n + 1 {
        assert t[i] == t[n + 2..n + 4][i - n - 2];
      }
    }
  }

  lemma SameXor(x: Char, a: Char, b: Char)
    ensures x == x ^ a ^ b <==> a == b
  {
  }

  lemma TailErrorFound(payload: seq<Char>, k: nat, c: Char, j: nat)
    requires AllPrintable(payload) && STAR !in payload
    requires |payload| < k < |payload| + 4 && c != Built(payload)[k]
    ensures !CheckedAt(Built(payload)[k := c], j)
  {
    var (t0, n) := (Built(payload), |payload|);
    var t := t0[k := c];
    BuiltParts(payload);
    assert forall i | 1 <= i <= n :: t[i] == t0[1..n + 1][i - 1] == payload[i - 1];
    CheckedAtHex(t, j);
    hide Xor, Hex, Built, CheckedAt;
    assert t[1..n + 1] == payload;
    if j == n + 1 {
      assert k > n + 1 ==> t[n + 2..n + 4][k - n - 2] == c && t0[n + 2..n + 4][k - n - 2] != c;
    }
  }

  // ---- the TeamSurv reader's check ----

  /** The string up to its first NUL, as the C library sees it. */
  function CString(s: seq<Char>): (r: seq<Char>)
    ensures r <= s && NUL !in r && (|r| < |s| ==> s[|r|] == NUL)
  {
    if s == [] || s[0] == NUL then [] else [s[0]] + CString(s[1..])
  }

  /** An `int` whose upper twenty-four bits are all alike: ones when it is negative. */
  datatype Wide = Wide(low: Char, negative: bool)

  /** A character made an `int`: negative from 128 on, where the platform's `char` has a sign. */
  function Extended(c: Char, signed: bool): Wide { Wide(c, signed && c >= 128) }

  function WideXor(a: Wide, b: Wide): Wide { Wide(a.low ^ b.low, a.negative != b.negative) }

  /** The number in hexadecimal, at least two digits, cut off behind two: a negative one has eight, "FFFFFF" first. */
  function Printed(w: Wide): seq<Char> { if w.negative then [70, 70] else Hex(w.low) }

  // ---- the same in 32 bits ----

  /** The number in full. */
  function Full(w: Wide): bv32 { if w.negative then 0xFFFF_FF00 | (w.low as bv32) else w.low as bv32 }

  /** Hexadecimal without zeros in front. */
  function HexText(n: bv32): (s: seq<Char>)
    ensures |s| >= 1
  {
    if n < 16 then [HexDigit(n as bv8)] else HexText(n >> 4) + [HexDigit((n & 15) as bv8)]
  }

  /** "%02X", cut off behind two characters. */
  function FirstTwo(n: bv32): seq<Char> { if n < 16 then [48] + HexText(n) else HexText(n)[..2] }

  /** A character from 128 on stands for itself less 256, where `char` has a sign. */
  lemma ExtendedInFull(c: Char, signed: bool)
    ensures Full(Extended(c, signed)) == AsInt(c, signed)
  {
  }

  lemma XorInFull(a: Wide, b: Wide)
    ensures Full(WideXor(a, b)) == Full(a) ^ Full(b)
  {
  }

  /** A character as an `int`. */
  function AsInt(c: Char, signed: bool): bv32 { if signed && c >= 128 then (c as bv32) - 256 else c as bv32 }

  /** The exclusive-or of characters made `int`s. */
  function WholeXor(s: seq<Char>, signed: bool): bv32
  {
    if s == [] then 0 else WholeXor(s[..|s| - 1], signed) ^ AsInt(s[|s| - 1], signed)
  }

  function Mixed(a: Char, b: Char): Char { a ^ b }

  function MixedInFull(a: bv32, b: bv32): bv32 { a ^ b }

  lemma {:induction false} XorOfAll(s: seq<Char>, signed: bool)
    ensures Full(Extended(Xor(s), signed)) == WholeXor(s, signed)
  {
    hide Full, Extended, AsInt, Mixed, MixedInFull, Xor, WholeXor;
    XorSteps(s, signed);
    if s == [] {
      ZeroInFull(signed);
    } else {
      XorOfAll(s[..|s| - 1], signed);
      OneMoreInFull(Xor(s[..|s| - 1]), s[|s| - 1], signed);
    }
  }

  lemma XorSteps(s: seq<Char>, signed: bool)
    ensures s == [] ==> Xor(s) == 0 && WholeXor(s, signed) == 0
    ensures s != [] ==>
      var (front, last) := (s[..|s| - 1], s[|s| - 1]);
      Xor(s) == Mixed(Xor(front), last) && WholeXor(s, signed) == MixedInFull(WholeXor(front, signed), AsInt(last, signed))
  {
    hide AsInt;
  }

  lemma OneMoreInFull(x: Char, c: Char, signed: bool)
    ensures Full(Extended(Mixed(x, c), signed)) == MixedInFull(Full(Extended(x, signed)), AsInt(c, signed))
  {
    MixedWide(x, c, signed);
    MixedFull(Extended(x, signed), Extended(c, signed));
    ExtendedInFull(c, signed);
    hide Full, Extended, WideXor, AsInt, Mixed, MixedInFull;
  }

  lemma MixedWide(a: Char, b: Char, signed: bool)
    ensures WideXor(Extended(a, signed), Extended(b, signed)) == Extended(Mixed(a, b), signed)
  {
    ExtendedXor(a, b, signed);
  }

  lemma MixedFull(a: Wide, b: Wide)
    ensures Full(WideXor(a, b)) == MixedInFull(Full(a), Full(b))
  {
    XorInFull(a, b);
  }

  lemma ZeroInFull(signed: bool)
    ensures Full(Extended(0, signed)) == 0
  {
  }

  /** What the line must end in is the number the loop ends with, printed in full and cut off. */
  lemma SumInFull(s: seq<Char>, signed: bool)
    ensures SumText(Xor(s), signed) == FirstTwo(WholeXor(s, signed))
  {
    XorOfAll(s, signed);
    PrintedInFull(Extended(Xor(s), signed));
    hide Printed, FirstTwo, Full, Extended, Xor, WholeXor;
  }

  lemma PrintedInFull(w: Wide)
    ensures Printed(w) == FirstTwo(Full(w))
  {
    if w.negative {
      NegativeIsLong(w.low);
    } else {
      SmallInFull(w.low);
    }
  }

  lemma SmallInFull(n: Char)
    ensures Hex(n) == FirstTwo(n as bv32)
  {
    Nibbles(n);
    var m := n as bv32;
    if n < 16 {
      assert HexText(m) == [HexDigit(n)];
    } else {
      assert HexText(m >> 4) == [HexDigit(n >> 4)];
      assert HexText(m) == [HexDigit(n >> 4)] + [HexDigit(n & 15)];
    }
  }

  lemma Nibbles(n: Char)
    ensures var m := n as bv32; (m < 16 <==> n < 16) && m >> 4 < 16 && m & 15 < 16
    ensures var m := n as bv32; ((m >> 4) as bv8) == n >> 4 && ((m & 15) as bv8) == n & 15
    ensures n < 16 ==> (n as bv32) as bv8 == n && n >> 4 == 0 && n & 15 == n
  {
  }

  lemma NegativeIsLong(low: Char)
    ensures FirstTwo(0xFFFF_FF00 | (low as bv32)) == [70, 70]
  {
    var n: bv32 := 0xFFFF_FF00 | (low as bv32);
    HighDigits(n);
    TwoDigits(n);
    TwoDigits(n >> 4);
    TwoDigits(n >> 8);
    TwoDigits(n >> 12);
    TwoDigits(n >> 16);
    TwoDigits(n >> 20);
    hide HexText;
    assert HexText(0xFF) == [70, 70] by { AllOnes(); }
  }

  lemma AllOnes()
    ensures HexText(0xFF) == [70, 70]
  {
    assert HexText(0xFF) == HexText(0xF) + [HexDigit(15)];
    assert HexText(0xF) == [HexDigit(15)];
  }

  /** Cutting off the last digit leaves the first two. */
  lemma TwoDigits(n: bv32)
    requires n >= 0x100
    ensures |HexText(n)| >= 2 && HexText(n)[..2] == HexText(n >> 4)[..2]
    ensures |HexText(n >> 4)| >= 2
  {
    assert n >> 4 >= 16;
    hide HexDigit;
  }

  lemma HighDigits(n: bv32)
    requires n >> 8 == 0xFF_FFFF
    ensures n >= 0x100 && n >> 4 >= 0x100 && n >> 8 >= 0x100 && n >> 12 >= 0x100 && n >> 16 >= 0x100 && n >> 20 >= 0x100
    ensures (n >> 4) >> 4 == n >> 8 && (n >> 8) >> 4 == n >> 12 && (n >> 12) >> 4 == n >> 16
    ensures (n >> 16) >> 4 == n >> 20 && (n >> 20) >> 4 == 0xFF
  {
  }

  /** What the line must end in, when its checksum is `x`. */
  function SumText(x: Char, signed: bool): seq<Char> { Printed(Extended(x, signed)) }

  lemma ExtendedXor(a: Char, b: Char, signed: bool)
    ensures WideXor(Extended(a, signed), Extended(b, signed)) == Extended(a ^ b, signed)
  {
    TopBit(a, b);
  }

  lemma TopBit(a: Char, b: Char)
    ensures a ^ b >= 128 <==> (a >= 128) != (b >= 128)
  {
  }

  lemma ExtendedMore(s: seq<Char>, a: nat, i: nat, signed: bool)
    requires a <= i < |s|
    ensures Extended(Xor(s[a..i + 1]), signed) == WideXor(Extended(Xor(s[a..i]), signed), Extended(s[i], signed))
  {
    hide Xor, Extended, WideXor;
    XorMore(s, a, i);
    ExtendedXor(Xor(s[a..i]), s[i], signed);
  }

  lemma ExtendedNone(s: seq<Char>, a: nat, signed: bool)
    requires a <= |s|
    ensures Extended(Xor(s[a..a]), signed) == Wide(0, false)
  {
    XorNone(s, a);
    hide Xor;
  }

  /** The last two characters of the line are cut off unseen; '*' must stand third from the end. */
  predicate TeamSurvAccepts(line: seq<Char>, signed: bool)
  {
    && |line| > 11
    && var t := line[..|line| - 2];
    && t[0] == DOLLAR && t[|t| - 3] == STAR && t[|t| - 2..] == SumText(Xor(t[1..|t| - 3]), signed)
  }

  /** The index of the first line from `i` on that is accepted; |lines| when none is. */
  function FirstAccepted(lines: seq<seq<Char>>, i: nat, signed: bool): (k: nat)
    requires i <= |lines|
    ensures i <= k <= |lines|
    ensures forall j | i <= j < k :: !TeamSurvAccepts(CString(lines[j]), signed)
    ensures k < |lines| ==> TeamSurvAccepts(CString(lines[k]), signed)
    decreases |lines| - i
  {
    if i == |lines| || TeamSurvAccepts(CString(lines[i]), signed) then i else FirstAccepted(lines, i + 1, signed)
  }

  /** The most the reader takes at a time. */
  const LINE := 1023

  /** How much of the file one read takes: to the end of the line, of the buffer, or of the file. */
  function ReadLength(file: seq<Char>, room: nat): (n: nat)
    ensures n <= |file| && n <= room && (file != [] && room > 0 ==> n > 0)
  {
    if file == [] || room == 0 then 0
    else if file[0] == LF then 1
    else 1 + ReadLength(file[1..], room - 1)
  }

  /** What successive reads return. */
  function Reads(file: seq<Char>): seq<seq<Char>>
  {
    if file == [] then []
    else var n := ReadLength(file, LINE); [file[..n]] + Reads(file[n..])
  }

  function Joined(lines: seq<seq<Char>>): seq<Char>
  {
    if lines == [] then [] else lines[0] + Joined(lines[1..])
  }

  /** A read ends with the line, with the buffer full, or with the file. */
  predicate OneRead(r: seq<Char>, last: bool)
  {
    1 <= |r| <= LINE && LF !in r[..|r| - 1] && (r[|r| - 1] == LF || |r| == LINE || last)
  }

  lemma {:induction false} ReadEnds(file: seq<Char>, room: nat)
    requires file != [] && room > 0
    ensures
      var n := ReadLength(file, room);
      1 <= n <= room && LF !in file[..n - 1] && (file[n - 1] == LF || n == room || n == |file|)
  {
    if file[0] != LF && room > 1 && |file| > 1 {
      ReadEnds(file[1..], room - 1);
      var n := ReadLength(file[1..], room - 1);
      assert file[..n] == [file[0]] + file[1..][..n - 1];
    }
  }

  /** The reads are the whole file in order, lines longer than the buffer in pieces. */
  lemma {:induction false} ReadsExactly(file: seq<Char>)
    ensures Joined(Reads(file)) == file
    ensures forall i | 0 <= i < |Reads(file)| :: OneRead(Reads(file)[i], i + 1 == |Reads(file)|)
  {
    if file != [] {
      var n := ReadLength(file, LINE);
      ReadEnds(file, LINE);
      ReadsExactly(file[n..]);
      assert file == file[..n] + file[n..];
      assert file[..n][..n - 1] == file[..n - 1];
      hide ReadLength;
      var (all, rest) := (Reads(file), Reads(file[n..]));
      assert all == [file[..n]] + rest;
      forall i | 0 <= i < |all| ensures OneRead(all[i], i + 1 == |all|) {
        if i > 0 {
          assert all[i] == rest[i - 1];
        }
      }
    }
  }

  class TeamSurvSource {
    /** What the reads to come will return. */
    var lines: seq<seq<Char>>
    /** Whether the platform's `char` has a sign. */
    const signed: bool

    constructor (file: seq<Char>, signed: bool)
      ensures lines == Reads(file) && this.signed == signed
    {
      lines := Reads(file);
      this.signed := signed;
    }

    /** The next acceptable line, less its line end; lines before it are dropped. */
    method NextPacket() returns (read: bool, sentence: seq<Char>)
      modifies this`lines
      ensures
        var k := FirstAccepted(old(lines), 0, signed);
        && read == (k < |old(lines)|)
        && lines == old(lines)[if read then k + 1 else k..]
        && (read ==> var line := CString(old(lines)[k]); sentence == line[..|line| - 2])
    {
      hide CString, TeamSurvAccepts;
      read, sentence := false, [];
      ghost var all, i := lines, 0;
      while !read
        invariant i <= |all| && lines == all[i..]
        invariant !read ==> FirstAccepted(all, 0, signed) == FirstAccepted(all, i, signed)
        invariant read ==> i > 0 && FirstAccepted(all, 0, signed) == i - 1
        invariant read ==> var line := CString(all[i - 1]); |line| > 11 && sentence == line[..|line| - 2]
        decreases |lines|
      {
        if lines == [] {
          return;
        }
        var buffer := CString(lines[0]);
        lines := lines[1..];
        i := i + 1;
        read, sentence := Accept(buffer);
      }
    }

    /** One line's test, on a buffer that loses the line end. */
    method Accept(line: seq<Char>) returns (accepted: bool, sentence: seq<Char>)
      ensures accepted == TeamSurvAccepts(line, signed)
      ensures accepted ==> |line| > 11 && sentence == line[..|line| - 2]
    {
      accepted, sentence := false, [];
      if |line| > 11 {
        var buffer := line[..|line| - 2];
        var length := |buffer|;
        if buffer[0] == DOLLAR && buffer[length - 3] == STAR {
          var checksum := XorOf(buffer, length - 3);
          hide Xor, Extended;
          assert buffer[length - 2..] == [buffer[length - 2], buffer[length - 1]];
          if buffer[length - 2] == Printed(checksum)[0] && buffer[length - 1] == Printed(checksum)[1] {
            accepted, sentence := true, buffer;
          }
        }
      }
    }

    method XorOf(buffer: seq<Char>, end: nat) returns (chk: Wide)
      requires 1 <= end <= |buffer|
      ensures chk == Extended(Xor(buffer[1..end]), signed)
    {
      ExtendedNone(buffer, 1, signed);
      hide Xor, Extended, WideXor;
      chk := Wide(0, false);
      for i := 1 to end
        invariant chk == Extended(Xor(buffer[1..i]), signed)
      {
        ExtendedMore(buffer, 1, i, signed);
        chk := WideXor(chk, Extended(buffer[i], signed));
      }
    }
  }

  lemma {:induction false} PrintableXor(s: seq<Char>)
    requires AllPrintable(s)
    ensures Xor(s) < 128
  {
    if s != [] {
      PrintableXor(s[..|s| - 1]);
      LowXor(Xor(s[..|s| - 1]), s[|s| - 1]);
    }
  }

  lemma LowXor(a: Char, b: Char)
    requires a < 128 && b < 128
    ensures a ^ b < 128
  {
  }

  /** The two checks compared, on any sentence of printable characters: TeamSurv accepts none of nine characters or
      fewer; of the others the logger accepts what TeamSurv accepts, but for those with another '*' in the payload. */
  lemma ChecksAgree(t: seq<Char>, signed: bool)
    requires 1 <= |t| < BUFFER && t[0] == DOLLAR && AllPrintable(t)
    ensures |t| <= 9 ==> !TeamSurvAccepts(t + [CR, LF], signed)
    ensures |t| > 9 ==>
      (IsValid(Padded(t), |t|) <==> TeamSurvAccepts(t + [CR, LF], signed) && STAR !in t[1..|t| - 3])
  {
    if |t| > 9 {
      LongChecksAgree(t, signed);
    }
  }

  lemma LongChecksAgree(t: seq<Char>, signed: bool)
    requires 9 < |t| < BUFFER && t[0] == DOLLAR && AllPrintable(t)
    ensures IsValid(Padded(t), |t|) <==> TeamSurvAccepts(t + [CR, LF], signed) && STAR !in t[1..|t| - 3]
  {
    ValidIffChecked(t);
    var n := |t|;
    PrintableXor(t[1..n - 3]);
    hide Xor, Hex, CheckedAt;
    CheckedAtHex(t, n - 3);
    assert (t + [CR, LF])[..n] == t;
    assert t[n - 2..] == t[n - 3 + 1..n - 3 + 3];
    if Checked(t) {
      var k :| 0 <= k < n && CheckedAt(t, k);
      CheckedAtHex(t, k);
      assert k + 3 == n;
    }
    if TeamSurvAccepts(t + [CR, LF], signed) && STAR !in t[1..n - 3] {
      assert CheckedAt(t, n - 3);
    }
  }

  /** Where they differ: "$AAAAAA*AA*2A" has the right checksum for everything before its last '*'. */
  lemma StarInPayload(signed: bool)
    ensures
      var payload := [65, 65, 65, 65, 65, 65, STAR, 65, 65];
      && TeamSurvAccepts(Built(payload) + [CR, LF], signed)
      && !IsValid(Padded(Built(payload)), |Built(payload)|)
  {
    var payload: seq<Char> := [65, 65, 65, 65, 65, 65, STAR, 65, 65];
    var t := Built(payload);
    BuiltParts(payload);
    var line := t + [CR, LF];
    assert line[..|line| - 2] == t;
    assert t[|t| - 2..] == t[11..13] && t[1..|t| - 3] == payload;
    assert AllPrintable(t);
    ChecksAgree(t, signed);
    PrintableXor(payload);
    assert payload[6] == STAR;
  }
}
