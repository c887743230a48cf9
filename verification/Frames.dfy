/** Little-endian words, packet frames, and the reader of a packet file. */
module Frames {

  type byte = x: int | 0 <= x < 256

  const WORD := 0x1_0000_0000

  /** The `n` low bytes of `x`, least significant first, as the writer copies them from memory. */
  function LittleEndian(x: nat, n: nat): (r: seq<byte>)
    ensures |r| == n
  {
    if n == 0 then [] else [x % 256] + LittleEndian(x / 256, n - 1)
  }

  function FromLittleEndian(bytes: seq<byte>): nat
  {
    if bytes == [] then 0 else bytes[0] + 256 * FromLittleEndian(bytes[1..])
  }

  function Power256(n: nat): (p: nat)
    ensures p >= 1
  {
    if n == 0 then 1 else 256 * Power256(n - 1)
  }

  /** Reading a word back gives its value modulo the word size. */
  lemma {:induction false} WordRoundTrip(x: nat, n: nat)
    ensures FromLittleEndian(LittleEndian(x, n)) == x % Power256(n)
  {
    if n > 0 {
      WordRoundTrip(x / 256, n - 1);
      SplitModulo(x, Power256(n - 1));
      assert LittleEndian(x, n)[1..] == LittleEndian(x / 256, n - 1);
    }
  }

  lemma SplitModulo(x: nat, m: nat)
    requires m >= 1
    ensures x % (256 * m) == x % 256 + 256 * ((x / 256) % m)
  {
    var q, r := (x / 256) / m, (x / 256) % m;
    assert x / 256 == q * m + r;
    assert x == 256 * (q * m + r) + x % 256;
    assert x == q * (256 * m) + (256 * r + x % 256);
    Remainder(x, 256 * m, q, 256 * r + x % 256);
  }

  lemma Remainder(x: nat, d: nat, q: nat, r: nat)
    requires d >= 1 && r < d && x == q * d + r
    ensures x % d == r
  {
    var q', r' := x / d, x % d;
    assert x == q' * d + r';
    assert (q - q') * d == r' - r;
    MultipleInside(q - q', d, r' - r);
  }

  lemma MultipleInside(k: int, d: int, e: int)
    requires k * d == e && -d < e < d
    ensures e == 0
  {
    assert k >= 1 ==> k * d >= d;
    assert k <= -1 ==> k * d <= -d;
  }

  lemma WordFits(x: nat)
    requires x < WORD
    ensures FromLittleEndian(LittleEndian(x, 4)) == x
  {
    WordRoundTrip(x, 4);
    assert Power256(4) == 256 * Power256(3) == 65536 * Power256(2) == 16777216 * Power256(1) == WORD;
  }

  // ---- packets ----

  datatype Frame = Frame(id: nat, payload: seq<byte>)

  predicate Encodable(f: Frame) { f.id < WORD && |f.payload| < WORD }

  predicate AllEncodable(fs: seq<Frame>) { forall i | 0 <= i < |fs| :: Encodable(fs[i]) }

  /** A packet in a file: its id, the size of its payload, the payload. */
  function Encode(f: Frame): (r: seq<byte>)
    ensures |r| == 8 + |f.payload|
  {
    LittleEndian(f.id, 4) + LittleEndian(|f.payload|, 4) + f.payload
  }

  function EncodeAll(fs: seq<Frame>): seq<byte>
  {
    if fs == [] then [] else Encode(fs[0]) + EncodeAll(fs[1..])
  }

  /** The number of four bytes, the first of which counts least. */
  function Weighted(a: int, b: int, c: int, d: int): int { a + 0x100 * b + 0x1_0000 * c + 0x100_0000 * d }

  lemma WordOfBytes(b: seq<byte>)
    requires |b| == 4
    ensures FromLittleEndian(b) == Weighted(b[0], b[1], b[2], b[3])
  {
    assert b[1..][0] == b[1] && b[1..][1..] == b[2..] && b[2..][1..] == b[3..] && b[3..][1..] == [];
    assert FromLittleEndian(b[3..]) == b[3];
    assert FromLittleEndian(b[2..]) == Weighted(b[2], b[3], 0, 0);
    assert FromLittleEndian(b[1..]) == Weighted(b[1], FromLittleEndian(b[2..]), 0, 0);
  }

  /** A packet's bytes: its id and the size of its payload, least significant byte first, and its payload. */
  lemma EncodedBytes(f: Frame)
    requires Encodable(f)
    ensures
      var e := Encode(f);
      && f.id == Weighted(e[0], e[1], e[2], e[3]) && |f.payload| == Weighted(e[4], e[5], e[6], e[7])
      && e[8..] == f.payload
  {
    var (a, b) := (LittleEndian(f.id, 4), LittleEndian(|f.payload|, 4));
    WordFits(f.id);
    WordFits(|f.payload|);
    WordOfBytes(a);
    WordOfBytes(b);
    hide LittleEndian, FromLittleEndian;
    var e := Encode(f);
    assert e[..4] == a && e[4..8] == b;
    assert e[0] == a[0] && e[1] == a[1] && e[2] == a[2] && e[3] == a[3];
    assert e[4] == b[0] && e[5] == b[1] && e[6] == b[2] && e[7] == b[3];
  }

  /** How the file reader takes packets off a file: eight bytes of header or the end of the file, then
      as many payload bytes as announced, or as there are. */
  function ReadPackets(bytes: seq<byte>): seq<Frame>
    decreases |bytes|
  {
    if |bytes| < 8 then []
    else
      var id, n := FromLittleEndian(bytes[..4]), FromLittleEndian(bytes[4..8]);
      var end := if 8 + n <= |bytes| then 8 + n else |bytes|;
      [Frame(id, bytes[8..end])] + ReadPackets(bytes[end..])
  }

  lemma ReadOne(f: Frame, rest: seq<byte>)
    requires Encodable(f)
    ensures ReadPackets(Encode(f) + rest) == [f] + ReadPackets(rest)
  {
    var a, b := LittleEndian(f.id, 4), LittleEndian(|f.payload|, 4);
    var s := Encode(f) + rest;
    WordFits(f.id);
    WordFits(|f.payload|);
    assert s[..4] == a && s[4..8] == b && s[8..8 + |f.payload|] == f.payload;
    assert s[8 + |f.payload|..] == rest;
  }

  /** Writing packets and reading the file gives exactly the packets, in order. */
  lemma {:induction false} ReadBack(fs: seq<Frame>)
    requires AllEncodable(fs)
    ensures ReadPackets(EncodeAll(fs)) == fs
  {
    if fs != [] {
      hide Encode, LittleEndian, FromLittleEndian;
      ReadBack(fs[1..]);
      ReadOne(fs[0], EncodeAll(fs[1..]));
    }
  }

  /** The bytes of a file determine its packets. */
  lemma BytesDeterminePackets(fs: seq<Frame>, gs: seq<Frame>)
    requires AllEncodable(fs) && AllEncodable(gs) && EncodeAll(fs) == EncodeAll(gs)
    ensures fs == gs
  {
    ReadBack(fs);
    ReadBack(gs);
  }

  /** A file cut short, as by a power failure, still reads as its first packets in order; at most one
      further packet follows, and that one lacks the end of its payload. */
  lemma {:induction false} CutFileReadsPrefix(fs: seq<Frame>, n: nat) returns (k: nat)
    requires AllEncodable(fs) && n <= |EncodeAll(fs)|
    ensures k <= |fs|
    ensures
      var r := ReadPackets(EncodeAll(fs)[..n]);
      || r == fs[..k]
      || (k < |fs| && |r| == k + 1 && r[..k] == fs[..k]
          && r[k].id == fs[k].id && r[k].payload < fs[k].payload)
    decreases |fs|
  {
    hide LittleEndian, FromLittleEndian, ReadPackets, Encode;
    k := 0;
    if n < 8 {
      ReadNone(EncodeAll(fs)[..n]);
    } else {
      var f, rest := fs[0], EncodeAll(fs[1..]);
      if n >= |Encode(f)| {
        var k1 := CutFileReadsPrefix(fs[1..], n - |Encode(f)|);
        CutBehind(Encode(f), rest, n);
        ReadOne(f, rest[..n - |Encode(f)|]);
        assert fs[..k1 + 1] == [f] + fs[1..][..k1];
        k := k1 + 1;
      } else {
        CutPacket(f, n);
        assert (Encode(f) + rest)[..n] == Encode(f)[..n];
      }
    }
  }

  lemma ReadNone(bytes: seq<byte>)
    requires |bytes| < 8
    ensures ReadPackets(bytes) == []
  {
  }

  lemma CutBehind<T>(a: seq<T>, b: seq<T>, n: nat)
    requires |a| <= n <= |a| + |b|
    ensures (a + b)[..n] == a + b[..n - |a|]
  {
  }

  lemma CutPacket(f: Frame, n: nat)
    requires Encodable(f) && 8 <= n < |Encode(f)|
    ensures ReadPackets(Encode(f)[..n]) == [Frame(f.id, f.payload[..n - 8])]
  {
    var s := Encode(f)[..n];
    WordFits(f.id);
    WordFits(|f.payload|);
    assert s[..4] == LittleEndian(f.id, 4) && s[4..8] == LittleEndian(|f.payload|, 4);
    assert s[8..n] == f.payload[..n - 8];
    assert ReadPackets(s[n..]) == [];
  }

  lemma {:induction false} EncodeAppend(fs: seq<Frame>, gs: seq<Frame>)
    ensures EncodeAll(fs + gs) == EncodeAll(fs) + EncodeAll(gs)
  {
    hide Encode;
    if fs == [] {
      assert fs + gs == gs;
    } else {
      assert (fs + gs)[0] == fs[0] && (fs + gs)[1..] == fs[1..] + gs;
      EncodeAppend(fs[1..], gs);
    }
  }
}
