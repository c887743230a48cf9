/** NMEA2000 packets from a YDVR file: the bit-packed identifier, and how long each packet is. */
module CanId {
  import opened Options
  import opened Frames

  datatype Fields = Fields(priority: bv32, pgn: bv32, source: bv32, destination: bv32)

  function Format(id: bv32): bv32 { (id >> 16) & 0xFF }

  function Specific(id: bv32): bv32 { (id >> 8) & 0xFF }

  function Page(id: bv32): bv32 { (id >> 24) & 1 }

  function Source(id: bv32): bv32 { id & 0xFF }

  function Priority(id: bv32): bv32 { (id >> 26) & 7 }

  function Pgn(page: bv32, format: bv32, low: bv32): bv32 { (page << 16) | (format << 8) | low }

  /** The fields of a CAN identifier. For format numbers from 240 on the next byte extends the PGN, and
      the packet is for everybody; below, that byte is the destination. */
  function CanIdToN2k(id: bv32): Fields
  {
    if Format(id) < 240 then Fields(Priority(id), Pgn(Page(id), Format(id), 0), Source(id), Specific(id))
    else Fields(Priority(id), Pgn(Page(id), Format(id), Specific(id)), Source(id), 0xFF)
  }

  function PgnPage(pgn: bv32): bv32 { pgn >> 16 }

  function PgnFormat(pgn: bv32): bv32 { (pgn >> 8) & 0xFF }

  function PgnLow(pgn: bv32): bv32 { pgn & 0xFF }

  function Join(priority: bv32, page: bv32, format: bv32, specific: bv32, source: bv32): bv32
  {
    (priority << 26) | (page << 24) | (format << 16) | (specific << 8) | source
  }

  /** The identifier that decodes to these fields, with its unused bits clear. */
  function N2kToCanId(f: Fields): bv32
  {
    var format := PgnFormat(f.pgn);
    Join(f.priority, PgnPage(f.pgn), format, if format < 240 then f.destination else PgnLow(f.pgn), f.source)
  }

  /** The bits of an identifier that its fields depend on: all of the 29 but bit 25. */
  const USED: bv32 := 0x1DFF_FFFF

  lemma PgnParts(page: bv32, format: bv32, low: bv32)
    requires page < 2 && format < 256 && low < 256
    ensures PgnPage(Pgn(page, format, low)) == page
    ensures PgnFormat(Pgn(page, format, low)) == format && PgnLow(Pgn(page, format, low)) == low
    ensures Pgn(page, format, low) <= 0x1_FFFF
  {
  }

  lemma IdParts(id: bv32)
    ensures Page(id) < 2 && Format(id) < 256 && Specific(id) < 256 && Source(id) < 256
    ensures Join(Priority(id), Page(id), Format(id), Specific(id), Source(id)) == id & USED
  {
  }

  lemma UsedParts(id: bv32)
    ensures Page(id & USED) == Page(id) && Format(id & USED) == Format(id) && Specific(id & USED) == Specific(id)
    ensures Source(id & USED) == Source(id) && Priority(id & USED) == Priority(id)
  {
  }

  lemma DecodeKeepsUsedBits(id: bv32)
    ensures N2kToCanId(CanIdToN2k(id)) == id & USED
  {
    IdParts(id);
    hide Pgn, PgnPage, PgnFormat, PgnLow, Page, Format, Specific, Source, Priority, Join;
    PgnParts(Page(id), Format(id), if Format(id) < 240 then 0 else Specific(id));
  }

  /** Two identifiers decode alike exactly when they agree on the used bits. */
  lemma DecodesAlike(a: bv32, b: bv32)
    ensures CanIdToN2k(a) == CanIdToN2k(b) <==> a & USED == b & USED
  {
    DecodeKeepsUsedBits(a);
    DecodeKeepsUsedBits(b);
    UsedParts(a);
    UsedParts(b);
    hide Pgn, PgnPage, PgnFormat, PgnLow, Page, Format, Specific, Source, Priority, Join, N2kToCanId;
    assert CanIdToN2k(a & USED) == CanIdToN2k(a) && CanIdToN2k(b & USED) == CanIdToN2k(b);
    hide CanIdToN2k;
  }

  // ---- the tag a packet is counted under ----

  const CONTROL: bv32 := 0xFFFF_FFFF

  function Tag(pgn: bv32, source: bv32): bv32 { (pgn << 8) | (source & 0xFF) }

  function TagPgn(tag: bv32): bv32 { (tag >> 8) & 0xF_FFFF }

  function TagSource(tag: bv32): bv32 { tag & 0xFF }

  lemma DecodedRange(id: bv32)
    ensures CanIdToN2k(id).pgn <= 0x1_FFFF && CanIdToN2k(id).source <= 0xFF
  {
    IdParts(id);
    hide Pgn, PgnPage, PgnFormat, PgnLow, Page, Format, Specific, Source, Priority, Join;
    PgnParts(Page(id), Format(id), if Format(id) < 240 then 0 else Specific(id));
  }

  /** A decoded packet is found again in its tag; a control packet shows as the largest number that fits. */
  lemma TagUnpacks(id: bv32)
    ensures
      var f := CanIdToN2k(id);
      && Tag(f.pgn, f.source) == f.pgn * 0x100 + f.source
      && TagPgn(Tag(f.pgn, f.source)) == f.pgn && TagSource(Tag(f.pgn, f.source)) == f.source
      && f.pgn != TagPgn(Tag(CONTROL, 0)) == 0xF_FFFF
  {
    DecodedRange(id);
    hide CanIdToN2k;
    TagParts(CanIdToN2k(id).pgn, CanIdToN2k(id).source);
    ControlTag();
    hide Tag, TagPgn, TagSource;
  }

  lemma ControlTag()
    ensures TagPgn(Tag(CONTROL, 0)) == 0xF_FFFF && TagSource(Tag(CONTROL, 0)) == 0
  {
  }

  lemma TagParts(pgn: bv32, source: bv32)
    requires pgn <= 0x1_FFFF && source <= 0xFF
    ensures Tag(pgn, source) == pgn * 0x100 + source
    ensures TagPgn(Tag(pgn, source)) == pgn && TagSource(Tag(pgn, source)) == source
  {
  }

  // ---- reading the file ----

  /** The packets that carry their own length. */
  const MULTI_PACKET: set<bv32> := {
    65240, 126208, 126464, 126720, 126983, 126984, 126985, 126986, 126987, 126988, 126996, 126998,
    127233, 127237, 127489, 127496, 127497, 127498, 127503, 127504, 127506, 127507, 127509, 127510,
    127511, 127512, 127513, 127514, 128275, 128520, 129029, 129038, 129039, 129040, 129041, 129044,
    129045, 129284, 129285, 129301, 129302, 129538, 129540, 129541, 129542, 129545, 129547, 129549,
    129551, 129556, 129792, 129793, 129794, 129795, 129796, 129797, 129798, 129799, 129800, 129801,
    129802, 129803, 129804, 129805, 129806, 129807, 129808, 129809, 129810, 130052, 130053, 130054,
    130060, 130061, 130064, 130065, 130066, 130067, 130068, 130069, 130070, 130071, 130072, 130073,
    130074, 130320, 130321, 130322, 130323, 130324, 130567, 130577, 130578, 130816
  }

  const MAX_DATA_LEN := 223

  datatype Msg = Msg(time: nat, pgn: bv32, source: bv32, destination: bv32, data: seq<byte>)

  function Addressed(id: bv32): Fields
  {
    if id == 0xFFFF_FFFF then Fields(0, CONTROL, 0, 0) else CanIdToN2k(id)
  }

  // ---- a word and its bytes ----

  function Widen(b: byte): bv32 { (b as bv8) as bv32 }

  /** Four bytes of the file as a word, as memory holds it: least significant first. */
  function Word(b: seq<byte>): bv32
    requires |b| == 4
  {
    Together(Widen(b[0]), Widen(b[1]), Widen(b[2]), Widen(b[3]))
  }

  function Together(a: bv32, b: bv32, c: bv32, d: bv32): bv32 { a | (b << 8) | (c << 16) | (d << 24) }

  function Low(x: bv32): byte { ((x & 0xFF) as bv8) as int }

  function WordBytes(x: bv32): (b: seq<byte>)
    ensures |b| == 4
  {
    [Low(x), Low(x >> 8), Low(x >> 16), Low(x >> 24)]
  }

  lemma NarrowBack(n: bv8)
    ensures (n as int) as bv8 == n
  {
  }

  lemma WidenLow(x: bv32)
    ensures Widen(Low(x)) == x & 0xFF
  {
    NarrowBack((x & 0xFF) as bv8);
  }

  lemma WordReadBack(x: bv32)
    ensures Word(WordBytes(x)) == x
  {
    WidenLow(x);
    WidenLow(x >> 8);
    WidenLow(x >> 16);
    WidenLow(x >> 24);
    hide Widen, Low;
    JoinedBytes(x);
    hide Together;
  }

  lemma JoinedBytes(x: bv32)
    ensures Together(x & 0xFF, (x >> 8) & 0xFF, (x >> 16) & 0xFF, (x >> 24) & 0xFF) == x
  {
  }

  // ---- the fields, in the numbers of the bytes ----

  lemma WidenFits(b: byte)
    ensures Widen(b) < 256 && (Widen(b) < 240 <==> b < 240) && (Widen(b) == 255 <==> b == 255)
  {
  }

  /** The lowest bit, and the three from the third up. */
  function Bit0(d: bv32): bv32 { d % 2 }
  function Bits234(d: bv32): bv32 { d / 4 % 8 }

  function PgnNumber(page: bv32, format: bv32, low: bv32): bv32 { page * 0x1_0000 + format * 0x100 + low }

  /** The bytes of a word are its parts. */
  lemma WordParts(a: bv32, b: bv32, c: bv32, d: bv32)
    requires a < 256 && b < 256 && c < 256 && d < 256
    ensures
      var id := Together(a, b, c, d);
      && Source(id) == a && Specific(id) == b && Format(id) == c
      && Page(id) == Bit0(d) < 2 && Priority(id) == Bits234(d)
  {
  }

  lemma PgnIsSum(page: bv32, format: bv32, low: bv32)
    requires page < 2 && format < 256 && low < 256
    ensures Pgn(page, format, low) == PgnNumber(page, format, low)
  {
  }

  /** What an identifier means, by the four bytes it is stored in: the first is the source; the third is the
      format, and the lowest bit of the fourth the page. Below format 240 the second byte is the destination and no
      part of the PGN; from 240 on it is the low byte of the PGN, and the packet is for everybody. */
  lemma FieldsOfBytes(b: seq<byte>)
    requires |b| == 4
    ensures
      var (f, page, format) := (CanIdToN2k(Word(b)), Bit0(Widen(b[3])), Widen(b[2]));
      && f.source == Widen(b[0]) && f.priority == Bits234(Widen(b[3]))
      && (b[2] < 240 ==> f.pgn == PgnNumber(page, format, 0) && f.destination == Widen(b[1]))
      && (b[2] >= 240 ==> f.pgn == PgnNumber(page, format, Widen(b[1])) && f.destination == 0xFF)
  {
    WidenFits(b[0]);
    WidenFits(b[1]);
    WidenFits(b[2]);
    WidenFits(b[3]);
    hide Widen, CanIdToN2k, Together, Bit0, Bits234, PgnNumber;
    FieldsOfWord(Widen(b[0]), Widen(b[1]), Widen(b[2]), Widen(b[3]));
  }

  lemma FieldsOfWord(a: bv32, b: bv32, c: bv32, d: bv32)
    requires a < 256 && b < 256 && c < 256 && d < 256
    ensures
      var f := CanIdToN2k(Together(a, b, c, d));
      && f.source == a && f.priority == Bits234(d)
      && f.pgn == PgnNumber(Bit0(d), c, if c < 240 then 0 else b)
      && f.destination == if c < 240 then b else 0xFF
  {
    WordParts(a, b, c, d);
    hide Source, Specific, Format, Page, Priority, Pgn, Together, Bit0, Bits234, PgnNumber;
    PgnIsSum(Bit0(d), c, if c < 240 then 0 else b);
  }

  // ---- packets off the file ----

  /** How many bytes of data a packet has; none if the packet says so itself. */
  function FixedLength(pgn: bv32): Option<nat>
  {
    if pgn == 59904 then Some(3)
    else if pgn == CONTROL then Some(8)
    else if pgn in MULTI_PACKET then None
    else Some(8)
  }

  datatype Read = Packet(msg: Msg, rest: seq<byte>) | End | TooLarge

  function NextRead(file: seq<byte>): (r: Read)
    ensures r.Packet? ==> |r.rest| < |file|
  {
    if |file| < 6 then End
    else
      var (time, id) := (FromLittleEndian(file[..2]), Word(file[2..6]));
      var f := Addressed(id);
      var fixed := FixedLength(f.pgn);
      if fixed.None? && |file| < 8 then End
      else
        var (start, length) := if fixed.Some? then (6, fixed.value) else (8, file[7]);
        if length > MAX_DATA_LEN then TooLarge
        else if |file| < start + length then End
        else Packet(Msg(time, f.pgn, f.source, f.destination, file[start..start + length]), file[start + length..])
  }

  class YDVRSource {
    /** What is left of the file. */
    var file: seq<byte>

    constructor (file: seq<byte>)
      ensures this.file == file
    {
      this.file := file;
    }

    method NextPacket() returns (r: Read)
      modifies this
      ensures r == NextRead(old(file))
      ensures r.Packet? ==> file == r.rest
    {
      hide Addressed, FromLittleEndian, Word;
      if |file| < 2 {
        return End;
      }
      if |file| < 6 {
        return End;
      }
      var all, time, id := file, FromLittleEndian(file[..2]), Word(file[2..6]);
      file := file[6..];
      var f := Addressed(id);
      var length := 8;
      if f.pgn == 59904 {
        length := 3;
      } else if f.pgn == CONTROL {
        length := 8;
      } else if f.pgn in MULTI_PACKET {
        if |file| < 2 {
          return End;
        }
        length := file[1];
        file := file[2..];
      }
      if length > MAX_DATA_LEN {
        return TooLarge;
      }
      if |file| < length {
        return End;
      }
      var msg := Msg(time, f.pgn, f.source, f.destination, file[..length]);
      file := file[length..];
      r := Packet(msg, file);
    }
  }

  /** The packets of a whole file, up to its end or the first that is too large. */
  function ReadAll(file: seq<byte>): seq<Msg>
    decreases |file|
  {
    var r := NextRead(file);
    if r.Packet? then [r.msg] + ReadAll(r.rest) else []
  }

  /** How much of the file a packet takes: a request three bytes behind its six of header, a packet that carries its
      length two bytes more and as many as the second of these says, and all others eight. */
  lemma LengthRule(file: seq<byte>)
    requires NextRead(file).Packet?
    ensures
      var r := NextRead(file);
      var carried := r.msg.pgn != 59904 && r.msg.pgn != CONTROL && r.msg.pgn in MULTI_PACKET;
      var n: nat := if carried then file[7] else if r.msg.pgn == 59904 then 3 else 8;
      var start: nat := if carried then 8 else 6;
      |file| >= start + n && r.msg.data == file[start..start + n] && r.rest == file[start + n..]
  {
    hide Addressed, Word, FromLittleEndian;
  }

  /** Four bytes of ones mark a packet of the recorder itself; no other packet has its PGN. */
  lemma ControlExactly(file: seq<byte>)
    requires NextRead(file).Packet?
    ensures NextRead(file).msg.pgn == CONTROL <==> file[2..6] == [255, 255, 255, 255]
    ensures NextRead(file).msg.pgn == CONTROL ==>
              NextRead(file).msg.source == NextRead(file).msg.destination == 0 && NextRead(file).msg.data == file[6..14]
  {
    var b := file[2..6];
    AllOnes(b);
    DecodedRange(Word(b));
    hide Word, CanIdToN2k, FromLittleEndian;
  }

  lemma AllOnes(b: seq<byte>)
    requires |b| == 4
    ensures Word(b) == 0xFFFF_FFFF <==> b == [255, 255, 255, 255]
  {
    WidenFits(b[0]);
    WidenFits(b[1]);
    WidenFits(b[2]);
    WidenFits(b[3]);
    hide Widen;
    OnesTogether(Widen(b[0]), Widen(b[1]), Widen(b[2]), Widen(b[3]));
    hide Together;
    if b[0] == 255 && b[1] == 255 && b[2] == 255 && b[3] == 255 {
      assert b == [255, 255, 255, 255];
    }
  }

  lemma OnesTogether(a: bv32, b: bv32, c: bv32, d: bv32)
    requires a < 256 && b < 256 && c < 256 && d < 256
    ensures Together(a, b, c, d) == 0xFFFF_FFFF <==> a == 255 && b == 255 && c == 255 && d == 255
  {
  }

  lemma EvenBit(b: byte)
    requires b % 2 == 0
    ensures Bit0(Widen(b)) == 0
  {
  }

  lemma RequestNumber()
    ensures PgnNumber(0, Widen(0xEA), 0) == 59904 && Widen(0xEA) != 0xFF
  {
  }

  lemma WordHasFormat(b: seq<byte>)
    requires |b| == 4
    ensures Format(Word(b)) == Widen(b[2])
  {
    WidenFits(b[0]);
    WidenFits(b[1]);
    WidenFits(b[2]);
    WidenFits(b[3]);
    hide Widen;
    WordParts(Widen(b[0]), Widen(b[1]), Widen(b[2]), Widen(b[3]));
    hide Together, Format;
  }

  lemma ControlFormat()
    ensures Format(0xFFFF_FFFF) == 0xFF
  {
  }

  /** An ISO request, to whatever address, takes nine bytes of the file: six of header and three of data. */
  lemma RequestTakesThree(file: seq<byte>)
    requires |file| >= 9 && file[4] == 0xEA && file[5] % 2 == 0
    ensures
      var r := NextRead(file);
      && r.Packet? && r.msg.pgn == 59904 && r.msg.source == Widen(file[2]) && r.msg.destination == Widen(file[3])
      && r.msg.data == file[6..9] && r.rest == file[9..]
  {
    var b := file[2..6];
    FieldsOfBytes(b);
    WordHasFormat(b);
    ControlFormat();
    RequestNumber();
    EvenBit(b[3]);
    hide Word, CanIdToN2k, Widen, Bit0, Bits234, PgnNumber, Format, FromLittleEndian;
    assert Addressed(Word(b)) == CanIdToN2k(Word(b));
  }

  // ---- the file format ----

  /** A packet as the YDVR recorder stores it; `lead` is the byte before a stored length. */
  datatype Stored = Stored(time: nat, id: bv32, lead: byte, data: seq<byte>)

  predicate Storable(s: Stored)
  {
    && s.time < 65536 && |s.data| <= MAX_DATA_LEN
    && var fixed := FixedLength(Addressed(s.id).pgn);
       fixed.Some? ==> |s.data| == fixed.value
  }

  /** What follows the six bytes of header. */
  function Tail(s: Stored): seq<byte>
    requires |s.data| < 256
  {
    (if FixedLength(Addressed(s.id).pgn).None? then [s.lead, |s.data|] else []) + s.data
  }

  function Layout(s: Stored): seq<byte>
    requires Storable(s)
  {
    LittleEndian(s.time, 2) + WordBytes(s.id) + Tail(s)
  }

  predicate AllStorable(ss: seq<Stored>)
  {
    ss == [] || (Storable(ss[0]) && AllStorable(ss[1..]))
  }

  function LayoutAll(ss: seq<Stored>): seq<byte>
    requires AllStorable(ss)
  {
    if ss == [] then [] else Layout(ss[0]) + LayoutAll(ss[1..])
  }

  function MsgOf(s: Stored): Msg
  {
    var f := Addressed(s.id);
    Msg(s.time, f.pgn, f.source, f.destination, s.data)
  }

  function MsgsOf(ss: seq<Stored>): seq<Msg>
    requires AllStorable(ss)
  {
    if ss == [] then [] else [MsgOf(ss[0])] + MsgsOf(ss[1..])
  }

  lemma HalfWordFits(x: nat)
    requires x < 65536
    ensures FromLittleEndian(LittleEndian(x, 2)) == x
  {
    WordRoundTrip(x, 2);
    assert Power256(2) == 256 * Power256(1) == 65536;
  }

  lemma Cut<T>(a: seq<T>, b: seq<T>, c: seq<T>)
    ensures (a + b + c)[..|a|] == a && (a + b + c)[|a|..|a| + |b|] == b && (a + b + c)[|a| + |b|..] == c
  {
  }

  lemma HeaderIsRead(s: Stored, tail: seq<byte>)
    requires s.time < 65536
    ensures
      var file := LittleEndian(s.time, 2) + WordBytes(s.id) + tail;
      && |file| == 6 + |tail| && file[6..] == tail
      && FromLittleEndian(file[..2]) == s.time && Word(file[2..6]) == s.id
  {
    HalfWordFits(s.time);
    WordReadBack(s.id);
    hide LittleEndian, FromLittleEndian, Word, WordBytes;
    Cut(LittleEndian(s.time, 2), WordBytes(s.id), tail);
  }

  lemma TailIsRead(s: Stored, file: seq<byte>, rest: seq<byte>)
    requires Storable(s) && |file| >= 6 && file[6..] == Tail(s) + rest
    ensures
      var (fixed, start) := (FixedLength(Addressed(s.id).pgn), if FixedLength(Addressed(s.id).pgn).None? then 8 else 6);
      && (fixed.None? ==> |file| >= 8 && file[7] == |s.data|) && (fixed.Some? ==> fixed.value == |s.data|)
      && |file| >= start + |s.data| && |s.data| <= MAX_DATA_LEN
      && file[start..start + |s.data|] == s.data && file[start + |s.data|..] == rest
  {
    hide Addressed, FixedLength;
    var lead := if FixedLength(Addressed(s.id).pgn).None? then [s.lead, |s.data|] else [];
    var t := lead + s.data + rest;
    assert file[6..] == t;
    Cut(lead, s.data, rest);
    assert forall i | 0 <= i < |t| :: file[6 + i] == t[i];
    assert file[6 + |lead|..6 + |lead| + |s.data|] == t[|lead|..|lead| + |s.data|];
    assert file[6 + |lead| + |s.data|..] == t[|lead| + |s.data|..];
  }

  lemma ReadOneStored(s: Stored, rest: seq<byte>)
    requires Storable(s)
    ensures NextRead(Layout(s) + rest) == Packet(MsgOf(s), rest)
  {
    var tail := Tail(s) + rest;
    HeaderIsRead(s, tail);
    var file := LittleEndian(s.time, 2) + WordBytes(s.id) + tail;
    SameBytes(s, rest);
    TailIsRead(s, file, rest);
    hide LittleEndian, FromLittleEndian, Addressed, FixedLength, Word, WordBytes, Tail, Layout, Storable;
  }

  lemma SameBytes(s: Stored, rest: seq<byte>)
    requires Storable(s)
    ensures Layout(s) + rest == LittleEndian(s.time, 2) + WordBytes(s.id) + (Tail(s) + rest)
  {
    hide LittleEndian, Addressed, FixedLength;
  }

  /** A file determines its packets: reading what was stored gives back every packet, whole and in order,
      with the fields its identifier stands for. */
  lemma {:induction false} StoredReadsBack(ss: seq<Stored>)
    requires AllStorable(ss)
    ensures ReadAll(LayoutAll(ss)) == MsgsOf(ss)
  {
    hide Storable, Layout, MsgOf;
    if ss != [] {
      hide NextRead;
      ReadOneStored(ss[0], LayoutAll(ss[1..]));
      StoredReadsBack(ss[1..]);
    }
  }
}
