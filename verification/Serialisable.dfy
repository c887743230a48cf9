/** The growing byte buffer packets are put together in. */
module SerialisableModel {
  import opened Frames

  /** How a full buffer grows: the simulator and the converter double it once; the logger firmware
      doubles it or makes it just large enough, whichever is more. */
  datatype Growth = DoubleOnce | DoubleOrFit

  function Grown(g: Growth, length: nat, used: nat, s: nat): nat
  {
    if length - used >= s then length
    else if g == DoubleOrFit && used + s > 2 * length then used + s
    else 2 * length
  }

  class Serialisable {
    const growth: Growth
    var buffer: array<byte>
    var nData: nat

    ghost predicate Valid()
      reads this
    {
      nData <= buffer.Length
    }

    ghost function Contents(): seq<byte>
      reads this, buffer
      requires Valid()
    {
      buffer[..nData]
    }

    constructor (growth: Growth, sizeHint: nat)
      ensures Valid() && fresh(buffer) && buffer.Length == sizeHint && this.growth == growth
      ensures Contents() == []
    {
      this.growth := growth;
      buffer := new byte[sizeHint];
      nData := 0;
    }

    method EnsureSpace(s: nat)
      requires Valid()
      modifies this`buffer
      ensures Valid() && (buffer == old(buffer) || fresh(buffer))
      ensures buffer.Length == Grown(growth, old(buffer.Length), nData, s)
      ensures Contents() == old(Contents())
    {
      if buffer.Length - nData < s {
        var target := 2 * buffer.Length;
        if growth == DoubleOrFit && nData + s > target {
          target := nData + s;
        }
        var newBuffer := new byte[target];
        var i := 0;
        while i < nData
          invariant 0 <= i <= nData <= newBuffer.Length == target && buffer == old(buffer)
          invariant newBuffer[..i] == buffer[..i]
        {
          newBuffer[i] := buffer[i];
          i := i + 1;
        }
        buffer := newBuffer;
      }
    }

    /** Appends bytes one at a time. `inside` is false when the source would write past its buffer:
        exactly when even the doubled buffer is too small, and never in the firmware. */
    method Append(p: seq<byte>) returns (inside: bool)
      requires Valid()
      modifies this, buffer
      ensures Valid() && (buffer == old(buffer) || fresh(buffer))
      ensures Held(buffer.Length, Contents(), inside)
           == Appended(growth, Held(old(buffer.Length), old(Contents()), true), p)
      ensures inside <==> growth == DoubleOrFit || old(nData) + |p| <= 2 * old(buffer.Length)
    {
      ghost var before := Contents();
      EnsureSpace(|p|);
      ghost var grown := buffer;
      var i := 0;
      while i < |p| && nData < buffer.Length
        invariant 0 <= i <= |p| && buffer == grown && nData == old(nData) + i <= buffer.Length
        invariant buffer[..nData] == before + p[..i]
      {
        buffer[nData] := p[i];
        nData := nData + 1;
        i := i + 1;
      }
      inside := i == |p|;
      assert p[..|p|] == p;
    }
  }

  // ---- runs of appends ----

  /** What a buffer holds; `inside` is false once a write has left it. */
  datatype Held = Held(length: nat, contents: seq<byte>, inside: bool)

  function Appended(g: Growth, h: Held, p: seq<byte>): (r: Held)
    requires |h.contents| <= h.length
    ensures |r.contents| <= r.length
  {
    var grown := Grown(g, h.length, |h.contents|, |p|);
    if |h.contents| + |p| <= grown then Held(grown, h.contents + p, true)
    else Held(grown, h.contents + p[..grown - |h.contents|], false)
  }

  /** A run of appends, until one leaves the buffer. */
  function AppendedAll(g: Growth, h: Held, ps: seq<seq<byte>>): (r: Held)
    requires |h.contents| <= h.length
    decreases |ps|
  {
    if ps == [] || !h.inside then h else AppendedAll(g, Appended(g, h, ps[0]), ps[1..])
  }

  function Sizes(ps: seq<seq<byte>>): (r: seq<nat>)
    ensures |r| == |ps|
  {
    if ps == [] then [] else [|ps[0]|] + Sizes(ps[1..])
  }

  function Concat(ps: seq<seq<byte>>): seq<byte>
  {
    if ps == [] then [] else ps[0] + Concat(ps[1..])
  }

  /** No append of the run leaves the buffer. */
  predicate AllInside(g: Growth, length: nat, used: nat, sizes: seq<nat>)
    requires used <= length
    decreases |sizes|
  {
    sizes == [] ||
    (&& used + sizes[0] <= Grown(g, length, used, sizes[0])
     && AllInside(g, Grown(g, length, used, sizes[0]), used + sizes[0], sizes[1..]))
  }

  /** A run of appends stays inside exactly when each of them does, and then adds all their bytes in order. */
  lemma {:induction false} RunContents(g: Growth, h: Held, ps: seq<seq<byte>>)
    requires h.inside && |h.contents| <= h.length
    ensures
      var r := AppendedAll(g, h, ps);
      && (r.inside <==> AllInside(g, h.length, |h.contents|, Sizes(ps)))
      && (r.inside ==> r.contents == h.contents + Concat(ps))
    decreases |ps|
  {
    if ps == [] {
      assert h.contents + [] == h.contents;
    } else {
      var (h1, rest) := (Appended(g, h, ps[0]), ps[1..]);
      InsideStep(g, h.length, |h.contents|, ps);
      hide AllInside, Sizes, Grown;
      if h1.inside {
        RunContents(g, h1, rest);
        hide *;
        Associative(h.contents, ps[0], Concat(rest));
      }
    }
  }

  lemma InsideStep(g: Growth, length: nat, used: nat, ps: seq<seq<byte>>)
    requires used <= length && ps != []
    ensures
      var (more, grown) := (used + |ps[0]|, Grown(g, length, used, |ps[0]|));
      AllInside(g, length, used, Sizes(ps)) == (more <= grown && AllInside(g, grown, more, Sizes(ps[1..])))
  {
    assert Sizes(ps)[0] == |ps[0]| && Sizes(ps)[1..] == Sizes(ps[1..]);
  }

  lemma Associative(a: seq<byte>, b: seq<byte>, c: seq<byte>)
    ensures a + (b + c) == a + b + c
  {
  }

  /** No append is longer than the buffer is at that moment. */
  predicate AllShort(g: Growth, length: nat, used: nat, sizes: seq<nat>)
    decreases |sizes|
  {
    sizes == [] ||
    (sizes[0] <= length && AllShort(g, Grown(g, length, used, sizes[0]), used + sizes[0], sizes[1..]))
  }

  /** Any run whose appends are each no longer than the buffer has grown by then stays inside a doubling one. */
  lemma {:induction false} ShortAppendsStayInside(length: nat, used: nat, sizes: seq<nat>)
    requires used <= length && AllShort(DoubleOnce, length, used, sizes)
    ensures AllInside(DoubleOnce, length, used, sizes)
    decreases |sizes|
  {
    if sizes != [] {
      ShortAppendsStayInside(Grown(DoubleOnce, length, used, sizes[0]), used + sizes[0], sizes[1..]);
    }
  }

  /** The firmware's buffer holds any run of appends. */
  lemma {:induction false} FirmwareStaysInside(length: nat, used: nat, sizes: seq<nat>)
    requires used <= length
    ensures AllInside(DoubleOrFit, length, used, sizes)
    decreases |sizes|
  {
    if sizes != [] {
      FirmwareStaysInside(Grown(DoubleOrFit, length, used, sizes[0]), used + sizes[0], sizes[1..]);
    }
  }

  /** The bytes in use before append `k`. */
  function UsedAt(used: nat, sizes: seq<nat>, k: nat): nat
    requires k <= |sizes|
    decreases k
  {
    if k == 0 then used else UsedAt(used + sizes[0], sizes[1..], k - 1)
  }

  /** The length of the buffer before append `k`. */
  function LengthAt(g: Growth, length: nat, used: nat, sizes: seq<nat>, k: nat): nat
    requires k <= |sizes|
    decreases k
  {
    if k == 0 then length else LengthAt(g, Grown(g, length, used, sizes[0]), used + sizes[0], sizes[1..], k - 1)
  }

  predicate FitsDoubled(length: nat, used: nat, sizes: seq<nat>, k: nat)
    requires k < |sizes|
  {
    UsedAt(used, sizes, k) + sizes[k] <= 2 * LengthAt(DoubleOnce, length, used, sizes, k)
  }

  /** A run stays inside a doubling buffer exactly when every append fits the buffer doubled once. */
  lemma {:induction false} LongAppendLeaves(length: nat, used: nat, sizes: seq<nat>)
    requires used <= length
    ensures AllInside(DoubleOnce, length, used, sizes)
       <==> forall k | 0 <= k < |sizes| :: FitsDoubled(length, used, sizes, k)
    decreases |sizes|
  {
    if sizes != [] {
      var grown, more, rest := Grown(DoubleOnce, length, used, sizes[0]), used + sizes[0], sizes[1..];
      assert FitsDoubled(length, used, sizes, 0) <==> more <= grown;
      forall k | 0 <= k < |rest| ensures FitsDoubled(grown, more, rest, k) == FitsDoubled(length, used, sizes, k + 1) {
      }
      if more <= grown {
        LongAppendLeaves(grown, more, rest);
        hide FitsDoubled;
        assert forall k | 1 <= k < |sizes| :: FitsDoubled(length, used, sizes, k) == FitsDoubled(grown, more, rest, k - 1);
      }
    }
  }
}
