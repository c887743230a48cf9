/** Replacing stretches of a sequence, and putting them back. */
module Splicing {

  /** From position `start` on, `removed` is to be replaced by `added`. */
  datatype Edit<T> = Edit(start: nat, removed: seq<T>, added: seq<T>)

  /** The edits are in order, apart, and inside a sequence of `size` elements, of which `pos` are behind. */
  predicate Fits<T>(edits: seq<Edit<T>>, pos: nat, size: nat): (fits: bool)
    ensures fits ==> pos <= size
    ensures fits && edits != [] ==> pos <= edits[0].start && edits[0].start + |edits[0].removed| <= size
  {
    if edits == [] then pos <= size
    else pos <= edits[0].start && Fits(edits[1..], edits[0].start + |edits[0].removed|, size)
  }

  /** `src` from `pos` on, with every edit made. */
  function Weave<T>(src: seq<T>, edits: seq<Edit<T>>, pos: nat): seq<T>
    requires Fits(edits, pos, |src|)
    decreases |edits|, |src| - pos
  {
    if edits == [] then src[pos..]
    else if pos < edits[0].start then [src[pos]] + Weave(src, edits, pos + 1)
    else edits[0].added + Weave(src, edits[1..], pos + |edits[0].removed|)
  }

  /** `src` from `pos` on, with the removed elements of every edit written where the edit expects them. */
  function Restored<T>(src: seq<T>, edits: seq<Edit<T>>, pos: nat): (r: seq<T>)
    requires Fits(edits, pos, |src|)
    ensures |r| == |src| - pos
    decreases |edits|, |src| - pos
  {
    if edits == [] then src[pos..]
    else if pos < edits[0].start then [src[pos]] + Restored(src, edits, pos + 1)
    else edits[0].removed + Restored(src, edits[1..], pos + |edits[0].removed|)
  }

  /** Every edit finds its removed elements in place. */
  predicate InPlace<T(==)>(src: seq<T>, edits: seq<Edit<T>>, pos: nat)
    requires Fits(edits, pos, |src|)
  {
    edits == [] ||
    var next := edits[0].start + |edits[0].removed|;
    src[edits[0].start..next] == edits[0].removed && InPlace(src, edits[1..], next)
  }

  /** Each edit of `back` undoes the edit of `edits` at its place, once everything before it has
      moved by `shift`. */
  predicate Undoes<T(==)>(back: seq<Edit<T>>, edits: seq<Edit<T>>, shift: int)
  {
    |back| == |edits| &&
    (edits == [] ||
     (&& back[0].start == edits[0].start + shift
      && back[0].removed == edits[0].added && back[0].added == edits[0].removed
      && Undoes(back[1..], edits[1..], shift + |edits[0].added| - |edits[0].removed|)))
  }

  lemma Regroup<T>(a: seq<T>, b: seq<T>, c: seq<T>)
    ensures a + (b + c) == (a + b) + c
    ensures |b| > 0 ==> (a + (b + c))[|a|] == b[0]
    ensures (a + (b + c))[|a|..|a| + |b|] == b
  {
  }

  /** Weaving the undoing edits into the woven sequence restores the removed elements: `before` is
      whatever precedes, and only its length matters. */
  lemma {:induction false} WeaveBack<T>(before: seq<T>, src: seq<T>, edits: seq<Edit<T>>, back: seq<Edit<T>>, pos: nat)
    requires Fits(edits, pos, |src|) && Undoes(back, edits, |before| - pos)
    ensures WovenBack(before + Weave(src, edits, pos), src, edits, back, |before|, pos)
    decreases |edits|, |src| - pos
  {
    if edits == [] {
      assert (before + src[pos..])[|before|..] == src[pos..];
    } else if pos < edits[0].start {
      WeaveBack(before + [src[pos]], src, edits, back, pos + 1);
      WeaveBackCopy(before, src, edits, back, pos);
    } else {
      WeaveBack(before + edits[0].added, src, edits[1..], back[1..], pos + |edits[0].removed|);
      WeaveBackEdit(before, src, edits, back, pos);
    }
  }

  predicate WovenBack<T(==)>(out: seq<T>, src: seq<T>, edits: seq<Edit<T>>, back: seq<Edit<T>>, at: nat, pos: nat)
    requires Fits(edits, pos, |src|)
  {
    Fits(back, at, |out|) && Weave(out, back, at) == Restored(src, edits, pos)
  }

  lemma WeaveBackCopy<T>(before: seq<T>, src: seq<T>, edits: seq<Edit<T>>, back: seq<Edit<T>>, pos: nat)
    requires Fits(edits, pos, |src|) && Undoes(back, edits, |before| - pos)
    requires edits != [] && pos < edits[0].start
    requires
      WovenBack(before + [src[pos]] + Weave(src, edits, pos + 1), src, edits, back, |before| + 1, pos + 1)
    ensures WovenBack(before + Weave(src, edits, pos), src, edits, back, |before|, pos)
  {
    Regroup(before, [src[pos]], Weave(src, edits, pos + 1));
  }

  lemma WeaveBackEdit<T>(before: seq<T>, src: seq<T>, edits: seq<Edit<T>>, back: seq<Edit<T>>, pos: nat)
    requires Fits(edits, pos, |src|) && Undoes(back, edits, |before| - pos)
    requires edits != [] && pos == edits[0].start
    requires
      var e := edits[0];
      var next := pos + |e.removed|;
      WovenBack(before + e.added + Weave(src, edits[1..], next), src, edits[1..], back[1..], |before| + |e.added|, next)
    ensures WovenBack(before + Weave(src, edits, pos), src, edits, back, |before|, pos)
  {
    Regroup(before, edits[0].added, Weave(src, edits[1..], pos + |edits[0].removed|));
  }

  /** The woven sequence holds the added elements where the undoing edits look for them. */
  lemma {:induction false} WovenInPlace<T>(before: seq<T>, src: seq<T>, edits: seq<Edit<T>>, back: seq<Edit<T>>, pos: nat)
    requires Fits(edits, pos, |src|) && Undoes(back, edits, |before| - pos)
    ensures HoldsAdded(before + Weave(src, edits, pos), back, |before|)
    decreases |edits|, |src| - pos
  {
    if edits == [] {
    } else if pos < edits[0].start {
      WovenInPlace(before + [src[pos]], src, edits, back, pos + 1);
      Regroup(before, [src[pos]], Weave(src, edits, pos + 1));
    } else {
      WovenInPlace(before + edits[0].added, src, edits[1..], back[1..], pos + |edits[0].removed|);
      Regroup(before, edits[0].added, Weave(src, edits[1..], pos + |edits[0].removed|));
    }
  }

  predicate HoldsAdded<T(==)>(out: seq<T>, back: seq<Edit<T>>, at: nat)
  {
    Fits(back, at, |out|) && InPlace(out, back, at)
  }

  /** What is restored is the original exactly when every edit had found its removed elements in place. */
  lemma {:induction false} RestoredIffInPlace<T>(src: seq<T>, edits: seq<Edit<T>>, pos: nat)
    requires Fits(edits, pos, |src|)
    ensures Restored(src, edits, pos) == src[pos..] <==> InPlace(src, edits, pos)
    decreases |edits|, |src| - pos
  {
    if edits == [] {
    } else if pos < edits[0].start {
      RestoredIffInPlace(src, edits, pos + 1);
      RestoredCopy(src, edits, pos);
    } else {
      RestoredIffInPlace(src, edits[1..], pos + |edits[0].removed|);
      RestoredEdit(src, edits, pos);
    }
  }

  lemma RestoredCopy<T>(src: seq<T>, edits: seq<Edit<T>>, pos: nat)
    requires Fits(edits, pos, |src|) && edits != [] && pos < edits[0].start
    ensures Restored(src, edits, pos) == src[pos..] <==> Restored(src, edits, pos + 1) == src[pos + 1..]
    ensures InPlace(src, edits, pos) <==> InPlace(src, edits, pos + 1)
  {
    SplitEquality(src, pos, [src[pos]], Restored(src, edits, pos + 1));
  }

  lemma RestoredEdit<T>(src: seq<T>, edits: seq<Edit<T>>, pos: nat)
    requires Fits(edits, pos, |src|) && edits != [] && pos == edits[0].start
    ensures
      var next := pos + |edits[0].removed|;
      Restored(src, edits, pos) == src[pos..]
      <==> src[pos..next] == edits[0].removed && Restored(src, edits[1..], next) == src[next..]
  {
    SplitEquality(src, pos, edits[0].removed, Restored(src, edits[1..], pos + |edits[0].removed|));
  }

  lemma SplitEquality<T>(src: seq<T>, pos: nat, x: seq<T>, y: seq<T>)
    requires pos + |x| + |y| == |src|
    ensures x + y == src[pos..] <==> src[pos..pos + |x|] == x && src[pos + |x|..] == y
  {
    assert (x + y)[..|x|] == x && (x + y)[|x|..] == y;
    assert src[pos..][..|x|] == src[pos..pos + |x|] && src[pos..][|x|..] == src[pos + |x|..];
  }

  /** The same up to the elements removed. */
  predicate Alike<T(==)>(es: seq<Edit<T>>, fs: seq<Edit<T>>)
  {
    && |es| == |fs|
    && (es == [] ||
        (&& es[0].start == fs[0].start && |es[0].removed| == |fs[0].removed| && es[0].added == fs[0].added
         && Alike(es[1..], fs[1..])))
  }

  lemma {:induction false} WeaveAlike<T>(src: seq<T>, es: seq<Edit<T>>, fs: seq<Edit<T>>, pos: nat)
    requires Alike(es, fs) && Fits(es, pos, |src|) && Fits(fs, pos, |src|)
    ensures Weave(src, es, pos) == Weave(src, fs, pos)
    decreases |es|, |src| - pos
  {
    if es == [] {
    } else if pos < es[0].start {
      WeaveAlike(src, es, fs, pos + 1);
    } else {
      WeaveAlike(src, es[1..], fs[1..], pos + |es[0].removed|);
    }
  }

  /** The undoing edits, moved by what the edits before them add. */
  function Mirror<T>(es: seq<Edit<T>>, shift: int): (r: seq<Edit<T>>)
    ensures |r| == |es|
  {
    if es == [] then []
    else
      var e := es[0];
      [Edit(if e.start + shift < 0 then 0 else e.start + shift, e.added, e.removed)]
      + Mirror(es[1..], shift + |e.added| - |e.removed|)
  }

  lemma {:induction false} MirrorUndoes<T>(es: seq<Edit<T>>, pos: nat, at: nat, size: nat)
    requires Fits(es, pos, size)
    ensures Undoes(Mirror(es, at - pos), es, at - pos)
  {
    if es != [] {
      var e := es[0];
      MirrorUndoes(es[1..], e.start + |e.removed|, e.start + at - pos + |e.added|, size);
    }
  }

  /** Made, and then undone. */
  lemma MirrorRestores<T>(src: seq<T>, es: seq<Edit<T>>, out: seq<T>)
    requires Fits(es, 0, |src|) && out == Weave(src, es, 0)
    ensures HoldsAdded(out, Mirror(es, 0), 0)
    ensures Weave(out, Mirror(es, 0), 0) == Restored(src, es, 0)
  {
    hide Fits, Weave, Restored, InPlace, Undoes, Mirror;
    MirrorUndoes(es, 0, 0, |src|);
    assert [] + Weave(src, es, 0) == out;
    WeaveBack([], src, es, Mirror(es, 0), 0);
    WovenInPlace([], src, es, Mirror(es, 0), 0);
  }
}
