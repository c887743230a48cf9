/** Maps of counts: counting one more, adding up, and adding up by group. */
module Tallies {

  function Count<K>(m: map<K, nat>, k: K): nat { if k in m then m[k] else 0 }

  function Bump<K>(m: map<K, nat>, k: K): map<K, nat> { m[k := Count(m, k) + 1] }

  lemma CountBump<K>(m: map<K, nat>, k: K, j: K)
    ensures Count(Bump(m, k), j) == Count(m, j) + if j == k then 1 else 0
  {
  }

  /** The counts of a map, added up. */
  ghost function Sum<K>(m: map<K, nat>): nat
  {
    if m.Keys == {} then 0 else var k :| k in m.Keys; m[k] + Sum(m - {k})
  }

  /** Any key may be taken off first. */
  lemma {:induction false} SumWithout<K>(m: map<K, nat>, k: K)
    requires k in m
    ensures Sum(m) == m[k] + Sum(m - {k})
    decreases |m|
  {
    var j :| j in m.Keys && Sum(m) == m[j] + Sum(m - {j});
    if j != k {
      SumWithout(m - {j}, k);
      SumWithout(m - {k}, j);
      assert m - {j} - {k} == m - {k} - {j};
    }
  }

  lemma SumBump<K>(m: map<K, nat>, k: K)
    ensures Sum(Bump(m, k)) == Sum(m) + 1
  {
    var b := Bump(m, k);
    SumWithout(b, k);
    if k in m {
      SumWithout(m, k);
      assert b - {k} == m - {k};
    } else {
      assert b - {k} == m;
    }
  }

  /** The part of the counts whose keys belong to a group. */
  function Part<K, G(==)>(m: map<K, nat>, group: K -> G, g: G): map<K, nat>
  {
    map k | k in m && group(k) == g :: m[k]
  }

  lemma PartBump<K, G>(m: map<K, nat>, group: K -> G, k: K, g: G)
    ensures Part(Bump(m, k), group, g) == if group(k) == g then Bump(Part(m, group, g), k) else Part(m, group, g)
  {
    var l := Part(Bump(m, k), group, g);
    var r := if group(k) == g then Bump(Part(m, group, g), k) else Part(m, group, g);
    assert forall j | j in l :: j in r && l[j] == r[j];
    assert forall j | j in r :: j in l;
    assert l == r;
  }
}
