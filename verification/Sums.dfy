/** Finite sums over maps, weighted by a function of the entry. */
module Sums {

  ghost function Total<K(!new), V>(m: map<K, V>, w: (K, V) -> int): int
  {
    if m == map[] then 0
    else
      var k :| k in m;
      w(k, m[k]) + Total(m - {k}, w)
  }

  /** The sum does not depend on the order in which entries are taken. */
  lemma {:induction false} TotalPick<K(!new), V>(m: map<K, V>, k: K, w: (K, V) -> int)
    requires k in m
    ensures Total(m, w) == w(k, m[k]) + Total(m - {k}, w)
    decreases |m|
  {
    var j :| j in m && Total(m, w) == w(j, m[j]) + Total(m - {j}, w);
    if j != k {
      assert (m - {j}) - {k} == (m - {k}) - {j};
      assert |m - {j}| < |m| by { assert (m - {j}).Keys < m.Keys; CardinalityDrops(m, j); }
      TotalPick(m - {j}, k, w);
      CardinalityDrops(m, k);
      TotalPick(m - {k}, j, w);
    }
  }

  lemma CardinalityDrops<K, V>(m: map<K, V>, k: K)
    requires k in m
    ensures |m - {k}| < |m|
  {
    assert (m - {k}).Keys == m.Keys - {k};
  }

  lemma TotalRemove<K(!new), V>(m: map<K, V>, k: K, w: (K, V) -> int)
    ensures Total(m - {k}, w) == Total(m, w) - (if k in m then w(k, m[k]) else 0)
  {
    if k in m {
      TotalPick(m, k, w);
    } else {
      assert m - {k} == m;
    }
  }

  lemma TotalSet<K(!new), V>(m: map<K, V>, k: K, v: V, w: (K, V) -> int)
    ensures Total(m[k := v], w) == Total(m, w) - (if k in m then w(k, m[k]) else 0) + w(k, v)
  {
    TotalPick(m[k := v], k, w);
    assert m[k := v] - {k} == m - {k};
    TotalRemove(m, k, w);
  }

  /** A non-negative weighting has a non-negative sum that bounds each of its terms. */
  lemma {:induction false} TotalBoundsTerm<K(!new), V>(m: map<K, V>, w: (K, V) -> int)
    requires forall k :: k in m ==> w(k, m[k]) >= 0
    ensures Total(m, w) >= 0
    ensures forall k :: k in m ==> w(k, m[k]) <= Total(m, w)
    decreases |m|
  {
    forall k | k in m
      ensures Total(m, w) >= w(k, m[k])
    {
      TotalPick(m, k, w);
      CardinalityDrops(m, k);
      TotalBoundsTerm(m - {k}, w);
    }
  }

  /** The sum is 0 when every term is. */
  lemma {:induction false} TotalZero<K(!new), V>(m: map<K, V>, w: (K, V) -> int)
    requires forall k :: k in m ==> w(k, m[k]) == 0
    ensures Total(m, w) == 0
    decreases |m|
  {
    if m != map[] {
      var k :| k in m;
      TotalPick(m, k, w);
      CardinalityDrops(m, k);
      TotalZero(m - {k}, w);
    }
  }
}
