/** Sums over the entries of a map, whatever the order. */
module Sums {
  lemma SomeKey<K, V>(m: map<K, V>)
    requires m != map[]
    ensures exists k :: k in m
  {
    assert (exists k :: k in m) || m == map[];
  }

  ghost function SumBy<K(!new), V(!new)>(m: map<K, V>, f: V -> int): int {
    if m == map[] then 0
    else
      SomeKey(m);
      var k :| k in m;
      f(m[k]) + SumBy(m - {k}, f)
  }

  /** Any entry can be taken out first. */
  lemma {:induction false} SumWithout<K(!new), V(!new)>(m: map<K, V>, f: V -> int, k: K)
    requires k in m
    ensures SumBy(m, f) == f(m[k]) + SumBy(m - {k}, f)
    decreases |m|
  {
    SomeKey(m);
    var first :| first in m && SumBy(m, f) == f(m[first]) + SumBy(m - {first}, f);
    if first != k {
      SumWithout(m - {first}, f, k);
      SumWithout(m - {k}, f, first);
      assert m - {first} - {k} == m - {k} - {first};
    }
  }

  lemma SumAfterUpdate<K(!new), V(!new)>(m: map<K, V>, f: V -> int, k: K, v: V)
    ensures SumBy(m[k := v], f) == SumBy(m, f) - (if k in m then f(m[k]) else 0) + f(v)
  {
    var n := m[k := v];
    SumWithout(n, f, k);
    assert n - {k} == m - {k};
    if k in m {
      SumWithout(m, f, k);
    } else {
      assert m - {k} == m;
    }
  }
}
