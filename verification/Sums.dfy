/** Sums of an integer weight over the values of a finite map, independent of the order of visits. */
module Sums {

  ghost function SumOver<K, V>(m: map<K, V>, f: V -> int): int
    decreases |m|
  {
    if m == map[] then 0
    else
      var k :| k in m;
      assert (m - {k}).Keys == m.Keys - {k};
      f(m[k]) + SumOver(m - {k}, f)
  }

  /** Any key may be visited first. */
  lemma {:induction false} SumRemove<K, V>(m: map<K, V>, k: K, f: V -> int)
    requires k in m
    ensures SumOver(m, f) == f(m[k]) + SumOver(m - {k}, f)
    decreases |m|
  {
    var j :| j in m && SumOver(m, f) == f(m[j]) + SumOver(m - {j}, f);
    if j != k {
      assert (m - {j}).Keys == m.Keys - {j};
      assert (m - {k}).Keys == m.Keys - {k};
      assert (m - {j}) - {k} == (m - {k}) - {j};
      SumRemove(m - {j}, k, f);
      SumRemove(m - {k}, j, f);
    }
  }

  lemma SumInsert<K, V>(m: map<K, V>, k: K, v: V, f: V -> int)
    requires k !in m
    ensures SumOver(m[k := v], f) == SumOver(m, f) + f(v)
  {
    SumRemove(m[k := v], k, f);
    assert m[k := v] - {k} == m;
  }

  lemma SumUpdate<K, V>(m: map<K, V>, k: K, v: V, f: V -> int)
    requires k in m
    ensures SumOver(m[k := v], f) == SumOver(m, f) - f(m[k]) + f(v)
  {
    SumRemove(m, k, f);
    SumRemove(m[k := v], k, f);
    assert m[k := v] - {k} == m - {k};
  }

  /** A pointwise bound on two weights carries over to the sums. */
  lemma {:induction false} SumMonotone<K, V>(m: map<K, V>, f: V -> int, g: V -> int)
    requires forall k | k in m :: f(m[k]) <= g(m[k])
    ensures SumOver(m, f) <= SumOver(m, g)
    decreases |m|
  {
    if m != map[] {
      var k :| k in m;
      assert (m - {k}).Keys == m.Keys - {k};
      SumRemove(m, k, f);
      SumRemove(m, k, g);
      SumMonotone(m - {k}, f, g);
    }
  }

  /** The sum of a difference of weights. */
  lemma {:induction false} SumDifference<K, V>(m: map<K, V>, f: V -> int, g: V -> int, h: V -> int)
    requires forall k | k in m :: h(m[k]) == f(m[k]) - g(m[k])
    ensures SumOver(m, h) == SumOver(m, f) - SumOver(m, g)
    decreases |m|
  {
    if m != map[] {
      var k :| k in m;
      assert (m - {k}).Keys == m.Keys - {k};
      SumRemove(m, k, f);
      SumRemove(m, k, g);
      SumRemove(m, k, h);
      SumDifference(m - {k}, f, g, h);
    }
  }

  lemma {:induction false} SumNonNegative<K, V>(m: map<K, V>, f: V -> int)
    requires forall k | k in m :: 0 <= f(m[k])
    ensures 0 <= SumOver(m, f)
    ensures forall k | k in m :: f(m[k]) <= SumOver(m, f)
    decreases |m|
  {
    if m != map[] {
      forall k | k in m
        ensures 0 <= SumOver(m, f) && f(m[k]) <= SumOver(m, f)
      {
        assert (m - {k}).Keys == m.Keys - {k};
        SumRemove(m, k, f);
        SumNonNegative(m - {k}, f);
      }
      var k :| k in m;
    }
  }
}
