/** Sums over the values of a finite map, independent of iteration order. */
module MapSums {

  ghost function SumBy<K, V>(m: map<K, V>, size: V -> nat): nat
    decreases |m|
  {
    if |m| == 0 then 0
    else
      var k :| k in m;
      assert |m - {k}| < |m| by { assert (m - {k}).Keys == m.Keys - {k}; }
      size(m[k]) + SumBy(m - {k}, size)
  }

  lemma SumPick<K, V>(m: map<K, V>, size: V -> nat, k: K) returns (j: K)
    requires k in m
    ensures j in m && SumBy(m, size) == size(m[j]) + SumBy(m - {j}, size)
  {
    assert |m| != 0 by { assert k in m.Keys; }
    j :| j in m && SumBy(m, size) == size(m[j]) + SumBy(m - {j}, size);
  }

  lemma {:induction false} SumWithout<K, V>(m: map<K, V>, size: V -> nat, k: K)
    requires k in m
    ensures SumBy(m, size) == size(m[k]) + SumBy(m - {k}, size)
    decreases |m|
  {
    var j := SumPick(m, size, k);
    if j != k {
      hide SumBy;
      var less := m - {j};
      assert less.Keys == m.Keys - {j} && |less| < |m|;
      SumWithout(less, size, k);
      assert (m - {k}).Keys == m.Keys - {k} && |m - {k}| < |m|;
      SumWithout(m - {k}, size, j);
      assert less - {k} == m - {k} - {j};
    }
  }

  lemma SumUpdate<K, V>(m: map<K, V>, size: V -> nat, k: K, v: V)
    ensures SumBy(m[k := v], size) == SumBy(m - {k}, size) + size(v)
    ensures SumBy(m - {k}, size) == SumBy(m, size) - if k in m then size(m[k]) else 0
  {
    hide SumBy;
    SumWithout(m[k := v], size, k);
    assert m[k := v] - {k} == m - {k};
    if k in m { SumWithout(m, size, k); } else { assert m - {k} == m; }
  }

  lemma SumEmpty<K, V>(m: map<K, V>, size: V -> nat)
    requires |m| == 0
    ensures SumBy(m, size) == 0
  {
  }
}
