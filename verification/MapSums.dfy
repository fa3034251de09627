/** Counting: one for what is the case, and sums over the values of a map. */
module MapSums {

  function One(b: bool): nat { if b then 1 else 0 }

  ghost function Sum<K, V>(m: map<K, V>, f: V -> nat): nat {
    if m == map[] then 0
    else
      var k :| k in m;
      f(m[k]) + Sum(m - {k}, f)
  }

  /** The sum does not depend on the order in which keys are taken. */
  lemma {:induction false} SumRemove<K, V>(m: map<K, V>, f: V -> nat, k: K)
    requires k in m
    ensures Sum(m, f) == f(m[k]) + Sum(m - {k}, f)
    decreases m
  {
    var j :| j in m && Sum(m, f) == f(m[j]) + Sum(m - {j}, f);
    if j != k {
      SumRemove(m - {j}, f, k);
      SumRemove(m - {k}, f, j);
      assert m - {j} - {k} == m - {k} - {j};
    }
  }

  lemma SumUpdate<K, V>(m: map<K, V>, f: V -> nat, k: K, v: V)
    ensures Sum(m[k := v], f) == f(v) + Sum(m - {k}, f)
    ensures Sum(m[k := v], f) + (if k in m then f(m[k]) else 0) == Sum(m, f) + f(v)
  {
    var m' := m[k := v];
    SumRemove(m', f, k);
    assert m' - {k} == m - {k};
    if k in m {
      SumRemove(m, f, k);
    } else {
      assert m - {k} == m;
    }
  }
}
