/** Sums of integer-valued finite maps. */
module Sums {

  ghost function Sum<K>(m: map<K, int>): int {
    if m == map[] then 0
    else var k :| k in m; m[k] + Sum(m - {k})
  }

  /** Which key is taken out first does not matter. */
  lemma {:induction false} SumRemove<K>(m: map<K, int>, k: K)
    requires k in m
    ensures Sum(m) == m[k] + Sum(m - {k})
    decreases |m|
  {
    var j :| j in m && Sum(m) == m[j] + Sum(m - {j});
    if j != k {
      SumRemove(m - {j}, k);
      SumRemove(m - {k}, j);
      assert m - {j} - {k} == m - {k} - {j};
    }
  }

  lemma SumUpdate<K>(m: map<K, int>, k: K, v: int)
    ensures Sum(m[k := v]) == Sum(m) + v - (if k in m then m[k] else 0)
  {
    SumRemove(m[k := v], k);
    assert m[k := v] - {k} == m - {k};
    if k in m {
      SumRemove(m, k);
    } else {
      assert m - {k} == m;
    }
  }

  /** Dropping keys and lowering values can only lower a sum of non-negative values. */
  lemma {:induction false} SumMonotone<K>(m: map<K, int>, n: map<K, int>)
    requires m.Keys <= n.Keys
    requires forall k :: k in m ==> m[k] <= n[k]
    requires forall k :: k in n ==> 0 <= n[k]
    ensures Sum(m) <= Sum(n)
    decreases |n|
  {
    if n != map[] {
      var k :| k in n;
      SumRemove(n, k);
      if k in m {
        SumRemove(m, k);
        SumMonotone(m - {k}, n - {k});
      } else {
        assert m - {k} == m;
        SumMonotone(m, n - {k});
      }
    }
  }

  lemma {:induction false} SumNonNegative<K>(m: map<K, int>)
    requires forall k :: k in m ==> 0 <= m[k]
    ensures 0 <= Sum(m)
  {
    SumMonotone(map[], m);
  }

  lemma PutBack<K>(m: map<K, int>, n: map<K, int>, k: K)
    requires m.Keys !! n.Keys && k in m
    ensures ((m - {k}) + n)[k := m[k]] == m + n
    ensures k !in (m - {k}) + n
  {
    var whole := ((m - {k}) + n)[k := m[k]];
    assert whole.Keys == (m + n).Keys;
    forall j | j in whole
      ensures whole[j] == (m + n)[j]
    {
    }
  }

  lemma {:induction false} SumDisjoint<K>(m: map<K, int>, n: map<K, int>)
    requires m.Keys !! n.Keys
    ensures Sum(m + n) == Sum(m) + Sum(n)
    decreases |m|
  {
    if m == map[] {
      assert m + n == n;
    } else {
      var k :| k in m;
      SumRemove(m, k);
      SumDisjoint(m - {k}, n);
      SumUpdate((m - {k}) + n, k, m[k]);
      PutBack(m, n, k);
    }
  }
}
