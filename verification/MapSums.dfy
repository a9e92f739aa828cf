/** Sums over the values of a finite map. */
module MapSums {
  ghost function Total<K(!new)>(m: map<K, int>): int
    decreases |m|
  {
    if m == map[] then 0
    else
      var k :| k in m;
      m[k] + Total(m - {k})
  }

  lemma {:induction false} TotalWithout<K(!new)>(m: map<K, int>, k: K)
    requires k in m
    ensures Total(m) == m[k] + Total(m - {k})
    decreases |m|
  {
    var j :| j in m && Total(m) == m[j] + Total(m - {j});
    if j != k {
      TotalWithout(m - {j}, k);
      TotalWithout(m - {k}, j);
      assert (m - {j}) - {k} == (m - {k}) - {j};
    }
  }

  lemma TotalUpdate<K(!new)>(m: map<K, int>, k: K, v: int)
    ensures Total(m[k := v]) == Total(m) - (if k in m then m[k] else 0) + v
  {
    TotalWithout(m[k := v], k);
    if k in m {
      TotalWithout(m, k);
      assert m[k := v] - {k} == m - {k};
    } else {
      assert m[k := v] - {k} == m;
    }
  }

  /** A sum of amounts that are never negative is at least each of them. */
  lemma {:induction false} TotalBounds<K(!new)>(m: map<K, int>, k: K)
    requires forall j :: j in m ==> m[j] >= 0
    ensures Total(m) >= 0 && (k in m ==> Total(m) >= m[k])
    decreases |m|
  {
    if m != map[] {
      var j :| j in m && Total(m) == m[j] + Total(m - {j});
      TotalBounds(m - {j}, k);
    }
  }
}
