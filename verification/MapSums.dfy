/** Sums over the values of a finite map: the iterator sums over a HashMap's values. */
module MapSums {

  ghost function Sum<K(!new)>(m: map<K, real>): real {
    if m == map[] then 0.0
    else
      var k :| k in m;
      m[k] + Sum(m - {k})
  }

  /** Any key may be taken out first: the sum does not depend on the iteration order. */
  lemma {:induction false} SumTakesOut<K(!new)>(m: map<K, real>, k: K)
    requires k in m
    ensures Sum(m) == m[k] + Sum(m - {k})
    decreases |m|
  {
    var j :| j in m && Sum(m) == m[j] + Sum(m - {j});
    if j != k {
      assert (m - {j}).Keys == m.Keys - {j};
      assert (m - {k}).Keys == m.Keys - {k};
      SumTakesOut(m - {j}, k);
      SumTakesOut(m - {k}, j);
      assert m - {j} - {k} == m - {k} - {j};
    }
  }

  /** Writing one entry changes the sum by exactly the change of that entry. */
  lemma SumUpdate<K(!new)>(m: map<K, real>, k: K, v: real)
    ensures Sum(m[k := v]) == Sum(m) + v - (if k in m then m[k] else 0.0)
  {
    SumTakesOut(m[k := v], k);
    if k in m {
      SumTakesOut(m, k);
      assert m[k := v] - {k} == m - {k};
    } else {
      assert m[k := v] - {k} == m;
    }
  }

  lemma {:induction false} SumAllZero<K(!new)>(m: map<K, real>)
    requires forall k :: k in m ==> m[k] == 0.0
    ensures Sum(m) == 0.0
    decreases |m|
  {
    if m != map[] {
      var k :| k in m && Sum(m) == m[k] + Sum(m - {k});
      assert (m - {k}).Keys == m.Keys - {k};
      SumAllZero(m - {k});
    }
  }

  lemma {:induction false} SumMonotone<K(!new)>(a: map<K, real>, b: map<K, real>)
    requires a.Keys == b.Keys
    requires forall k :: k in a ==> a[k] <= b[k]
    ensures Sum(a) <= Sum(b)
    decreases |a|
  {
    if a != map[] {
      var k :| k in a;
      SumTakesOut(a, k);
      SumTakesOut(b, k);
      assert (a - {k}).Keys == a.Keys - {k} == (b - {k}).Keys;
      SumMonotone(a - {k}, b - {k});
    }
  }

  /** A sum of non-negative entries is at least each of them. */
  lemma SumAtLeastEntry<K(!new)>(m: map<K, real>, k: K)
    requires k in m
    requires forall j :: j in m ==> m[j] >= 0.0
    ensures m[k] <= Sum(m)
  {
    SumTakesOut(m, k);
    var zeros := map j | j in m - {k} :: 0.0;
    SumAllZero(zeros);
    SumMonotone(zeros, m - {k});
  }

  /** Sums add entry by entry. */
  lemma {:induction false} SumAdds<K(!new)>(a: map<K, real>, b: map<K, real>, c: map<K, real>)
    requires a.Keys == b.Keys == c.Keys
    requires forall k :: k in a ==> c[k] == a[k] + b[k]
    ensures Sum(c) == Sum(a) + Sum(b)
    decreases |a|
  {
    if a == map[] {
      assert b == map[] && c == map[];
    } else {
      var k :| k in a;
      SumTakesOut(a, k);
      SumTakesOut(b, k);
      SumTakesOut(c, k);
      assert (a - {k}).Keys == (b - {k}).Keys == (c - {k}).Keys == a.Keys - {k};
      SumAdds(a - {k}, b - {k}, c - {k});
    }
  }
}
