/** Sums over finite maps, independent of the order in which the keys are visited. */
module Sums {

  ghost function Sum<K(!new)>(m: map<K, real>): real
    decreases |m|
  {
    if m == map[] then 0.0
    else
      var k :| k in m;
      m[k] + Sum(m - {k})
  }

  lemma SomeKey<K(!new), V>(m: map<K, V>) returns (k: K)
    requires m != map[]
    ensures k in m
  {
    k :| k in m;
  }

  lemma {:induction false} SumAt<K(!new)>(m: map<K, real>, k: K)
    requires k in m
    ensures Sum(m) == m[k] + Sum(m - {k})
    decreases |m|
  {
    var j :| j in m && Sum(m) == m[j] + Sum(m - {j});
    if j != k {
      SumAt(m - {j}, k);
      SumAt(m - {k}, j);
      assert m - {j} - {k} == m - {k} - {j};
    }
  }

  lemma SumUpdate<K(!new)>(m: map<K, real>, k: K, x: real)
    ensures Sum(m[k := x]) == Sum(m) + x - (if k in m then m[k] else 0.0)
  {
    SumAt(m[k := x], k);
    assert m[k := x] - {k} == m - {k};
    if k in m {
      SumAt(m, k);
    } else {
      assert m - {k} == m;
    }
  }

  /** Keys that hold zero do not count. */
  lemma {:induction false} SumExtend<K(!new)>(m: map<K, real>, n: map<K, real>)
    requires m.Keys <= n.Keys
    requires forall k :: k in n ==> n[k] == if k in m then m[k] else 0.0
    ensures Sum(n) == Sum(m)
    decreases |n|
  {
    if k :| k in n && k !in m {
      SumAt(n, k);
      SumExtend(m, n - {k});
    } else {
      assert m == n;
    }
  }

  lemma {:induction false} SumPointwise<K(!new)>(m: map<K, real>, a: map<K, real>, b: map<K, real>)
    requires m.Keys == a.Keys == b.Keys
    requires forall k :: k in m ==> m[k] == a[k] + b[k]
    ensures Sum(m) == Sum(a) + Sum(b)
    decreases |m|
  {
    if k :| k in m {
      SumAt(m, k);
      SumAt(a, k);
      SumAt(b, k);
      SumPointwise(m - {k}, a - {k}, b - {k});
    } else {
      assert m == map[] && a == map[] && b == map[];
    }
  }
}
