/**
 Sums over finite maps. The queue keeps running totals (active bytes, metric
 counters) by adding and subtracting single entries; the lemmas here say that
 such a total is the sum over the whole map.
 */
module Sums {

  ghost function Sum<K(!new)>(m: map<K, int>): int {
    if m == map[] then 0
    else
      var k :| k in m;
      m[k] + Sum(m - {k})
  }

  /** The choice of the element taken first does not matter. */
  lemma {:induction false} SumRemove<K(!new)>(m: map<K, int>, k: K)
    requires k in m
    ensures Sum(m) == m[k] + Sum(m - {k})
    decreases |m|
  {
    var j :| j in m && Sum(m) == m[j] + Sum(m - {j});
    if j != k {
      SumRemove(m - {j}, k);
      SumRemove(m - {k}, j);
      assert m - {j} - {k} == m - {k} - {j};
    }
  }

  lemma SumInsert<K(!new)>(m: map<K, int>, k: K, v: int)
    requires k !in m
    ensures Sum(m[k := v]) == Sum(m) + v
  {
    SumRemove(m[k := v], k);
    assert m[k := v] - {k} == m;
  }

  lemma SumUpdate<K(!new)>(m: map<K, int>, k: K, v: int)
    requires k in m
    ensures Sum(m[k := v]) == Sum(m) - m[k] + v
  {
    SumRemove(m, k);
    SumRemove(m[k := v], k);
    assert m[k := v] - {k} == m - {k};
  }

  /** Pointwise comparison on a larger domain whose extra values are nonnegative. */
  lemma {:induction false} SumLe<K(!new)>(m: map<K, int>, n: map<K, int>)
    requires m.Keys <= n.Keys
    requires forall k :: k in m ==> m[k] <= n[k]
    requires forall k :: k in n && k !in m ==> 0 <= n[k]
    ensures Sum(m) <= Sum(n)
    decreases |n|
  {
    if n == map[] {
      assert m == map[];
    } else {
      var k :| k in n;
      SumRemove(n, k);
      if k in m {
        SumRemove(m, k);
        SumLe(m - {k}, n - {k});
      } else {
        SumLe(m, n - {k});
      }
    }
  }

  lemma SumNonNegative<K(!new)>(m: map<K, int>)
    requires forall k :: k in m ==> 0 <= m[k]
    ensures 0 <= Sum(m)
    ensures forall k :: k in m ==> m[k] <= Sum(m)
  {
    SumLe(map[], m);
    forall k | k in m ensures m[k] <= Sum(m) {
      SumRemove(m, k);
      SumLe(map[], m - {k});
    }
  }

  function ValueAt<K>(m: map<K, int>, k: K): int {
    if k in m then m[k] else 0
  }

  lemma SumWithout<K(!new)>(m: map<K, int>, k: K)
    ensures Sum(m) == ValueAt(m, k) + Sum(m - {k})
    ensures forall j :: j != k ==> ValueAt(m - {k}, j) == ValueAt(m, j)
  {
    if k in m {
      SumRemove(m, k);
    } else {
      assert m - {k} == m;
    }
  }

  lemma SumEmpty<K(!new)>(m: map<K, int>)
    requires m == map[]
    ensures Sum(m) == 0
  {
  }

  /** An equation that holds key by key holds for the sums. */
  lemma {:induction false} SumBalance<K(!new)>(a: map<K, int>, b: map<K, int>, c: map<K, int>, d: map<K, int>,
                                               rest: map<K, int>)
    requires a.Keys + b.Keys + c.Keys + d.Keys <= rest.Keys
    requires forall k :: k in rest ==> ValueAt(a, k) + ValueAt(b, k) + rest[k] == ValueAt(c, k) + ValueAt(d, k)
    ensures Sum(a) + Sum(b) + Sum(rest) == Sum(c) + Sum(d)
    decreases |rest|
  {
    hide Sum, ValueAt;
    if rest == map[] {
      SumEmpty(a);
      SumEmpty(b);
      SumEmpty(c);
      SumEmpty(d);
      SumEmpty(rest);
    } else {
      var k :| k in rest;
      SumWithout(a, k);
      SumWithout(b, k);
      SumWithout(c, k);
      SumWithout(d, k);
      SumRemove(rest, k);
      SumBalance(a - {k}, b - {k}, c - {k}, d - {k}, rest - {k});
    }
  }

  lemma {:induction false} SumZero<K(!new)>(m: map<K, int>)
    requires forall k :: k in m ==> m[k] == 0
    ensures Sum(m) == 0
    decreases |m|
  {
    if m != map[] {
      var k :| k in m;
      SumRemove(m, k);
      SumZero(m - {k});
    }
  }
}
