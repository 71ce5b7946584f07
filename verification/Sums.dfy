/** Sums over finite maps. */
module Sums {

  /** The sum of all values of a map. */
  ghost function Sum<K(!new)>(m: map<K, nat>): nat
    decreases |m|
  {
    if m == map[] then 0 else var k :| k in m; m[k] + Sum(m - {k})
  }

  /** Any key can be split off. */
  lemma {:induction false} SumSplit<K(!new)>(m: map<K, nat>, k: K)
    requires k in m
    ensures Sum(m) == m[k] + Sum(m - {k})
    decreases |m|
  {
    var j :| j in m && Sum(m) == m[j] + Sum(m - {j});
    if j != k {
      SumSplit(m - {j}, k);
      SumSplit(m - {k}, j);
      assert m - {j} - {k} == m - {k} - {j};
    }
  }

  /** Setting one entry changes the sum by the difference. */
  lemma SumUpdate<K(!new)>(m: map<K, nat>, k: K, n: nat)
    ensures Sum(m[k := n]) == Sum(m) + n - (if k in m then m[k] else 0)
  {
    var m' := m[k := n];
    SumSplit(m', k);
    assert m' - {k} == m - {k};
    if k in m {
      SumSplit(m, k);
    } else {
      assert m - {k} == m;
    }
  }

  /** An entry is at most the sum. */
  lemma EntryBound<K(!new)>(m: map<K, nat>, k: K)
    requires k in m
    ensures m[k] <= Sum(m)
  {
    SumSplit(m, k);
  }

  /** Two different entries together are at most the sum. */
  lemma PairBound<K(!new)>(m: map<K, nat>, j: K, k: K)
    requires j in m && k in m && j != k
    ensures m[j] + m[k] <= Sum(m)
  {
    SumSplit(m, j);
    SumSplit(m - {j}, k);
  }

  /** Pointwise larger maps with the same keys have larger sums; one strict entry makes it strict. */
  lemma {:induction false} SumMonotone<K(!new)>(m: map<K, nat>, n: map<K, nat>)
    requires m.Keys == n.Keys && forall k :: k in m ==> m[k] <= n[k]
    ensures Sum(m) <= Sum(n)
    decreases |m|
  {
    if m != map[] {
      var k :| k in m;
      SumSplit(m, k);
      SumSplit(n, k);
      SumMonotone(m - {k}, n - {k});
    }
  }

  lemma SumStrict<K(!new)>(m: map<K, nat>, n: map<K, nat>, k: K)
    requires m.Keys == n.Keys && forall j :: j in m ==> m[j] <= n[j]
    requires k in m && m[k] < n[k]
    ensures Sum(m) < Sum(n)
  {
    SumSplit(m, k);
    SumSplit(n, k);
    SumMonotone(m - {k}, n - {k});
  }

  /** An upper bound on every entry bounds the sum. */
  lemma {:induction false} SumBound<K(!new)>(m: map<K, nat>, c: nat)
    requires forall k :: k in m ==> m[k] <= c
    ensures Sum(m) <= |m| * c
    decreases |m|
  {
    if m != map[] {
      var k :| k in m;
      SumSplit(m, k);
      var rest := m - {k};
      SumBound(rest, c);
      assert m.Keys == rest.Keys + {k};
      assert |m| == |rest| + 1;
      OneMore(|rest|, c);
    }
  }

  lemma OneMore(n: nat, c: nat)
    ensures (n + 1) * c == n * c + c
  {
  }
}
