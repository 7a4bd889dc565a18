/**
 Sums over finite maps and duplicate-free listings of their keys.
 */
module Sums {

  ghost function Sum<K(!new)>(m: map<K, int>): int {
    if m == map[] then 0
    else
      var k :| k in m;
      m[k] + Sum(m - {k})
  }

  lemma {:induction false} SumRemove<K(!new)>(m: map<K, int>, k: K)
    requires k in m
    ensures Sum(m) == m[k] + Sum(m - {k})
    decreases |m|
  {
    var j :| j in m && Sum(m) == m[j] + Sum(m - {j});
    if j != k {
      SumRemove(m - {j}, k);
      SumRemove(m - {k}, j);
      assert m - {j} - {k} == m - {k} - {j};
    }
  }

  lemma SumUpdate<K(!new)>(m: map<K, int>, k: K, v: int)
    ensures Sum(m[k := v]) == Sum(m) - (if k in m then m[k] else 0) + v
  {
    var n := m[k := v];
    SumRemove(n, k);
    assert n - {k} == m - {k};
    if k in m {
      SumRemove(m, k);
    } else {
      assert m - {k} == m;
    }
  }

  lemma {:induction false} SumNonNegative<K(!new)>(m: map<K, int>)
    requires forall k | k in m :: m[k] >= 0
    ensures Sum(m) >= 0
    decreases |m|
  {
    if m != map[] {
      var k :| k in m;
      SumRemove(m, k);
      SumNonNegative(m - {k});
    }
  }

  /** A listing of the keys of a map: each key once, in some order. */
  ghost predicate Lists<K(!new), V>(order: seq<K>, m: map<K, V>) {
    && (forall k :: k in m <==> k in order)
    && (forall i, j :: 0 <= i < j < |order| ==> order[i] != order[j])
  }

  /** Sum of the values in the order of a listing. */
  ghost function SumListed<K(!new)>(order: seq<K>, m: map<K, int>): int
    requires forall k | k in order :: k in m
  {
    if order == [] then 0
    else SumListed(order[..|order| - 1], m) + m[order[|order| - 1]]
  }

  lemma {:induction false} ListedIsSum<K(!new)>(order: seq<K>, m: map<K, int>)
    requires Lists(order, m)
    ensures SumListed(order, m) == Sum(m)
    decreases |order|
  {
    if order == [] {
      assert m.Keys == {};
    } else {
      var last, rest := order[|order| - 1], order[..|order| - 1];
      assert last in order;
      var m' := m - {last};
      forall k ensures k in m' <==> k in rest {
        if k in rest { var i :| 0 <= i < |rest| && rest[i] == k; assert order[i] == k; assert k in order; }
        if k in m' { assert k in order; var i :| 0 <= i < |order| && order[i] == k; assert rest[i] == k; }
      }
      ListedIsSum(rest, m');
      ListedAgree(rest, m, m');
      SumRemove(m, last);
    }
  }

  lemma {:induction false} ListedAgree<K(!new)>(order: seq<K>, m: map<K, int>, n: map<K, int>)
    requires forall k | k in order :: k in m && k in n && m[k] == n[k]
    ensures SumListed(order, m) == SumListed(order, n)
  {
    if order != [] { ListedAgree(order[..|order| - 1], m, n); }
  }
}
