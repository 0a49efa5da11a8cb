/** Finite-collection facts shared by every component: ordered iteration over `std::set` and
    `std::map` keys, and sums over maps. */
module Basics {

  datatype Option<+T> = None | Some(value: T)

  // ----- ordered iteration ---------------------------------------------------------------------

  /** The least element: where a `std::set<unsigned long long>` iteration starts. */
  function MinOf(s: set<nat>): (m: nat)
    requires s != {}
    ensures m in s && forall x :: x in s ==> m <= x
  {
    MinExists(s);
    var m :| m in s && forall x :: x in s ==> m <= x;
    m
  }

  lemma {:induction false} MinExists(s: set<nat>)
    requires s != {}
    ensures exists m :: m in s && forall x :: x in s ==> m <= x
  {
    var e :| e in s;
    var below := set x | x in s && x < e;
    if below == {} {
      forall x | x in s ensures e <= x { assert x !in below; }
    } else {
      assert e !in below;
      MinExists(below);
      var m :| m in below && forall x :: x in below ==> m <= x;
      forall x | x in s ensures m <= x { if x < e { assert x in below; } }
    }
  }

  ghost predicate Ascending(keys: seq<nat>) {
    forall i, j :: 0 <= i < j < |keys| ==> keys[i] < keys[j]
  }

  predicate Distinct(s: seq<nat>) { forall i, j :: 0 <= i < j < |s| ==> s[i] != s[j] }

  /** The order in which a `std::map` or `std::set` over unsigned keys is walked. */
  function SortedKeys(s: set<nat>): (keys: seq<nat>)
    ensures Ascending(keys)
    ensures forall k :: k in keys <==> k in s
    decreases |s|
  {
    if s == {} then [] else
      var m := MinOf(s);
      [m] + SortedKeys(s - {m})
  }

  /** Consecutive positions. */
  function Span(first: nat, count: nat): (bytes: set<nat>)
    ensures forall i :: i in bytes <==> first <= i < first + count
    ensures |bytes| == count
  {
    if count == 0 then {} else Span(first, count - 1) + {first + count - 1}
  }

  // ----- sums over maps ------------------------------------------------------------------------

  ghost function Sum<K, T>(m: map<K, T>, weight: T -> nat): nat
    decreases |m|
  {
    if m == map[] then 0 else
      var k :| k in m;
      SmallerMap(m, k);
      weight(m[k]) + Sum(m - {k}, weight)
  }

  lemma SmallerMap<K, T>(m: map<K, T>, k: K)
    requires k in m
    ensures |m - {k}| < |m|
  {
    assert (m - {k}).Keys == m.Keys - {k};
  }

  lemma {:induction false} SumRemove<K, T>(m: map<K, T>, k: K, weight: T -> nat)
    requires k in m
    ensures Sum(m, weight) == weight(m[k]) + Sum(m - {k}, weight)
    decreases |m|
  {
    var first :| first in m && Sum(m, weight) == weight(m[first]) + Sum(m - {first}, weight);
    if first != k {
      SmallerMap(m, first);
      SumRemove(m - {first}, k, weight);
      SmallerMap(m, k);
      SumRemove(m - {k}, first, weight);
      assert m - {first} - {k} == m - {k} - {first};
    }
  }

  lemma SumUpdate<K, T>(m: map<K, T>, k: K, v: T, weight: T -> nat)
    ensures k in m ==> Sum(m[k := v], weight) + weight(m[k]) == Sum(m, weight) + weight(v)
    ensures k !in m ==> Sum(m[k := v], weight) == Sum(m, weight) + weight(v)
  {
    SumRemove(m[k := v], k, weight);
    assert m[k := v] - {k} == m - {k};
    if k in m {
      SumRemove(m, k, weight);
    } else {
      assert m - {k} == m;
    }
  }

  /** A pointwise smaller map (same keys, possibly other weights) has a smaller sum. */
  lemma {:induction false} SumMonotone<K, T>(m: map<K, T>, n: map<K, T>, f: T -> nat, g: T -> nat)
    requires m.Keys == n.Keys
    requires forall k :: k in m ==> f(m[k]) <= g(n[k])
    ensures Sum(m, f) <= Sum(n, g)
    decreases |m|
  {
    if m != map[] {
      var k :| k in m;
      SumRemove(m, k, f);
      SumRemove(n, k, g);
      SmallerMap(m, k);
      SumMonotone(m - {k}, n - {k}, f, g);
    } else {
      assert n == map[];
    }
  }

  /** Strictly smaller at one key: strictly smaller overall. */
  lemma SumStrict<K, T>(m: map<K, T>, n: map<K, T>, f: T -> nat, g: T -> nat, k: K)
    requires m.Keys == n.Keys && k in m
    requires forall j :: j in m ==> f(m[j]) <= g(n[j])
    requires f(m[k]) < g(n[k])
    ensures Sum(m, f) < Sum(n, g)
  {
    SumRemove(m, k, f);
    SumRemove(n, k, g);
    SumMonotone(m - {k}, n - {k}, f, g);
  }
}
