/** Sequence operations the views build on: `Array.prototype.filter`, the
    first-seen order of distinct keys that d3's grouping produces, and keyed
    sums (what d3's `rollup` with a counting or summing reducer computes). */
module Seqs {

  predicate Distinct<T(==)>(xs: seq<T>) {
    forall i, j :: 0 <= i < j < |xs| ==> xs[i] != xs[j]
  }

  /** `r` is `xs` with some elements left out and the rest in their original order. */
  predicate IsSubsequence<T(==)>(r: seq<T>, xs: seq<T>)
    decreases |xs|
  {
    if r == [] then true
    else if xs == [] then false
    else (r[0] == xs[0] && IsSubsequence(r[1..], xs[1..])) || IsSubsequence(r, xs[1..])
  }

  /** `xs.filter(p)`. */
  function Filter<T(==)>(xs: seq<T>, p: T -> bool): (r: seq<T>)
    ensures |r| <= |xs|
    ensures forall i :: 0 <= i < |r| ==> r[i] in xs && p(r[i])
    ensures forall i :: 0 <= i < |xs| && p(xs[i]) ==> xs[i] in r
    ensures IsSubsequence(r, xs)
  {
    if xs == [] then []
    else if p(xs[0]) then [xs[0]] + Filter(xs[1..], p)
    else Filter(xs[1..], p)
  }

  lemma {:induction false} FilterAppend<T>(a: seq<T>, b: seq<T>, p: T -> bool)
    ensures Filter(a + b, p) == Filter(a, p) + Filter(b, p)
  {
    if a == [] {
      assert a + b == b;
    } else {
      assert (a + b)[1..] == a[1..] + b;
      FilterAppend(a[1..], b, p);
    }
  }

  /** Filtering a list without repeats gives a list without repeats. */
  lemma {:induction false} FilterDistinct<T>(xs: seq<T>, p: T -> bool)
    requires Distinct(xs)
    ensures Distinct(Filter(xs, p))
  {
    if xs != [] {
      var rest := Filter(xs[1..], p);
      assert Distinct(xs[1..]);
      FilterDistinct(xs[1..], p);
      if p(xs[0]) {
        assert xs[0] !in xs[1..];
        assert xs[0] !in rest;
        assert Filter(xs, p) == [xs[0]] + rest;
      }
    }
  }

  /** Distinct elements of `xs` in the order they are first seen (the key
      order of a JavaScript `Map` filled from `xs`). */
  function Dedup<T(==)>(xs: seq<T>): (r: seq<T>)
    ensures Distinct(r)
    ensures forall i :: 0 <= i < |r| ==> r[i] in xs
    ensures forall i :: 0 <= i < |xs| ==> xs[i] in r
  {
    if xs == [] then []
    else
      var d := Dedup(xs[..|xs| - 1]);
      assert forall i :: 0 <= i < |xs| - 1 ==> xs[i] == xs[..|xs| - 1][i];
      if xs[|xs| - 1] in d then d else d + [xs[|xs| - 1]]
  }

  /** Sum of the weights of the entries whose key is `k`. */
  function WeightOf<K(==)>(xs: seq<(K, nat)>, k: K): nat {
    if xs == [] then 0
    else (if xs[0].0 == k then xs[0].1 else 0) + WeightOf(xs[1..], k)
  }

  /** Sum of all weights. */
  function Total<K>(xs: seq<(K, nat)>): nat {
    if xs == [] then 0 else xs[0].1 + Total(xs[1..])
  }

  /** Sum, over the listed keys, of the weight each key collects. */
  function SumOverKeys<K(==)>(keys: seq<K>, xs: seq<(K, nat)>): nat {
    if keys == [] then 0 else WeightOf(xs, keys[0]) + SumOverKeys(keys[1..], xs)
  }

  function Indicator<K(==)>(keys: seq<K>, k: K, w: nat): nat {
    if keys == [] then 0 else (if keys[0] == k then w else 0) + Indicator(keys[1..], k, w)
  }

  lemma {:induction false} SumOverKeysCons<K>(keys: seq<K>, h: (K, nat), t: seq<(K, nat)>)
    ensures SumOverKeys(keys, [h] + t) == Indicator(keys, h.0, h.1) + SumOverKeys(keys, t)
  {
    if keys != [] {
      assert ([h] + t)[1..] == t;
      SumOverKeysCons(keys[1..], h, t);
    }
  }

  lemma {:induction false} IndicatorOfDistinct<K>(keys: seq<K>, k: K, w: nat)
    requires Distinct(keys)
    ensures Indicator(keys, k, w) == if k in keys then w else 0
  {
    if keys != [] {
      assert Distinct(keys[1..]);
      IndicatorOfDistinct(keys[1..], k, w);
      assert k in keys <==> keys[0] == k || k in keys[1..];
      if keys[0] == k {
        assert k !in keys[1..];
      }
    }
  }

  /** Grouping by key loses nothing: summing the per-key totals over a list
      of distinct keys that covers every entry's key gives the grand total. */
  lemma {:induction false} KeyedSumIsTotal<K>(keys: seq<K>, xs: seq<(K, nat)>)
    requires Distinct(keys)
    requires forall i :: 0 <= i < |xs| ==> xs[i].0 in keys
    ensures SumOverKeys(keys, xs) == Total(xs)
  {
    if xs == [] {
      ZeroWeights(keys, xs);
    } else {
      assert xs == [xs[0]] + xs[1..];
      SumOverKeysCons(keys, xs[0], xs[1..]);
      IndicatorOfDistinct(keys, xs[0].0, xs[0].1);
      KeyedSumIsTotal(keys, xs[1..]);
    }
  }

  lemma {:induction false} ZeroWeights<K>(keys: seq<K>, xs: seq<(K, nat)>)
    requires xs == []
    ensures SumOverKeys(keys, xs) == 0
  {
    if keys != [] {
      ZeroWeights(keys[1..], xs);
    }
  }

  lemma {:induction false} TotalAppend<K>(a: seq<(K, nat)>, b: seq<(K, nat)>)
    ensures Total(a + b) == Total(a) + Total(b)
  {
    if a == [] {
      assert a + b == b;
    } else {
      assert (a + b)[1..] == a[1..] + b;
      TotalAppend(a[1..], b);
    }
  }
}
