/**
  Sequence helpers shared by the store and the analytics: filtering (the
  model of `Array.prototype.filter`), duplicate-freedom, summation, and the
  values of a map listed in insertion order (the model of iterating a
  JavaScript `Map`).
 */
module Seqs {

  /** No element occurs twice. */
  predicate NoDup<T(==)>(xs: seq<T>) {
    forall i, j :: 0 <= i < j < |xs| ==> xs[i] != xs[j]
  }

  /** The elements of `xs` that satisfy `p`, in their original order. */
  function Filter<T(==)>(xs: seq<T>, p: T -> bool): (r: seq<T>)
    ensures |r| <= |xs|
    ensures forall i :: 0 <= i < |r| ==> r[i] in xs && p(r[i])
    ensures forall i :: 0 <= i < |xs| && p(xs[i]) ==> xs[i] in r
  {
    if |xs| == 0 then []
    else (if p(xs[0]) then [xs[0]] else []) + Filter(xs[1..], p)
  }

  /** Filtering a duplicate-free sequence yields a duplicate-free sequence. */
  lemma {:induction false} FilterNoDup<T>(xs: seq<T>, p: T -> bool)
    requires NoDup(xs)
    ensures NoDup(Filter(xs, p))
  {
    if |xs| > 0 {
      FilterNoDup(xs[1..], p);
      var rest := Filter(xs[1..], p);
      assert xs[0] !in xs[1..];
      assert xs[0] !in rest;
    }
  }

  /** An element that passes the filter appears in its result; `i` is where. */
  lemma {:induction false} FilterPosition<T>(xs: seq<T>, p: T -> bool, a: int) returns (i: int)
    requires 0 <= a < |xs| && p(xs[a])
    ensures 0 <= i < |Filter(xs, p)| && Filter(xs, p)[i] == xs[a]
  {
    var head := if p(xs[0]) then [xs[0]] else [];
    assert Filter(xs, p) == head + Filter(xs[1..], p);
    if a == 0 {
      i := 0;
    } else {
      var i' := FilterPosition(xs[1..], p, a - 1);
      i := i' + |head|;
    }
  }

  /** Filtering keeps the relative order of the elements it keeps; `i` and `j` are their new places. */
  lemma {:induction false} FilterKeepsOrder<T>(xs: seq<T>, p: T -> bool, a: int, b: int) returns (i: int, j: int)
    requires 0 <= a < b < |xs|
    requires p(xs[a]) && p(xs[b])
    ensures 0 <= i < j < |Filter(xs, p)| && Filter(xs, p)[i] == xs[a] && Filter(xs, p)[j] == xs[b]
  {
    var head := if p(xs[0]) then [xs[0]] else [];
    assert Filter(xs, p) == head + Filter(xs[1..], p);
    if a == 0 {
      var j' := FilterPosition(xs[1..], p, b - 1);
      i, j := 0, j' + 1;
    } else {
      var i', j' := FilterKeepsOrder(xs[1..], p, a - 1, b - 1);
      i, j := i' + |head|, j' + |head|;
    }
  }

  /**
    Any two places of the filtered sequence come from two places of the
    input in the same order; `a` and `b` are those places.
   */
  lemma {:induction false} FilterSourceOrder<T>(xs: seq<T>, p: T -> bool, i: int, j: int) returns (a: int, b: int)
    requires 0 <= i < j < |Filter(xs, p)|
    ensures 0 <= a < b < |xs| && xs[a] == Filter(xs, p)[i] && xs[b] == Filter(xs, p)[j]
  {
    var head := if p(xs[0]) then [xs[0]] else [];
    var rest := Filter(xs[1..], p);
    assert Filter(xs, p) == head + rest;
    if |head| == 1 && i == 0 {
      assert rest[j - 1] in xs[1..];
      var b' :| 0 <= b' < |xs[1..]| && xs[1..][b'] == rest[j - 1];
      a, b := 0, b' + 1;
    } else {
      var a', b' := FilterSourceOrder(xs[1..], p, i - |head|, j - |head|);
      a, b := a' + 1, b' + 1;
    }
  }

  /** Filtering distributes over concatenation. */
  lemma {:induction false} FilterAppend<T>(xs: seq<T>, ys: seq<T>, p: T -> bool)
    ensures Filter(xs + ys, p) == Filter(xs, p) + Filter(ys, p)
  {
    if |xs| == 0 {
      assert xs + ys == ys;
    } else {
      assert (xs + ys)[1..] == xs[1..] + ys;
      FilterAppend(xs[1..], ys, p);
    }
  }

  /**
    Filtering a sequence with `x` put between two parts gives the filtered
    parts with `x` after them, when nothing after `x` passes alongside it.
   */
  lemma FilterMoveToEnd<T>(xs: seq<T>, x: T, ys: seq<T>, p: T -> bool)
    requires p(x) ==> Filter(ys, p) == []
    ensures Filter(xs + [x] + ys, p) == Filter(xs + ys, p) + (if p(x) then [x] else [])
  {
    var fx, fy := Filter(xs, p), Filter(ys, p);
    var fone := if p(x) then [x] else [];
    assert Filter([x], p) == fone by {
      assert [x][1..] == [];
    }
    FilterAppend(xs, [x], p);
    FilterAppend(xs + [x], ys, p);
    FilterAppend(xs, ys, p);
    if p(x) {
      assert fy == [];
      assert fx + fone + fy == fx + fone;
      assert fx + fy == fx;
    } else {
      assert fone == [];
      assert fx + fone == fx;
      assert fx + fy + fone == fx + fy;
    }
  }

  /** Filtering a non-empty sequence: filter all but the last element, then the last. */
  lemma FilterSnoc<T>(xs: seq<T>, p: T -> bool)
    requires |xs| > 0
    ensures var last := xs[|xs| - 1];
      Filter(xs, p) == Filter(xs[..|xs| - 1], p) + (if p(last) then [last] else [])
  {
    var init, last := xs[..|xs| - 1], xs[|xs| - 1];
    assert xs == init + [last];
    FilterAppend(init, [last], p);
    assert [last][1..] == [];
    assert Filter([last], p) == (if p(last) then [last] else []);
  }

  /** Putting `x` in front of `xs` with `y` inserted at `k` is inserting `y` at `k + 1` of `[x] + xs`. */
  lemma ConsInsertAt<T>(x: T, xs: seq<T>, k: int, y: T)
    requires 0 <= k <= |xs|
    ensures [x] + (xs[..k] + [y] + xs[k..]) == ([x] + xs)[..k + 1] + [y] + ([x] + xs)[k + 1..]
  {
    assert ([x] + xs)[..k + 1] == [x] + xs[..k];
    assert ([x] + xs)[k + 1..] == xs[k..];
  }

  /** Sum of `f` over the elements of `xs`. */
  function SumBy<T>(xs: seq<T>, f: T -> int): int {
    if |xs| == 0 then 0 else f(xs[0]) + SumBy(xs[1..], f)
  }

  /**
    Replacing one element changes the filtered length by the difference of
    the two elements' membership.
   */
  lemma {:induction false} FilterLengthUpdate<T>(xs: seq<T>, i: int, v: T, p: T -> bool)
    requires 0 <= i < |xs|
    ensures |Filter(xs[i := v], p)| == |Filter(xs, p)| - (if p(xs[i]) then 1 else 0) + (if p(v) then 1 else 0)
  {
    if i > 0 {
      assert xs[i := v][1..] == xs[1..][i - 1 := v];
      FilterLengthUpdate(xs[1..], i - 1, v, p);
    } else {
      assert xs[i := v][1..] == xs[1..];
    }
  }

  /**
    Replacing one element changes the filtered sum by the difference of the
    two elements' contributions.
   */
  lemma {:induction false} FilterSumUpdate<T>(xs: seq<T>, i: int, v: T, p: T -> bool, f: T -> int)
    requires 0 <= i < |xs|
    ensures SumBy(Filter(xs[i := v], p), f)
         == SumBy(Filter(xs, p), f) - (if p(xs[i]) then f(xs[i]) else 0) + (if p(v) then f(v) else 0)
  {
    var head := if p(xs[0]) then [xs[0]] else [];
    SumAppend(head, Filter(xs[1..], p), f);
    if i > 0 {
      assert xs[i := v][1..] == xs[1..][i - 1 := v];
      assert xs[i := v][0] == xs[0];
      SumAppend(head, Filter(xs[1..][i - 1 := v], p), f);
      FilterSumUpdate(xs[1..], i - 1, v, p, f);
    } else {
      assert xs[i := v][1..] == xs[1..];
      var head' := if p(v) then [v] else [];
      SumAppend(head', Filter(xs[1..], p), f);
    }
  }

  /** Sums distribute over concatenation. */
  lemma {:induction false} SumAppend<T>(xs: seq<T>, ys: seq<T>, f: T -> int)
    ensures SumBy(xs + ys, f) == SumBy(xs, f) + SumBy(ys, f)
  {
    if |xs| > 0 {
      assert (xs + ys)[0] == xs[0];
      assert (xs + ys)[1..] == xs[1..] + ys;
      SumAppend(xs[1..], ys, f);
    } else {
      assert xs + ys == ys;
    }
  }

  /** A sum of non-negative terms is non-negative. */
  lemma {:induction false} SumNonNegative<T>(xs: seq<T>, f: T -> int)
    requires forall i :: 0 <= i < |xs| ==> f(xs[i]) >= 0
    ensures SumBy(xs, f) >= 0
  {
    if |xs| > 0 {
      SumNonNegative(xs[1..], f);
    }
  }

  /** With no negative term, every term is at most the sum. */
  lemma {:induction false} SumAtLeastEachTerm<T>(xs: seq<T>, f: T -> int, i: int)
    requires forall j :: 0 <= j < |xs| ==> f(xs[j]) >= 0
    requires 0 <= i < |xs|
    ensures f(xs[i]) <= SumBy(xs, f)
  {
    if i == 0 {
      SumNonNegative(xs[1..], f);
    } else {
      SumAtLeastEachTerm(xs[1..], f, i - 1);
    }
  }

  /**
    The values of `m` listed in the order of `order`, skipping keys that
    are not in the map: how a JavaScript `Map` is iterated when `order` is
    its insertion order.
   */
  function ValuesInOrder<K, V(==)>(order: seq<K>, m: map<K, V>): (r: seq<V>)
    ensures |r| <= |order|
    ensures forall i :: 0 <= i < |r| ==> r[i] in m.Values
    ensures forall i :: 0 <= i < |order| && order[i] in m ==> m[order[i]] in r
  {
    if |order| == 0 then []
    else (if order[0] in m then [m[order[0]]] else []) + ValuesInOrder(order[1..], m)
  }

  /** When every listed key is present, each key contributes exactly its value. */
  lemma {:induction false} ValuesInOrderAllPresent<K, V>(order: seq<K>, m: map<K, V>)
    requires forall i :: 0 <= i < |order| ==> order[i] in m
    ensures |ValuesInOrder(order, m)| == |order|
    ensures forall i :: 0 <= i < |order| ==> ValuesInOrder(order, m)[i] == m[order[i]]
  {
    if |order| > 0 {
      ValuesInOrderAllPresent(order[1..], m);
    }
  }

  /** Changing the value of one listed key changes exactly that key's entry. */
  lemma {:induction false} ValuesInOrderUpdate<K, V>(order: seq<K>, m: map<K, V>, p: int, v: V)
    requires NoDup(order)
    requires forall i :: 0 <= i < |order| ==> order[i] in m
    requires 0 <= p < |order|
    ensures |ValuesInOrder(order, m)| == |order|
    ensures ValuesInOrder(order, m[order[p] := v]) == ValuesInOrder(order, m)[p := v]
  {
    var m' := m[order[p] := v];
    ValuesInOrderAllPresent(order, m);
    ValuesInOrderAllPresent(order, m');
    forall i | 0 <= i < |order|
      ensures ValuesInOrder(order, m')[i] == ValuesInOrder(order, m)[p := v][i]
    {
      if i != p {
        assert order[i] != order[p];
      }
    }
  }

  /** A prefix holds no element more often than the whole sequence. */
  lemma PrefixMultiset<T>(xs: seq<T>, k: int)
    requires 0 <= k <= |xs|
    ensures multiset(xs[..k]) <= multiset(xs)
  {
    assert xs == xs[..k] + xs[k..];
  }

  /** A duplicate-free sequence has as many elements as its set of elements. */
  lemma {:induction false} NoDupCardinality<T>(xs: seq<T>)
    requires NoDup(xs)
    ensures |set x | x in xs| == |xs|
  {
    if |xs| > 0 {
      NoDupCardinality(xs[1..]);
      assert xs[0] !in xs[1..];
      assert (set x | x in xs) == {xs[0]} + (set x | x in xs[1..]);
    }
  }
}
