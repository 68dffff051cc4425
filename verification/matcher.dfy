/**
  The nearest-driver choice of the dispatcher: a left fold over the
  distances of the available drivers that replaces the current best only on
  a strictly smaller distance, so the earliest of several equally near
  drivers wins.
 */
module Matcher {

  /** `k` indexes a smallest element of `ds`, and every earlier element is strictly larger. */
  predicate IsFirstMin(ds: seq<real>, k: int) {
    && 0 <= k < |ds|
    && (forall j :: 0 <= j < |ds| ==> ds[k] <= ds[j])
    && (forall j :: 0 <= j < k ==> ds[k] < ds[j])
  }

  /** The index the fold `ds.reduce((best, cur) => cur < best ? cur : best)` ends on. */
  function NearestIndex(ds: seq<real>): (k: nat)
    requires |ds| > 0
    ensures IsFirstMin(ds, k)
  {
    ReduceFrom(ds, 0, 1)
  }

  /** One step of the fold: `best` is the winner among `ds[..i]`. */
  function ReduceFrom(ds: seq<real>, best: nat, i: nat): (k: nat)
    requires best < i <= |ds|
    requires forall j :: 0 <= j < i ==> ds[best] <= ds[j]
    requires forall j :: 0 <= j < best ==> ds[best] < ds[j]
    ensures IsFirstMin(ds, k)
    decreases |ds| - i
  {
    if i == |ds| then best
    else ReduceFrom(ds, if ds[i] < ds[best] then i else best, i + 1)
  }

  /** The first minimum is unique, so the fold's choice is the only one meeting `IsFirstMin`. */
  lemma FirstMinUnique(ds: seq<real>, k: int)
    requires IsFirstMin(ds, k)
    ensures NearestIndex(ds) == k
  {
  }
}
