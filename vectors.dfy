/** The list arithmetic the aggregation and the merge use, on reals. */
module Vectors {

  function Min(a: int, b: int): int { if a <= b then a else b }

  /** list(map(add, a, b)): element-wise sum, stopping at the shorter list. */
  function AddVec(a: seq<real>, b: seq<real>): (c: seq<real>)
    ensures |c| == Min(|a|, |b|)
    ensures forall i :: 0 <= i < |c| ==> c[i] == a[i] + b[i]
  {
    seq(Min(|a|, |b|), i requires 0 <= i < Min(|a|, |b|) => a[i] + b[i])
  }

  /** [x / c for x in v] */
  function DivVec(v: seq<real>, c: real): (w: seq<real>)
    requires c != 0.0
    ensures |w| == |v|
    ensures forall i :: 0 <= i < |v| ==> w[i] == v[i] / c
  {
    seq(|v|, i requires 0 <= i < |v| => v[i] / c)
  }

  /** The running element-wise sum of vs, started from its first vector. */
  function SumVecs(vs: seq<seq<real>>): (s: seq<real>)
    requires |vs| > 0
    ensures forall k :: 0 <= k < |vs| ==> |s| <= |vs[k]|
    ensures (forall k :: 0 <= k < |vs| ==> |vs[k]| == |vs[0]|) ==> |s| == |vs[0]|
  {
    if |vs| == 1 then vs[0] else AddVec(SumVecs(vs[..|vs| - 1]), vs[|vs| - 1])
  }

  lemma DivByOne(v: seq<real>)
    ensures DivVec(v, 1.0) == v
  {
  }
}
