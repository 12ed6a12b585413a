/** Boolean-mask indexing `xs[keep]`, as numpy does it: the elements whose
    flag is set, in their original order. */
module Selection {

  /** The positions of the set flags of `keep`, ascending. */
  function Indices(keep: seq<bool>): (ix: seq<nat>)
    ensures |ix| <= |keep|
    ensures forall k :: 0 <= k < |ix| ==> ix[k] < |keep| && keep[ix[k]]
    ensures forall k, l :: 0 <= k < l < |ix| ==> ix[k] < ix[l]
    ensures forall i :: 0 <= i < |keep| && keep[i] ==> i in ix
  {
    if |keep| == 0 then []
    else
      var n := |keep| - 1;
      Indices(keep[..n]) + (if keep[n] then [n] else [])
  }

  /** `xs[keep]`: element k of the result is element `Indices(keep)[k]` of `xs`. */
  function Mask<T>(xs: seq<T>, keep: seq<bool>): (ys: seq<T>)
    requires |xs| == |keep|
    ensures |ys| == |Indices(keep)|
    ensures forall k :: 0 <= k < |ys| ==> ys[k] == xs[Indices(keep)[k]]
  {
    if |xs| == 0 then []
    else
      var n := |xs| - 1;
      Mask(xs[..n], keep[..n]) + (if keep[n] then [xs[n]] else [])
  }
}
