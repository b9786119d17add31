/**
 * emu::parallel::transform over zipped ranges (transform_zip.h). The
 * input and output cursors are zipped together and every position of the
 * input range is visited once, writing the operation's result at the
 * matching output position. Cursors are positions into arrays; the
 * for_each the work is handed to is modelled as a loop over positions in
 * increasing order, whatever the policy.
 */
module TransformZip {
  import opened Platform

  /**
   * The policy the overloads without one use. Its value has no effect on
   * the result, since every policy writes the same elements.
   */
  const DefaultPolicy: Policy := Sequenced

  /** op applied to every element of s. */
  function Map<A, B>(op: A -> B, s: seq<A>): (r: seq<B>)
    ensures |r| == |s|
    ensures forall k :: 0 <= k < |s| ==> r[k] == op(s[k])
  {
    if s == [] then [] else Map(op, s[..|s| - 1]) + [op(s[|s| - 1])]
  }

  /** binary op applied to the elements of a and b at the same position. */
  function Map2<A, B, C>(op: (A, B) -> C, a: seq<A>, b: seq<B>): (r: seq<C>)
    requires |a| == |b|
    ensures |r| == |a|
    ensures forall k :: 0 <= k < |a| ==> r[k] == op(a[k], b[k])
  {
    if a == [] then [] else Map2(op, a[..|a| - 1], b[..|b| - 1]) + [op(a[|a| - 1], b[|b| - 1])]
  }

  /**
   * Unary transform(policy, first1, last1, first2, op): for every k in
   * [0, last1-first1), dst[first2+k] becomes op(src[first1+k]); no other
   * element of dst is written. The ranges are either in different arrays
   * or the same range (an in-place transform).
   */
  method Transform<A, B>(policy: Policy, src: array<A>, first1: int, last1: int,
                         dst: array<B>, first2: int, op: A -> B)
    requires 0 <= first1 <= last1 <= src.Length
    requires 0 <= first2 && first2 + (last1 - first1) <= dst.Length
    requires src as object != dst as object || first1 == first2
    modifies dst
    ensures dst[first2..first2 + (last1 - first1)] == Map(op, old(src[first1..last1]))
    ensures forall i :: 0 <= i < dst.Length && !(first2 <= i < first2 + (last1 - first1)) ==>
              dst[i] == old(dst[i])
  {
    ghost var input := src[first1..last1];
    var last2 := first2 + (last1 - first1);
    var it1, it2 := first1, first2;
    while it1 != last1
      invariant first1 <= it1 <= last1 && it2 == first2 + (it1 - first1)
      invariant src as object != dst as object ==> src[first1..last1] == input
      invariant src as object == dst as object ==> forall i :: it1 <= i < last1 ==> src[i] == input[i - first1]
      invariant forall k :: 0 <= k < it1 - first1 ==> dst[first2 + k] == op(input[k])
      invariant forall i :: 0 <= i < dst.Length && !(first2 <= i < it2) ==> dst[i] == old(dst[i])
    {
      dst[it2] := op(src[it1]);
      it1, it2 := it1 + 1, it2 + 1;
    }
    assert it2 == last2;
    assert forall k :: 0 <= k < last1 - first1 ==> dst[first2..last2][k] == dst[first2 + k];
  }

  /** transform(first1, last1, first2, op): the same as with the default policy. */
  method TransformDefault<A, B>(src: array<A>, first1: int, last1: int, dst: array<B>, first2: int, op: A -> B)
    requires 0 <= first1 <= last1 <= src.Length
    requires 0 <= first2 && first2 + (last1 - first1) <= dst.Length
    requires src as object != dst as object || first1 == first2
    modifies dst
    ensures dst[first2..first2 + (last1 - first1)] == Map(op, old(src[first1..last1]))
    ensures forall i :: 0 <= i < dst.Length && !(first2 <= i < first2 + (last1 - first1)) ==>
              dst[i] == old(dst[i])
  {
    Transform(DefaultPolicy, src, first1, last1, dst, first2, op);
  }

  /**
   * Binary transform(policy, first1, last1, first2, first3, op): for every
   * k in [0, last1-first1), out[first3+k] becomes op(a[first1+k],
   * b[first2+k]); no other element of out is written. The output range is
   * in a different array from each input range, or is that same range.
   */
  method Transform2<A, B, C>(policy: Policy, a: array<A>, first1: int, last1: int,
                             b: array<B>, first2: int, out: array<C>, first3: int, op: (A, B) -> C)
    requires 0 <= first1 <= last1 <= a.Length
    requires 0 <= first2 && first2 + (last1 - first1) <= b.Length
    requires 0 <= first3 && first3 + (last1 - first1) <= out.Length
    requires a as object != out as object || first1 == first3
    requires b as object != out as object || first2 == first3
    modifies out
    ensures out[first3..first3 + (last1 - first1)]
         == Map2(op, old(a[first1..last1]), old(b[first2..first2 + (last1 - first1)]))
    ensures forall i :: 0 <= i < out.Length && !(first3 <= i < first3 + (last1 - first1)) ==>
              out[i] == old(out[i])
  {
    ghost var inA, inB := a[first1..last1], b[first2..first2 + (last1 - first1)];
    var last3 := first3 + (last1 - first1);
    var it1, it2, it3 := first1, first2, first3;
    while it1 != last1
      invariant first1 <= it1 <= last1 && it2 == first2 + (it1 - first1) && it3 == first3 + (it1 - first1)
      invariant forall i :: it1 <= i < last1 ==> a[i] == inA[i - first1]
      invariant forall i :: it2 <= i < first2 + (last1 - first1) ==> b[i] == inB[i - first2]
      invariant forall k :: 0 <= k < it1 - first1 ==> out[first3 + k] == op(inA[k], inB[k])
      invariant forall i :: 0 <= i < out.Length && !(first3 <= i < it3) ==> out[i] == old(out[i])
    {
      out[it3] := op(a[it1], b[it2]);
      it1, it2, it3 := it1 + 1, it2 + 1, it3 + 1;
    }
    assert it3 == last3;
    assert forall k :: 0 <= k < last1 - first1 ==> out[first3..last3][k] == out[first3 + k];
  }

  /** transform(first1, last1, first2, first3, op): the same as with the default policy. */
  method Transform2Default<A, B, C>(a: array<A>, first1: int, last1: int,
                                    b: array<B>, first2: int, out: array<C>, first3: int, op: (A, B) -> C)
    requires 0 <= first1 <= last1 <= a.Length
    requires 0 <= first2 && first2 + (last1 - first1) <= b.Length
    requires 0 <= first3 && first3 + (last1 - first1) <= out.Length
    requires a as object != out as object || first1 == first3
    requires b as object != out as object || first2 == first3
    modifies out
    ensures out[first3..first3 + (last1 - first1)]
         == Map2(op, old(a[first1..last1]), old(b[first2..first2 + (last1 - first1)]))
    ensures forall i :: 0 <= i < out.Length && !(first3 <= i < first3 + (last1 - first1)) ==>
              out[i] == old(out[i])
  {
    Transform2(DefaultPolicy, a, first1, last1, b, first2, out, first3, op);
  }
}
