/**
 * The services the replication code consumes but does not implement:
 * the nodelet count, the replicated/striped allocator and memcpy.
 * A machine has `nodelets >= 1` memory regions numbered 0..nodelets-1;
 * the nodelet a thread currently runs on (NODE_ID) is passed to each
 * operation that needs it as `here`.
 */
module Platform {

  /** Which execution policy a traversal was asked to use. */
  datatype Policy = Sequenced | Parallel(grain: int)

  /**
   * The result of anything that allocates: the new block or object, or
   * the fatal out-of-memory report with the number of bytes requested.
   * The source aborts on the report; the model returns it and leaves the
   * state as it was.
   */
  datatype Outcome<B> = Ok(value: B) | OutOfMemory(bytes: nat)

  /** A signed 64-bit integer (int64_t, long). */
  newtype Int64 = x: int | -0x8000_0000_0000_0000 <= x < 0x8000_0000_0000_0000

  /** Size in bytes of one striped element (the containers hold 64-bit words). */
  const WordBytes: nat := 8

  /** A machine description is usable when it has at least one nodelet. */
  predicate ValidMachine(nodelets: nat, here: nat)
  {
    0 < nodelets && here < nodelets
  }

  /**
   * The external allocator. Whether a request is granted is its own
   * decision and is passed in as `granted`; `freed` logs every block
   * handed back, so a double free shows as a count of two.
   */
  class Allocator {
    ghost var freed: multiset<object>

    constructor ()
      ensures freed == multiset{}
    {
      freed := multiset{};
    }

    /** mw_malloc1dlong: one striped block of `size` 64-bit elements. */
    method AllocateStriped<T(0)>(size: nat, granted: bool) returns (r: Outcome<array<T>>)
      ensures granted <==> r.Ok?
      ensures r.Ok? ==> fresh(r.value) && r.value.Length == size
      ensures r.OutOfMemory? ==> r.bytes == size * WordBytes
    {
      if granted {
        var block := new T[size];
        r := Ok(block);
      } else {
        r := OutOfMemory(size * WordBytes);
      }
    }

    /** mw_mallocrepl: one block of `count` elements on each of `nodelets` nodelets. */
    method AllocateReplicated<T(0)>(nodelets: nat, count: nat, elemBytes: nat, granted: bool)
      returns (r: Outcome<array2<T>>)
      ensures granted <==> r.Ok?
      ensures r.Ok? ==> fresh(r.value) && r.value.Length0 == nodelets && r.value.Length1 == count
      ensures r.OutOfMemory? ==> r.bytes == elemBytes * count * nodelets
    {
      if granted {
        var block := new T[nodelets, count];
        r := Ok(block);
      } else {
        r := OutOfMemory(elemBytes * count * nodelets);
      }
    }

    /** mw_free. */
    ghost method Free(block: object)
      modifies this
      ensures freed == old(freed) + multiset{block}
    {
      freed := freed + multiset{block};
    }
  }

  /** memcpy of `count` elements between two distinct blocks. */
  method Memcpy<T>(dst: array<T>, src: array<T>, count: nat)
    requires dst != src
    requires count <= dst.Length && count <= src.Length
    modifies dst
    ensures dst[..count] == src[..count]
    ensures dst[count..] == old(dst[count..])
  {
    var i := 0;
    while i < count
      invariant 0 <= i <= count
      invariant dst[..i] == src[..i]
      invariant dst[count..] == old(dst[count..])
    {
      dst[i] := src[i];
      i := i + 1;
    }
  }

  /** memcpy of `count` elements from row `srcRow` of `src` into row `dstRow` of `dst`. */
  method MemcpyRow<T>(dst: array2<T>, dstRow: nat, src: array2<T>, srcRow: nat, count: nat)
    requires dst != src
    requires dstRow < dst.Length0 && srcRow < src.Length0
    requires count <= dst.Length1 && count <= src.Length1
    modifies dst
    ensures forall j :: 0 <= j < count ==> dst[dstRow, j] == src[srcRow, j]
    ensures forall i, j :: 0 <= i < dst.Length0 && 0 <= j < dst.Length1 && (i != dstRow || count <= j) ==>
              dst[i, j] == old(dst[i, j])
  {
    var j := 0;
    while j < count
      invariant 0 <= j <= count
      invariant forall k :: 0 <= k < j ==> dst[dstRow, k] == src[srcRow, k]
      invariant forall i, k :: 0 <= i < dst.Length0 && 0 <= k < dst.Length1 && (i != dstRow || j <= k) ==>
                  dst[i, k] == old(dst[i, k])
    {
      dst[dstRow, j] := src[srcRow, j];
      j := j + 1;
    }
  }

  /** The nodelet indices b, b+1, ..., e-1 in increasing order. */
  function Range(b: int, e: int): (r: seq<int>)
    ensures |r| == if b <= e then e - b else 0
    ensures forall k :: 0 <= k < |r| ==> r[k] == b + k
    decreases e - b
  {
    if e <= b then [] else [b] + Range(b + 1, e)
  }

  /** Consecutive ranges concatenate. */
  lemma RangeSplit(b: int, m: int, e: int)
    requires b <= m <= e
    ensures Range(b, m) + Range(m, e) == Range(b, e)
  {
    var l, r, all := Range(b, m), Range(m, e), Range(b, e);
    assert |l + r| == |all|;
    forall k | 0 <= k < |all|
      ensures (l + r)[k] == all[k]
    {
      if k >= |l| { assert (l + r)[k] == r[k - |l|]; }
    }
  }

  /** Every index of [b, e) occurs exactly once in Range(b, e), and nothing else occurs. */
  lemma {:induction false} RangeOnce(b: int, e: int, i: int)
    ensures multiset(Range(b, e))[i] == if b <= i < e then 1 else 0
    decreases e - b
  {
    if b < e {
      RangeOnce(b + 1, e, i);
      assert Range(b, e) == [b] + Range(b + 1, e);
    }
  }

  /** Sum of a sequence of integers, built from the left (last element added last). */
  function Sum(s: seq<int>): int
  {
    if s == [] then 0 else Sum(s[..|s| - 1]) + s[|s| - 1]
  }

  /** Sum of the sums of several sequences. */
  function SumAll(ss: seq<seq<int>>): int
  {
    if ss == [] then 0 else SumAll(ss[..|ss| - 1]) + Sum(ss[|ss| - 1])
  }

  /** The left fold reduce(...reduce(reduce(s[0], s[1]), s[2])..., s[|s|-1]). */
  function FoldLeft<T>(reduce: (T, T) -> T, s: seq<T>): T
    requires |s| >= 1
  {
    if |s| == 1 then s[0] else reduce(FoldLeft(reduce, s[..|s| - 1]), s[|s| - 1])
  }
}
