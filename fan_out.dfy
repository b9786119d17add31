/**
 * repl_for_each: apply a worker to every nodelet's copy of a replicated
 * object. A replicated object is seen here as its array of slots, one per
 * nodelet; the worker is the update it makes to one slot. The parallel
 * version halves the range, hands the upper half to a spawned task and
 * keeps halving the lower half until it is at most `grain` wide, then runs
 * the sequential loop on it. The spawn is modelled as a recursive call.
 */
module FanOut {
  import opened Platform

  /** The half-open range [lo, hi) of nodelets one sequential leaf visits. */
  datatype Leaf = Leaf(lo: int, hi: int)

  /**
   * The leaves the parallel traversal of [b, e) runs, in nodelet order.
   * A range wider than `grain` is split at b + (e-b)/2; the upper half is
   * the spawned task's, the lower half is split again by the same loop.
   */
  function Leaves(grain: int, b: int, e: int): seq<Leaf>
    requires grain >= 1 && b <= e
    decreases e - b
  {
    if e - b <= grain then [Leaf(b, e)]
    else
      var mid := b + (e - b) / 2;
      Leaves(grain, b, mid) + Leaves(grain, mid, e)
  }

  /**
   * The leaves tile [b, e): the first starts at b, the last ends at e,
   * each ends where the next starts, none is wider than `grain`, and
   * none is empty unless the whole range is.
   */
  lemma {:induction false} LeavesTile(grain: int, b: int, e: int)
    requires grain >= 1 && b <= e
    ensures var r := Leaves(grain, b, e);
      && |r| >= 1 && r[0].lo == b && r[|r| - 1].hi == e
      && (forall k :: 0 <= k < |r| - 1 ==> r[k].hi == r[k + 1].lo)
      && (forall k :: 0 <= k < |r| ==> r[k].lo <= r[k].hi && r[k].hi - r[k].lo <= grain)
      && (b < e ==> forall k :: 0 <= k < |r| ==> r[k].lo < r[k].hi)
    decreases e - b
  {
    if e - b > grain {
      var mid := b + (e - b) / 2;
      LeavesTile(grain, b, mid);
      LeavesTile(grain, mid, e);
      var l, u := Leaves(grain, b, mid), Leaves(grain, mid, e);
      var r := l + u;
      assert Leaves(grain, b, e) == r;
      forall k | 0 <= k < |r| - 1
        ensures r[k].hi == r[k + 1].lo
      {
        if k == |l| - 1 {
          assert r[k] == l[|l| - 1] && r[k + 1] == u[0];
        } else if k < |l| - 1 {
          assert r[k] == l[k] && r[k + 1] == l[k + 1];
        } else {
          assert r[k] == u[k - |l|] && r[k + 1] == u[k - |l| + 1];
        }
      }
      forall k | 0 <= k < |r|
        ensures r[k].lo <= r[k].hi && r[k].hi - r[k].lo <= grain && (b < e ==> r[k].lo < r[k].hi)
      {
        if k < |l| { assert r[k] == l[k]; } else { assert r[k] == u[k - |l|]; }
      }
    }
  }

  /** The nodelets visited by running the leaves one after another. */
  function Visits(leaves: seq<Leaf>): seq<int>
  {
    if leaves == [] then [] else Range(leaves[0].lo, leaves[0].hi) + Visits(leaves[1..])
  }

  lemma {:induction false} VisitsConcat(a: seq<Leaf>, b: seq<Leaf>)
    ensures Visits(a + b) == Visits(a) + Visits(b)
  {
    if a == [] {
      assert a + b == b;
    } else {
      assert (a + b)[0] == a[0];
      assert (a + b)[1..] == a[1..] + b;
      VisitsConcat(a[1..], b);
    }
  }

  /** Running all leaves visits exactly the nodelets b, ..., e-1 in order. */
  lemma {:induction false} LeavesVisitRange(grain: int, b: int, e: int)
    requires grain >= 1 && b <= e
    ensures Visits(Leaves(grain, b, e)) == Range(b, e)
    decreases e - b
  {
    if e - b <= grain {
      assert Visits([Leaf(b, e)]) == Range(b, e) + Visits([]);
    } else {
      var mid := b + (e - b) / 2;
      LeavesVisitRange(grain, b, mid);
      LeavesVisitRange(grain, mid, e);
      VisitsConcat(Leaves(grain, b, mid), Leaves(grain, mid, e));
      RangeSplit(b, mid, e);
    }
  }

  /** Whatever the grain, every nodelet of [b, e) is visited exactly once and no other is. */
  lemma VisitedExactlyOnce(grain: int, b: int, e: int, i: int)
    requires grain >= 1 && b <= e
    ensures multiset(Visits(Leaves(grain, b, e)))[i] == if b <= i < e then 1 else 0
  {
    LeavesVisitRange(grain, b, e);
    RangeOnce(b, e, i);
  }

  /** With grain 1 the range is split all the way down: leaf k is exactly nodelet b + k. */
  lemma {:induction false} GrainOneSplitsFully(b: int, e: int)
    requires b < e
    ensures |Leaves(1, b, e)| == e - b
    ensures forall k :: 0 <= k < e - b ==> Leaves(1, b, e)[k] == Leaf(b + k, b + k + 1)
  {
    LeavesTile(1, b, e);
    var r := Leaves(1, b, e);
    var k := 0;
    while k < |r|
      invariant 0 <= k <= |r|
      invariant forall j :: 0 <= j < k ==> r[j] == Leaf(b + j, b + j + 1)
    {
      if k > 0 { assert r[k - 1].hi == r[k].lo; }
      k := k + 1;
    }
    assert r[|r| - 1].hi == b + |r|;
  }

  /** A grain at least as wide as the range gives one leaf: fully serial execution. */
  lemma WideGrainIsSerial(grain: int, b: int, e: int)
    requires b <= e && grain >= 1 && grain >= e - b
    ensures Leaves(grain, b, e) == [Leaf(b, e)]
  {
  }

  /**
   * detail::repl_for_each with the sequenced policy: apply the worker to
   * slots b, ..., e-1 in increasing order. `visited` is the order of calls.
   */
  method SeqForEach<T>(slots: array<T>, b: int, e: int, worker: T -> T) returns (visited: seq<int>)
    requires 0 <= b <= e <= slots.Length
    modifies slots
    ensures visited == Range(b, e)
    ensures forall i :: b <= i < e ==> slots[i] == worker(old(slots[i]))
    ensures forall i :: 0 <= i < slots.Length && !(b <= i < e) ==> slots[i] == old(slots[i])
  {
    visited := [];
    var nlet := b;
    while nlet < e
      invariant b <= nlet <= e
      invariant visited == Range(b, nlet)
      invariant forall i :: b <= i < nlet ==> slots[i] == worker(old(slots[i]))
      invariant forall i :: 0 <= i < slots.Length && !(b <= i < nlet) ==> slots[i] == old(slots[i])
    {
      slots[nlet] := worker(slots[nlet]);
      RangeSplit(b, nlet, nlet + 1);
      visited := visited + [nlet];
      nlet := nlet + 1;
    }
  }

  /**
   * detail::repl_for_each with a parallel policy of grain `grain`: the
   * leaves it runs are Leaves(grain, b, e), and every slot of [b, e) is
   * updated by the worker once, whatever the grain.
   */
  method ParForEach<T>(grain: int, slots: array<T>, b: int, e: int, worker: T -> T)
    returns (leaves: seq<Leaf>)
    requires grain >= 1
    requires 0 <= b <= e <= slots.Length
    modifies slots
    ensures leaves == Leaves(grain, b, e)
    ensures forall i :: b <= i < e ==> slots[i] == worker(old(slots[i]))
    ensures forall i :: 0 <= i < slots.Length && !(b <= i < e) ==> slots[i] == old(slots[i])
    decreases e - b
  {
    var nletEnd := e;
    var upper: seq<Leaf> := [];
    while true
      invariant b <= nletEnd <= e
      invariant Leaves(grain, b, nletEnd) + upper == Leaves(grain, b, e)
      invariant forall i :: nletEnd <= i < e ==> slots[i] == worker(old(slots[i]))
      invariant forall i :: 0 <= i < slots.Length && !(nletEnd <= i < e) ==> slots[i] == old(slots[i])
      decreases nletEnd - b
    {
      var count := nletEnd - b;
      if count <= grain { break; }
      var mid := b + count / 2;
      assert Leaves(grain, b, nletEnd) == Leaves(grain, b, mid) + Leaves(grain, mid, nletEnd);
      // the spawned task covering the upper half
      var spawned := ParForEach(grain, slots, mid, nletEnd, worker);
      upper := spawned + upper;
      nletEnd := mid;
    }
    var _ := SeqForEach(slots, b, nletEnd, worker);
    assert Leaves(grain, b, nletEnd) == [Leaf(b, nletEnd)];
    leaves := [Leaf(b, nletEnd)] + upper;
  }

  /**
   * Public repl_for_each: covers every nodelet [0, nodelets) of a
   * replicated object (one slot per nodelet) under the given policy.
   */
  method ReplForEach<T>(policy: Policy, nodelets: nat, slots: array<T>, worker: T -> T)
    requires policy.Parallel? ==> policy.grain >= 1
    requires slots.Length == nodelets
    modifies slots
    ensures forall i :: 0 <= i < nodelets ==> slots[i] == worker(old(slots[i]))
  {
    match policy {
      case Sequenced =>
        var _ := SeqForEach(slots, 0, nodelets, worker);
      case Parallel(grain) =>
        var _ := ParForEach(grain, slots, 0, nodelets, worker);
    }
  }

  /** repl_for_each without a policy: the sequenced traversal of all nodelets. */
  method ReplForEachSeq<T>(nodelets: nat, slots: array<T>, worker: T -> T) returns (visited: seq<int>)
    requires slots.Length == nodelets
    modifies slots
    ensures visited == Range(0, nodelets)
    ensures forall i :: 0 <= i < nodelets ==> slots[i] == worker(old(slots[i]))
  {
    visited := SeqForEach(slots, 0, nodelets, worker);
  }
}
