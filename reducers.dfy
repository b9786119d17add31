/**
 * reducer_base / reducer_opadd (reducers.h): a tree of accumulators. Each
 * reducer owns a local accumulator and points at a target accumulator.
 * A root targets its own local accumulator; a copy targets what its source
 * targets. Destroying a reducer folds its local value into a target other
 * than its own accumulator. Only the integer monoid op_add is modelled.
 */
module Reducers {
  import opened Platform
  import Replicated

  /** A reduction variable in memory: what local_sum_ is and what global_sum_ points at. */
  class Accumulator {
    var value: int

    constructor (v: int)
      ensures value == v
    {
      value := v;
    }
  }

  /** The value form of op_add<T>::reduce: the sum of the two values. */
  function Combine(a: int, b: int): (r: int)
    ensures r == Sum([a, b])
  {
    assert [a, b][..1] == [a] && [a][..0] == [];
    assert Sum([a]) == a;
    a + b
  }

  /** op_add<T>::identity(): the empty sum, neutral for reduce. */
  function Identity(): (r: int)
    ensures r == Sum([])
    ensures forall x :: Combine(r, x) == x && Combine(x, r) == x
  {
    0
  }

  /** op_add is a monoid: identity is neutral on both sides and reduce is associative. */
  lemma OpAddIsMonoid(a: int, b: int, c: int)
    ensures Combine(Identity(), a) == a && Combine(a, Identity()) == a
    ensures Combine(Combine(a, b), c) == Combine(a, Combine(b, c))
  {
  }

  /** The pointer form of op_add<T>::reduce (remote_add): *acc += v. */
  method ReduceInto(acc: Accumulator, v: int)
    modifies acc
    ensures acc.value == Combine(old(acc.value), v)
  {
    acc.value := acc.value + v;
  }

  class Reducer {
    /** local_sum_. */
    const local: Accumulator
    /** global_sum_: null for a shallow copy. */
    const target: Accumulator?
    /** False once the destructor has run. */
    ghost var alive: bool

    /** A root: its own accumulator is its target. */
    ghost predicate IsRoot()
    {
      target == local
    }

    /** Default constructor: a root with local value identity(). */
    constructor Root()
      ensures fresh(local) && local.value == Identity()
      ensures IsRoot() && alive
    {
      local := new Accumulator(Identity());
      target := local;
      alive := true;
    }

    /** reducer_base(T* global_sum): a branch reducing into `acc`. */
    constructor Branch(acc: Accumulator)
      ensures fresh(local) && local.value == Identity()
      ensures target == acc && !IsRoot() && alive
    {
      local := new Accumulator(Identity());
      target := acc;
      alive := true;
    }

    /**
     * Copy constructor: a fresh local value identity() and the source's
     * target, so a copy of a root reduces into the root and a copy of a
     * branch reduces into that branch's target.
     */
    constructor Copy(other: Reducer)
      ensures fresh(local) && local.value == Identity()
      ensures target == other.target && !IsRoot() && alive
      ensures other.IsRoot() ==> target == other.local
    {
      local := new Accumulator(Identity());
      target := other.target;
      alive := true;
    }

    /** Shallow copy constructor: a new, unconnected reducer whose destruction folds nothing. */
    constructor ShallowCopy(other: Reducer)
      ensures fresh(local) && local.value == Identity()
      ensures target == null && alive
    {
      local := new Accumulator(Identity());
      target := null;
      alive := true;
    }

    /**
     * ~reducer_base: the local value is folded into the target when there
     * is one and it is not the reducer's own accumulator; a root and a
     * shallow copy fold nothing. `alive` makes it happen at most once.
     */
    method Destroy()
      requires alive
      modifies this, target
      ensures !alive
      ensures target != null && target != local ==> target.value == Combine(old(target.value), local.value)
      ensures target == local ==> target.value == old(target.value)
    {
      if target != null && target != local {
        ReduceInto(target, local.value);
      }
      alive := false;
    }

    /** reducer_opadd::operator+=: only the local value changes. */
    method AddAssign(rhs: int)
      modifies local
      ensures local.value == old(local.value) + rhs
    {
      local.value := local.value + rhs;
    }

    /** reducer_opadd::operator++ (prefix and postfix alike): only the local value changes. */
    method Increment()
      modifies local
      ensures local.value == old(local.value) + 1
    {
      local.value := local.value + 1;
    }

    /** get_value() for a reducer that is not in replicated storage: the local value. */
    function GetValue(): (r: int)
      reads this, local
      ensures IsRoot() ==> r == target.value
    {
      local.value
    }
  }

  /** Folding with op_add is summing. */
  lemma {:induction false} FoldCombineIsSum(s: seq<int>)
    requires |s| >= 1
    ensures FoldLeft(Combine, s) == Sum(s)
  {
    if |s| > 1 {
      FoldCombineIsSum(s[..|s| - 1]);
    } else {
      assert s[..0] == [];
    }
  }

  /**
   * get_value() for a reducer in replicated storage: repl_reduce over the
   * local values of every nodelet's copy (locals[k] is nodelet k's), which
   * is their sum.
   */
  method GetValueReplicated(locals: array<int>) returns (value: int)
    requires locals.Length >= 1
    ensures value == Sum(locals[..])
  {
    value := Replicated.ReplReduce(locals, Combine);
    FoldCombineIsSum(locals[..]);
  }

  /** Adds every value in `values` to the reducer's local value, one += at a time. */
  method Accumulate(r: Reducer, values: seq<int>)
    modifies r.local
    ensures r.local.value == old(r.local.value) + Sum(values)
  {
    var i := 0;
    while i < |values|
      invariant 0 <= i <= |values|
      invariant r.local.value == old(r.local.value) + Sum(values[..i])
    {
      assert values[..i + 1][..i] == values[..i];
      r.AddAssign(values[i]);
      i := i + 1;
    }
    assert values[..i] == values;
  }

  /** The sum of Sum(ss[j]) over the indices j < k that are in `done`. */
  function SumOver(ss: seq<seq<int>>, done: set<int>, k: nat): int
    requires k <= |ss|
  {
    if k == 0 then 0 else SumOver(ss, done, k - 1) + (if k - 1 in done then Sum(ss[k - 1]) else 0)
  }

  /** Nothing done contributes nothing. */
  lemma {:induction false} SumOverNone(ss: seq<seq<int>>, k: nat)
    requires k <= |ss|
    ensures SumOver(ss, {}, k) == 0
  {
    if k > 0 {
      SumOverNone(ss, k - 1);
    }
  }

  /** Marking one more index done adds its sum when it is below k. */
  lemma {:induction false} SumOverAdd(ss: seq<seq<int>>, done: set<int>, m: int, k: nat)
    requires k <= |ss| && m !in done
    ensures SumOver(ss, done + {m}, k) == SumOver(ss, done, k) + (if 0 <= m < k then Sum(ss[m]) else 0)
  {
    if k > 0 {
      SumOverAdd(ss, done, m, k - 1);
    }
  }

  /** Once every index below k is done, the sum is that of the first k sequences. */
  lemma {:induction false} SumOverAll(ss: seq<seq<int>>, done: set<int>, k: nat)
    requires k <= |ss|
    requires forall j :: 0 <= j < k ==> j in done
    ensures SumOver(ss, done, k) == SumAll(ss[..k])
  {
    if k > 0 {
      SumOverAll(ss, done, k - 1);
      assert ss[..k][..k - 1] == ss[..k - 1];
    }
  }

  /** A permutation of the indices below count has count entries. */
  lemma PermutationLength(order: seq<int>, count: nat)
    requires multiset(order) == multiset(Range(0, count))
    ensures |order| == count
  {
    assert |multiset(order)| == |multiset(Range(0, count))|;
  }

  /** Entry k of a permutation of the indices below count is such an index, met for the first time. */
  lemma PermutationStep(order: seq<int>, count: nat, k: nat)
    requires multiset(order) == multiset(Range(0, count))
    requires k < |order|
    ensures 0 <= order[k] < count && order[k] !in order[..k]
  {
    var m := order[k];
    assert order == order[..k] + order[k..];
    assert m in multiset(order[k..]) by { assert order[k..][0] == m; }
    RangeOnce(0, count, m);
    assert multiset(order)[m] == multiset(order[..k])[m] + multiset(order[k..])[m];
  }

  /** Every index below count occurs in a permutation of them. */
  lemma PermutationCovers(order: seq<int>, count: nat, x: int)
    requires multiset(order) == multiset(Range(0, count))
    requires 0 <= x < count
    ensures x in order
  {
    RangeOnce(0, count, x);
    assert x in multiset(order);
  }

  /**
   * The use the reducer is made for: a root accumulates `rootValues`; one
   * branch per entry of `branchValues` is made, copy k accumulating
   * branchValues[k], each a copy of the root or (copyPrevious[k]) of the
   * branch made before it. The branches are destroyed in any order
   * (`order`, a permutation of their indices); once every one has been
   * destroyed the root holds the sum of everything accumulated anywhere.
   */
  method RootAndBranches(rootValues: seq<int>, branchValues: seq<seq<int>>, copyPrevious: seq<bool>, order: seq<int>)
    returns (total: int)
    requires |copyPrevious| == |branchValues|
    requires multiset(order) == multiset(Range(0, |branchValues|))
    ensures total == Sum(rootValues) + SumAll(branchValues)
  {
    var root := new Reducer.Root();
    Accumulate(root, rootValues);
    var count := |branchValues|;
    var branches: seq<Reducer> := [];
    var k := 0;
    while k < count
      invariant 0 <= k <= count && |branches| == k
      invariant root.local.value == Sum(rootValues)
      invariant forall j :: 0 <= j < k ==>
                  && fresh(branches[j]) && fresh(branches[j].local) && branches[j].alive
                  && branches[j].target == root.local && branches[j].local != root.local
                  && branches[j].local.value == Sum(branchValues[j])
      invariant forall i, j :: 0 <= i < j < k ==> branches[i] != branches[j] && branches[i].local != branches[j].local
    {
      var b: Reducer;
      if 0 < k && copyPrevious[k] {
        b := new Reducer.Copy(branches[k - 1]);
      } else {
        b := new Reducer.Copy(root);
      }
      Accumulate(b, branchValues[k]);
      branches := branches + [b];
      k := k + 1;
    }
    PermutationLength(order, count);
    ghost var done: set<int> := {};
    SumOverNone(branchValues, count);
    k := 0;
    while k < count
      invariant 0 <= k <= count
      invariant forall x :: x in done <==> x in order[..k]
      invariant root.local.value == Sum(rootValues) + SumOver(branchValues, done, count)
      invariant forall j :: 0 <= j < count ==>
                  && fresh(branches[j]) && fresh(branches[j].local)
                  && branches[j].target == root.local && branches[j].local != root.local
                  && branches[j].local.value == Sum(branchValues[j])
                  && (j !in done ==> branches[j].alive)
      invariant forall i, j :: 0 <= i < j < count ==> branches[i] != branches[j] && branches[i].local != branches[j].local
    {
      var m := order[k];
      PermutationStep(order, count, k);
      SumOverAdd(branchValues, done, m, count);
      branches[m].Destroy();
      assert order[..k + 1] == order[..k] + [m];
      done := done + {m};
      k := k + 1;
    }
    forall x | 0 <= x < count
      ensures x in done
    {
      PermutationCovers(order, count, x);
      assert order[..k] == order;
    }
    SumOverAll(branchValues, done, count);
    assert branchValues[..count] == branchValues;
    total := root.GetValue();
  }
}
