/**
 * The replication wrappers of replicated.h. A replicated object owns one
 * slot per nodelet (`slots`, of length `nodelets`); get_nth(n) is slot n,
 * and "the local copy" is the slot of the nodelet the caller runs on
 * (`here`). The ghost counters `constructed` and `destroyed` record, per
 * slot, how many times T's constructor and destructor ran on it.
 */
module Replicated {
  import opened Platform

  /**
   * How repl_shallow makes a remote copy of T: memcpy for trivially
   * copyable T, otherwise T's "shallow copy constructor".
   */
  datatype CopyRule<!T> = Bytewise | ShallowCtor(copy: T -> T)
  {
    function Apply(x: T): (r: T)
      ensures Bytewise? ==> r == x
    {
      match this
      case Bytewise => x
      case ShallowCtor(copy) => copy(x)
    }
  }

  /** Swap slot i of `a` with slot i of `b` for every i (the two may be the same object). */
  method SwapSlots<T>(a: array<T>, b: array<T>)
    requires a.Length == b.Length
    modifies a, b
    ensures forall i :: 0 <= i < a.Length ==> a[i] == old(b[i]) && b[i] == old(a[i])
  {
    var nlet := 0;
    while nlet < a.Length
      invariant 0 <= nlet <= a.Length
      invariant forall i :: 0 <= i < nlet ==> a[i] == old(b[i]) && b[i] == old(a[i])
      invariant forall i :: nlet <= i < a.Length ==> a[i] == old(a[i]) && b[i] == old(b[i])
    {
      var t := a[nlet];
      a[nlet] := b[nlet];
      b[nlet] := t;
      nlet := nlet + 1;
    }
  }

  /** Write `v` into every slot (the broadcast loop of the assignment operators). */
  method Broadcast<T>(slots: array<T>, v: T)
    modifies slots
    ensures forall i :: 0 <= i < slots.Length ==> slots[i] == v
  {
    var i := 0;
    while i < slots.Length
      invariant 0 <= i <= slots.Length
      invariant forall j :: 0 <= j < i ==> slots[j] == v
    {
      slots[i] := v;
      i := i + 1;
    }
  }

  /** repl<T>: a primitive value with one copy per nodelet, assigned by broadcast. */
  class Repl<T(0)> {
    const nodelets: nat
    const slots: array<T>

    ghost predicate Valid()
    {
      0 < nodelets && slots.Length == nodelets
    }

    /** The defaulted constructor: one slot per nodelet, contents indeterminate. */
    constructor Default(nodelets: nat)
      requires 0 < nodelets
      ensures Valid() && this.nodelets == nodelets && fresh(slots)
    {
      this.nodelets := nodelets;
      slots := new T[nodelets];
    }

    /** repl(T x): every nodelet's copy is x. */
    constructor (nodelets: nat, x: T)
      requires 0 < nodelets
      ensures Valid() && this.nodelets == nodelets && fresh(slots)
      ensures forall i :: 0 <= i < nodelets ==> slots[i] == x
    {
      this.nodelets := nodelets;
      slots := new T[nodelets];
      new;
      Assign(x);
    }

    /** Copy constructor: every copy is the source's local value. */
    constructor Copy(other: Repl<T>, here: nat)
      requires other.Valid() && here < other.nodelets
      ensures Valid() && nodelets == other.nodelets && fresh(slots)
      ensures forall i :: 0 <= i < nodelets ==> slots[i] == other.slots[here]
    {
      nodelets := other.nodelets;
      slots := new T[other.nodelets];
      new;
      Assign(other.slots[here]);
    }

    /** operator=(const T&): broadcast rhs to every nodelet's copy. */
    method Assign(rhs: T)
      requires Valid()
      modifies slots
      ensures forall i :: 0 <= i < nodelets ==> slots[i] == rhs
    {
      Broadcast(slots, rhs);
    }

    /** get_nth(n): the copy on nodelet n. */
    function GetNth(n: int): (r: T)
      requires Valid() && 0 <= n < nodelets
      reads slots
      ensures r == slots[n]
    {
      slots[n]
    }

    /** operator T& / get(): the copy on the caller's nodelet. */
    function Local(here: nat): (r: T)
      requires Valid() && here < nodelets
      reads slots
      ensures r == GetNth(here)
    {
      slots[here]
    }
  }

  /** repl_shallow<T>: built once locally, then shallow-copied to every other nodelet. */
  class ReplShallow<T(0)> {
    const nodelets: nat
    const slots: array<T>
    ghost var constructed: seq<nat>
    ghost var destroyed: seq<nat>

    ghost predicate Valid()
      reads this
    {
      0 < nodelets && slots.Length == nodelets && |constructed| == nodelets && |destroyed| == nodelets
    }

    /**
     * repl_shallow(args...): T's constructor built `local` on nodelet
     * `here`; every other slot receives rule.Apply(local). Each slot is
     * constructed exactly once; for a bytewise copy all slots are equal.
     */
    constructor (nodelets: nat, here: nat, local: T, rule: CopyRule<T>)
      requires ValidMachine(nodelets, here)
      ensures Valid() && this.nodelets == nodelets && fresh(slots)
      ensures slots[here] == local
      ensures forall i :: 0 <= i < nodelets && i != here ==> slots[i] == rule.Apply(local)
      ensures rule.Bytewise? ==> forall i :: 0 <= i < nodelets ==> slots[i] == local
      ensures forall i :: 0 <= i < nodelets ==> constructed[i] == 1 && destroyed[i] == 0
    {
      this.nodelets := nodelets;
      slots := new T[nodelets];
      constructed := seq(nodelets, i => if i == here then 1 else 0);
      destroyed := seq(nodelets, i => 0);
      new;
      slots[here] := local;
      var i := 0;
      while i < nodelets
        invariant 0 <= i <= nodelets
        invariant |constructed| == nodelets && |destroyed| == nodelets
        invariant slots[here] == local
        invariant forall j :: 0 <= j < i && j != here ==> slots[j] == rule.Apply(local)
        invariant forall j :: 0 <= j < nodelets ==> destroyed[j] == 0
        invariant forall j :: 0 <= j < nodelets ==> constructed[j] == if j == here || j < i then 1 else 0
      {
        if i != here {
          slots[i] := rule.Apply(local);
          constructed := constructed[i := constructed[i] + 1];
        }
        i := i + 1;
      }
    }

    /**
     * Copy constructor: T's shallow copy constructor builds the local
     * slot from other's local copy, then every slot i, the local one
     * included, is overwritten with rule.Apply(other's slot i). The local
     * slot is thus constructed twice and never destroyed in between.
     */
    constructor Copy(other: ReplShallow<T>, here: nat, rule: CopyRule<T>, shallowCtor: T -> T)
      requires other.Valid() && here < other.nodelets
      ensures Valid() && nodelets == other.nodelets && fresh(slots)
      ensures forall i :: 0 <= i < nodelets ==> slots[i] == rule.Apply(other.slots[i])
      ensures forall i :: 0 <= i < nodelets ==> constructed[i] == (if i == here then 2 else 1)
      ensures forall i :: 0 <= i < nodelets ==> destroyed[i] == 0
    {
      nodelets := other.nodelets;
      slots := new T[other.nodelets];
      constructed := seq(other.nodelets, i => if i == here then 1 else 0);
      destroyed := seq(other.nodelets, i => 0);
      new;
      slots[here] := shallowCtor(other.slots[here]);
      var i := 0;
      while i < nodelets
        invariant 0 <= i <= nodelets
        invariant |constructed| == nodelets && |destroyed| == nodelets
        invariant forall j :: 0 <= j < i ==> slots[j] == rule.Apply(other.slots[j])
        invariant forall j :: 0 <= j < nodelets ==> destroyed[j] == 0
        invariant forall j :: 0 <= j < nodelets ==>
                    constructed[j] == (if j == here then 1 else 0) + (if j < i then 1 else 0)
      {
        slots[i] := rule.Apply(other.slots[i]);
        constructed := constructed[i := constructed[i] + 1];
        i := i + 1;
      }
    }

    /** swap(lhs, rhs): exchange slot i of the two objects for every nodelet i. */
    method Swap(other: ReplShallow<T>)
      requires Valid() && other.Valid() && other.nodelets == nodelets
      modifies slots, other.slots
      ensures forall i :: 0 <= i < nodelets ==>
                slots[i] == old(other.slots[i]) && other.slots[i] == old(slots[i])
    {
      SwapSlots(slots, other.slots);
    }

    /** operator=(const T&): every nodelet's copy becomes rhs. */
    method Assign(rhs: T)
      requires Valid()
      modifies slots
      ensures forall i :: 0 <= i < nodelets ==> slots[i] == rhs
    {
      Broadcast(slots, rhs);
    }

    /** get_nth(n): the copy on nodelet n. */
    function GetNth(n: int): (r: T)
      requires Valid() && 0 <= n < nodelets
      reads this, slots
      ensures r == slots[n]
    {
      slots[n]
    }

    /**
     * Destruction: T's destructor runs on the copy the object is reached
     * through (the caller's nodelet) only; the shallow copies are never
     * destroyed.
     */
    method Destroy(here: nat)
      requires Valid() && here < nodelets
      modifies this
      ensures Valid() && constructed == old(constructed)
      ensures destroyed[here] == old(destroyed[here]) + 1
      ensures forall i :: 0 <= i < nodelets && i != here ==> destroyed[i] == old(destroyed[i])
    {
      destroyed := destroyed[here := destroyed[here] + 1];
    }
  }

  /** repl_deep<T>: every nodelet's copy is constructed and destroyed independently. */
  class ReplDeep<T(0)> {
    const nodelets: nat
    const slots: array<T>
    ghost var constructed: seq<nat>
    ghost var destroyed: seq<nat>

    ghost predicate Valid()
      reads this
    {
      0 < nodelets && slots.Length == nodelets && |constructed| == nodelets && |destroyed| == nodelets
    }

    /**
     * repl_deep(args...): `made` is what T(args...) builds. T's own
     * constructor builds the local copy; the loop builds every other
     * slot with the same arguments. Each slot is constructed exactly once
     * and holds the same value as a standalone T(args...).
     */
    constructor (nodelets: nat, here: nat, made: T)
      requires ValidMachine(nodelets, here)
      ensures Valid() && this.nodelets == nodelets && fresh(slots)
      ensures forall i :: 0 <= i < nodelets ==> slots[i] == made
      ensures forall i :: 0 <= i < nodelets ==> constructed[i] == 1 && destroyed[i] == 0
    {
      this.nodelets := nodelets;
      slots := new T[nodelets];
      constructed := seq(nodelets, i => if i == here then 1 else 0);
      destroyed := seq(nodelets, i => 0);
      new;
      slots[here] := made;
      var n := 0;
      while n < nodelets
        invariant 0 <= n <= nodelets
        invariant |constructed| == nodelets && |destroyed| == nodelets
        invariant slots[here] == made
        invariant forall j :: 0 <= j < n ==> slots[j] == made
        invariant forall j :: 0 <= j < nodelets ==> destroyed[j] == 0
        invariant forall j :: 0 <= j < nodelets ==> constructed[j] == if j == here || j < n then 1 else 0
      {
        if n != here {
          slots[n] := made;
          constructed := constructed[n := constructed[n] + 1];
        }
        n := n + 1;
      }
    }

    /**
     * ~repl_deep: the loop destroys every non-local copy, then T's own
     * destructor destroys the local one, so each slot is destroyed once.
     */
    method Destroy(here: nat)
      requires Valid() && here < nodelets
      modifies this
      ensures Valid() && constructed == old(constructed)
      ensures forall i :: 0 <= i < nodelets ==> destroyed[i] == old(destroyed[i]) + 1
    {
      var n := 0;
      while n < nodelets
        invariant 0 <= n <= nodelets
        invariant Valid() && constructed == old(constructed)
        invariant forall j :: 0 <= j < nodelets ==>
                    destroyed[j] == old(destroyed[j]) + (if j != here && j < n then 1 else 0)
      {
        if n != here {
          destroyed := destroyed[n := destroyed[n] + 1];
        }
        n := n + 1;
      }
      destroyed := destroyed[here := destroyed[here] + 1];
    }

    /** get_nth(n): the copy on nodelet n. */
    function GetNth(n: int): (r: T)
      requires Valid() && 0 <= n < nodelets
      reads this, slots
      ensures r == slots[n]
    {
      slots[n]
    }
  }

  /**
   * repl_reduce: the left fold of `reduce` over the copies, starting
   * from nodelet 0's. With one nodelet it is that nodelet's copy.
   */
  method ReplReduce<T>(slots: array<T>, reduce: (T, T) -> T) returns (value: T)
    requires slots.Length >= 1
    ensures value == FoldLeft(reduce, slots[..])
    ensures slots.Length == 1 ==> value == slots[0]
  {
    value := slots[0];
    var nlet := 1;
    while nlet < slots.Length
      invariant 1 <= nlet <= slots.Length
      invariant value == FoldLeft(reduce, slots[..nlet])
    {
      assert slots[..nlet + 1][..nlet] == slots[..nlet];
      value := reduce(value, slots[nlet]);
      nlet := nlet + 1;
    }
    assert slots[..nlet] == slots[..];
  }

  /**
   * A reference as the hardware sees it: the storage the object lives
   * in and the slot its address resolves to; `replicated` is what
   * is_repl reports for that address.
   */
  datatype Ref<T> = Ref(storage: array<T>, view: nat, replicated: bool)
  {
    predicate Valid(nodelets: nat)
    {
      view < storage.Length && (replicated ==> storage.Length == nodelets)
    }
  }

  /**
   * repl_swap: two replicated objects are swapped nodelet by nodelet;
   * otherwise only the two objects the references resolve to are swapped.
   */
  method ReplSwap<T>(nodelets: nat, lhs: Ref<T>, rhs: Ref<T>)
    requires lhs.Valid(nodelets) && rhs.Valid(nodelets)
    modifies lhs.storage, rhs.storage
    ensures lhs.replicated && rhs.replicated ==>
              forall i :: 0 <= i < nodelets ==>
                lhs.storage[i] == old(rhs.storage[i]) && rhs.storage[i] == old(lhs.storage[i])
    ensures !(lhs.replicated && rhs.replicated) ==>
              && lhs.storage[lhs.view] == old(rhs.storage[rhs.view])
              && rhs.storage[rhs.view] == old(lhs.storage[lhs.view])
              && (forall i :: 0 <= i < lhs.storage.Length && i != lhs.view ==>
                    (lhs.storage != rhs.storage || i != rhs.view) ==> lhs.storage[i] == old(lhs.storage[i]))
              && (forall i :: 0 <= i < rhs.storage.Length && i != rhs.view ==>
                    (lhs.storage != rhs.storage || i != lhs.view) ==> rhs.storage[i] == old(rhs.storage[i]))
  {
    if lhs.replicated && rhs.replicated {
      SwapSlots(lhs.storage, rhs.storage);
    } else {
      var t := lhs.storage[lhs.view];
      lhs.storage[lhs.view] := rhs.storage[rhs.view];
      rhs.storage[rhs.view] := t;
    }
  }
}
