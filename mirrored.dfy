/**
 * mirrored<T> (mirrored.h): the older replication wrapper. T is built
 * locally and then copied byte for byte into every other nodelet's slot;
 * assignment copies the right-hand side into every slot.
 */
module Mirrored {
  import opened Platform

  class Mirrored<T(0)> {
    const nodelets: nat
    const slots: array<T>

    ghost predicate Valid()
    {
      0 < nodelets && slots.Length == nodelets
    }

    /**
     * mirrored(args...): `local` is what T(args...) built on nodelet
     * `here`; every other slot receives a byte copy of it, so all slots
     * are equal afterwards.
     */
    constructor (nodelets: nat, here: nat, local: T)
      requires ValidMachine(nodelets, here)
      ensures Valid() && this.nodelets == nodelets && fresh(slots)
      ensures forall i :: 0 <= i < nodelets ==> slots[i] == local
    {
      this.nodelets := nodelets;
      slots := new T[nodelets];
      new;
      slots[here] := local;
      var i := 0;
      while i < nodelets
        invariant 0 <= i <= nodelets
        invariant slots[here] == local
        invariant forall j :: 0 <= j < i ==> slots[j] == local
      {
        if i != here {
          slots[i] := local;
        }
        i := i + 1;
      }
    }

    /** operator=(const T&): every nodelet's copy becomes rhs. */
    method Assign(rhs: T)
      requires Valid()
      modifies slots
      ensures forall i :: 0 <= i < nodelets ==> slots[i] == rhs
    {
      var i := 0;
      while i < nodelets
        invariant 0 <= i <= nodelets
        invariant forall j :: 0 <= j < i ==> slots[j] == rhs
      {
        slots[i] := rhs;
        i := i + 1;
      }
    }

    /** get_nth(n): the copy on nodelet n. */
    function GetNth(n: int): (r: T)
      requires Valid() && 0 <= n < nodelets
      reads slots
      ensures r == slots[n]
    {
      slots[n]
    }
  }

  /** mirrored<int64_t>: one `val` per nodelet, written on all of them at once. */
  class MirroredInt64 {
    const nodelets: nat
    const vals: array<Int64>

    ghost predicate Valid()
    {
      0 < nodelets && vals.Length == nodelets
    }

    /** mirrored(x): every nodelet's val is x (mw_replicated_init). */
    constructor (nodelets: nat, x: Int64)
      requires 0 < nodelets
      ensures Valid() && this.nodelets == nodelets && fresh(vals)
      ensures forall i :: 0 <= i < nodelets ==> vals[i] == x
    {
      this.nodelets := nodelets;
      vals := new Int64[nodelets](_ => x);
    }

    /** operator=(int64_t): every nodelet's val becomes rhs (mw_replicated_init). */
    method Assign(rhs: Int64)
      requires Valid()
      modifies vals
      ensures forall i :: 0 <= i < nodelets ==> vals[i] == rhs
    {
      forall i | 0 <= i < vals.Length {
        vals[i] := rhs;
      }
    }

    /** operator int64_t: the val of the caller's nodelet. */
    function Value(here: nat): (r: Int64)
      requires Valid() && here < nodelets
      reads vals
      ensures r == vals[here]
    {
      vals[here]
    }
  }
}
