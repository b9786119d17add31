/**
 * striped_array<T> (striped_array.h): a resizable sequence of 64-bit
 * elements held in one striped block. Its state is the block `ptr` (null
 * when there is none) and the length `n`; size and capacity are the same
 * number, so shrinking keeps the block and growing always reallocates.
 * Element placement across nodelets is the allocator's business and only
 * logical indices are modelled.
 */
module Striped {
  import opened Platform

  /** What handing `block` back to the allocator adds to its log (nothing for null). */
  function FreedBy(block: object?): (r: multiset<object>)
    ensures block != null ==> r == multiset{block}
    ensures block == null ==> r == multiset{}
  {
    if block == null then multiset{} else multiset{block}
  }

  /** A pointer into a block: the block and an element offset. */
  datatype Pos<T> = Pos(block: array?<T>, offset: int)

  class StripedArray<T(0)> {
    var ptr: array?<T>
    var n: nat

    /** No block means no elements; a block holds at least `n` elements. */
    ghost predicate Valid()
      reads this
    {
      (ptr == null ==> n == 0) && (ptr != null ==> n <= ptr.Length)
    }

    /** The elements, indices 0 .. size()-1. */
    ghost function Elements(): seq<T>
      requires Valid()
      reads this, ptr
    {
      if ptr == null then [] else ptr[..n]
    }

    /** Default constructor: no storage and size 0. */
    constructor ()
      ensures Valid() && ptr == null && n == 0 && Elements() == []
    {
      ptr := null;
      n := 0;
    }

    /** striped_array(n): a fresh block of n elements, or the fatal out-of-memory report. */
    static method New(n: nat, heap: Allocator, granted: bool) returns (r: Outcome<StripedArray<T>>)
      ensures granted <==> r.Ok?
      ensures r.Ok? ==> fresh(r.value) && r.value.Valid() && r.value.ptr != null && fresh(r.value.ptr)
      ensures r.Ok? ==> r.value.Size() == n
      ensures r.OutOfMemory? ==> r.bytes == n * WordBytes
    {
      var block := heap.AllocateStriped<T>(n, granted);
      if block.OutOfMemory? {
        return OutOfMemory(block.bytes);
      }
      var a := new StripedArray<T>();
      a.ptr, a.n := block.value, n;
      r := Ok(a);
    }

    /** Shallow copy constructor: shares other's block and size, copies no element. */
    constructor ShallowCopy(other: StripedArray<T>)
      requires other.Valid()
      ensures Valid() && ptr == other.ptr && n == other.n && Elements() == other.Elements()
    {
      ptr := other.ptr;
      n := other.n;
    }

    /**
     * Copy constructor: a fresh block of other's size holding the same
     * elements, not shared with other.
     */
    static method Copy(other: StripedArray<T>, heap: Allocator, granted: bool)
      returns (r: Outcome<StripedArray<T>>)
      requires other.Valid()
      ensures granted <==> r.Ok?
      ensures r.Ok? ==> fresh(r.value) && r.value.Valid() && r.value.ptr != null && fresh(r.value.ptr)
      ensures r.Ok? ==> r.value.Elements() == other.Elements()
      ensures r.OutOfMemory? ==> r.bytes == other.n * WordBytes
    {
      var block := heap.AllocateStriped<T>(other.n, granted);
      if block.OutOfMemory? {
        return OutOfMemory(block.bytes);
      }
      if other.ptr != null {
        Memcpy(block.value, other.ptr, other.n);
      }
      var a := new StripedArray<T>();
      a.ptr, a.n := block.value, other.n;
      r := Ok(a);
    }

    /** swap(first, second): exchange sizes and blocks. */
    method Swap(other: StripedArray<T>)
      modifies this, other
      ensures ptr == old(other.ptr) && n == old(other.n)
      ensures other.ptr == old(ptr) && other.n == old(n)
    {
      var otherPtr, otherN := other.ptr, other.n;
      other.ptr, other.n := ptr, n;
      ptr, n := otherPtr, otherN;
    }

    /** Move constructor: starts empty and swaps, so other is left empty. */
    constructor Move(other: StripedArray<T>)
      modifies other
      ensures ptr == old(other.ptr) && n == old(other.n)
      ensures other.ptr == null && other.n == 0
    {
      ptr := null;
      n := 0;
      new;
      Swap(other);
    }

    /**
     * operator= with a copied argument (copy-and-swap): the argument is
     * copied into a fresh block, swapped in, and the old block is freed
     * when the argument goes out of scope.
     */
    method AssignCopy(src: StripedArray<T>, heap: Allocator, granted: bool) returns (r: Outcome<()>)
      requires Valid() && src.Valid()
      modifies this, heap
      ensures Valid()
      ensures granted <==> r.Ok?
      ensures r.Ok? ==> fresh(ptr) && Elements() == old(src.Elements())
      ensures r.Ok? ==> heap.freed == old(heap.freed) + FreedBy(old(ptr))
      ensures r.OutOfMemory? ==> r.bytes == old(src.n) * WordBytes && ptr == old(ptr) && n == old(n) && heap.freed == old(heap.freed)
    {
      var copy := Copy(src, heap, granted);
      if copy.OutOfMemory? {
        return OutOfMemory(copy.bytes);
      }
      var tmp := copy.value;
      Swap(tmp);
      tmp.Destroy(heap);
      r := Ok(());
    }

    /**
     * operator= with a moved argument: the argument takes src's block,
     * is swapped in, and takes this object's old block with it when it
     * goes out of scope. src is left empty.
     */
    method AssignMove(src: StripedArray<T>, heap: Allocator)
      requires Valid() && src.Valid()
      modifies this, src, heap
      ensures Valid()
      ensures ptr == old(src.ptr) && n == old(src.n)
      ensures src != this ==> src.ptr == null && src.n == 0
      ensures src != this ==> heap.freed == old(heap.freed) + FreedBy(old(ptr))
      ensures src == this ==> heap.freed == old(heap.freed)
    {
      var tmp := new StripedArray<T>.Move(src);
      Swap(tmp);
      tmp.Destroy(heap);
    }

    /** operator[] read: element i (the caller keeps i in bounds). */
    function Get(i: int): (r: T)
      requires Valid() && 0 <= i < n
      reads this, ptr
      ensures r == Elements()[i]
    {
      ptr[i]
    }

    /** operator[] write: element i becomes v, nothing else changes. */
    method Set(i: int, v: T)
      requires Valid() && 0 <= i < n
      modifies ptr
      ensures Valid() && Elements() == old(Elements())[i := v]
      ensures Get(i) == v
    {
      ptr[i] := v;
    }

    /** size(). */
    function Size(): (r: nat)
      requires Valid()
      reads this
      ensures r == |Elements()|
    {
      n
    }

    /** begin(): a pointer to the first element. */
    function Begin(): (r: Pos<T>)
      reads this
      ensures r.block == ptr && r.offset == 0
    {
      Pos(ptr, 0)
    }

    /** end(): one past the last element, size() elements after begin(). */
    function End(): (r: Pos<T>)
      requires Valid()
      reads this
      ensures r.block == Begin().block && r.offset - Begin().offset == Size()
    {
      Pos(ptr, n)
    }

    /** front(): the first element. */
    function Front(): (r: T)
      requires Valid() && n >= 1
      reads this, ptr
      ensures r == Elements()[0]
    {
      ptr[0]
    }

    /** back(): element size()-1. */
    function Back(): (r: T)
      requires Valid() && n >= 1
      reads this, ptr
      ensures r == Elements()[|Elements()| - 1]
    {
      ptr[n - 1]
    }

    /** free_storage(): hand the block back and forget it; nothing to do without one. */
    method FreeStorage(heap: Allocator)
      modifies this, heap
      ensures ptr == null && n == old(n)
      ensures heap.freed == old(heap.freed) + FreedBy(old(ptr))
    {
      if ptr != null {
        heap.Free(ptr);
        ptr := null;
      }
    }

    /** ~striped_array: frees the block. */
    method Destroy(heap: Allocator)
      modifies this, heap
      ensures ptr == null
      ensures heap.freed == old(heap.freed) + FreedBy(old(ptr))
    {
      FreeStorage(heap);
    }

    /**
     * resize(new_size). Growing allocates a fresh block of new_size
     * elements, copies the old elements to the same indices and frees the
     * old block. Otherwise the block stays and only the size changes.
     */
    method Resize(newSize: nat, heap: Allocator, granted: bool) returns (r: Outcome<()>)
      requires Valid()
      modifies this, heap
      ensures Valid()
      ensures r.OutOfMemory? <==> newSize > old(n) && !granted
      ensures r.OutOfMemory? ==> r.bytes == newSize * WordBytes && ptr == old(ptr) && n == old(n)
                                 && heap.freed == old(heap.freed)
      ensures r.Ok? ==> n == newSize
      ensures r.Ok? && newSize > old(n) ==>
                && ptr != null && fresh(ptr) && ptr.Length == newSize
                && Elements()[..old(n)] == old(Elements())
                && heap.freed == old(heap.freed) + FreedBy(old(ptr))
      ensures newSize <= old(n) ==>
                ptr == old(ptr) && Elements() == old(Elements())[..newSize] && heap.freed == old(heap.freed)
    {
      if newSize > n {
        var block := heap.AllocateStriped<T>(newSize, granted);
        if block.OutOfMemory? {
          return OutOfMemory(block.bytes);
        }
        var newPtr := block.value;
        if ptr != null {
          Memcpy(newPtr, ptr, n);
          FreeStorage(heap);
        }
        ptr := newPtr;
      }
      n := newSize;
      r := Ok(());
    }

    /** clear(): free the block, size 0. Clearing twice frees nothing the second time. */
    method Clear(heap: Allocator)
      modifies this, heap
      ensures Valid() && ptr == null && n == 0 && Elements() == []
      ensures heap.freed == old(heap.freed) + FreedBy(old(ptr))
      ensures old(ptr) == null ==> heap.freed == old(heap.freed)
    {
      FreeStorage(heap);
      n := 0;
    }
  }
}
