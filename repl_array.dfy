/**
 * repl_array<T> (repl_array.h): an array with one copy per nodelet. Its
 * state is the replicated block `data` (null when there is none) and the
 * per-nodelet length `size`. Row k of `data` is nodelet k's copy. As in
 * striped_array, size and capacity are the same number: shrinking keeps
 * the block and growing reallocates.
 *
 * The class models the evidently intended per-nodelet behaviour: get_nth(k)
 * is row k, and the copy constructor and resize copy every row from the
 * row with the same index. The code as written addresses each nodelet's
 * copy through data_.get_nth(nlet), which is nodelet nlet's copy of the
 * pointer: the same replicated address on every nodelet, resolving to the
 * copy on the nodelet the caller runs on (`here`). The members suffixed
 * AsWritten model that, and the counterexample methods show the difference.
 */
module ReplArrays {
  import opened Platform

  class ReplArray<T(0)> {
    const nodelets: nat
    /** sizeof(T), used only in the out-of-memory report. */
    const elemBytes: nat
    var data: array2?<T>
    var size: nat

    /** No block means size 0; a block has one row per nodelet of at least `size` elements. */
    ghost predicate Valid()
      reads this
    {
      && 0 < nodelets
      && (data == null ==> size == 0)
      && (data != null ==> data.Length0 == nodelets && size <= data.Length1)
    }

    /** Default constructor: no block and size 0. */
    constructor (nodelets: nat, elemBytes: nat)
      requires 0 < nodelets
      ensures Valid() && this.nodelets == nodelets && this.elemBytes == elemBytes
      ensures data == null && size == 0
    {
      this.nodelets := nodelets;
      this.elemBytes := elemBytes;
      data := null;
      size := 0;
    }

    /** repl_array(size): every nodelet gets `size` elements, or the fatal out-of-memory report. */
    static method New(nodelets: nat, elemBytes: nat, size: nat, heap: Allocator, granted: bool)
      returns (r: Outcome<ReplArray<T>>)
      requires 0 < nodelets
      ensures granted <==> r.Ok?
      ensures r.Ok? ==> && fresh(r.value) && r.value.Valid() && r.value.nodelets == nodelets
                        && r.value.data != null && fresh(r.value.data) && r.value.size == size
      ensures r.OutOfMemory? ==> r.bytes == elemBytes * size * nodelets
    {
      var block := heap.AllocateReplicated<T>(nodelets, size, elemBytes, granted);
      if block.OutOfMemory? {
        return OutOfMemory(block.bytes);
      }
      var a := new ReplArray<T>(nodelets, elemBytes);
      a.data, a.size := block.value, size;
      r := Ok(a);
    }

    /** Shallow copy constructor: shares other's block and size. */
    constructor ShallowCopy(other: ReplArray<T>)
      requires other.Valid()
      ensures Valid() && nodelets == other.nodelets && elemBytes == other.elemBytes
      ensures data == other.data && size == other.size
    {
      nodelets := other.nodelets;
      elemBytes := other.elemBytes;
      data := other.data;
      size := other.size;
    }

    /**
     * Copy constructor: a fresh block; on every nodelet the first `size`
     * elements equal other's copy on that nodelet.
     */
    static method Copy(other: ReplArray<T>, heap: Allocator, granted: bool) returns (r: Outcome<ReplArray<T>>)
      requires other.Valid()
      ensures granted <==> r.Ok?
      ensures r.Ok? ==> && fresh(r.value) && r.value.Valid() && r.value.nodelets == other.nodelets
                        && r.value.data != null && fresh(r.value.data) && r.value.size == other.size
      ensures r.Ok? && other.data != null ==>
                forall k, j :: 0 <= k < other.nodelets && 0 <= j < other.size ==>
                  r.value.data[k, j] == other.data[k, j]
      ensures r.OutOfMemory? ==> r.bytes == other.elemBytes * other.size * other.nodelets
    {
      var block := heap.AllocateReplicated<T>(other.nodelets, other.size, other.elemBytes, granted);
      if block.OutOfMemory? {
        return OutOfMemory(block.bytes);
      }
      var block2 := block.value;
      if other.data != null {
        CopyAllNodelets(block2, other.data, other.size);
      }
      var a := new ReplArray<T>(other.nodelets, other.elemBytes);
      a.data, a.size := block2, other.size;
      r := Ok(a);
    }

    /** swap(lhs, rhs): exchange blocks and sizes. */
    method Swap(other: ReplArray<T>)
      requires other.nodelets == nodelets
      modifies this, other
      ensures data == old(other.data) && size == old(other.size)
      ensures other.data == old(data) && other.size == old(size)
    {
      var otherData, otherSize := other.data, other.size;
      other.data, other.size := data, size;
      data, size := otherData, otherSize;
    }

    /** Move constructor: starts empty and swaps, so other is left empty. */
    constructor Move(other: ReplArray<T>)
      modifies other
      ensures nodelets == other.nodelets && elemBytes == other.elemBytes
      ensures data == old(other.data) && size == old(other.size)
      ensures other.data == null && other.size == 0
    {
      nodelets := other.nodelets;
      elemBytes := other.elemBytes;
      data := null;
      size := 0;
      new;
      Swap(other);
    }

    /**
     * operator= with a copied argument (copy-and-swap): a fresh copy of
     * src is swapped in; the old block is freed with the argument.
     */
    method AssignCopy(src: ReplArray<T>, heap: Allocator, granted: bool) returns (r: Outcome<()>)
      requires Valid() && src.Valid() && src.nodelets == nodelets
      modifies this, heap
      ensures Valid()
      ensures granted <==> r.Ok?
      ensures r.Ok? ==> data != null && fresh(data) && size == old(src.size)
      ensures r.Ok? && old(src.data) != null ==>
                forall k, j :: 0 <= k < nodelets && 0 <= j < size ==> data[k, j] == old(src.data[k, j])
      ensures r.Ok? ==> heap.freed == old(heap.freed) + (if old(data) == null then multiset{} else multiset{old(data)})
      ensures r.OutOfMemory? ==> && r.bytes == src.elemBytes * old(src.size) * nodelets
                                 && data == old(data) && size == old(size) && heap.freed == old(heap.freed)
    {
      var copy := Copy(src, heap, granted);
      if copy.OutOfMemory? {
        return OutOfMemory(copy.bytes);
      }
      var tmp := copy.value;
      Swap(tmp);
      tmp.Destroy(heap);
      r := Ok(());
    }

    /**
     * operator= with a moved argument: the argument takes src's block, is
     * swapped in, and takes this object's old block with it when it goes
     * out of scope. src is left empty.
     */
    method AssignMove(src: ReplArray<T>, heap: Allocator)
      requires Valid() && src.Valid() && src.nodelets == nodelets
      modifies this, src, heap
      ensures Valid()
      ensures data == old(src.data) && size == old(src.size)
      ensures src != this ==> src.data == null && src.size == 0
      ensures src != this ==> heap.freed == old(heap.freed) + (if old(data) == null then multiset{} else multiset{old(data)})
      ensures src == this ==> heap.freed == old(heap.freed)
    {
      var tmp := new ReplArray<T>.Move(src);
      Swap(tmp);
      tmp.Destroy(heap);
    }

    /**
     * get_nth(k) as intended: nodelet k's copy, as its first `size`
     * elements; an array without a block has an empty copy everywhere.
     */
    function GetNth(k: int): (r: seq<T>)
      requires Valid() && 0 <= k < nodelets
      reads this, data
      ensures |r| == size
      ensures data == null ==> r == []
      ensures data != null ==> forall j :: 0 <= j < size ==> r[j] == data[k, j]
    {
      if data == null then []
      else
        var block, count := data, size;
        seq(count, j requires 0 <= j < count reads block => block[k, j])
    }

    /**
     * get_nth(k) as written: data_.get_nth(k) is the same replicated
     * address for every k, so what it reads is the caller's copy, whatever k.
     */
    function GetNthAsWritten(k: int, here: int): (r: seq<T>)
      requires Valid() && 0 <= k < nodelets && 0 <= here < nodelets
      reads this, data
      ensures |r| == size
      ensures data == null ==> r == []
      ensures data != null ==> forall j :: 0 <= j < size ==> r[j] == data[here, j]
    {
      GetNth(here)
    }

    /** size(). */
    function Size(): (r: nat)
      requires Valid()
      reads this
      ensures data == null ==> r == 0
    {
      size
    }

    /** ~repl_array: frees the block if there is one. */
    method Destroy(heap: Allocator)
      modifies heap
      ensures heap.freed == old(heap.freed) + (if data == null then multiset{} else multiset{data})
    {
      if data != null {
        heap.Free(data);
      }
    }

    /**
     * resize(new_size). Growing allocates a fresh block, copies each
     * nodelet's first `size` elements to the same indices and frees the
     * old block. Otherwise the block stays and only the size changes.
     */
    method Resize(newSize: nat, heap: Allocator, granted: bool) returns (r: Outcome<()>)
      requires Valid()
      modifies this, heap
      ensures Valid()
      ensures r.OutOfMemory? <==> newSize > old(size) && !granted
      ensures r.OutOfMemory? ==> r.bytes == elemBytes * newSize * nodelets
      ensures r.OutOfMemory? ==> data == old(data) && size == old(size) && heap.freed == old(heap.freed)
      ensures r.Ok? ==> size == newSize
      ensures r.Ok? && newSize > old(size) ==>
                && data != null && fresh(data) && data.Length1 == newSize
                && heap.freed == old(heap.freed) + (if old(data) == null then multiset{} else multiset{old(data)})
      ensures r.Ok? && newSize > old(size) && old(data) != null ==>
                forall k, j :: 0 <= k < nodelets && 0 <= j < old(size) ==> data[k, j] == old(data[k, j])
      ensures newSize <= old(size) ==> data == old(data) && heap.freed == old(heap.freed)
    {
      if newSize > size {
        var block := heap.AllocateReplicated<T>(nodelets, newSize, elemBytes, granted);
        if block.OutOfMemory? {
          return OutOfMemory(block.bytes);
        }
        var newData := block.value;
        if data != null {
          CopyAllNodelets(newData, data, size);
          heap.Free(data);
        }
        data := newData;
      }
      size := newSize;
      r := Ok(());
    }
  }

  /** The per-nodelet memcpy loop: row k of src's first `count` elements into row k of dst. */
  method CopyAllNodelets<T>(dst: array2<T>, src: array2<T>, count: nat)
    requires dst != src && dst.Length0 == src.Length0
    requires count <= dst.Length1 && count <= src.Length1
    modifies dst
    ensures forall k, j :: 0 <= k < dst.Length0 && 0 <= j < count ==> dst[k, j] == src[k, j]
  {
    var nlet := 0;
    while nlet < dst.Length0
      invariant 0 <= nlet <= dst.Length0
      invariant forall k, j :: 0 <= k < nlet && 0 <= j < count ==> dst[k, j] == src[k, j]
    {
      MemcpyRow(dst, nlet, src, nlet, count);
      nlet := nlet + 1;
    }
  }

  /**
   * The copy constructor's loop as written: both memcpy addresses are the
   * replicated pointers themselves, so every pass copies the caller's row
   * of src into the caller's row of dst and no other row is written.
   */
  method CopyCallerRowAsWritten<T>(dst: array2<T>, src: array2<T>, count: nat, here: nat)
    requires dst != src && dst.Length0 == src.Length0 && here < dst.Length0
    requires count <= dst.Length1 && count <= src.Length1
    modifies dst
    ensures forall j :: 0 <= j < count ==> dst[here, j] == src[here, j]
    ensures forall k, j :: 0 <= k < dst.Length0 && 0 <= j < dst.Length1 && (k != here || count <= j) ==>
              dst[k, j] == old(dst[k, j])
  {
    var nlet := 0;
    while nlet < dst.Length0
      invariant 0 <= nlet <= dst.Length0
      invariant 0 < nlet ==> forall j :: 0 <= j < count ==> dst[here, j] == src[here, j]
      invariant forall k, j :: 0 <= k < dst.Length0 && 0 <= j < dst.Length1 && (k != here || count <= j) ==>
                  dst[k, j] == old(dst[k, j])
    {
      MemcpyRow(dst, here, src, here, count);
      nlet := nlet + 1;
    }
  }

  /**
   * resize's loop as written: the destination is translated to nodelet
   * nlet but the source is the replicated pointer, so every row of the new
   * block starts with the caller's old row.
   */
  method ResizeCopyAsWritten<T>(dst: array2<T>, src: array2<T>, count: nat, here: nat)
    requires dst != src && dst.Length0 == src.Length0 && here < src.Length0
    requires count <= dst.Length1 && count <= src.Length1
    modifies dst
    ensures forall k, j :: 0 <= k < dst.Length0 && 0 <= j < count ==> dst[k, j] == src[here, j]
  {
    var nlet := 0;
    while nlet < dst.Length0
      invariant 0 <= nlet <= dst.Length0
      invariant forall k, j :: 0 <= k < nlet && 0 <= j < count ==> dst[k, j] == src[here, j]
    {
      MemcpyRow(dst, nlet, src, here, count);
      nlet := nlet + 1;
    }
  }

  /**
   * Two nodelets, one element each, source rows [1] and [2], caller on
   * nodelet 0: the copy constructor as written leaves row 1 of the copy as
   * it was (0) instead of copying 2 into it.
   */
  method CopyCounterexample() returns (copied: int, original: int)
    ensures copied == 0 && original == 2
  {
    var src := new int[2, 1];
    src[0, 0], src[1, 0] := 1, 2;
    var dst := new int[2, 1];
    dst[0, 0], dst[1, 0] := 0, 0;
    CopyCallerRowAsWritten(dst, src, 1, 0);
    copied, original := dst[1, 0], src[1, 0];
  }

  /**
   * The same rows grown by resize as written, caller on nodelet 0: row 1
   * of the new block starts with 1, nodelet 0's element, instead of 2.
   */
  method ResizeCounterexample() returns (copied: int, original: int)
    ensures copied == 1 && original == 2
  {
    var src := new int[2, 1];
    src[0, 0], src[1, 0] := 1, 2;
    var dst := new int[2, 2];
    ResizeCopyAsWritten(dst, src, 1, 0);
    copied, original := dst[1, 0], src[1, 0];
  }

  /**
   * The same rows read through get_nth(1) by a caller on nodelet 0: as
   * written it yields nodelet 0's copy.
   */
  method GetNthCounterexample() returns (asWritten: int, intended: int)
    ensures asWritten == 1 && intended == 2
  {
    var a := new ReplArray<int>(2, 8);
    var block := new int[2, 1];
    block[0, 0], block[1, 0] := 1, 2;
    a.data, a.size := block, 1;
    asWritten, intended := a.GetNthAsWritten(1, 0)[0], a.GetNth(1)[0];
  }
}
