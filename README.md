# emu_cxx_utils replication core, modelled in Dafny

emu_cxx_utils is a C++ library for the Emu Chick, a machine whose memory is
split into `N` nodelets. A thread runs on one nodelet at a time and can
migrate. The library lets C++ objects live in *replicated* storage, with one
copy per nodelet at the same offset. It also provides containers, reducers
and iterators on top of that storage.

This project models that core:

- **The replication wrappers** `repl<T>`, `repl_shallow<T>`, `repl_deep<T>` and
  `mirrored<T>`. Each has its own rule for constructing, assigning, swapping
  and destroying the per-nodelet copies.
- **The fan-out traversal** `repl_for_each`. It halves the nodelet range,
  spawns the upper half, and runs a sequential loop on a leaf no wider than
  the grain.
- **`repl_reduce` and `repl_swap`.**
- **The two containers** `striped_array<T>` and `repl_array<T>`, with their
  storage handles, copy-and-swap assignment and grow-only reallocation.
- **The reducer tree** `reducer_base` / `reducer_opadd`.
- **The zip iterators** `zip2_iterator` / `zip3_iterator`.
- **The zipped `transform`.**

## How the machine is modelled

- The machine is `nodelets >= 1` nodelets. The nodelet the caller runs on
  (`NODE_ID()`) is a parameter `here`, because threads migrate.
- A replicated object is an `array` of `nodelets` slots, and `get_nth(n)` is
  slot `n`. A `repl_array` block is an `array2` whose row `k` is nodelet
  `k`'s copy. A replicated address used as a plain pointer resolves to the
  copy on the caller's nodelet `here`.
- The allocator is the `Platform.Allocator` class.
  - Whether a request is granted is the allocator's own decision, so it is
    passed in as `granted`.
  - A refused request yields `OutOfMemory(bytes)`, the fatal report, and
    leaves the state as it was.
  - A ghost multiset `freed` logs every block handed back, so "freed exactly
    once" is a count.
- `repl_shallow` and `repl_deep` carry ghost per-slot `constructed` and
  `destroyed` counts, so the lifecycle rules become statements about counts:
  - `repl_deep` constructs and destroys every slot exactly once.
  - `repl_shallow` constructs every slot once and destroys only the local
    one.
  - The `repl_shallow` copy constructor, as written, constructs the local
    slot twice: once through `T`'s shallow copy constructor in the
    initialiser list, and once more in the loop, which also covers the local
    nodelet. The contract states this.
- The parallel `repl_for_each` spawn is a recursive call.
  - `FanOut.Leaves` is the list of sequential leaves the traversal runs.
  - The lemmas prove that the leaves tile the range, that none is wider than
    the grain, and that every nodelet is visited exactly once whatever the
    grain.
- Reducers:
  - A reducer's `local_sum_` is an `Accumulator` object.
  - `global_sum_` is a reference to one, so a root's target is its own
    accumulator.
  - The destructor is an explicit `Destroy` method, guarded by a ghost
    `alive` flag so that it runs at most once.
- Zip iterator cursors are integer positions into arrays. The `for_each`
  that `transform` hands its work to is a loop over positions in increasing
  order.

## Model

| member | source | states |
|---|---|---|
| Platform.Allocator.AllocateStriped | striped_array.h:25-31 | granted iff a block comes back; the block is fresh with `size` elements; a refusal reports `size * 8` bytes |
| Platform.Allocator.AllocateReplicated | repl_array.h:17-22 | granted iff a block comes back; the block is fresh with `count` elements on each nodelet; a refusal reports `sizeof(T) * count * nodelets` bytes |
| Platform.Allocator.Free | striped_array.h:33-39 | the freed block is added to the allocator's log once |
| Platform.Memcpy | striped_array.h:102 | the first `count` elements of dst equal those of src; the rest of dst is untouched |
| Platform.MemcpyRow | repl_array.h:54-58 | row `dstRow` of dst gets src's row `srcRow` up to `count`; no other element of dst changes |
| Platform.RangeOnce | replicated.h:44-47 | the index range [b, e) holds every index in it exactly once and no other |
| FanOut.SeqForEach | replicated.h:38-48 | the worker is called on nodelets b, ..., e-1 in increasing order, each slot in range is updated once, and slots outside are untouched |
| FanOut.ParForEach | replicated.h:50-73 | the leaves run are exactly `Leaves(grain, b, e)`; every slot in [b, e) is updated by the worker once and nothing outside changes |
| FanOut.LeavesTile | replicated.h:58-72 | leaves are contiguous, start at b and end at e, are at most `grain` wide, and are non-empty when the range is |
| FanOut.LeavesVisitRange | replicated.h:58-72 | running the leaves in order visits exactly b, ..., e-1 in order, for any grain >= 1 |
| FanOut.VisitedExactlyOnce | replicated.h:58-72 | every nodelet of [b, e) is visited exactly once and no other nodelet is visited |
| FanOut.GrainOneSplitsFully | replicated.h:58-70 | with grain 1 every leaf is a single nodelet |
| FanOut.WideGrainIsSerial | replicated.h:60-61 | a grain at least as wide as the range gives one serial leaf |
| FanOut.ReplForEach | replicated.h:77-85 | under either policy, every one of the `nodelets` copies is updated by the worker |
| FanOut.ReplForEachSeq | replicated.h:87-92 | without a policy the traversal is the sequenced one over [0, nodelets), in order |
| Replicated.CopyRule.Apply | replicated.h:159-182 | a bytewise (memcpy) copy is the original value |
| Replicated.SwapSlots | replicated.h:408-413 | after the loop slot i of each side holds the other side's old slot i, for every i |
| Replicated.Broadcast | replicated.h:243-247 | every slot holds the assigned value |
| Replicated.Repl.Default | replicated.h:270 | one fresh slot per nodelet |
| Replicated.Repl.constructor | replicated.h:277-281 | every nodelet's copy equals x |
| Replicated.Repl.Copy | replicated.h:272-275 | every nodelet's copy equals the source's local value |
| Replicated.Repl.Assign | replicated.h:299-308 | every nodelet's copy equals rhs |
| Replicated.Repl.GetNth | replicated.h:262-267 | nodelet n's copy, for 0 <= n < nodelets |
| Replicated.Repl.Local | replicated.h:285-297 | the conversion to T reads the caller's own nodelet's copy, which is get_nth(here) |
| Replicated.ReplShallow.constructor | replicated.h:203-218 | the local slot holds T's constructed value; every other slot holds a shallow copy of it; a bytewise copy makes all slots equal; each slot is constructed once and none is destroyed |
| Replicated.ReplShallow.Copy | replicated.h:220-227 | slot i is a shallow copy of the source's slot i for every i; the local slot is constructed twice and the others once |
| Replicated.ReplShallow.Swap | replicated.h:231-237 | slot i of the two objects is exchanged for every i |
| Replicated.ReplShallow.Assign | replicated.h:239-249 | every nodelet's copy equals rhs |
| Replicated.ReplShallow.GetNth | replicated.h:186-201 | nodelet n's copy, for 0 <= n < nodelets |
| Replicated.ReplShallow.Destroy | replicated.h:142-143 | only the local copy is destroyed; the others keep their counts |
| Replicated.ReplDeep.constructor | replicated.h:345-363 | every slot holds what T(args...) builds and is constructed exactly once |
| Replicated.ReplDeep.Destroy | replicated.h:365-376 | every slot, local included, is destroyed exactly once more |
| Replicated.ReplDeep.GetNth | replicated.h:334-343 | nodelet n's copy, for 0 <= n < nodelets |
| Replicated.ReplReduce | replicated.h:381-389 | the result is the left fold of `reduce` over the copies from nodelet 0 upwards; with one nodelet it is that copy |
| Replicated.ReplSwap | replicated.h:402-417 | two replicated objects swap every nodelet's copy; otherwise only the two resolved objects are swapped and nothing else changes |
| Mirrored.Mirrored.constructor | mirrored.h:10-25 | every slot equals the locally built T |
| Mirrored.Mirrored.Assign | mirrored.h:41-50 | every nodelet's copy equals rhs |
| Mirrored.Mirrored.GetNth | mirrored.h:52-56 | nodelet n's copy, for 0 <= n < nodelets |
| Mirrored.MirroredInt64.constructor | mirrored.h:64-69 | every nodelet's val is x |
| Mirrored.MirroredInt64.Assign | mirrored.h:75-80 | every nodelet's val becomes rhs |
| Mirrored.MirroredInt64.Value | mirrored.h:71-73 | the conversion reads the caller's nodelet's val |
| Striped.FreedBy | striped_array.h:33-39 | freeing a null handle frees nothing; otherwise exactly that block |
| Striped.StripedArray.constructor | striped_array.h:61-65 | null storage, size 0, no elements |
| Striped.StripedArray.New | striped_array.h:67-74 | size n in a fresh block, or the out-of-memory report of n * 8 bytes when refused |
| Striped.StripedArray.ShallowCopy | striped_array.h:76-80 | shares the source's block and size, so it holds the same elements |
| Striped.StripedArray.Copy | striped_array.h:96-103 | a fresh block, not shared with the source, holding the same elements |
| Striped.StripedArray.Swap | striped_array.h:88-94 | size and storage are exchanged |
| Striped.StripedArray.Move | striped_array.h:112-116 | takes the source's size and storage and leaves the source null with size 0 |
| Striped.StripedArray.AssignCopy | striped_array.h:105-110 | the elements become the source's, in a fresh block; the old block is freed once; on refusal nothing changes and nothing is freed |
| Striped.StripedArray.AssignMove | striped_array.h:105-116 | takes the source's block and size; the source is left empty and the old block is freed once; self-assignment frees nothing |
| Striped.StripedArray.Get | striped_array.h:118-128 | element i of the sequence |
| Striped.StripedArray.Set | striped_array.h:118-122 | element i becomes v, no other changes, and reading it back gives v |
| Striped.StripedArray.Size | striped_array.h:130 | the number of elements |
| Striped.StripedArray.Begin | striped_array.h:46 | a pointer to offset 0 of the storage |
| Striped.StripedArray.End | striped_array.h:47 | end() - begin() == size() in the same block |
| Striped.StripedArray.Front | striped_array.h:56-57 | the first element |
| Striped.StripedArray.Back | striped_array.h:58-59 | element size()-1 |
| Striped.StripedArray.FreeStorage | striped_array.h:33-39 | storage becomes null; the old block, if any, is freed once; a null handle frees nothing |
| Striped.StripedArray.Destroy | striped_array.h:82-86 | the block, if any, is freed once |
| Striped.StripedArray.Resize | striped_array.h:132-150 | growing gives a fresh block of new_size with the old elements at the same indices and frees the old block; otherwise storage is unchanged and the elements are the old ones cut to new_size; a refused growth changes nothing and frees nothing |
| Striped.StripedArray.Clear | striped_array.h:152-156 | null storage and size 0; the block is freed once, and clearing an empty array frees nothing |
| ReplArrays.ReplArray.constructor | repl_array.h:25-29 | null data and size 0 |
| ReplArrays.ReplArray.New | repl_array.h:31-35 | every nodelet gets `size` elements in a fresh block, or the out-of-memory report of sizeof(T) * size * nodelets bytes |
| ReplArrays.ReplArray.ShallowCopy | repl_array.h:37-40 | shares the source's block and size |
| ReplArrays.ReplArray.Copy | repl_array.h:47-60 | as intended (see Findings): a fresh block in which, on every nodelet, the first `size` elements equal the source's on that nodelet |
| ReplArrays.CopyAllNodelets | repl_array.h:53-59 | the intended loop (see Findings): for every nodelet k, row k's first `count` elements become those of the source's row k |
| ReplArrays.CopyCallerRowAsWritten | repl_array.h:53-59 | the loop as written: only the caller's row gets the source's first `count` elements, from the caller's source row; every other element is left as it was |
| ReplArrays.CopyCounterexample | repl_array.h:53-59 | with source rows [1] and [2] and the caller on nodelet 0, row 1 of the copy keeps 0 instead of getting 2 |
| ReplArrays.ResizeCopyAsWritten | repl_array.h:109-115 | the loop as written: every row of the new block starts with the caller's old row |
| ReplArrays.ResizeCounterexample | repl_array.h:109-115 | with old rows [1] and [2] and the caller on nodelet 0, row 1 of the grown block starts with 1 instead of 2 |
| ReplArrays.ReplArray.Swap | repl_array.h:62-67 | data and size are exchanged |
| ReplArrays.ReplArray.Move | repl_array.h:76-80 | takes the source's data and size and leaves the source null with size 0 |
| ReplArrays.ReplArray.AssignCopy | repl_array.h:69-74 | with the intended copy: each nodelet's elements become the source's, in a fresh block, and the old block is freed once; a refusal reports sizeof(T) * size * nodelets of the source, changes nothing and frees nothing |
| ReplArrays.ReplArray.AssignMove | repl_array.h:69-80 | takes the source's block and size; the source is left empty and the old block is freed once |
| ReplArrays.ReplArray.GetNth | repl_array.h:82-88 | as intended (see Findings): nodelet k's copy of the array, `size` elements, element j is row k's element j; empty when there is no block |
| ReplArrays.ReplArray.GetNthAsWritten | repl_array.h:82-88 | as written: the caller's copy of the array, whatever k; empty when there is no block |
| ReplArrays.GetNthCounterexample | repl_array.h:82-88 | with rows [1] and [2] and the caller on nodelet 0, get_nth(1) as written reads 1 where nodelet 1 holds 2 |
| ReplArrays.ReplArray.Size | repl_array.h:100 | the per-nodelet size; 0 when there is no data |
| ReplArrays.ReplArray.Destroy | repl_array.h:42-45 | the block is freed once if there is one; nothing is freed otherwise |
| ReplArrays.ReplArray.Resize | repl_array.h:102-124 | with the intended copy: growing preserves every nodelet's first old-size elements in a fresh block and frees the old one; otherwise data is untouched and only the size changes; a refused growth changes nothing and frees nothing |
| Reducers.Identity | reducers.h:72 | identity() is the empty sum and is neutral for reduce on both sides |
| Reducers.Combine | reducers.h:74 | the value form of reduce is the sum of its two operands |
| Reducers.OpAddIsMonoid | reducers.h:71-74 | op_add's identity 0 is neutral on both sides and its reduce is associative |
| Reducers.ReduceInto | reducers.h:73 | the target accumulator becomes old value + v |
| Reducers.Reducer.Root | reducers.h:26-29 | local value is identity() and the target is its own accumulator |
| Reducers.Reducer.Branch | reducers.h:31-35 | local value is identity() and the target is the given accumulator |
| Reducers.Reducer.Copy | reducers.h:37-40 | local value is identity() and the target is the source's target, so a copy of a root targets the root's accumulator |
| Reducers.Reducer.ShallowCopy | reducers.h:42-45 | local value is identity() and there is no target |
| Reducers.Reducer.Destroy | reducers.h:47-53 | the local value is folded into a non-null target other than its own accumulator, once; a root or shallow copy folds nothing |
| Reducers.Reducer.AddAssign | reducers.h:106-108 | only the local value changes, by rhs |
| Reducers.Reducer.Increment | reducers.h:109-114 | only the local value changes, by one |
| Reducers.Reducer.GetValue | reducers.h:57-64 | outside replicated storage the value is the local one, which for a root is its target's |
| Reducers.FoldCombineIsSum | reducers.h:74 | folding with op_add's reduce is the sum |
| Reducers.GetValueReplicated | reducers.h:59-61 | in replicated storage the value is the sum of every nodelet's local value |
| Reducers.Accumulate | reducers.h:106-108 | a run of += adds the sum of the values |
| Reducers.RootAndBranches | reducers.h:37-53 | a root plus copies of it or of earlier copies, destroyed in any order: once every copy is destroyed the root holds the sum of everything accumulated anywhere |
| Zip.Zip2.constructor | zip_iterator.h:50-53 | holds exactly the given cursors |
| Zip.Zip2.AddAssign | zip_iterator.h:61-66 | every cursor advances by n |
| Zip.Zip2.SubAssign | zip_iterator.h:67 | every cursor moves back by n |
| Zip.Zip2.Increment | zip_iterator.h:68 | every cursor advances by one |
| Zip.Zip2.Decrement | zip_iterator.h:69 | every cursor moves back by one |
| Zip.Zip2.PostIncrement | zip_iterator.h:70 | returns the iterator as it was and advances every cursor |
| Zip.Zip2.PostDecrement | zip_iterator.h:71 | returns the iterator as it was and moves every cursor back |
| Zip.IncrementDecrementRestores2 | zip_iterator.h:67-69 | ++ then -- restores every cursor |
| Zip.FirstCursorDecides2 | zip_iterator.h:73-85 | iterators with equal first cursors compare equal, and agree in every comparison and difference, whatever the second cursor |
| Zip.ComparisonsAgree2 | zip_iterator.h:73-122 | the six comparisons form one total order and agree with the sign of the difference; difference is antisymmetric |
| Zip.Eq | zip_iterator.h:75 | true exactly when the difference is zero, whatever the second cursors |
| Zip.Ne | zip_iterator.h:77 | true exactly when the difference is nonzero |
| Zip.Lt | zip_iterator.h:79 | true exactly when the difference is negative |
| Zip.Gt | zip_iterator.h:81 | true exactly when the difference is positive |
| Zip.Le | zip_iterator.h:83 | true exactly when the difference is not positive |
| Zip.Ge | zip_iterator.h:85 | true exactly when the difference is not negative |
| Zip.Difference | zip_iterator.h:118-122 | advancing rhs's first cursor by the result reaches lhs's first cursor |
| Zip.Zip2.Clone | zip_iterator.h:70 | a fresh iterator holding the same cursors (the `self_type tmp = *this` copy) |
| Zip.Zip2.Plus | zip_iterator.h:88-94 | every cursor advances by n, and (it + n) - it == n |
| Zip.PlusRev2 | zip_iterator.h:95-101 | n + it is it + n |
| Zip.Zip2.Minus | zip_iterator.h:102-108 | every cursor moves back by n, and it - (it - n) == n |
| Zip.MinusRev2 | zip_iterator.h:109-115 | as written, n - it is the same iterator as it - n |
| Zip.Deref2 | zip_iterator.h:55-56 | the pair of elements under the two cursors |
| Zip.Index2 | zip_iterator.h:59 | the elements i positions past each cursor; at i = 0 it is *it |
| Zip.IndexIsDerefOfPlus2 | zip_iterator.h:59 | it[i] is *(it + i) |
| Zip.MakeZip2 | zip_iterator.h:238-243 | holds exactly the given cursors |
| Zip.Zip3.constructor | zip_iterator.h:157-161 | holds exactly the given cursors |
| Zip.Zip3.AddAssign | zip_iterator.h:170-176 | every cursor advances by n |
| Zip.Zip3.SubAssign | zip_iterator.h:177 | every cursor moves back by n |
| Zip.Zip3.Increment | zip_iterator.h:178 | every cursor advances by one |
| Zip.Zip3.Decrement | zip_iterator.h:179 | every cursor moves back by one |
| Zip.Zip3.PostIncrement | zip_iterator.h:180 | returns the iterator as it was and advances every cursor |
| Zip.Zip3.PostDecrement | zip_iterator.h:181 | returns the iterator as it was and moves every cursor back |
| Zip.IncrementDecrementRestores3 | zip_iterator.h:177-179 | ++ then -- restores every cursor |
| Zip.FirstCursorDecides3 | zip_iterator.h:183-195 | iterators with equal first cursors compare equal, and agree in every comparison and difference, whatever the other cursors |
| Zip.ComparisonsAgree3 | zip_iterator.h:183-232 | the six comparisons form one total order and agree with the sign of the difference |
| Zip.Eq3 | zip_iterator.h:185 | true exactly when the difference is zero, whatever the other cursors |
| Zip.Ne3 | zip_iterator.h:187 | true exactly when the difference is nonzero |
| Zip.Lt3 | zip_iterator.h:189 | true exactly when the difference is negative |
| Zip.Gt3 | zip_iterator.h:191 | true exactly when the difference is positive |
| Zip.Le3 | zip_iterator.h:193 | true exactly when the difference is not positive |
| Zip.Ge3 | zip_iterator.h:195 | true exactly when the difference is not negative |
| Zip.Difference3 | zip_iterator.h:228-232 | advancing rhs's first cursor by the result reaches lhs's first cursor |
| Zip.Zip3.Clone | zip_iterator.h:180 | a fresh iterator holding the same cursors (the `self_type tmp = *this` copy) |
| Zip.Zip3.Plus | zip_iterator.h:198-204 | every cursor advances by n, and (it + n) - it == n |
| Zip.PlusRev3 | zip_iterator.h:205-211 | n + it is it + n |
| Zip.Zip3.Minus | zip_iterator.h:212-218 | every cursor moves back by n, and it - (it - n) == n |
| Zip.MinusRev3 | zip_iterator.h:219-225 | as written, n - it is the same iterator as it - n |
| Zip.Deref3 | zip_iterator.h:163-164 | the triple of elements under the three cursors |
| Zip.Index3 | zip_iterator.h:168 | the elements i positions past each cursor; at i = 0 it is *it |
| Zip.IndexIsDerefOfPlus3 | zip_iterator.h:168 | it[i] is *(it + i) |
| Zip.MakeZip3 | zip_iterator.h:245-250 | holds exactly the given cursors |
| TransformZip.Map | transform_zip.h:30-32 | the output has the input's length and element k is op of input k |
| TransformZip.Map2 | transform_zip.h:67-69 | the output has the inputs' length and element k is op of the inputs' elements k |
| TransformZip.Transform | transform_zip.h:11-33 | dst[first2 + k] becomes op(src[first1 + k]) for every k < last1 - first1; nothing else in dst is written, so an empty range writes nothing |
| TransformZip.TransformDefault | transform_zip.h:35-44 | the same effect as Transform with the default policy |
| TransformZip.Transform2 | transform_zip.h:46-70 | out[first3 + k] becomes op(a[first1 + k], b[first2 + k]) for every k < last1 - first1; nothing else in out is written |
| TransformZip.Transform2Default | transform_zip.h:72-83 | the same effect as Transform2 with the default policy |

## Left out

- Concurrency. `cilk_spawn` becomes a plain recursive call, and `cilk_migrate_hint` has no effect on the result. The worker passed to `repl_for_each` is a pure update `T -> T` of one slot.
- FanOut.ParForEach: a parallel policy must have a grain of at least 1. With grain 0, a one-nodelet range at replicated.h:60-67 re-spawns itself forever, because mid equals begin.
- Striped.StripedArray.AssignCopy: assumes every container object, including operator='s by-value argument (striped_array.h:106), lives in replicated storage, so `repl_swap` exchanges every nodelet's copy of the handle and size (replicated.h:407-413). A by-value argument on the stack is not replicated: `repl_swap` then swaps only the caller's copies (replicated.h:414-415) and the other nodelets keep the old handle and size. That case is not modelled, and neither is the `is_repl` assertion of `repl::operator=` (replicated.h:303) failing on such an object.
- Striped.StripedArray.AssignMove: the same assumption as AssignCopy, for the by-value argument built by the move constructor.
- Striped.StripedArray.Move: the same assumption, for the object being move-constructed.
- ReplArrays.ReplArray.AssignCopy: the same assumption, for operator='s by-value argument (repl_array.h:70).
- ReplArrays.ReplArray.Copy: as written, repl_array.h:56 calls the non-const `repl::get_nth` (replicated.h:262-267) on the const `other.data_`, so the copy constructor does not compile once instantiated, and neither does `operator=` from an lvalue, which needs it. The model, like ReplArrays.CopyCallerRowAsWritten, reads that call as if it were const.
- ReplArrays.CopyCallerRowAsWritten: models repl_array.h:53-59 with the call at line 56 made const, as for ReplArrays.ReplArray.Copy.
- ReplArrays.ReplArray.GetNth: the const overload at repl_array.h:86-88 makes the same non-const call and does not compile once instantiated. Only the non-const overload at repl_array.h:82-84 is modelled as written, by ReplArrays.ReplArray.GetNthAsWritten. An array without a block yields an empty copy where the source returns a null pointer.
- ReplArrays.ReplArray.AssignMove: the same assumption as AssignCopy.
- ReplArrays.ReplArray.Move: the same assumption, for the object being move-constructed.
- Replicated.ReplDeep.constructor: assumes T(args...) builds the same value each time. The arguments are forwarded once for the local copy (replicated.h:349) and again for every remote copy (replicated.h:361), so with rvalue arguments the remote copies are built from moved-from objects. That case is not modelled.
- Allocation of the wrappers themselves (`repl_new::operator new`, replicated.h:102-108, and `mirrored::operator new`, mirrored.h:28-32) always succeeds in the model. `mirrored`'s version does not check for a null block at all.
- Mirrored.Mirrored.Assign: models the intent stated at mirrored.h:41. Line 48 passes `rhs` itself, not its address, as memcpy's source.
- Replicated.ReplShallow, Replicated.ReplDeep: T's constructor and destructor are modelled by the value they build and by the ghost counts. Their own effects are not modelled.
- `repl_deep` assignment goes to T's own assignment operator, which is not part of this model.
- Accessors that only hand out an address are not separate members. `repl::operator->` (replicated.h:313) returns the held value, which for `repl<T*>` is the local copy of the handle. `striped_array::data()` (striped_array.h:53-54) returns the block handle, the field `ptr` here. `repl_array::data()` (repl_array.h:98-99) returns the local copy of the replicated handle, the field `data` here. `repl_shallow::get()` and `repl::operator&` return the local copy's address; the model reads that copy through `Local`/`GetNth(here)`.
- Reducers.Reducer.GetValue: as written, get_value (reducers.h:57-64) returns `T&` bound to the temporary that `repl_reduce` returns, and passes the overloaded `Monoid::reduce` where a single function is needed, so it does not compile as written. The model returns the value and uses the value form of reduce (reducers.h:74).
- Reducers.GetValueReplicated: the same reading of get_value as GetValue. It calls the generic `repl_reduce(T&, F)` overload on the plain `local_sum_`.
- Replicated.ReplReduce: models the overload for `repl<T>` (replicated.h:381-389). The generic overload (replicated.h:391-400) initialises a `T` from the `T*` that `pmanip::get_nth` returns. The model reads nodelet n's copy there too, which is the evident intent.
- `repl_array::get_localto` (repl_array.h:90-96) forwards to a member of `repl<T*>` that does not exist in replicated.h.
- The `make_repl`, `make_repl_shallow` and `make_repl_deep` helpers only forward to `std::make_unique`.
- Striped.StripedArray, ReplArrays.ReplArray:
  - Sizes are `nat`. A negative `long` size is not modelled.
  - The `repl<T*>`/`repl<long>` fields are modelled as single fields. That is exact only while every nodelet's copy holds the same value, which is the replicated-storage assumption stated above for assignment and move.
  - Physical striping of the elements across nodelets is the allocator's business. Only logical indices are modelled.
- Reducers.Reducer: only the integer monoid `op_add<T>` is modelled, with unbounded integers, so overflow is not modelled. The `op_add<double>` compare-and-swap loop (reducers.h:78-96) is floating point and atomics.
- `remote_add` is an atomic remote add. The model applies it as a plain update.
- Reducers.GetValueReplicated: `is_repl(this)` becomes the choice between `GetValue` and `GetValueReplicated`.
- Zip: iterator cursors are integer positions, and `operator->` is the pair of positions. Dereferencing reads arrays. Reference-proxy assignment through `*it` is not modelled.
- TransformZip.Transform, TransformZip.Transform2:
  - `execution_policy.h` and the `for_each` the work is handed to are not part of this model. Every policy is treated as visiting the positions in increasing order, so the policy has no effect on the result.
  - The default policy's value is therefore immaterial and is written as `Sequenced`.
  - The output range must lie in a different array from each input range, or be exactly that range. This is the standard precondition of `transform`.
- `cas_mutex.h` is a concurrency primitive. `localmalloc_resource.h` wraps allocator calls. `make_unique.h` is a standard-library shim. The benchmark drivers `global_stream.cc` and `benchmarks/global_stream_cxx.cc` are timers and printing. None of them is part of this model.

## Findings

`repl_array` reaches each nodelet's copy through `data_.get_nth(nlet)`. That is `repl<T*>::get_nth` (replicated.h:263-267): nodelet nlet's copy of the pointer field. Every copy of that field holds the same replicated address, which resolves to the caller's own nodelet. The intended per-nodelet address is `pmanip::get_nth(ptr, nlet)`, as resize uses for its destination at repl_array.h:111.

| source | as written | input that shows it | evidently intended | confidence | as-written member | corrected member |
|---|---|---|---|---|---|---|
| repl_array.h:53-59 | the copy constructor's memcpy gets `data_.get_nth(nlet)` and `other.data_.get_nth(nlet)`, so every pass copies the caller's copy onto the caller's copy | 2 nodelets, size 1, source copies [1] and [2], caller on nodelet 0: nodelet 1's copy of the new array is never written (reading line 56 with its const-correctness error repaired, see Left out) | copy nodelet nlet's copy of the source into nodelet nlet's copy of the new array | not executed | ReplArrays.CopyCallerRowAsWritten | ReplArrays.CopyAllNodelets |
| repl_array.h:109-115 | resize translates the destination to nodelet nlet but reads the source through `data_.get_nth(nlet)`, so every new copy starts with the caller's old copy | 2 nodelets, size 1 grown to 2, old copies [1] and [2], caller on nodelet 0: nodelet 1's new copy starts with 1 | copy nodelet nlet's old copy into nodelet nlet's new copy | not executed | ReplArrays.ResizeCopyAsWritten | ReplArrays.CopyAllNodelets |
| repl_array.h:82-88 | get_nth(n) returns `data_.get_nth(n)`, the same replicated address for every n | 2 nodelets, copies [1] and [2], caller on nodelet 0: get_nth(1) reads 1 | return nodelet n's copy of the array | not executed | ReplArrays.ReplArray.GetNthAsWritten | ReplArrays.ReplArray.GetNth |

ReplArrays.CopyCounterexample, ReplArrays.ResizeCounterexample and ReplArrays.GetNthCounterexample call the as-written members on these inputs, and their contracts state the values that result. ReplArrays.ReplArray.Copy, ReplArrays.ReplArray.AssignCopy and ReplArrays.ReplArray.Resize use the corrected copy.
