# heaparray: a d-ary heap with flag-driven guards, in Dafny

This project models the array-backed d-ary heap of `heaparray.c`:

- the configuration bits `HEAP_NOEXPAND`, `HEAP_LOCK`, `HEAP_CANFAIL`,
  `HEAP_MAX` and `HEAP_MIN`, and the `FLAG` mask test;
- `heap_resize`, which reallocates the backing storage explicitly;
- the two insertions `heap_max_insert` and `heap_min_insert`: a guard
  sequence, an append at slot `len`, and a sift-up with parent `(i - 1) / d`;
- the two read-only checkers `is_max_heap` and `is_min_heap`.

Modules, one per part of the source:

- `Flags` (flags.dfy): the bits as `bv32` masks, `Flag` for `FLAG`, and the
  status codes.
- `HeapTypes` (heap.dfy): elements, the heap record, and the index
  arithmetic. It also holds the two orders: the weak one that sift-up
  establishes and the strict one that the checkers demand.
- `Sift` (sift.dfy): a recursive reference definition of sift-up and the
  proofs that it permutes only the root path and restores heap order.
- `Capacity` (capacity.dfy): `heap_resize`.
- `Insertion` (insertion.dfy): the insertions.
  - `Insert` is the reference semantics.
  - `SiftUpLoop` and `InsertInPlace` are the source's loop, proved to compute
    the same result.
- `Checker` (checker.dfy): the nested loops of the checkers, proved equal to
  a child-wise predicate. That predicate is proved equal to the parent-wise
  strict heap order.
- `Scenarios` (scenarios.dfy): runs of insertions and concrete examples.

Three behaviours of the code are easy to misread:

- **There is no unchecked insertion.**
  - The mode guard fires when the mode bit and `HEAP_CANFAIL` are not both set.
  - So without `HEAP_CANFAIL` every insertion is refused with -32 and
    changes nothing.
  - Only `heap_resize` has a path that skips its checks.
- **Status codes are shared.**
  - -1 means any of: resize refused, allocation failed, or heap full.
  - -2 means locked.
  - -32 means wrong mode.
- **The checkers are strict, and sift-up is not.**
  - The checkers count a child whose key equals its parent's as a violation.
  - Sift-up lets equal keys climb.
  - So a run of successful insertions keeps the weak order (`Scenarios.InsertAllKeepsHeap`).
  - It does not always keep the strict order. Inserting 5 and then 5 again
    fails `is_max_heap` (`Scenarios.EqualKeysClimb`).
  - A new key distinct from every stored key keeps the strict order
    (`Insertion.InsertKeepsHeap` with `s == true`).
  - The converse fails. An equal key placed beside the other copy, not
    below it, keeps the strict order (`Scenarios.EqualKeyBesideStaysStrict`).

## Model

| member | source | states |
|---|---|---|
| Flags.Flag | heaparray.c:15 | `FLAG(hf, f)` holds exactly when every bit of `f` is already in `hf`: OR-ing `f` into `hf` changes nothing |
| Flags.FlagOfUnion | heaparray.c:15 | testing the union of two masks, such as `HEAP_LOCK` with `HEAP_CANFAIL`, is testing both: the guard fires only when both are set |
| Flags.StatusCodes | heaparray.c:52-59 | the three status codes are the negated values of `HEAP_NOEXPAND`, `HEAP_LOCK` and `HEAP_MIN` |
| HeapTypes.Parent | heaparray.c:69 | the parent index `(i - 1) / d` of a non-root slot is smaller than the slot |
| HeapTypes.ParentRange | heaparray.c:69 | slot `i` is one of the children `p*d + 1 .. p*d + d` of its parent `p` |
| HeapTypes.ParentOfChild | heaparray.c:125-126 | the child `i*d + j` (1 <= j <= d) that the checkers visit has parent `i` as sift-up computes it |
| HeapTypes.ChildOfParent | heaparray.c:69 | every non-root slot `c` is the child `c - p*d` (between 1 and d) of its parent `p` |
| HeapTypes.Climbs | heaparray.c:74 | the sift-up test (`>=` for max, `<=` for min) holds exactly when the parent is not strictly above the new key: equal keys climb |
| Capacity.Realloc | heaparray.c:39 | a reallocation to `n` slots keeps the first min(old size, n) slots and fills the rest with indeterminate contents |
| Capacity.Resize | heaparray.c:34-48 | with NOEXPAND and CANFAIL both set, -1 and nothing changes. With CANFAIL, a failed allocation of `n != 0` gives -1 and nothing changes. Those are the only refusals. On success `cap == n`, `len` is untouched even below `n`, and the prefix survives. An unchecked failed allocation loses the storage |
| Capacity.ResizeKeepsHeap | heaparray.c:39-47 | a successful resize to at least `len` slots keeps the stored prefix and its heap order |
| Insertion.ModeFlag | heaparray.c:55 | max insertion demands `HEAP_MAX`, min insertion `HEAP_MIN` |
| Insertion.InsertGuard | heaparray.c:52-59 | guard order: locked and checked gives -2. Then a missing mode or a missing CANFAIL gives -32, so unchecked insertion is always -32. Then full and checked gives -1. Status 0 exactly when checked, unlocked, in mode and not full |
| Insertion.Insert | heaparray.c:50-84 | the status is the guard's. Any rejection leaves the heap unchanged. A success grows `len` by exactly one within `cap` and keeps arity, flags and storage size |
| Insertion.InsertContents | heaparray.c:61-81 | after a success, slots `[0, len]` hold the old contents plus `elt` as a multiset, and no slot off the root path of `len` changes |
| Insertion.SiftUpLoop | heaparray.c:68-81 | the source's while loop computes exactly the reference sift-up. It computes the parent only while `i1 > 0` and compares against the copy `elt` |
| Insertion.InsertInPlace | heaparray.c:50-84 | the source's body, including its separate `len == 0` branch, has the same outcome as `Insert` |
| Insertion.MaxInsert | heaparray.c:50-84 | `heap_max_insert`: status 0 exactly when checked, unlocked, `HEAP_MAX` and `len < cap`, and a weak max heap stays a weak max heap |
| Insertion.MinInsert | heaparray.c:86-120 | `heap_min_insert`: status 0 exactly when checked, unlocked, `HEAP_MIN` and `len < cap`, and a weak min heap stays a weak min heap |
| Insertion.InsertKeepsHeap | heaparray.c:68-81 | a successful insertion keeps the weak heap order over `[0, len + 1)`. It keeps the strict order when the new key differs from every stored key |
| Insertion.InsertSettles | heaparray.c:74-81 | the new element rests on the root path of `len`, either at the root or below a parent that is strictly greater (max) or strictly smaller (min) |
| Insertion.ExtremeKeyReachesRoot | heaparray.c:74-81 | a key that climbs over every stored key, equal keys included, ends at the root |
| Sift.Swap | heaparray.c:76-78 | exchanging two slots swaps them, keeps every other slot and preserves the multiset |
| Sift.SiftUp | heaparray.c:74-81 | the moving element ends on its own root path. When it stops below the root, its parent is an element already there that it does not climb over |
| Sift.SiftUpLocal | heaparray.c:74-81 | sift-up permutes the storage and changes only slots on the root path of the start slot |
| Sift.AppendSiftUpContents | heaparray.c:71-81 | appending at `len` and sifting up leaves the old prefix plus the new element in `[0, len]`, and nothing else moves off the root path |
| Sift.SwapStep | heaparray.c:76-80 | one swap moves the single possible order violation one level up and keeps the invariant that lets the next swap succeed |
| Sift.SiftUpRestores | heaparray.c:74-81 | sift-up restores heap order (weak, or strict with a unique key) when only the edge above the moving slot was broken |
| Sift.AppendSiftUp | heaparray.c:71-81 | appending below a heap prefix and sifting up gives a heap prefix one longer |
| Checker.CheckHeap | heaparray.c:122-138 | the nested walk returns 1 exactly when no existing child `i*d + j` below `len` violates its parent strictly, and 0 otherwise |
| Checker.IsMaxHeap | heaparray.c:122-129 | `is_max_heap` returns 1 exactly when every child key is strictly less than its parent's. For `d >= 1` that is exactly the strict max-heap order |
| Checker.IsMinHeap | heaparray.c:131-138 | `is_min_heap` returns 1 exactly when every child key is strictly greater than its parent's. For `d >= 1` that is exactly the strict min-heap order |
| Checker.WalkIsHeapOrder | heaparray.c:124-126 | the checkers' child-wise condition is equivalent to the parent-wise strict heap order |
| Scenarios.InsertAll | heaparray.c:50-84 | a run of insertions stopping at the first refusal keeps the storage allocated, never grows `len` past `cap`, and a fully successful run adds exactly one slot per element |
| Scenarios.InsertAllContents | heaparray.c:61-81 | a fully successful run leaves the old contents plus all inserted elements as a multiset |
| Scenarios.InsertAllKeepsHeap | heaparray.c:68-81 | any run of insertions keeps the weak heap order, refused insertions included |
| Scenarios.BinaryMaxExample | heaparray.c:50-84 | binary max heap of capacity 6: inserting 5, 3, 8, 1, 9, 2 succeeds with storage 9, 8, 5, 1, 3, 2, which passes `is_max_heap` |
| Scenarios.EqualKeysClimb | heaparray.c:74 | inserting key 5 twice leaves the second copy at the root. The result is a weak max heap that fails the strict `is_max_heap` |
| Scenarios.EqualKeyBesideStaysStrict | heaparray.c:122-129 | inserting 5 into 9, 5 puts it beside the other 5, and `is_max_heap` still holds: distinct keys are not needed for the strict order |
| Scenarios.ShrinkThenInsert | heaparray.c:34-59 | after shrinking below `len`, a checked insertion is refused as full (-1), an unchecked one with -32, and neither changes the heap |

## Left out

- `main.c`: not part of this model. It is a rendering and input loop unrelated to the heap.
- `rand64` and `IMAX_BITS` (heaparray.c:141-151): they depend on the global state of the C library's `rand()`.
- `guccy_insert`, `guccybench` and `main` (heaparray.c:153-290): a timing benchmark built on the clock, `printf` and `malloc(0)`/`free`.
- `SETFLAG` (heaparray.c:16): the core never uses it.
- `realloc`: replaced by two parameters.
  - `allocOk` says whether the allocation succeeds.
  - `filler` supplies the indeterminate contents of added slots.
  - Pointer identity, `free`, and the byte count `sizeof(HeapElement) * n` with its possible overflow are not modelled.
- Capacity.Resize: the unchecked failure branch is modelled as "storage lost" (`elts == []`, `cap == n`). The source keeps a NULL pointer there, and any later access through it is undefined.
- Insertion.Insert: requires `d >= 1` for every call. In the source, `d == 0` divides by zero only on an accepted insertion into a non-empty heap (line 69). With `d == 0`, refusals and the first insertion into an empty heap (lines 61-66) are defined, but they are not modelled. The checkers still accept `d == 0` and return 1.
- Insertion.Insert: requires, in checked mode, that the storage holds exactly `cap` slots, even when the guards refuse. That is the record's own invariant. The source writes out of bounds without it only when the guards accept. A checked heap whose storage was lost and that is locked, full or in the wrong mode just returns -2, -1 or -32; that case is not modelled.
- Checker.CheckHeap: requires `len <= |elts|`, and so do Checker.IsMaxHeap and Checker.IsMinHeap. After a resize below `len`, the source reads past the block (lines 124-126). That read is undefined and is not modelled.
- Indices, lengths, capacities and the arity are unbounded naturals.
  - `size_t` wrap-around in `i*d + j` (line 125) is not modelled.
  - Nor is the wrap of `(i2 - 1) / d` once `i2` reaches 0 (line 80). That value is never used: the model computes a parent only while `i1 > 0`.
- The `flags` field is a C `int`, modelled as `bv32`. The guards look only at the five named bits.
- Keys are `size_t` values, modelled as the `u64` newtype. They are only compared.
- The `obj` payload is a type parameter, never inspected. It distinguishes equal keys in the examples.
