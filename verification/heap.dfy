/**
 The data of an array-backed d-ary heap: elements, the heap record, the
 implicit tree arithmetic over indices, and the two orderings.
 */
module HeapTypes {

  /** The key width of the source (`size_t` on a 64-bit target). Keys are only
      compared, never combined, so no wrap-around arises. */
  newtype u64 = x: int | 0 <= x < 0x1_0000_0000_0000_0000

  /** A key and an opaque payload that the heap never inspects. */
  datatype Elem<T> = Elem(value: u64, obj: T)

  /** The heap record: arity `d`, capacity, length, configuration bits and the
      backing storage. Slots at or beyond `len` hold whatever was there. */
  datatype Heap<T> = Heap(d: nat, cap: nat, len: nat, flags: bv32, elts: seq<Elem<T>>)

  /** The result of a mutating operation: a status code and the new record. */
  datatype Outcome<T> = Outcome(status: int, heap: Heap<T>)

  /** The storage block is allocated and has exactly `cap` slots. */
  predicate Allocated<T>(h: Heap<T>)
  {
    |h.elts| == h.cap
  }

  /** Which way an insertion orders keys. */
  datatype Mode = MaxHeap | MinHeap

  /** Index of the parent of slot `i`: it lies closer to the root. */
  function Parent(d: nat, i: nat): (p: nat)
    requires d >= 1 && i > 0
    ensures p < i
  {
    DivBounds(i - 1, d);
    (i - 1) / d
  }

  /** Slot `i` is one of the `d` children `p*d + 1 .. p*d + d` of its parent `p`. */
  lemma ParentRange(d: nat, i: nat)
    requires d >= 1 && i > 0
    ensures Parent(d, i) * d + 1 <= i <= Parent(d, i) * d + d
  {
    DivBounds(i - 1, d);
  }

  lemma DivBounds(x: nat, d: nat)
    requires d >= 1
    ensures (x / d) * d <= x < (x / d) * d + d
    ensures x / d <= x
  {
    assert x == (x / d) * d + x % d;
    MulMonotone(1, d, x / d);
  }

  /** Index of the `j`-th child (1-based) of slot `i`, as the checkers compute it. */
  function Child(d: nat, i: nat, j: nat): (c: nat)
  {
    i * d + j
  }

  /** The parent of the `j`-th child of `i` is `i`. */
  lemma ParentOfChild(d: nat, i: nat, j: nat)
    requires d >= 1 && 1 <= j <= d
    ensures Parent(d, Child(d, i, j)) == i
  {
    var p := Parent(d, Child(d, i, j));
    ParentRange(d, Child(d, i, j));
    if p < i {
      MulMonotone(p + 1, i, d);
    } else if p > i {
      MulMonotone(i + 1, p, d);
    }
  }

  /** Every slot but the root is a child of its parent. */
  lemma ChildOfParent(d: nat, c: nat)
    requires d >= 1 && c > 0
    ensures 1 <= c - Parent(d, c) * d <= d
    ensures Child(d, Parent(d, c), c - Parent(d, c) * d) == c
  {
    ParentRange(d, c);
  }

  lemma MulMonotone(a: nat, b: nat, d: nat)
    requires a <= b
    ensures a * d <= b * d
  {
  }

  /** `k` lies on the path from slot `i` up to the root (`i` included). */
  predicate OnRootPath(d: nat, k: nat, i: nat)
    requires d >= 1
    ensures OnRootPath(d, k, i) ==> k <= i
    decreases i
  {
    k == i || (i > 0 && OnRootPath(d, k, Parent(d, i)))
  }

  /** `up` may sit directly above `down`: for a max heap its key is at least
      (strictly: greater than) the child's, for a min heap at most (less than). */
  predicate Above<T>(o: Mode, strict: bool, up: Elem<T>, down: Elem<T>)
  {
    match o
    case MaxHeap => if strict then down.value < up.value else down.value <= up.value
    case MinHeap => if strict then up.value < down.value else up.value <= down.value
  }

  /** The sift-up test of the source: the new element `x` moves above `parent`
      when its key is at least (max) or at most (min) the parent's. Equal keys
      climb. */
  predicate Climbs<T>(o: Mode, x: Elem<T>, parent: Elem<T>)
    ensures Climbs(o, x, parent) <==> !Above(o, true, parent, x)
  {
    match o
    case MaxHeap => x.value >= parent.value
    case MinHeap => x.value <= parent.value
  }

  /** Heap order over the slots `[0, n)`, stated parent-wise: every slot but
      the root sits below its parent in the order `Above(o, strict, _, _)`. */
  ghost predicate IsHeap<T>(o: Mode, strict: bool, a: seq<Elem<T>>, d: nat, n: nat)
    requires d >= 1 && n <= |a|
  {
    forall c :: 0 < c < n ==> Above(o, strict, a[Parent(d, c)], a[c])
  }
}
