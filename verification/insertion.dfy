/**
 `heap_max_insert` and `heap_min_insert`. `Insert` is the reference
 semantics (the guard sequence, then an append at slot `len` and a sift-up);
 `InsertInPlace` is the source's loop, proved to compute the same outcome.
 */
module Insertion {
  import opened Flags
  import opened HeapTypes
  import opened Sift

  /** The flag that an insertion in mode `o` demands. */
  function ModeFlag(o: Mode): (f: bv32)
    ensures f == HEAP_MAX || f == HEAP_MIN
    ensures (f == HEAP_MAX) <==> o == MaxHeap
  {
    match o
    case MaxHeap => HEAP_MAX
    case MinHeap => HEAP_MIN
  }

  /** The guard sequence shared by both insertions, in the source's order:
      locked (-2), then wrong mode (-32), then full (-1). Each guard tests
      HEAP_CANFAIL together with its own flag, except the mode guard, which
      fires when either is missing: without HEAP_CANFAIL every insertion is
      refused with -32, so there is no unchecked insertion. */
  function InsertGuard(o: Mode, hf: bv32, full: bool): (g: int)
    ensures Flag(hf, HEAP_LOCK) && Flag(hf, HEAP_CANFAIL) ==> g == ERR_LOCK
    ensures (&& !(Flag(hf, HEAP_LOCK) && Flag(hf, HEAP_CANFAIL))
             && !(Flag(hf, ModeFlag(o)) && Flag(hf, HEAP_CANFAIL)))
            ==> g == ERR_MODE
    ensures (&& !Flag(hf, HEAP_LOCK) && Flag(hf, ModeFlag(o)) && Flag(hf, HEAP_CANFAIL)
             && full)
            ==> g == ERR_NOEXPAND
    ensures !Flag(hf, HEAP_CANFAIL) ==> g == ERR_MODE
    ensures g == OK <==> Flag(hf, HEAP_CANFAIL) && !Flag(hf, HEAP_LOCK) && Flag(hf, ModeFlag(o)) && !full
  {
    FlagOfUnion(hf, HEAP_LOCK, HEAP_CANFAIL);
    FlagOfUnion(hf, ModeFlag(o), HEAP_CANFAIL);
    if Flag(hf, HEAP_LOCK | HEAP_CANFAIL) then
      ERR_LOCK
    else if !Flag(hf, ModeFlag(o) | HEAP_CANFAIL) then
      ERR_MODE
    else if full && Flag(hf, HEAP_CANFAIL) then
      ERR_NOEXPAND
    else
      OK
  }

  /** Insertion: the guards, then `elt` is written at slot `len`, the length
      grows by one and `elt` sifts up. (The source treats `len == 0` apart;
      sifting up from the root moves nothing, so one case covers both.) */
  function Insert<T>(o: Mode, h: Heap<T>, elt: Elem<T>): (r: Outcome<T>)
    requires h.d >= 1
    requires Flag(h.flags, HEAP_CANFAIL) ==> Allocated(h)
    ensures r.status == InsertGuard(o, h.flags, h.len >= h.cap)
    // a rejection changes nothing
    ensures r.status != OK ==> r.heap == h
    // a success grows the length by one and stays within capacity
    ensures r.status == OK ==>
              && r.heap.len == h.len + 1 <= r.heap.cap == h.cap
              && r.heap.d == h.d && r.heap.flags == h.flags
              && Allocated(r.heap)
  {
    var g := InsertGuard(o, h.flags, h.len >= h.cap);
    if g != OK then
      Outcome(g, h)
    else
      Outcome(OK, h.(len := h.len + 1, elts := SiftUp(o, h.elts[h.len := elt], h.d, h.len).elts))
  }

  /** What a successful insertion stores: the slots `[0, len]` hold the old
      contents plus `elt`, and only the root path of slot `len` is permuted. */
  lemma InsertContents<T>(o: Mode, h: Heap<T>, elt: Elem<T>)
    requires h.d >= 1
    requires Flag(h.flags, HEAP_CANFAIL) ==> Allocated(h)
    requires Insert(o, h, elt).status == OK
    ensures var r := Insert(o, h, elt).heap;
      && multiset(r.elts[..r.len]) == multiset(h.elts[..h.len]) + multiset{elt}
      && forall k :: 0 <= k < |h.elts| && k != h.len && !OnRootPath(h.d, k, h.len) ==>
           r.elts[k] == h.elts[k]
  {
    AppendSiftUpContents(o, h.elts, h.d, h.len, elt);
  }

  /** The sift-up loop of the source. Slot `i1` holds the new element `x` and
      `i2` is its parent; the parent index is only computed while `i1 > 0`.
      The loop compares against its own copy `x`, not against slot `i1`. */
  method SiftUpLoop<T>(o: Mode, a: seq<Elem<T>>, d: nat, i: nat, x: Elem<T>) returns (b: seq<Elem<T>>)
    requires d >= 1 && i < |a| && a[i] == x
    ensures b == SiftUp(o, a, d, i).elts
  {
    b := a;
    var i1: nat := i;
    var i2: nat := if i1 > 0 then Parent(d, i1) else 0;
    while i1 > 0 && Climbs(o, x, b[i2])
      invariant i1 < |b| == |a|
      invariant i1 > 0 ==> i2 == Parent(d, i1)
      invariant b[i1] == x
      invariant SiftUp(o, b, d, i1).elts == SiftUp(o, a, d, i).elts
      decreases i1
    {
      b := Swap(b, i1, i2);
      i1 := i2;
      if i1 > 0 {
        i2 := Parent(d, i2);
      }
    }
  }

  /** The body shared by `heap_max_insert` and `heap_min_insert`. */
  method InsertInPlace<T>(o: Mode, h: Heap<T>, elt: Elem<T>) returns (status: int, h': Heap<T>)
    requires h.d >= 1
    requires Flag(h.flags, HEAP_CANFAIL) ==> Allocated(h)
    ensures Outcome(status, h') == Insert(o, h, elt)
  {
    status := InsertGuard(o, h.flags, h.len >= h.cap);
    if status != OK {
      return status, h;
    }
    if h.len == 0 {
      return OK, h.(len := 1, elts := h.elts[0 := elt]);
    }
    var elts := SiftUpLoop(o, h.elts[h.len := elt], h.d, h.len, elt);
    return OK, h.(len := h.len + 1, elts := elts);
  }

  /** `heap_max_insert`. */
  method MaxInsert<T>(h: Heap<T>, elt: Elem<T>) returns (status: int, h': Heap<T>)
    requires h.d >= 1
    requires Flag(h.flags, HEAP_CANFAIL) ==> Allocated(h)
    ensures Outcome(status, h') == Insert(MaxHeap, h, elt)
    ensures status == OK <==>
              Flag(h.flags, HEAP_CANFAIL) && !Flag(h.flags, HEAP_LOCK) && Flag(h.flags, HEAP_MAX) && h.len < h.cap
    ensures status == OK && IsHeap(MaxHeap, false, h.elts, h.d, h.len) ==>
              IsHeap(MaxHeap, false, h'.elts, h.d, h'.len)
  {
    status, h' := InsertInPlace(MaxHeap, h, elt);
    if status == OK && IsHeap(MaxHeap, false, h.elts, h.d, h.len) {
      InsertKeepsHeap(MaxHeap, false, h, elt);
    }
  }

  /** `heap_min_insert`. */
  method MinInsert<T>(h: Heap<T>, elt: Elem<T>) returns (status: int, h': Heap<T>)
    requires h.d >= 1
    requires Flag(h.flags, HEAP_CANFAIL) ==> Allocated(h)
    ensures Outcome(status, h') == Insert(MinHeap, h, elt)
    ensures status == OK <==>
              Flag(h.flags, HEAP_CANFAIL) && !Flag(h.flags, HEAP_LOCK) && Flag(h.flags, HEAP_MIN) && h.len < h.cap
    ensures status == OK && IsHeap(MinHeap, false, h.elts, h.d, h.len) ==>
              IsHeap(MinHeap, false, h'.elts, h.d, h'.len)
  {
    status, h' := InsertInPlace(MinHeap, h, elt);
    if status == OK && IsHeap(MinHeap, false, h.elts, h.d, h.len) {
      InsertKeepsHeap(MinHeap, false, h, elt);
    }
  }

  /** A successful insertion keeps heap order, weak or strict; the strict
      order (the one the checkers test) needs a key not already stored. */
  lemma InsertKeepsHeap<T>(o: Mode, s: bool, h: Heap<T>, elt: Elem<T>)
    requires h.d >= 1
    requires Flag(h.flags, HEAP_CANFAIL) ==> Allocated(h)
    requires Insert(o, h, elt).status == OK
    requires IsHeap(o, s, h.elts, h.d, h.len)
    requires s ==> forall k :: 0 <= k < h.len ==> h.elts[k].value != elt.value
    ensures IsHeap(o, s, Insert(o, h, elt).heap.elts, h.d, h.len + 1)
  {
    AppendSiftUp(o, s, h.elts, h.d, h.len, elt);
  }

  /** Where the new element comes to rest: on the root path of slot `len`,
      either at the root or below a parent it does not climb over, which is
      strictly greater (max) or strictly smaller (min). */
  lemma InsertSettles<T>(o: Mode, h: Heap<T>, elt: Elem<T>)
    requires h.d >= 1
    requires Flag(h.flags, HEAP_CANFAIL) ==> Allocated(h)
    requires Insert(o, h, elt).status == OK
    ensures exists p: nat :: OnRootPath(h.d, p, h.len) && Insert(o, h, elt).heap.elts[p] == elt &&
              (p == 0 || Above(o, true, Insert(o, h, elt).heap.elts[Parent(h.d, p)], elt))
  {
    var s := SiftUp(o, h.elts[h.len := elt], h.d, h.len);
    assert Insert(o, h, elt).heap.elts == s.elts;
    var p := s.pos;
    assert OnRootPath(h.d, p, h.len) && s.elts[p] == elt;
  }

  /** Equal keys climb: an element whose key is at least (max) or at most (min)
      every stored key ends at the root, whatever the heap order. */
  lemma ExtremeKeyReachesRoot<T>(o: Mode, h: Heap<T>, elt: Elem<T>)
    requires h.d >= 1
    requires Flag(h.flags, HEAP_CANFAIL) ==> Allocated(h)
    requires Insert(o, h, elt).status == OK
    requires forall k :: 0 <= k < h.len ==> Climbs(o, elt, h.elts[k])
    ensures Insert(o, h, elt).heap.elts[0] == elt
  {
    var a := h.elts[h.len := elt];
    var s := SiftUp(o, a, h.d, h.len);
    if s.pos > 0 {
      assert false;
    }
  }
}
