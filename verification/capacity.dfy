/**
 `heap_resize`: explicit, caller-driven reallocation of the backing storage.
 The allocator is not modelled: whether `realloc` succeeds is the oracle
 `allocOk`, and the indeterminate contents of slots it adds are the oracle
 `filler`.
 */
module Capacity {
  import opened Flags
  import opened HeapTypes

  /** The storage after a successful reallocation to `n` slots: the first
      slots of the old block survive, the rest come from `filler`. */
  function Realloc<T>(block: seq<Elem<T>>, n: nat, filler: seq<Elem<T>>): (s: seq<Elem<T>>)
    requires |filler| == n
    ensures |s| == n
    ensures forall k :: 0 <= k < n && k < |block| ==> s[k] == block[k]
    ensures forall k :: |block| <= k < n ==> s[k] == filler[k]
  {
    if n <= |block| then block[..n] else block + filler[|block|..]
  }

  /** Resize to `n` slots. In checked mode (HEAP_CANFAIL) a NOEXPAND heap and a
      failed allocation of a non-empty block are refused with -1 and change
      nothing. Otherwise the capacity becomes `n`; the length is never touched,
      even when `n` drops below it. A failed allocation in unchecked mode
      loses the old block: the record then has `cap == n` but no storage. */
  function Resize<T>(h: Heap<T>, n: nat, allocOk: bool, filler: seq<Elem<T>>): (r: Outcome<T>)
    requires |filler| == n
    // the two refusals, both reported as -1, and nothing changes
    ensures Flag(h.flags, HEAP_NOEXPAND) && Flag(h.flags, HEAP_CANFAIL) ==> r == Outcome(ERR_NOEXPAND, h)
    ensures Flag(h.flags, HEAP_CANFAIL) && !allocOk && n != 0 ==> r == Outcome(ERR_NOEXPAND, h)
    ensures r.status == OK || r == Outcome(ERR_NOEXPAND, h)
    // exactly those two refusals: NOEXPAND alone, or any failure in unchecked
    // mode, does not stop the resize
    ensures r.status == OK <==>
              !Flag(h.flags, HEAP_CANFAIL) || (!Flag(h.flags, HEAP_NOEXPAND) && (allocOk || n == 0))
    ensures r.status == OK ==>
              && r.heap.cap == n && r.heap.len == h.len
              && r.heap.d == h.d && r.heap.flags == h.flags
    // a successful allocation keeps the surviving prefix of the old block
    ensures r.status == OK && (allocOk || n == 0) ==>
              && Allocated(r.heap)
              && forall k :: 0 <= k < n && k < |h.elts| ==> r.heap.elts[k] == h.elts[k]
    // a failed allocation in unchecked mode leaves no storage
    ensures r.status == OK && !allocOk && n != 0 ==> r.heap.elts == [] && !Allocated(r.heap)
  {
    FlagOfUnion(h.flags, HEAP_NOEXPAND, HEAP_CANFAIL);
    if Flag(h.flags, HEAP_NOEXPAND | HEAP_CANFAIL) then
      Outcome(ERR_NOEXPAND, h)
    else if !allocOk && n != 0 && Flag(h.flags, HEAP_CANFAIL) then
      Outcome(-1, h)
    else
      var elts := if allocOk then Realloc(h.elts, n, filler) else [];
      Outcome(OK, h.(elts := elts, cap := n))
  }

  /** A successful reallocation to at least `len` slots keeps the stored
      prefix `[0, len)`, and with it any heap order that prefix had. */
  lemma ResizeKeepsHeap<T>(h: Heap<T>, n: nat, allocOk: bool, filler: seq<Elem<T>>, o: Mode, s: bool)
    requires |filler| == n && h.d >= 1 && h.len <= n && h.len <= |h.elts|
    requires Resize(h, n, allocOk, filler).status == OK && (allocOk || n == 0)
    requires IsHeap(o, s, h.elts, h.d, h.len)
    ensures var r := Resize(h, n, allocOk, filler).heap;
      && r.elts[..r.len] == h.elts[..h.len]
      && IsHeap(o, s, r.elts, r.d, r.len)
  {
    var r := Resize(h, n, allocOk, filler).heap;
    assert r.elts[..r.len] == h.elts[..h.len];
    forall c | 0 < c < r.len
      ensures Above(o, s, r.elts[Parent(r.d, c)], r.elts[c])
    {
      assert Above(o, s, h.elts[Parent(h.d, c)], h.elts[c]);
    }
  }
}
