/**
 `is_max_heap` and `is_min_heap`: read-only tests of the heap order over the
 first `len` slots. They walk every slot `i` and its children `i*d + j`,
 `1 <= j <= d`, and are strict: a child whose key equals its parent's is a
 violation, although sift-up lets equal keys climb.
 */
module Checker {
  import opened HeapTypes

  /** The source's test of one edge: the child's key is at least (max) or at
      most (min) the parent's. It is the very comparison that lets sift-up
      move the child above its parent. */
  predicate Violates<T>(o: Mode, parent: Elem<T>, child: Elem<T>)
  {
    Climbs(o, child, parent)
  }

  /** Strict heap order stated as the checkers walk it: slot by slot, over the
      children that exist below `n`. With `d == 0` no slot has children. */
  ghost predicate ChildrenBelow<T>(o: Mode, a: seq<Elem<T>>, d: nat, n: nat)
    requires n <= |a|
  {
    forall i, j :: 0 <= i < n && 1 <= j <= d && Child(d, i, j) < n ==>
      !Violates(o, a[i], a[Child(d, i, j)])
  }

  /** The walk of the checkers; 1 when no edge is violated, 0 at the first
      violation. */
  method CheckHeap<T>(o: Mode, h: Heap<T>) returns (r: int)
    requires h.len <= |h.elts|
    ensures r == 0 || r == 1
    ensures r == 1 <==> ChildrenBelow(o, h.elts, h.d, h.len)
  {
    var i := 0;
    while i < h.len
      invariant i <= h.len
      invariant forall i', j :: 0 <= i' < i && 1 <= j <= h.d && Child(h.d, i', j) < h.len ==>
                  !Violates(o, h.elts[i'], h.elts[Child(h.d, i', j)])
    {
      var j := 1;
      while j <= h.d && Child(h.d, i, j) < h.len
        invariant 1 <= j <= h.d + 1
        invariant forall j' :: 1 <= j' < j && Child(h.d, i, j') < h.len ==>
                    !Violates(o, h.elts[i], h.elts[Child(h.d, i, j')])
      {
        if Violates(o, h.elts[i], h.elts[Child(h.d, i, j)]) {
          return 0;
        }
        j := j + 1;
      }
      i := i + 1;
    }
    return 1;
  }

  /** `is_max_heap`. With `d >= 1` a result of 1 means exactly that the first
      `len` slots form a strict max heap. */
  method IsMaxHeap<T>(h: Heap<T>) returns (r: int)
    requires h.len <= |h.elts|
    ensures r == 0 || r == 1
    ensures r == 1 <==> ChildrenBelow(MaxHeap, h.elts, h.d, h.len)
    ensures h.d >= 1 ==> (r == 1 <==> IsHeap(MaxHeap, true, h.elts, h.d, h.len))
  {
    r := CheckHeap(MaxHeap, h);
    if h.d >= 1 {
      WalkIsHeapOrder(MaxHeap, h.elts, h.d, h.len);
    }
  }

  /** `is_min_heap`. With `d >= 1` a result of 1 means exactly that the first
      `len` slots form a strict min heap. */
  method IsMinHeap<T>(h: Heap<T>) returns (r: int)
    requires h.len <= |h.elts|
    ensures r == 0 || r == 1
    ensures r == 1 <==> ChildrenBelow(MinHeap, h.elts, h.d, h.len)
    ensures h.d >= 1 ==> (r == 1 <==> IsHeap(MinHeap, true, h.elts, h.d, h.len))
  {
    r := CheckHeap(MinHeap, h);
    if h.d >= 1 {
      WalkIsHeapOrder(MinHeap, h.elts, h.d, h.len);
    }
  }

  /** The child-wise walk and the parent-wise heap order agree. */
  lemma WalkIsHeapOrder<T>(o: Mode, a: seq<Elem<T>>, d: nat, n: nat)
    requires d >= 1 && n <= |a|
    ensures ChildrenBelow(o, a, d, n) <==> IsHeap(o, true, a, d, n)
  {
    if ChildrenBelow(o, a, d, n) {
      forall c | 0 < c < n
        ensures Above(o, true, a[Parent(d, c)], a[c])
      {
        ChildOfParent(d, c);
        var p := Parent(d, c);
        var j := c - p * d;
        assert !Violates(o, a[p], a[Child(d, p, j)]);
      }
    }
    if IsHeap(o, true, a, d, n) {
      forall i, j | 0 <= i < n && 1 <= j <= d && Child(d, i, j) < n
        ensures !Violates(o, a[i], a[Child(d, i, j)])
      {
        ParentOfChild(d, i, j);
        assert Above(o, true, a[Parent(d, Child(d, i, j))], a[Child(d, i, j)]);
      }
    }
  }
}
