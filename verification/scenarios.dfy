/**
 Runs of insertions, and concrete examples of insertion and of the checkers.
 */
module Scenarios {
  import opened Flags
  import opened HeapTypes
  import opened Capacity
  import opened Insertion
  import opened Checker
  import opened Sift

  /** Insert `es` one by one, stopping at the first refusal. */
  function InsertAll<T>(o: Mode, h: Heap<T>, es: seq<Elem<T>>): (r: Outcome<T>)
    requires h.d >= 1 && Allocated(h)
    ensures Allocated(r.heap)
    ensures r.heap.d == h.d && r.heap.cap == h.cap && r.heap.flags == h.flags
    ensures h.len <= r.heap.len <= h.len + |es|
    ensures h.len <= h.cap ==> r.heap.len <= r.heap.cap
    // when every insertion succeeds the heap holds the old contents plus `es`
    ensures r.status == OK ==> r.heap.len == h.len + |es|
    decreases |es|
  {
    if es == [] then
      Outcome(OK, h)
    else
      var s := Insert(o, h, es[0]);
      if s.status != OK then s else InsertAll(o, s.heap, es[1..])
  }

  /** When every insertion succeeds the heap holds the old contents plus `es`. */
  lemma {:induction false} InsertAllContents<T>(o: Mode, h: Heap<T>, es: seq<Elem<T>>)
    requires h.d >= 1 && Allocated(h) && h.len <= h.cap
    requires InsertAll(o, h, es).status == OK
    ensures var r := InsertAll(o, h, es).heap;
      multiset(r.elts[..r.len]) == multiset(h.elts[..h.len]) + multiset(es)
    decreases |es|
  {
    if es != [] {
      var s := Insert(o, h, es[0]);
      InsertAllStep(o, h, es);
      InsertContents(o, h, es[0]);
      InsertAllContents(o, s.heap, es[1..]);
      assert multiset(es) == multiset{es[0]} + multiset(es[1..]) by {
        assert es == [es[0]] + es[1..];
      }
    }
  }

  /** A run of insertions that succeeds starts with a successful insertion. */
  lemma InsertAllStep<T>(o: Mode, h: Heap<T>, es: seq<Elem<T>>)
    requires h.d >= 1 && Allocated(h) && es != []
    requires InsertAll(o, h, es).status == OK
    ensures Insert(o, h, es[0]).status == OK
    ensures InsertAll(o, h, es) == InsertAll(o, Insert(o, h, es[0]).heap, es[1..])
  {
  }

  /** Every successful insertion keeps the weak heap order, so a sequence of
      insertions into a heap keeps it too, whether or not some are refused. */
  lemma {:induction false} InsertAllKeepsHeap<T>(o: Mode, h: Heap<T>, es: seq<Elem<T>>)
    requires h.d >= 1 && Allocated(h) && h.len <= h.cap
    requires IsHeap(o, false, h.elts, h.d, h.len)
    ensures IsHeap(o, false, InsertAll(o, h, es).heap.elts, h.d, InsertAll(o, h, es).heap.len)
    decreases |es|
  {
    if es != [] {
      var s := Insert(o, h, es[0]);
      if s.status == OK {
        InsertKeepsHeap(o, false, h, es[0]);
        InsertAllKeepsHeap(o, s.heap, es[1..]);
      }
    }
  }

  /** A binary max heap in checked mode. */
  function BinaryMax(cap: nat, len: nat, elts: seq<Elem<int>>): (h: Heap<int>)
  {
    Heap(2, cap, len, HEAP_MAX | HEAP_CANFAIL, elts)
  }

  const Z := Elem(0, 0)

  /** One insertion of the example, checked against its expected result. */
  lemma ExampleStep(cap: nat, before: seq<Elem<int>>, len: nat, e: Elem<int>, after: seq<Elem<int>>)
    requires |before| == cap && len < cap
    requires after == SiftUp(MaxHeap, before[len := e], 2, len).elts
    ensures Insert(MaxHeap, BinaryMax(cap, len, before), e) == Outcome(OK, BinaryMax(cap, len + 1, after))
  {
    var hf: bv32 := HEAP_MAX | HEAP_CANFAIL;
    assert Flag(hf, HEAP_CANFAIL) && !Flag(hf, HEAP_LOCK) && Flag(hf, HEAP_MAX);
  }

  /** The storage after each insertion of the example. */
  function ExampleStage(k: nat): (a: seq<Elem<int>>)
    requires k <= 6
    ensures |a| == 6
  {
    match k
    case 0 => [Z, Z, Z, Z, Z, Z]
    case 1 => [Elem(5, 0), Z, Z, Z, Z, Z]
    case 2 => [Elem(5, 0), Elem(3, 1), Z, Z, Z, Z]
    case 3 => [Elem(8, 2), Elem(3, 1), Elem(5, 0), Z, Z, Z]
    case 4 => [Elem(8, 2), Elem(3, 1), Elem(5, 0), Elem(1, 3), Z, Z]
    case 5 => [Elem(9, 4), Elem(8, 2), Elem(5, 0), Elem(1, 3), Elem(3, 1), Z]
    case _ => [Elem(9, 4), Elem(8, 2), Elem(5, 0), Elem(1, 3), Elem(3, 1), Elem(2, 5)]
  }

  const ExampleKeys: seq<Elem<int>> := [Elem(5, 0), Elem(3, 1), Elem(8, 2), Elem(1, 3), Elem(9, 4), Elem(2, 5)]

  /** Insertion `k` of the example turns stage `k` into stage `k + 1`. */
  lemma ExampleSift(k: nat)
    requires k < 6
    ensures SiftUp(MaxHeap, ExampleStage(k)[k := ExampleKeys[k]], 2, k).elts == ExampleStage(k + 1)
  {
    if k == 2 {
      ExampleSiftOnce();
    } else if k == 4 {
      ExampleSiftTwice();
    } else {
      ExampleSiftStays(k);
    }
  }

  /** The keys 5, 3, 1 and 2 stay where they are written. */
  lemma ExampleSiftStays(k: nat)
    requires k in {0, 1, 3, 5}
    ensures SiftUp(MaxHeap, ExampleStage(k)[k := ExampleKeys[k]], 2, k).elts == ExampleStage(k + 1)
  {
    var a := ExampleStage(k)[k := ExampleKeys[k]];
    assert a == ExampleStage(k + 1) by {
      assert ExampleKeys[k] == ExampleStage(k + 1)[k];
    }
    if k > 0 {
      assert !Climbs(MaxHeap, a[k], a[Parent(2, k)]) by {
        assert Parent(2, 1) == 0 && Parent(2, 3) == 1 && Parent(2, 5) == 2;
      }
    }
    Settles(MaxHeap, a, 2, k);
  }

  /** The key 8 climbs once, over 5. */
  lemma ExampleSiftOnce()
    ensures SiftUp(MaxHeap, ExampleStage(2)[2 := ExampleKeys[2]], 2, 2).elts == ExampleStage(3)
  {
    var a := ExampleStage(2)[2 := ExampleKeys[2]];
    var b := ExampleStage(3);
    assert a == [Elem(5, 0), Elem(3, 1), Elem(8, 2), Z, Z, Z];
    assert Parent(2, 2) == 0;
    SwapIs(a, 2, 0, b);
    ClimbStep(MaxHeap, a, 2, 2, b);
    Settles(MaxHeap, b, 2, 0);
  }

  /** The key 9 climbs twice, over 3 and then over 8. */
  lemma ExampleSiftTwice()
    ensures SiftUp(MaxHeap, ExampleStage(4)[4 := ExampleKeys[4]], 2, 4).elts == ExampleStage(5)
  {
    ExampleNineOverThree();
    ExampleNineOverEight();
  }

  /** The first climb of key 9, over 3. */
  lemma ExampleNineOverThree()
    ensures SiftUp(MaxHeap, ExampleStage(4)[4 := ExampleKeys[4]], 2, 4) ==
            SiftUp(MaxHeap, NineOverThree, 2, 1)
  {
    var a := ExampleStage(4)[4 := ExampleKeys[4]];
    var b := NineOverThree;
    assert a == [Elem(8, 2), Elem(3, 1), Elem(5, 0), Elem(1, 3), Elem(9, 4), Z];
    assert Parent(2, 4) == 1;
    SwapIs(a, 4, 1, b);
    ClimbStep(MaxHeap, a, 2, 4, b);
  }

  /** The second climb of key 9, over 8, to the root. */
  lemma ExampleNineOverEight()
    ensures SiftUp(MaxHeap, NineOverThree, 2, 1).elts == ExampleStage(5)
  {
    var b := NineOverThree;
    var c := ExampleStage(5);
    assert Parent(2, 1) == 0;
    SwapIs(b, 1, 0, c);
    ClimbStep(MaxHeap, b, 2, 1, c);
    Settles(MaxHeap, c, 2, 0);
  }

  /** The storage of the example between the two climbs of key 9. */
  const NineOverThree: seq<Elem<int>> := [Elem(8, 2), Elem(9, 4), Elem(5, 0), Elem(1, 3), Elem(3, 1), Z]

  /** A swap, given by its effect on every slot. */
  lemma SwapIs<T>(a: seq<T>, i: nat, j: nat, b: seq<T>)
    requires i < |a| && j < |a| && |b| == |a|
    requires b[i] == a[j] && b[j] == a[i]
    requires forall k :: 0 <= k < |a| && k != i && k != j ==> b[k] == a[k]
    ensures Swap(a, i, j) == b
  {
  }

  /** One climbing step of sift-up, unfolded. */
  lemma ClimbStep<T>(o: Mode, a: seq<Elem<T>>, d: nat, i: nat, b: seq<Elem<T>>)
    requires d >= 1 && 0 < i < |a|
    requires Climbs(o, a[i], a[Parent(d, i)]) && b == Swap(a, i, Parent(d, i))
    ensures SiftUp(o, a, d, i) == SiftUp(o, b, d, Parent(d, i))
  {
  }

  /** Sift-up stops at once when the element does not climb. */
  lemma Settles<T>(o: Mode, a: seq<Elem<T>>, d: nat, i: nat)
    requires d >= 1 && i < |a|
    requires i > 0 ==> !Climbs(o, a[i], a[Parent(d, i)])
    ensures SiftUp(o, a, d, i) == Sifted(a, i)
  {
  }

  /** The insertions from `k` on turn stage `k` into the final stage. */
  lemma {:induction false} ExampleRest(k: nat)
    requires k <= 6
    ensures InsertAll(MaxHeap, BinaryMax(6, k, ExampleStage(k)), ExampleKeys[k..]) ==
            Outcome(OK, BinaryMax(6, 6, ExampleStage(6)))
    decreases 6 - k
  {
    if k < 6 {
      ExampleSift(k);
      ExampleStep(6, ExampleStage(k), k, ExampleKeys[k], ExampleStage(k + 1));
      ExampleRest(k + 1);
      assert ExampleKeys[k..][1..] == ExampleKeys[k + 1..];
    } else {
      assert ExampleKeys[k..] == [];
    }
  }

  /** A binary max heap of capacity 6, checked mode, filled with the keys
      5, 3, 8, 1, 9, 2 (payload: the insertion index) ends as 9, 8, 5, 1, 3, 2
      and passes `is_max_heap`. */
  lemma BinaryMaxExample()
    ensures var r := InsertAll(MaxHeap, BinaryMax(6, 0, ExampleStage(0)), ExampleKeys);
      && r.status == OK && r.heap.len == 6
      && r.heap.elts == ExampleStage(6)
      && ChildrenBelow(MaxHeap, r.heap.elts, 2, 6)
  {
    ExampleRest(0);
    assert ExampleKeys[0..] == ExampleKeys;
    ExampleIsStrict();
  }

  /** The final storage of the example passes `is_max_heap`. */
  lemma ExampleIsStrict()
    ensures ChildrenBelow(MaxHeap, ExampleStage(6), 2, 6)
  {
    var a := ExampleStage(6);
    forall c | 0 < c < 6
      ensures Above(MaxHeap, true, a[Parent(2, c)], a[c])
    {
      assert Parent(2, 1) == 0 && Parent(2, 2) == 0 && Parent(2, 3) == 1;
      assert Parent(2, 4) == 1 && Parent(2, 5) == 2;
    }
    WalkIsHeapOrder(MaxHeap, a, 2, 6);
  }

  const TwoFives: seq<Elem<int>> := [Elem(5, 1), Elem(5, 2)]
  const FivesSwapped: seq<Elem<int>> := [Elem(5, 2), Elem(5, 1)]

  /** Equal keys climb: into an empty binary max heap of capacity 2, key 5
      with payload 1 and then key 5 with payload 2 leave the second one at the
      root (`FivesSwapped`), and the result is a weak max heap that fails the
      strict `is_max_heap`. */
  lemma EqualKeysClimb()
    ensures var r := InsertAll(MaxHeap, BinaryMax(2, 0, [Z, Z]), TwoFives);
      && r.status == OK
      && r.heap.elts == FivesSwapped
      && IsHeap(MaxHeap, false, r.heap.elts, 2, 2)
      && !ChildrenBelow(MaxHeap, r.heap.elts, 2, 2)
  {
    FivesInserted();
    FivesWeak();
    FivesNotStrict();
  }

  lemma FivesInserted()
    ensures InsertAll(MaxHeap, BinaryMax(2, 0, [Z, Z]), TwoFives) == Outcome(OK, BinaryMax(2, 2, FivesSwapped))
  {
    var a1: seq<Elem<int>> := [Elem(5, 1), Z];
    FirstFive();
    SecondFive();
    assert TwoFives[1..][1..] == [];
    assert InsertAll(MaxHeap, BinaryMax(2, 2, FivesSwapped), TwoFives[1..][1..]) ==
           Outcome(OK, BinaryMax(2, 2, FivesSwapped));
    assert InsertAll(MaxHeap, BinaryMax(2, 1, a1), TwoFives[1..]) == Outcome(OK, BinaryMax(2, 2, FivesSwapped));
  }

  lemma FivesWeak()
    ensures IsHeap(MaxHeap, false, FivesSwapped, 2, 2)
  {
    var a := FivesSwapped;
    assert a[0] == Elem(5, 2) && a[1] == Elem(5, 1);
    assert Parent(2, 1) == 0;
  }

  lemma FivesNotStrict()
    ensures !ChildrenBelow(MaxHeap, FivesSwapped, 2, 2)
  {
    var a := FivesSwapped;
    assert a[0] == Elem(5, 2) && a[1] == Elem(5, 1);
    assert Child(2, 0, 1) == 1;
    assert Violates(MaxHeap, a[0], a[Child(2, 0, 1)]);
  }

  lemma FirstFive()
    ensures Insert(MaxHeap, BinaryMax(2, 0, [Z, Z]), TwoFives[0]) == Outcome(OK, BinaryMax(2, 1, [Elem(5, 1), Z]))
  {
    var a0: seq<Elem<int>> := [Z, Z];
    var a1: seq<Elem<int>> := [Elem(5, 1), Z];
    assert a0[0 := TwoFives[0]] == a1;
    Settles(MaxHeap, a1, 2, 0);
    ExampleStep(2, a0, 0, TwoFives[0], a1);
  }

  lemma SecondFive()
    ensures Insert(MaxHeap, BinaryMax(2, 1, [Elem(5, 1), Z]), TwoFives[1]) == Outcome(OK, BinaryMax(2, 2, FivesSwapped))
  {
    var a1: seq<Elem<int>> := [Elem(5, 1), Z];
    var b: seq<Elem<int>> := [Elem(5, 1), Elem(5, 2)];
    assert a1[1 := TwoFives[1]] == b;
    assert Parent(2, 1) == 0;
    SwapIs(b, 1, 0, FivesSwapped);
    ClimbStep(MaxHeap, b, 2, 1, FivesSwapped);
    Settles(MaxHeap, FivesSwapped, 2, 0);
    ExampleStep(2, a1, 1, TwoFives[1], FivesSwapped);
  }

  /** An equal key need not break the strict order: into the binary max heap
      9, 5 (capacity 3), key 5 lands below 9, beside the other 5, and the
      result still passes `is_max_heap`. */
  lemma EqualKeyBesideStaysStrict()
    ensures var r := Insert(MaxHeap, BinaryMax(3, 2, [Elem(9, 0), Elem(5, 1), Z]), Elem(5, 2));
      && r.status == OK
      && r.heap.elts == [Elem(9, 0), Elem(5, 1), Elem(5, 2)]
      && ChildrenBelow(MaxHeap, r.heap.elts, 2, 3)
  {
    var a0: seq<Elem<int>> := [Elem(9, 0), Elem(5, 1), Z];
    var a1: seq<Elem<int>> := [Elem(9, 0), Elem(5, 1), Elem(5, 2)];
    assert a0[2 := Elem(5, 2)] == a1;
    assert Parent(2, 2) == 0 && Parent(2, 1) == 0;
    Settles(MaxHeap, a1, 2, 2);
    ExampleStep(3, a0, 2, Elem(5, 2), a1);
    assert IsHeap(MaxHeap, true, a1, 2, 3);
    WalkIsHeapOrder(MaxHeap, a1, 2, 3);
  }

  /** Shrinking below the length is allowed, and afterwards a checked
      insertion is refused as full (-1) and changes nothing; an unchecked one
      is refused as always (-32). */
  lemma ShrinkThenInsert<T>(o: Mode, h: Heap<T>, n: nat, allocOk: bool, filler: seq<Elem<T>>, elt: Elem<T>)
    requires h.d >= 1 && |filler| == n && n < h.len
    requires Resize(h, n, allocOk, filler).status == OK
    ensures var s := Resize(h, n, allocOk, filler).heap;
      && s.len == h.len && s.cap == n
      && (Flag(s.flags, HEAP_CANFAIL) ==> Allocated(s))
      && Insert(o, s, elt).heap == s
      && (Flag(h.flags, HEAP_CANFAIL) && !Flag(h.flags, HEAP_LOCK) && Flag(h.flags, ModeFlag(o)) ==>
            Insert(o, s, elt).status == ERR_NOEXPAND)
      && (!Flag(h.flags, HEAP_CANFAIL) ==> Insert(o, s, elt).status == ERR_MODE)
  {
  }
}
