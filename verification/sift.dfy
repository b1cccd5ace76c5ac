/**
 Sift-up: the element at slot `i` climbs its root path, swapping with its
 parent while the source's climbing test holds. This is the recursive
 reference definition; the imperative loop of the insertions is proved equal
 to it.
 */
module Sift {
  import opened HeapTypes

  /** The storage after sifting, and the slot where the moving element rests. */
  datatype Sifted<T> = Sifted(elts: seq<Elem<T>>, pos: nat)

  /** Exchange two slots. */
  function Swap<T>(a: seq<T>, i: nat, j: nat): (b: seq<T>)
    requires i < |a| && j < |a|
    ensures |b| == |a| && b[i] == a[j] && b[j] == a[i]
    ensures forall k :: 0 <= k < |a| && k != i && k != j ==> b[k] == a[k]
    ensures multiset(b) == multiset(a)
  {
    a[i := a[j]][j := a[i]]
  }

  function SiftUp<T>(o: Mode, a: seq<Elem<T>>, d: nat, i: nat): (r: Sifted<T>)
    requires d >= 1 && i < |a|
    ensures |r.elts| == |a|
    // the element ends on its own root path
    ensures OnRootPath(d, r.pos, i) && r.elts[r.pos] == a[i]
    // it stops at the root or below a parent it does not climb over, and that
    // parent is an element that was already there
    ensures r.pos > 0 ==> r.elts[Parent(d, r.pos)] == a[Parent(d, r.pos)]
    ensures r.pos > 0 ==> !Climbs(o, a[i], r.elts[Parent(d, r.pos)])
    decreases i
  {
    if i > 0 && Climbs(o, a[i], a[Parent(d, i)]) then
      SiftUp(o, Swap(a, i, Parent(d, i)), d, Parent(d, i))
    else
      Sifted(a, i)
  }

  /** Sift-up only permutes the root path of `i`. */
  lemma {:induction false} SiftUpLocal<T>(o: Mode, a: seq<Elem<T>>, d: nat, i: nat)
    requires d >= 1 && i < |a|
    ensures var b := SiftUp(o, a, d, i).elts;
      && multiset(b) == multiset(a)
      && forall k :: 0 <= k < |a| && !OnRootPath(d, k, i) ==> b[k] == a[k]
    decreases i
  {
    if i > 0 && Climbs(o, a[i], a[Parent(d, i)]) {
      var p := Parent(d, i);
      var a' := Swap(a, i, p);
      SiftUpLocal(o, a', d, p);
      forall k | 0 <= k < |a| && !OnRootPath(d, k, i)
        ensures SiftUp(o, a, d, i).elts[k] == a[k]
      {
        assert k != i && k != p;
        assert !OnRootPath(d, k, p);
      }
    }
  }

  /** Two sequences that are permutations of each other and agree from `m` on
      are permutations of each other below `m`. */
  lemma PrefixMultiset<T>(a: seq<T>, b: seq<T>, m: nat)
    requires |a| == |b| && m <= |a|
    requires multiset(a) == multiset(b)
    requires forall k :: m <= k < |a| ==> a[k] == b[k]
    ensures multiset(a[..m]) == multiset(b[..m])
  {
    assert a == a[..m] + a[m..];
    assert b == b[..m] + b[m..];
    assert a[m..] == b[m..];
    assert multiset(a) == multiset(a[..m]) + multiset(a[m..]);
    assert multiset(b) == multiset(b[..m]) + multiset(b[m..]);
    assert multiset(a[..m]) == multiset(a) - multiset(a[m..]);
  }

  /** Appending `x` at slot `len` and sifting it up permutes the slots
      `[0, len]` into the old prefix plus `x`, and touches no other slot off
      the root path of `len`. */
  lemma AppendSiftUpContents<T>(o: Mode, a: seq<Elem<T>>, d: nat, len: nat, x: Elem<T>)
    requires d >= 1 && len < |a|
    ensures var b := SiftUp(o, a[len := x], d, len).elts;
      && multiset(b[..len + 1]) == multiset(a[..len]) + multiset{x}
      && forall k :: 0 <= k < |a| && k != len && !OnRootPath(d, k, len) ==> b[k] == a[k]
  {
    var a1: seq<Elem<T>> := a[len := x];
    var b: seq<Elem<T>> := SiftUp(o, a1, d, len).elts;
    SiftUpLocal(o, a1, d, len);
    assert multiset(b[..len + 1]) == multiset(a1[..len + 1]) by {
      forall k | len + 1 <= k < |a|
        ensures b[k] == a1[k]
      {
        assert !OnRootPath(d, k, len);
      }
      PrefixMultiset(b, a1, len + 1);
    }
    assert multiset(a1[..len + 1]) == multiset(a[..len]) + multiset{x} by {
      assert a1[..len + 1] == a[..len] + [x];
    }
  }

  /** Heap order over `[0, n)` except possibly on the edge above slot `i`. */
  ghost predicate HeapExcept<T>(o: Mode, s: bool, a: seq<Elem<T>>, d: nat, n: nat, i: nat)
    requires d >= 1 && n <= |a|
  {
    forall c :: 0 < c < n && c != i ==> Above(o, s, a[Parent(d, c)], a[c])
  }

  /** The parent of `i` may sit above the children of `i`: the edge that lets
      the element at `i` be replaced by its parent. */
  ghost predicate Bridged<T>(o: Mode, s: bool, a: seq<Elem<T>>, d: nat, n: nat, i: nat)
    requires d >= 1 && n <= |a| && i < n
  {
    i > 0 ==> forall c :: 0 < c < n && Parent(d, c) == i ==> Above(o, s, a[Parent(d, i)], a[c])
  }

  /** No other slot of `[0, n)` holds the key at `i`. */
  ghost predicate KeyUnique<T>(a: seq<Elem<T>>, n: nat, i: nat)
    requires n <= |a| && i < n
  {
    forall k :: 0 <= k < n && k != i ==> a[k].value != a[i].value
  }

  /** One swap of sift-up moves the exempt edge one level up. */
  lemma SwapStep<T>(o: Mode, s: bool, a: seq<Elem<T>>, d: nat, n: nat, i: nat)
    requires d >= 1 && n <= |a| && 0 < i < n
    requires HeapExcept(o, s, a, d, n, i) && Bridged(o, s, a, d, n, i)
    requires s ==> KeyUnique(a, n, i)
    requires Climbs(o, a[i], a[Parent(d, i)])
    ensures var b := Swap(a, i, Parent(d, i));
      && HeapExcept(o, s, b, d, n, Parent(d, i))
      && Bridged(o, s, b, d, n, Parent(d, i))
      && (s ==> KeyUnique(b, n, Parent(d, i)))
  {
    var p := Parent(d, i);
    var b := Swap(a, i, p);
    forall c | 0 < c < n && c != p
      ensures Above(o, s, b[Parent(d, c)], b[c])
    {
      var q := Parent(d, c);
      if c == i {
        assert s ==> a[p].value != a[i].value;
      } else if q == i {
        assert Above(o, s, a[p], a[c]);
      } else if q == p {
        assert Above(o, s, a[p], a[c]);
      } else {
        assert b[q] == a[q] && b[c] == a[c];
      }
    }
    if p > 0 {
      var g := Parent(d, p);
      forall c | 0 < c < n && Parent(d, c) == p
        ensures Above(o, s, b[g], b[c])
      {
        assert Above(o, s, a[g], a[p]);
        if c != i {
          assert Above(o, s, a[p], a[c]);
        }
      }
    }
  }

  /** Sift-up restores heap order when it was only broken above the moving slot. */
  lemma {:induction false} SiftUpRestores<T>(o: Mode, s: bool, a: seq<Elem<T>>, d: nat, n: nat, i: nat)
    requires d >= 1 && n <= |a| && i < n
    requires HeapExcept(o, s, a, d, n, i) && Bridged(o, s, a, d, n, i)
    requires s ==> KeyUnique(a, n, i)
    ensures IsHeap(o, s, SiftUp(o, a, d, i).elts, d, n)
    decreases i
  {
    if i > 0 && Climbs(o, a[i], a[Parent(d, i)]) {
      SwapStep(o, s, a, d, n, i);
      SiftUpRestores(o, s, Swap(a, i, Parent(d, i)), d, n, Parent(d, i));
    } else if i > 0 {
      assert Above(o, s, a[Parent(d, i)], a[i]);
    }
  }

  /** Appending an element after a heap prefix and sifting it up keeps heap
      order over the prefix one longer. In the strict order this needs the new
      key to differ from every stored one. */
  lemma AppendSiftUp<T>(o: Mode, s: bool, a: seq<Elem<T>>, d: nat, len: nat, x: Elem<T>)
    requires d >= 1 && len < |a|
    requires IsHeap(o, s, a, d, len)
    requires s ==> forall k :: 0 <= k < len ==> a[k].value != x.value
    ensures IsHeap(o, s, SiftUp(o, a[len := x], d, len).elts, d, len + 1)
  {
    var a1 := a[len := x];
    assert HeapExcept(o, s, a1, d, len + 1, len) by {
      forall c | 0 < c < len + 1 && c != len
        ensures Above(o, s, a1[Parent(d, c)], a1[c])
      {
        assert Above(o, s, a[Parent(d, c)], a[c]);
      }
    }
    SiftUpRestores(o, s, a1, d, len + 1, len);
  }
}
