/** The min-heap behind Scan and Top: Go's container/heap over a slice. */
module Heaps {

  datatype Item<T> = Item(rank: nat, val: T)

  /** Node k is no smaller than its parent. */
  ghost predicate Ordered<T>(a: seq<Item<T>>, k: int)
    requires 0 < k < |a|
  {
    a[(k - 1) / 2].rank <= a[k].rank
  }

  /** Every node but `hole` is no smaller than its parent. */
  ghost predicate HeapExcept<T>(a: seq<Item<T>>, hole: int) {
    forall k :: 0 < k < |a| && k != hole ==> Ordered(a, k)
  }

  ghost predicate IsHeap<T>(a: seq<Item<T>>) { HeapExcept(a, -1) }

  /** The children of node i are no smaller than i's parent. */
  ghost predicate Bridged<T>(a: seq<Item<T>>, i: int) {
    0 < i < |a| ==> forall k :: 0 < k < |a| && (k - 1) / 2 == i ==> a[(i - 1) / 2].rank <= a[k].rank
  }

  lemma {:induction false} RootIsLeast<T>(a: seq<Item<T>>, k: nat)
    requires IsHeap(a) && k < |a|
    ensures a[0].rank <= a[k].rank
    decreases k
  {
    if k > 0 {
      assert Ordered(a, k);
      RootIsLeast(a, (k - 1) / 2);
    }
  }

  function Swap<T>(a: seq<T>, i: nat, j: nat): (b: seq<T>)
    requires i < |a| && j < |a|
    ensures |b| == |a| && b[i] == a[j] && b[j] == a[i]
    ensures forall k :: 0 <= k < |a| && k != i && k != j ==> b[k] == a[k]
  {
    a[i := a[j]][j := a[i]]
  }

  lemma SwapMultiset<T>(a: seq<T>, i: nat, j: nat)
    requires i < |a| && j < |a|
    ensures multiset(Swap(a, i, j)) == multiset(a)
  {
  }

  lemma UpStep<T>(a: seq<Item<T>>, j: nat)
    requires 0 < j < |a| && HeapExcept(a, j) && Bridged(a, j) && a[j].rank < a[(j - 1) / 2].rank
    ensures var i := (j - 1) / 2; var b := Swap(a, i, j); HeapExcept(b, i) && Bridged(b, i)
  {
    var i := (j - 1) / 2;
    var b := Swap(a, i, j);
    forall k | 0 < k < |b| && k != i ensures Ordered(b, k) {
      if k != j { assert Ordered(a, k); }
    }
    if i > 0 {
      forall k | 0 < k < |b| && (k - 1) / 2 == i ensures b[(i - 1) / 2].rank <= b[k].rank {
        assert Ordered(a, i);
        if k != j { assert Ordered(a, k); }
      }
    }
  }

  /** Which child container/heap's `down` compares with its parent. */
  function LesserChild<T>(a: seq<Item<T>>, i: nat): (j: nat)
    requires 2 * i + 1 < |a|
    ensures i < j < |a| && (j - 1) / 2 == i
    ensures forall k :: 0 < k < |a| && (k - 1) / 2 == i ==> a[j].rank <= a[k].rank
  {
    var j1 := 2 * i + 1;
    if j1 + 1 < |a| && a[j1 + 1].rank < a[j1].rank then j1 + 1 else j1
  }

  /** Every node is no smaller than its parent, except below `hole`. */
  ghost predicate HeapBelow<T>(a: seq<Item<T>>, hole: int) {
    forall k :: 0 < k < |a| && (k - 1) / 2 != hole ==> Ordered(a, k)
  }

  lemma DownStep<T>(a: seq<Item<T>>, i: nat, j: nat)
    requires i < |a| && HeapBelow(a, i) && Bridged(a, i)
    requires 2 * i + 1 < |a| && j == LesserChild(a, i) && a[j].rank < a[i].rank
    ensures var b := Swap(a, i, j); HeapBelow(b, j) && Bridged(b, j)
  {
    var b := Swap(a, i, j);
    forall k | 0 < k < |b| && (k - 1) / 2 != j ensures Ordered(b, k) {
      if (k - 1) / 2 == i {
        assert a[j].rank <= a[k].rank;
      } else if k == i {
        assert a[(i - 1) / 2].rank <= a[j].rank;
      } else {
        assert Ordered(a, k);
      }
    }
    forall k | 0 < k < |b| && (k - 1) / 2 == j ensures b[(j - 1) / 2].rank <= b[k].rank {
      assert Ordered(a, k);
    }
  }

  lemma DownDone<T>(a: seq<Item<T>>, i: nat)
    requires HeapBelow(a, i)
    requires 2 * i + 1 >= |a| || a[LesserChild(a, i)].rank >= a[i].rank
    ensures IsHeap(a)
  {
    forall k | 0 < k < |a| ensures Ordered(a, k) {
      if (k - 1) / 2 == i {
        assert 2 * i + 1 <= k;
        assert a[LesserChild(a, i)].rank <= a[k].rank;
      }
    }
  }

  class Heap<T(==)> {
    var a: seq<Item<T>>

    constructor ()
      ensures a == []
    {
      a := [];
    }

    method Up(start: nat)
      requires start < |a| && HeapExcept(a, start) && Bridged(a, start)
      modifies this
      ensures IsHeap(a) && multiset(a) == old(multiset(a)) && |a| == old(|a|)
    {
      hide HeapExcept, Bridged, Swap;
      var j := start;
      while j > 0
        invariant 0 <= j < |a| && HeapExcept(a, j) && Bridged(a, j)
        invariant multiset(a) == old(multiset(a)) && |a| == old(|a|)
      {
        var i := (j - 1) / 2;
        if !(a[j].rank < a[i].rank) { break; }
        UpStep(a, j);
        SwapMultiset(a, i, j);
        a := Swap(a, i, j);
        j := i;
      }
      UpDone(a, j);
    }

    method Down(start: nat)
      requires start < |a| && HeapBelow(a, start) && Bridged(a, start)
      modifies this
      ensures IsHeap(a) && multiset(a) == old(multiset(a)) && |a| == old(|a|)
    {
      hide HeapBelow, Bridged, Swap, LesserChild, IsHeap;
      var i := start;
      while 2 * i + 1 < |a|
        invariant 0 <= i < |a| && HeapBelow(a, i) && Bridged(a, i)
        invariant multiset(a) == old(multiset(a)) && |a| == old(|a|)
        decreases |a| - i
      {
        var j := LesserChild(a, i);
        if !(a[j].rank < a[i].rank) { break; }
        DownStep(a, i, j);
        SwapMultiset(a, i, j);
        a := Swap(a, i, j);
        i := j;
      }
      DownDone(a, i);
    }

    method Push(x: Item<T>)
      requires IsHeap(a)
      modifies this
      ensures IsHeap(a) && multiset(a) == old(multiset(a)) + multiset{x} && |a| == old(|a|) + 1
    {
      Appended(a, x);
      a := a + [x];
      Up(|a| - 1);
    }

    /** (*h)[0] = x; heap.Fix(h, 0) */
    method ReplaceRoot(x: Item<T>)
      requires IsHeap(a) && a != []
      modifies this
      ensures IsHeap(a) && multiset(a) == old(multiset(a)) - multiset{old(a)[0]} + multiset{x} && |a| == old(|a|)
    {
      ghost var was := a;
      Rerooted(a, x);
      a := a[0 := x];
      Down(0);
      assert multiset(was[0 := x]) == multiset(was) - multiset{was[0]} + multiset{x};
    }

    method Pop() returns (x: Item<T>)
      requires IsHeap(a) && a != []
      modifies this
      ensures IsHeap(a) && x == old(a)[0] && multiset(a) == old(multiset(a)) - multiset{x} && |a| == old(|a|) - 1
    {
      hide IsHeap;
      ghost var was := a;
      var n := |a| - 1;
      x := a[0];
      PopSplit(was);
      a := Swap(a, 0, n)[..n];
      if n > 0 {
        Down(0);
      }
    }
  }

  lemma UpDone<T>(a: seq<Item<T>>, j: nat)
    requires j < |a| && HeapExcept(a, j)
    requires j == 0 || a[(j - 1) / 2].rank <= a[j].rank
    ensures IsHeap(a)
  {
    assert j == 0 || Ordered(a, j);
  }

  lemma Appended<T>(a: seq<Item<T>>, x: Item<T>)
    requires IsHeap(a)
    ensures HeapExcept(a + [x], |a|) && Bridged(a + [x], |a|)
  {
    forall k | 0 < k < |a| ensures Ordered(a + [x], k) { assert Ordered(a, k); }
  }

  lemma Rerooted<T>(a: seq<Item<T>>, x: Item<T>)
    requires IsHeap(a) && a != []
    ensures HeapBelow(a[0 := x], 0) && Bridged(a[0 := x], 0)
  {
    var b := a[0 := x];
    forall k | 0 < k < |b| && (k - 1) / 2 != 0 ensures Ordered(b, k) { assert Ordered(a, k); }
  }

  lemma PopSplit<T>(a: seq<Item<T>>)
    requires IsHeap(a) && a != []
    ensures var n := |a| - 1;
            var b := Swap(a, 0, n)[..n];
            && multiset(b) == multiset(a) - multiset{a[0]} && |b| == n
            && (n > 0 ==> HeapBelow(b, 0) && Bridged(b, 0))
            && (n == 0 ==> IsHeap(b))
  {
    var n := |a| - 1;
    var c := Swap(a, 0, n);
    SwapMultiset(a, 0, n);
    assert c == c[..n] + [a[0]];
    forall k | 0 < k < n && (k - 1) / 2 != 0 ensures Ordered(c[..n], k) {
      assert Ordered(a, k);
    }
  }
}
