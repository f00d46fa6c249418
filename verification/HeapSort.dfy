/**
 The heap sort of flatbuffers_common_reader.h. The children of node i are 2i
 and 2i + 1 on a zero-based array, so node 0 is a child of itself, and the heap
 proper starts at node 1. The order is given as "sorts before".
 */
module HeapSort {

  /** Nothing sorts before itself. This alone lets sifting end. */
  ghost predicate Irreflexive<T(!new)>(lt: (T, T) -> bool) {
    forall x :: !lt(x, x)
  }

  /** "Does not sort after" is transitive; with irreflexivity, an order with ties. */
  ghost predicate Orders<T(!new)>(lt: (T, T) -> bool) {
    && Irreflexive(lt)
    && (forall x, y :: lt(x, y) ==> !lt(y, x))
    && (forall x, y, z :: !lt(y, x) && !lt(z, y) ==> !lt(z, x))
  }

  function Swapped<T>(s: seq<T>, i: nat, j: nat): (t: seq<T>)
    requires i < |s| && j < |s|
    ensures |t| == |s| && t[i] == s[j] && t[j] == s[i]
    ensures forall k :: 0 <= k < |s| && k != i && k != j ==> t[k] == s[k]
  {
    s[i := s[j]][j := s[i]]
  }

  lemma SwappedPermutes<T>(s: seq<T>, i: nat, j: nat)
    requires i < |s| && j < |s|
    ensures multiset(Swapped(s, i, j)) == multiset(s)
  {
  }

  /** The child a node is compared with: the later of its two, if it has two. */
  function Child<T>(s: seq<T>, lt: (T, T) -> bool, root: nat, end: nat): (c: nat)
    requires 2 * root <= end < |s|
    ensures 2 * root <= c <= end && c <= 2 * root + 1
  {
    if 2 * root < end && lt(s[2 * root], s[2 * root + 1]) then 2 * root + 1 else 2 * root
  }

  ghost function SiftDown<T(!new)>(s: seq<T>, lt: (T, T) -> bool, root: nat, end: nat): (t: seq<T>)
    requires end < |s| && Irreflexive(lt)
    ensures |t| == |s|
    decreases end - root
  {
    if 2 * root <= end then
      var child := Child(s, lt, root, end);
      assert !lt(s[root], s[root]);
      if lt(s[root], s[child]) then SiftDown(Swapped(s, root, child), lt, child, end) else s
    else s
  }

  /** Sifts down node after node, back to node 0. */
  ghost function Heapify<T(!new)>(s: seq<T>, lt: (T, T) -> bool, start: nat): (t: seq<T>)
    requires s != [] && Irreflexive(lt)
    ensures |t| == |s|
    decreases start
  {
    var t := SiftDown(s, lt, start, |s| - 1);
    if start == 0 then t else Heapify(t, lt, start - 1)
  }

  /** Moves the largest to the end, again and again. */
  ghost function Drain<T(!new)>(s: seq<T>, lt: (T, T) -> bool, end: nat): (t: seq<T>)
    requires end < |s| && Irreflexive(lt)
    ensures |t| == |s|
    decreases end
  {
    if end == 0 then s else Drain(SiftDown(Swapped(s, 0, end), lt, 0, end - 1), lt, end - 1)
  }

  ghost function Sorted<T(!new)>(s: seq<T>, lt: (T, T) -> bool): (t: seq<T>)
    requires Irreflexive(lt)
    ensures |t| == |s|
  {
    if s == [] then [] else Drain(Heapify(s, lt, |s| / 2), lt, |s| - 1)
  }

  // ----- A permutation, whatever the order ---------------------------------------------

  lemma {:induction false} SiftDownPermutes<T(!new)>(s: seq<T>, lt: (T, T) -> bool, root: nat, end: nat)
    requires end < |s| && Irreflexive(lt)
    ensures var t := SiftDown(s, lt, root, end);
      multiset(t) == multiset(s) && t[end + 1..] == s[end + 1..]
    decreases end - root
  {
    if 2 * root <= end {
      var child := Child(s, lt, root, end);
      assert !lt(s[root], s[root]);
      if lt(s[root], s[child]) {
        SwappedPermutes(s, root, child);
        SiftDownPermutes(Swapped(s, root, child), lt, child, end);
      }
    }
  }

  lemma {:induction false} HeapifyPermutes<T(!new)>(s: seq<T>, lt: (T, T) -> bool, start: nat)
    requires s != [] && Irreflexive(lt)
    ensures multiset(Heapify(s, lt, start)) == multiset(s)
    decreases start
  {
    SiftDownPermutes(s, lt, start, |s| - 1);
    if start > 0 {
      HeapifyPermutes(SiftDown(s, lt, start, |s| - 1), lt, start - 1);
    }
  }

  lemma {:induction false} DrainPermutes<T(!new)>(s: seq<T>, lt: (T, T) -> bool, end: nat)
    requires end < |s| && Irreflexive(lt)
    ensures multiset(Drain(s, lt, end)) == multiset(s)
    decreases end
  {
    if end > 0 {
      SwappedPermutes(s, 0, end);
      SiftDownPermutes(Swapped(s, 0, end), lt, 0, end - 1);
      DrainPermutes(SiftDown(Swapped(s, 0, end), lt, 0, end - 1), lt, end - 1);
    }
  }

  /** Nothing is lost or made up, even by a comparison that is no order at all. */
  lemma SortPermutes<T(!new)>(s: seq<T>, lt: (T, T) -> bool)
    requires Irreflexive(lt)
    ensures multiset(Sorted(s, lt)) == multiset(s)
  {
    if s != [] {
      HeapifyPermutes(s, lt, |s| / 2);
      DrainPermutes(Heapify(s, lt, |s| / 2), lt, |s| - 1);
    }
  }

  // ----- Heaps ---------------------------------------------------------------------------

  /** No child up to end sorts after its parent, for parents from start on. */
  ghost predicate Heap<T(!new)>(s: seq<T>, lt: (T, T) -> bool, start: nat, end: nat) {
    end < |s| && forall c :: 1 <= c <= end && start <= c / 2 ==> !lt(s[c / 2], s[c])
  }

  /** The same, but for the children of one node, which only their grandparent dominates. */
  ghost predicate HeapBut<T(!new)>(s: seq<T>, lt: (T, T) -> bool, start: nat, root: nat, end: nat) {
    && end < |s| && start <= root
    && (forall c :: 1 <= c <= end && start <= c / 2 && c / 2 != root ==> !lt(s[c / 2], s[c]))
    && (root >= 1 && start <= root / 2 ==>
          forall c :: 1 <= c <= end && c / 2 == root ==> !lt(s[root / 2], s[c]))
  }

  /** Sifting down mends the one node. */
  lemma {:induction false} SiftDownMends<T(!new)>(s: seq<T>, lt: (T, T) -> bool, start: nat, root: nat, end: nat)
    requires end < |s| && Orders(lt) && HeapBut(s, lt, start, root, end)
    ensures Heap(SiftDown(s, lt, root, end), lt, start, end)
    decreases end - root
  {
    if 2 * root <= end {
      var child := Child(s, lt, root, end);
      assert !lt(s[root], s[root]);
      if lt(s[root], s[child]) {
        SwapMoves(s, lt, start, root, child, end);
        SiftDownMends(Swapped(s, root, child), lt, start, child, end);
      } else {
        Mended(s, lt, start, root, child, end);
      }
    }
  }

  lemma SwapMoves<T(!new)>(s: seq<T>, lt: (T, T) -> bool, start: nat, root: nat, child: nat, end: nat)
    requires end < |s| && Orders(lt) && HeapBut(s, lt, start, root, end)
    requires 2 * root <= end && child == Child(s, lt, root, end) && child != root && lt(s[root], s[child])
    ensures HeapBut(Swapped(s, root, child), lt, start, child, end)
  {
    var t := Swapped(s, root, child);
    assert child / 2 == root;
    forall c | 1 <= c <= end && start <= c / 2 && c / 2 != child
      ensures !lt(t[c / 2], t[c])
    {
      if c / 2 == root && c != child {
        assert c == 2 * root || c == 2 * root + 1;
      }
    }
    forall c | 1 <= c <= end && c / 2 == child
      ensures !lt(t[root], t[c])
    {
      assert c != root && c != child;
      assert !lt(s[c / 2], s[c]);
    }
  }

  lemma Mended<T(!new)>(s: seq<T>, lt: (T, T) -> bool, start: nat, root: nat, child: nat, end: nat)
    requires end < |s| && Orders(lt) && HeapBut(s, lt, start, root, end)
    requires 2 * root <= end && child == Child(s, lt, root, end) && !lt(s[root], s[child])
    ensures Heap(s, lt, start, end)
  {
    forall c | 1 <= c <= end && start <= c / 2
      ensures !lt(s[c / 2], s[c])
    {
      if c / 2 == root {
        assert c == 2 * root || c == 2 * root + 1;
        if c != child {
          assert !lt(s[child], s[c]);
        }
      }
    }
  }

  lemma {:induction false} HeapifyMakesHeap<T(!new)>(s: seq<T>, lt: (T, T) -> bool, start: nat)
    requires s != [] && Orders(lt) && Heap(s, lt, start + 1, |s| - 1)
    ensures Heap(Heapify(s, lt, start), lt, 0, |s| - 1)
    decreases start
  {
    SiftDownMends(s, lt, start, start, |s| - 1);
    if start > 0 {
      HeapifyMakesHeap(SiftDown(s, lt, start, |s| - 1), lt, start - 1);
    }
  }

  lemma {:induction false} FirstIsLast<T(!new)>(s: seq<T>, lt: (T, T) -> bool, end: nat, c: nat)
    requires Orders(lt) && Heap(s, lt, 0, end) && c <= end
    ensures !lt(s[0], s[c])
    decreases c
  {
    if c == 0 {
      assert !lt(s[0], s[0]);
    } else {
      FirstIsLast(s, lt, end, c / 2);
      assert !lt(s[c / 2], s[c]);
    }
  }

  // ----- The sorted end -------------------------------------------------------------------

  /** Behind end, nothing sorts before anything that stands before it. */
  ghost predicate SortedPast<T(!new)>(s: seq<T>, lt: (T, T) -> bool, end: nat) {
    forall i, j :: 0 <= i < j < |s| && end < j ==> !lt(s[j], s[i])
  }

  ghost predicate Ascending<T(!new)>(s: seq<T>, lt: (T, T) -> bool) {
    forall i, j :: 0 <= i < j < |s| ==> !lt(s[j], s[i])
  }

  lemma {:induction false} SiftDownKeepsBound<T(!new)>(s: seq<T>, lt: (T, T) -> bool, root: nat, end: nat, b: T)
    requires end < |s| && Orders(lt) && forall k :: 0 <= k <= end ==> !lt(b, s[k])
    ensures forall k :: 0 <= k <= end ==> !lt(b, SiftDown(s, lt, root, end)[k])
    decreases end - root
  {
    if 2 * root <= end {
      var child := Child(s, lt, root, end);
      assert !lt(s[root], s[root]);
      if lt(s[root], s[child]) {
        SiftDownKeepsBound(Swapped(s, root, child), lt, child, end, b);
      }
    }
  }

  lemma {:induction false} DrainSorts<T(!new)>(s: seq<T>, lt: (T, T) -> bool, end: nat)
    requires end < |s| && Orders(lt) && Heap(s, lt, 0, end) && SortedPast(s, lt, end)
    ensures Ascending(Drain(s, lt, end), lt)
    decreases end
  {
    if end > 0 {
      var t := Swapped(s, 0, end);
      var u := SiftDown(t, lt, 0, end - 1);
      LargestMoved(s, lt, end);
      SiftDownMends(t, lt, 0, 0, end - 1);
      SiftDownPermutes(t, lt, 0, end - 1);
      forall i, j | 0 <= i < j < |s| && end - 1 < j ensures !lt(u[j], u[i]) {
        assert forall k :: end <= k < |s| ==> u[k] == u[end..][k - end] == t[end..][k - end] == t[k];
        SiftDownKeepsBound(t, lt, 0, end - 1, t[j]);
      }
      DrainSorts(u, lt, end - 1);
    }
  }

  lemma LargestMoved<T(!new)>(s: seq<T>, lt: (T, T) -> bool, end: nat)
    requires 0 < end < |s| && Orders(lt) && Heap(s, lt, 0, end) && SortedPast(s, lt, end)
    ensures var t := Swapped(s, 0, end); SortedPast(t, lt, end - 1) && HeapBut(t, lt, 0, 0, end - 1)
  {
    var t := Swapped(s, 0, end);
    forall c | 0 <= c <= end ensures !lt(s[0], s[c]) {
      FirstIsLast(s, lt, end, c);
    }
    forall i, j | 0 <= i < j < |s| && end - 1 < j ensures !lt(t[j], t[i]) {
      if j > end {
        assert t[j] == s[j];
        assert !lt(s[j], s[0]) && !lt(s[j], s[end]);
      }
    }
  }

  /** For any order with ties: ascending, and a permutation of the input. */
  lemma SortSorts<T(!new)>(s: seq<T>, lt: (T, T) -> bool)
    requires Orders(lt)
    ensures Ascending(Sorted(s, lt), lt) && multiset(Sorted(s, lt)) == multiset(s)
  {
    SortPermutes(s, lt);
    if s != [] {
      HeapifyMakesHeap(s, lt, |s| / 2);
      DrainSorts(Heapify(s, lt, |s| / 2), lt, |s| - 1);
    }
  }

  // ----- In place -------------------------------------------------------------------------

  /** Exchanges two elements of a vector of scalars or structs. */
  method ValueSwap<T>(a: array<T>, i: nat, j: nat)
    requires i < a.Length && j < a.Length
    modifies a
    ensures a[..] == Swapped(old(a[..]), i, j)
  {
    var x := a[j];
    a[j] := a[i];
    a[i] := x;
  }

  method SiftDownInPlace<T(!new)>(a: array<T>, lt: (T, T) -> bool, start: nat, end: nat)
    requires end < a.Length && Irreflexive(lt)
    modifies a
    ensures a[..] == SiftDown(old(a[..]), lt, start, end)
  {
    var root := start;
    while 2 * root <= end
      invariant SiftDown(a[..], lt, root, end) == SiftDown(old(a[..]), lt, start, end)
      decreases end - root
    {
      var child := 2 * root;
      if child < end {
        var v1 := a[child];
        var v2 := a[child + 1];
        if lt(v1, v2) {
          child := child + 1;
        }
      }
      assert child == Child(a[..], lt, root, end);
      assert !lt(a[root], a[root]);
      if lt(a[root], a[child]) {
        ValueSwap(a, root, child);
        root := child;
      } else {
        return;
      }
    }
  }

  method HeapSortInPlace<T(!new)>(a: array<T>, lt: (T, T) -> bool)
    requires Irreflexive(lt)
    modifies a
    ensures a[..] == Sorted(old(a[..]), lt)
  {
    hide SiftDown, Swapped;
    var size := a.Length;
    if size == 0 {
      return;
    }
    var end, start := size - 1, size / 2;
    while true
      invariant 0 <= start
      invariant Heapify(a[..], lt, start) == Heapify(old(a[..]), lt, size / 2)
      decreases start
    {
      SiftDownInPlace(a, lt, start, end);
      if start == 0 {
        break;
      }
      start := start - 1;
    }
    while end > 0
      invariant 0 <= end < size
      invariant Drain(a[..], lt, end) == Sorted(old(a[..]), lt)
    {
      ValueSwap(a, 0, end);
      end := end - 1;
      SiftDownInPlace(a, lt, 0, end);
    }
  }
}
