/**
 Sorting a vector of offsets (flatbuffers_common_reader.h). Each slot holds the
 unsigned 32-bit distance from itself to what it refers to, so moving a
 reference to another slot changes the number that is stored. Sorting moves
 the references; the addresses they name are what stays.
 */
module OffsetVector {
  import opened Arith
  import opened HeapSort

  const OFFSET_SIZE := 4

  function SlotAddress(base: nat, i: nat): nat { base + OFFSET_SIZE * i }

  /** Slots are 32-bit words, one behind the other. */
  lemma SlotsAreWords(base: nat, i: nat)
    ensures SlotAddress(base, 0) == base && SlotAddress(base, i + 1) == SlotAddress(base, i) + 4
  {
  }

  /** The address slot i refers to. */
  function Target(base: nat, v: seq<nat>, i: nat): nat
    requires i < |v|
  {
    SlotAddress(base, i) + v[i]
  }

  function Targets(base: nat, v: seq<nat>): (t: seq<nat>)
    ensures |t| == |v|
  {
    seq(|v|, i requires 0 <= i < |v| => Target(base, v, i))
  }

  predicate IsOffsets(v: seq<nat>) {
    forall i :: 0 <= i < |v| ==> v[i] < TWO32
  }

  /** `__flatbuffers_uoffset_swap` on values: the slots are read, adjusted and written crosswise. */
  function SwappedOffsets(v: seq<nat>, a: nat, b: nat): (w: seq<nat>)
    requires a < |v| && b < |v|
    ensures |w| == |v|
  {
    var d := U32((a - b) * OFFSET_SIZE);
    var ta, tb := U32(v[b] - d), U32(v[a] + d);
    v[a := ta][b := tb]
  }

  /** Modulo 2^32 the two targets always change places, and nothing else moves. */
  lemma SwapExchangesTargets(base: nat, v: seq<nat>, a: nat, b: nat)
    requires a < |v| && b < |v|
    ensures var w := SwappedOffsets(v, a, b);
      && U32(Target(base, w, a)) == U32(Target(base, v, b))
      && U32(Target(base, w, b)) == U32(Target(base, v, a))
      && forall i :: 0 <= i < |v| && i != a && i != b ==> Target(base, w, i) == Target(base, v, i)
  {
    Shifted(SlotAddress(base, a), v[b], (a - b) * OFFSET_SIZE, SlotAddress(base, b));
    Shifted(SlotAddress(base, b), v[a], (b - a) * OFFSET_SIZE, SlotAddress(base, a));
    Negated(v[a], (a - b) * OFFSET_SIZE);
    if a == b {
      assert U32(0) == 0;
    }
  }

  lemma Shifted(slot: nat, offset: nat, d: int, other: nat)
    requires other == slot - d
    ensures U32(slot + U32(offset - U32(d))) == U32(other + offset)
  {
    var k, m := d / TWO32, (offset - U32(d)) / TWO32;
    assert U32(d) == d - k * TWO32;
    assert U32(offset - U32(d)) == offset - U32(d) - m * TWO32;
    assert slot + U32(offset - U32(d)) == other + offset + (k - m) * TWO32;
    Multiples(other + offset, k - m);
  }

  lemma Multiples(x: int, k: int)
    ensures U32(x + k * TWO32) == U32(x)
  {
    DivModUnique(x + k * TWO32, TWO32, x / TWO32 + k, x % TWO32);
  }

  lemma Negated(x: int, d: int)
    ensures U32(x - U32(-d)) == U32(x + U32(d))
  {
    var k, m := d / TWO32, (-d) / TWO32;
    assert U32(d) == d - k * TWO32 && U32(-d) == -d - m * TWO32;
    assert x - U32(-d) == x + U32(d) + (k + m) * TWO32;
    Multiples(x + U32(d), k + m);
  }

  /** A target can be named from a slot when it lies at or past the slot and less than 2^32 beyond. */
  predicate Reachable(base: nat, i: nat, target: nat) {
    SlotAddress(base, i) <= target < SlotAddress(base, i) + TWO32
  }

  /** A swap exchanges the two targets exactly when each can be named from its new slot. */
  lemma SwapIsExactIff(base: nat, v: seq<nat>, a: nat, b: nat)
    requires a < |v| && b < |v| && IsOffsets(v)
    ensures IsOffsets(SwappedOffsets(v, a, b))
    ensures Targets(base, SwappedOffsets(v, a, b)) == Swapped(Targets(base, v), a, b)
       <==> Reachable(base, a, Target(base, v, b)) && Reachable(base, b, Target(base, v, a))
  {
    var w := SwappedOffsets(v, a, b);
    SwapExchangesTargets(base, v, a, b);
    var t, u := Targets(base, w), Swapped(Targets(base, v), a, b);
    SameWhenReachable(SlotAddress(base, a), w[a], Target(base, v, b));
    SameWhenReachable(SlotAddress(base, b), w[b], Target(base, v, a));
    assert t[a] == Target(base, w, a) && u[a] == Target(base, v, b);
    assert t[b] == Target(base, w, b) && u[b] == Target(base, v, a);
    if Reachable(base, a, Target(base, v, b)) && Reachable(base, b, Target(base, v, a)) {
      forall i | 0 <= i < |v| ensures t[i] == u[i] {
      }
      assert t == u;
    }
  }

  lemma SameWhenReachable(slot: nat, offset: nat, target: nat)
    requires offset < TWO32 && U32(slot + offset) == U32(target)
    ensures slot + offset == target <==> slot <= target < slot + TWO32
  {
    var k, m := (slot + offset) / TWO32, target / TWO32;
    assert slot + offset - target == (k - m) * TWO32;
  }

  // ----- Sorting ---------------------------------------------------------------------------

  /** Every target can be named from every slot: all lie at or past the last slot, and below base + 2^32. */
  predicate AllReachable(base: nat, n: nat, targets: seq<nat>) {
    forall k :: 0 <= k < |targets| ==> SlotAddress(base, n) <= targets[k] + OFFSET_SIZE && targets[k] < base + TWO32
  }

  lemma SwapKeepsReach(base: nat, n: nat, t: seq<nat>, a: nat, b: nat)
    requires a < |t| && b < |t| && AllReachable(base, n, t)
    ensures AllReachable(base, n, Swapped(t, a, b))
  {
  }

  /** `__flatbuffers_uoffset_swap` in place. */
  method OffsetSwap(v: array<nat>, a: nat, b: nat)
    requires a < v.Length && b < v.Length
    modifies v
    ensures v[..] == SwappedOffsets(old(v[..]), a, b)
  {
    var d := U32((a - b) * OFFSET_SIZE);
    var atA: int, atB: int := v[a], v[b];
    var ta := U32(atB - d);
    var tb := U32(atA + d);
    v[a] := ta;
    v[b] := tb;
  }

  /** What holds throughout: the offsets are in range, and every target can be named from every slot. */
  ghost predicate Sortable(base: nat, v: seq<nat>) {
    IsOffsets(v) && AllReachable(base, |v|, Targets(base, v))
  }

  lemma SwapSorts(base: nat, v: seq<nat>, a: nat, b: nat)
    requires a < |v| && b < |v| && Sortable(base, v)
    ensures var w := SwappedOffsets(v, a, b);
      Sortable(base, w) && Targets(base, w) == Swapped(Targets(base, v), a, b)
  {
    assert Targets(base, v)[a] == Target(base, v, a) && Targets(base, v)[b] == Target(base, v, b);
    SwapIsExactIff(base, v, a, b);
    SwapKeepsReach(base, |v|, Targets(base, v), a, b);
  }

  method SiftOffsets(v: array<nat>, base: nat, lt: (nat, nat) -> bool, start: nat, end: nat)
    requires end < v.Length && Irreflexive(lt) && Sortable(base, v[..])
    modifies v
    ensures Sortable(base, v[..])
    ensures Targets(base, v[..]) == SiftDown(Targets(base, old(v[..])), lt, start, end)
  {
    hide Sortable, SwappedOffsets, Swapped;
    var root := start;
    while 2 * root <= end
      invariant Sortable(base, v[..])
      invariant SiftDown(Targets(base, v[..]), lt, root, end) == SiftDown(Targets(base, old(v[..])), lt, start, end)
      decreases end - root
    {
      var child := 2 * root;
      ghost var t := Targets(base, v[..]);
      if child < end {
        var v1 := SlotAddress(base, child) + v[child];
        var v2 := SlotAddress(base, child + 1) + v[child + 1];
        assert v1 == t[child] && v2 == t[child + 1];
        if lt(v1, v2) {
          child := child + 1;
        }
      }
      assert child == Child(t, lt, root, end);
      assert !lt(t[root], t[root]);
      var vRoot := SlotAddress(base, root) + v[root];
      var v1 := SlotAddress(base, child) + v[child];
      assert vRoot == t[root] && v1 == t[child];
      if lt(vRoot, v1) {
        SwapSorts(base, v[..], root, child);
        OffsetSwap(v, root, child);
        root := child;
      } else {
        return;
      }
    }
  }

  /**
   Sorting offsets by the keys they refer to: the addresses end up exactly as
   if they themselves had been sorted, and no offset wraps.
   */
  method SortOffsets(v: array<nat>, base: nat, lt: (nat, nat) -> bool)
    requires Irreflexive(lt) && Sortable(base, v[..])
    modifies v
    ensures Sortable(base, v[..])
    ensures Targets(base, v[..]) == Sorted(Targets(base, old(v[..])), lt)
  {
    hide Sortable, SwappedOffsets, Swapped, SiftDown, Targets;
    var size := v.Length;
    if size == 0 {
      NoTargets(base, v[..]);
      return;
    }
    var end, start := size - 1, size / 2;
    ghost var t := Targets(base, v[..]);
    while true
      invariant 0 <= start && Sortable(base, v[..])
      invariant Heapify(Targets(base, v[..]), lt, start) == Heapify(t, lt, size / 2)
      decreases start
    {
      SiftOffsets(v, base, lt, start, end);
      if start == 0 {
        break;
      }
      start := start - 1;
    }
    while end > 0
      invariant 0 <= end < size && Sortable(base, v[..])
      invariant Drain(Targets(base, v[..]), lt, end) == Sorted(t, lt)
    {
      SwapSorts(base, v[..], 0, end);
      OffsetSwap(v, 0, end);
      end := end - 1;
      SiftOffsets(v, base, lt, 0, end);
    }
  }

  lemma NoTargets(base: nat, v: seq<nat>)
    requires v == []
    ensures Targets(base, v) == []
  {
  }

  /** So the references are a permutation of the input, in ascending order of what they refer to. */
  lemma SortedOffsets(base: nat, before: seq<nat>, after: seq<nat>, lt: (nat, nat) -> bool)
    requires Orders(lt) && Targets(base, after) == Sorted(Targets(base, before), lt)
    ensures Ascending(Targets(base, after), lt)
    ensures multiset(Targets(base, after)) == multiset(Targets(base, before))
  {
    SortSorts(Targets(base, before), lt);
  }
}
