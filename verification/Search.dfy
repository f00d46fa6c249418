/**
 Searching a vector (flatbuffers_common_reader.h): binary search for the lowest
 match, and scanning forward and backward. A comparison of an element with a
 key is negative, zero or positive.
 */
module Search {
  import opened HeapSort

  /** An index, or the code's all-ones "not found". */
  datatype Found = Found(i: nat) | NotFound

  /** First match in [b, e). */
  function Scan<T, K>(s: seq<T>, cmp: (T, K) -> int, k: K, b: nat, e: nat): (r: Found)
    requires e <= |s|
    decreases e - b
  {
    if b >= e then NotFound
    else if cmp(s[b], k) == 0 then Found(b)
    else Scan(s, cmp, k, b + 1, e)
  }

  /** Last match in [b, e). */
  function ScanBack<T, K>(s: seq<T>, cmp: (T, K) -> int, k: K, b: nat, e: nat): (r: Found)
    requires e <= |s|
    decreases e
  {
    if e <= b then NotFound
    else if cmp(s[e - 1], k) == 0 then Found(e - 1)
    else ScanBack(s, cmp, k, b, e - 1)
  }

  lemma {:induction false} ScanIsLowest<T, K>(s: seq<T>, cmp: (T, K) -> int, k: K, b: nat, e: nat)
    requires e <= |s|
    ensures match Scan(s, cmp, k, b, e)
      case Found(i) => b <= i < e && cmp(s[i], k) == 0 && forall j :: b <= j < i ==> cmp(s[j], k) != 0
      case NotFound => forall j :: b <= j < e ==> cmp(s[j], k) != 0
    decreases e - b
  {
    if b < e && cmp(s[b], k) != 0 {
      ScanIsLowest(s, cmp, k, b + 1, e);
    }
  }

  lemma {:induction false} ScanBackIsHighest<T, K>(s: seq<T>, cmp: (T, K) -> int, k: K, b: nat, e: nat)
    requires e <= |s|
    ensures match ScanBack(s, cmp, k, b, e)
      case Found(i) => b <= i < e && cmp(s[i], k) == 0 && forall j :: i < j < e ==> cmp(s[j], k) != 0
      case NotFound => forall j :: b <= j < e ==> cmp(s[j], k) != 0
    decreases e
  {
    if b < e && cmp(s[e - 1], k) != 0 {
      ScanBackIsHighest(s, cmp, k, b, e - 1);
    }
  }

  /** Both directions agree on whether there is a match; the first is not behind the last. */
  lemma ScansAgree<T, K>(s: seq<T>, cmp: (T, K) -> int, k: K, b: nat, e: nat)
    requires e <= |s|
    ensures var f, l := Scan(s, cmp, k, b, e), ScanBack(s, cmp, k, b, e);
      f.Found? == l.Found? && (f.Found? ==> f.i <= l.i)
  {
    ScanIsLowest(s, cmp, k, b, e);
    ScanBackIsHighest(s, cmp, k, b, e);
  }

  method ScanForward<T, K>(s: seq<T>, cmp: (T, K) -> int, k: K, b: nat, e: nat) returns (r: Found)
    requires e <= |s|
    ensures r == Scan(s, cmp, k, b, e)
  {
    var i := b;
    while i < e
      invariant b <= i && Scan(s, cmp, k, b, e) == Scan(s, cmp, k, i, e)
    {
      if cmp(s[i], k) == 0 {
        return Found(i);
      }
      i := i + 1;
    }
    return NotFound;
  }

  method ScanBackward<T, K>(s: seq<T>, cmp: (T, K) -> int, k: K, b: nat, e: nat) returns (r: Found)
    requires e <= |s|
    ensures r == ScanBack(s, cmp, k, b, e)
  {
    var i: nat := e;
    while i > b
      invariant i <= e && ScanBack(s, cmp, k, b, e) == ScanBack(s, cmp, k, b, i)
    {
      i := i - 1;
      if cmp(s[i], k) == 0 {
        return Found(i);
      }
    }
    return NotFound;
  }

  /** `scan_ex`: the range may reach past the end of the vector. */
  method ScanRange<T, K>(s: seq<T>, cmp: (T, K) -> int, k: K, begin: nat, end: nat) returns (r: Found)
    ensures match r
      case Found(i) =>
        begin <= i < end && i < |s| && cmp(s[i], k) == 0 && forall j :: begin <= j < i ==> cmp(s[j], k) != 0
      case NotFound => forall j :: begin <= j < end && j < |s| ==> cmp(s[j], k) != 0
  {
    var e := if end < |s| then end else |s|;
    ScanIsLowest(s, cmp, k, begin, e);
    r := ScanForward(s, cmp, k, begin, e);
  }

  /** `rscan_ex`: the same, from the end of the range. */
  method ScanRangeBack<T, K>(s: seq<T>, cmp: (T, K) -> int, k: K, begin: nat, end: nat) returns (r: Found)
    ensures match r
      case Found(i) =>
        begin <= i < end && i < |s| && cmp(s[i], k) == 0 && forall j :: i < j < end && j < |s| ==> cmp(s[j], k) != 0
      case NotFound => forall j :: begin <= j < end && j < |s| ==> cmp(s[j], k) != 0
  {
    var e := if end < |s| then end else |s|;
    ScanBackIsHighest(s, cmp, k, begin, e);
    r := ScanBackward(s, cmp, k, begin, e);
  }

  // ----- Binary search -------------------------------------------------------------------

  /** What comes before the key, what matches it, what comes after it: in this order. */
  ghost predicate Partitioned<T, K>(s: seq<T>, cmp: (T, K) -> int, k: K) {
    forall i, j :: 0 <= i < j < |s| ==>
      (cmp(s[j], k) < 0 ==> cmp(s[i], k) < 0) && (cmp(s[j], k) <= 0 ==> cmp(s[i], k) <= 0)
  }

  /**
   Binary search. On a vector partitioned by the key it answers as a forward
   scan does: the lowest match, or none. On any vector, what it finds matches.
   */
  method Find<T, K>(s: seq<T>, cmp: (T, K) -> int, k: K) returns (r: Found)
    ensures r.Found? ==> r.i < |s| && cmp(s[r.i], k) == 0
    ensures Partitioned(s, cmp, k) ==> r == Scan(s, cmp, k, 0, |s|)
  {
    ScanIsLowest(s, cmp, k, 0, |s|);
    var a, b := 0, |s|;
    if b == 0 {
      return NotFound;
    }
    b := b - 1;
    while a < b
      invariant 0 <= a <= b < |s|
      invariant Partitioned(s, cmp, k) ==> forall j :: 0 <= j < a ==> cmp(s[j], k) < 0
      invariant b < |s| - 1 ==> cmp(s[b], k) >= 0
    {
      var m := a + (b - a) / 2;
      if cmp(s[m], k) < 0 {
        a := m + 1;
      } else {
        b := m;
      }
    }
    if a == b {
      if cmp(s[a], k) == 0 {
        return Found(a);
      }
    }
    return NotFound;
  }

  // ----- Searching what was sorted ---------------------------------------------------------

  /** A comparison with keys that respects the order of sorting. */
  ghost predicate Respects<T(!new), K(!new)>(lt: (T, T) -> bool, cmp: (T, K) -> int) {
    forall x, y, k :: !lt(y, x) ==>
      (cmp(y, k) < 0 ==> cmp(x, k) < 0) && (cmp(y, k) <= 0 ==> cmp(x, k) <= 0)
  }

  lemma AscendingIsPartitioned<T(!new), K(!new)>(s: seq<T>, lt: (T, T) -> bool, cmp: (T, K) -> int, k: K)
    requires Ascending(s, lt) && Respects(lt, cmp)
    ensures Partitioned(s, cmp, k)
  {
  }

  /** Whether there is a match does not depend on the arrangement. */
  lemma MatchIsContained<T(!new), K>(s: seq<T>, t: seq<T>, cmp: (T, K) -> int, k: K)
    requires multiset(s) == multiset(t)
    ensures Scan(s, cmp, k, 0, |s|).Found? == Scan(t, cmp, k, 0, |t|).Found?
  {
    if Scan(s, cmp, k, 0, |s|).Found? {
      OneWay(s, t, cmp, k);
    }
    if Scan(t, cmp, k, 0, |t|).Found? {
      OneWay(t, s, cmp, k);
    }
  }

  lemma OneWay<T(!new), K>(s: seq<T>, t: seq<T>, cmp: (T, K) -> int, k: K)
    requires multiset(s) == multiset(t) && Scan(s, cmp, k, 0, |s|).Found?
    ensures Scan(t, cmp, k, 0, |t|).Found?
  {
    ScanIsLowest(s, cmp, k, 0, |s|);
    ScanIsLowest(t, cmp, k, 0, |t|);
    var i := Scan(s, cmp, k, 0, |s|).i;
    assert s[i] in multiset(s);
    assert s[i] in multiset(t);
  }

  /** Something in the vector matches the key. */
  ghost predicate Matches<T(!new), K>(s: seq<T>, cmp: (T, K) -> int, k: K) {
    exists i :: 0 <= i < |s| && cmp(s[i], k) == 0
  }

  /**
   Sort, then find: the answer is the forward scan of the sorted vector, and it
   is an index exactly when something in the vector that was sorted matches.
   */
  method SortThenFind<T(!new), K(!new)>(a: array<T>, lt: (T, T) -> bool, cmp: (T, K) -> int, k: K) returns (r: Found)
    requires Orders(lt) && Respects(lt, cmp)
    modifies a
    ensures a[..] == Sorted(old(a[..]), lt)
    ensures r == Scan(a[..], cmp, k, 0, a.Length)
    ensures r.Found? <==> Matches(old(a[..]), cmp, k)
  {
    HeapSortInPlace(a, lt);
    SortedFindsMatches(old(a[..]), a[..], lt, cmp, k);
    r := Find(a[..], cmp, k);
  }

  lemma SortedFindsMatches<T(!new), K(!new)>(s: seq<T>, t: seq<T>, lt: (T, T) -> bool, cmp: (T, K) -> int, k: K)
    requires Orders(lt) && Respects(lt, cmp) && t == Sorted(s, lt)
    ensures Partitioned(t, cmp, k)
    ensures Scan(t, cmp, k, 0, |t|).Found? <==> Matches(s, cmp, k)
  {
    SortSorts(s, lt);
    AscendingIsPartitioned(t, lt, cmp, k);
    MatchIsContained(s, t, cmp, k);
    ScanIsLowest(s, cmp, k, 0, |s|);
  }

  // ----- Scalars -------------------------------------------------------------------------------

  function ScalarCmp(x: int, y: int): int { if x < y then -1 else if x > y then 1 else 0 }

  function ScalarBefore(x: int, y: int): bool { ScalarCmp(x, y) < 0 }

  lemma ScalarsOrder()
    ensures Orders(ScalarBefore) && Respects(ScalarBefore, ScalarCmp)
  {
  }

  /** What sorting promises of numbers: the same numbers, none in front of a smaller one. */
  ghost predicate AscendingFrom(s: seq<int>, t: seq<int>) {
    multiset(t) == multiset(s) && forall i, j :: 0 <= i < j < |t| ==> t[i] <= t[j]
  }

  /** What a search promises: the first place the number stands at, or that it stands nowhere. */
  ghost predicate LowestOf(s: seq<int>, k: int, r: Found) {
    match r
    case Found(i) => i < |s| && s[i] == k && forall j :: 0 <= j < i ==> s[j] != k
    case NotFound => k !in s
  }

  lemma ScalarsAscend(s: seq<int>)
    ensures AscendingFrom(s, Sorted(s, ScalarBefore))
  {
    ScalarsOrder();
    SortSorts(s, ScalarBefore);
    var t := Sorted(s, ScalarBefore);
    forall i, j | 0 <= i < j < |t|
      ensures t[i] <= t[j]
    {
      assert !ScalarBefore(t[j], t[i]);
    }
  }

  /** A forward scan is a search for any arrangement; a binary search is one where the numbers ascend. */
  lemma ScalarScanIsLowest(s: seq<int>, k: int)
    ensures LowestOf(s, k, Scan(s, ScalarCmp, k, 0, |s|))
    ensures (forall i, j :: 0 <= i < j < |s| ==> s[i] <= s[j]) ==> Partitioned(s, ScalarCmp, k)
  {
    ScanIsLowest(s, ScalarCmp, k, 0, |s|);
  }

  method SortScalars(a: array<int>)
    modifies a
    ensures AscendingFrom(old(a[..]), a[..])
  {
    ScalarsOrder();
    HeapSortInPlace(a, ScalarBefore);
    ScalarsAscend(old(a[..]));
  }

  method FindScalar(a: array<int>, k: int) returns (r: Found)
    requires forall i, j :: 0 <= i < j < a.Length ==> a[i] <= a[j]
    ensures LowestOf(a[..], k, r)
  {
    ScalarScanIsLowest(a[..], k);
    r := Find(a[..], ScalarCmp, k);
  }

  method SortThenFindScalar(a: array<int>, k: int) returns (r: Found)
    modifies a
    ensures AscendingFrom(old(a[..]), a[..])
    ensures LowestOf(a[..], k, r)
    ensures r.NotFound? <==> k !in old(a[..])
  {
    SortScalars(a);
    r := FindScalar(a, k);
    assert k in a[..] <==> k in multiset(a[..]);
    assert k in old(a[..]) <==> k in multiset(old(a[..]));
  }
}
