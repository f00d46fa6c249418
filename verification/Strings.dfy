/**
 String keys (flatbuffers_common_reader.h). Stored strings carry a length and a
 terminating NUL and may hold further NULs. Sorting compares with strncmp and
 then by length; searching compares with strcmp, or as sorting does.
 */
module Strings {
  import opened Arith
  import opened HeapSort
  import opened OffsetVector
  import opened Search

  /** Characters as unsigned numbers. */
  type Text = seq<nat>

  /** The character at i, the terminator included. */
  function CharAt(v: Text, i: nat): nat { if i < |v| then v[i] else 0 }

  /** strcmp from character i on; only the sign matters to its callers. */
  function StrCmp(v: Text, s: Text, i: nat): (r: int)
    ensures -1 <= r <= 1
    decreases |v| + |s| - i
  {
    var a, b := CharAt(v, i), CharAt(s, i);
    if a < b then -1 else if a > b then 1 else if a == 0 then 0 else StrCmp(v, s, i + 1)
  }

  /** strncmp: as strcmp, but only up to character m. */
  function StrNCmp(v: Text, s: Text, m: nat, i: nat): (r: int)
    ensures -1 <= r <= 1
    decreases m - i
  {
    if i >= m then 0
    else
      var a, b := CharAt(v, i), CharAt(s, i);
      if a < b then -1 else if a > b then 1 else if a == 0 then 0 else StrNCmp(v, s, m, i + 1)
  }

  /** `__flatbuffers_string_cmp`: the comparison of find. */
  function CompareKey(v: Text, s: Text): (r: int)
    ensures -1 <= r <= 1
  {
    StrCmp(v, s, 0)
  }

  /** `__flatbuffers_string_n_cmp`: the comparison of sort, and of find with a length. */
  function CompareN(v: Text, s: Text): (r: int)
    ensures -1 <= r <= 1
  {
    var x := StrNCmp(v, s, if |v| < |s| then |v| else |s|, 0);
    if x != 0 then x else if |v| < |s| then -1 else if |v| > |s| then 1 else 0
  }

  // ----- How the two are related ----------------------------------------------------------

  lemma {:induction false} PrefixCompare(v: Text, s: Text, m: nat, i: nat)
    requires i <= m == if |v| < |s| then |v| else |s|
    ensures var x, y := StrNCmp(v, s, m, i), StrCmp(v, s, i);
      if x != 0 then y == x
      else y == 0 || y == if |v| < |s| then -1 else if |v| > |s| then 1 else 0
    decreases m - i
  {
    if i < m {
      PrefixCompare(v, s, m, i + 1);
    }
  }

  /** Sorting compares as searching does, and breaks ties by length. */
  lemma LengthBreaksTies(v: Text, s: Text)
    ensures CompareN(v, s)
      == if CompareKey(v, s) != 0 then CompareKey(v, s) else if |v| < |s| then -1 else if |v| > |s| then 1 else 0
  {
    PrefixCompare(v, s, if |v| < |s| then |v| else |s|, 0);
  }

  predicate NulFree(v: Text) { forall i :: 0 <= i < |v| ==> v[i] != 0 }

  lemma {:induction false} EqualsWhenNulFree(v: Text, s: Text, i: nat)
    requires NulFree(v) && NulFree(s) && i <= |v| && i <= |s| && v[..i] == s[..i]
    ensures StrCmp(v, s, i) == 0 <==> v == s
    decreases |v| + |s| - i
  {
    if CharAt(v, i) == CharAt(s, i) {
      if CharAt(v, i) != 0 {
        assert v[..i + 1] == v[..i] + [v[i]] && s[..i + 1] == s[..i] + [s[i]];
        EqualsWhenNulFree(v, s, i + 1);
      } else {
        assert v == v[..i] && s == s[..i];
      }
    }
  }

  /** On strings without NULs both are one comparison, zero exactly on equal strings. */
  lemma SameOrderWhenNulFree(v: Text, s: Text)
    requires NulFree(v) && NulFree(s)
    ensures CompareN(v, s) == CompareKey(v, s) && (CompareN(v, s) == 0 <==> v == s)
  {
    LengthBreaksTies(v, s);
    EqualsWhenNulFree(v, s, 0);
  }

  /** What a C string function sees: everything up to the first NUL. */
  function ReadAsC(v: Text, i: nat): Text
    decreases |v| - i
  {
    if i < |v| && v[i] != 0 then [v[i]] + ReadAsC(v, i + 1) else []
  }

  lemma {:induction false} SameReading(v: Text, s: Text, i: nat)
    ensures StrCmp(v, s, i) == 0 <==> ReadAsC(v, i) == ReadAsC(s, i)
    decreases |v| + |s| - i
  {
    var a, b := ReadAsC(v, i), ReadAsC(s, i);
    assert CharAt(v, i) != 0 ==> a[0] == CharAt(v, i) && a[1..] == ReadAsC(v, i + 1);
    assert CharAt(s, i) != 0 ==> b[0] == CharAt(s, i) && b[1..] == ReadAsC(s, i + 1);
    if CharAt(v, i) == CharAt(s, i) != 0 {
      SameReading(v, s, i + 1);
    }
  }

  /** In general they part exactly on strings of unequal length that are the same up to their first NUL. */
  lemma OrdersPartIff(v: Text, s: Text)
    ensures CompareN(v, s) != CompareKey(v, s) <==> ReadAsC(v, 0) == ReadAsC(s, 0) && |v| != |s|
  {
    LengthBreaksTies(v, s);
    SameReading(v, s, 0);
  }

  /** Such as "a" and "a\0". */
  lemma EmbeddedNul()
    ensures CompareKey([97, 0], [97]) == 0 && CompareN([97, 0], [97]) == 1
  {
    LengthBreaksTies([97, 0], [97]);
    assert StrCmp([97, 0], [97], 1) == 0;
  }

  // ----- Orders -------------------------------------------------------------------------------

  lemma {:induction false} Antisymmetric(v: Text, s: Text, i: nat)
    ensures StrCmp(s, v, i) == -StrCmp(v, s, i)
    decreases |v| + |s| - i
  {
    if CharAt(v, i) == CharAt(s, i) != 0 {
      Antisymmetric(v, s, i + 1);
    }
  }

  lemma {:induction false} Transitive(u: Text, v: Text, w: Text, i: nat)
    requires StrCmp(u, v, i) <= 0 && StrCmp(v, w, i) <= 0
    ensures StrCmp(u, w, i) <= 0
    ensures StrCmp(u, v, i) < 0 || StrCmp(v, w, i) < 0 ==> StrCmp(u, w, i) < 0
    decreases |v| + |u| - i
  {
    if CharAt(u, i) == CharAt(v, i) == CharAt(w, i) != 0 {
      Transitive(u, v, w, i + 1);
    }
  }

  function Before(v: Text, s: Text): bool { CompareN(v, s) < 0 }

  /** Not after and not after again is not after. */
  lemma BeforeOrders(u: Text, v: Text, w: Text)
    ensures !Before(u, u) && (Before(u, v) ==> !Before(v, u))
    ensures !Before(v, u) && !Before(w, v) ==> !Before(w, u)
  {
    hide StrCmp, StrNCmp, CompareN;
    LengthBreaksTies(u, u);
    LengthBreaksTies(u, v);
    LengthBreaksTies(v, u);
    LengthBreaksTies(w, v);
    LengthBreaksTies(w, u);
    Antisymmetric(u, u, 0);
    Antisymmetric(u, v, 0);
    Antisymmetric(v, w, 0);
    Antisymmetric(u, w, 0);
    if !Before(v, u) && !Before(w, v) {
      Transitive(u, v, w, 0);
    }
  }

  /** A key is found by either comparison in what was sorted by the first. */
  lemma BeforeRespects(x: Text, y: Text, k: Text)
    requires !Before(y, x)
    ensures (CompareKey(y, k) < 0 ==> CompareKey(x, k) < 0) && (CompareKey(y, k) <= 0 ==> CompareKey(x, k) <= 0)
    ensures (CompareN(y, k) < 0 ==> CompareN(x, k) < 0) && (CompareN(y, k) <= 0 ==> CompareN(x, k) <= 0)
  {
    hide StrCmp, StrNCmp, CompareN;
    LengthBreaksTies(y, x);
    LengthBreaksTies(y, k);
    LengthBreaksTies(x, k);
    Antisymmetric(y, x, 0);
    Antisymmetric(x, y, 0);
    if CompareKey(y, k) <= 0 {
      Transitive(x, y, k, 0);
    }
  }

  // ----- The order of words in a dictionary -----------------------------------------------------

  /** Character i is the first in which they differ, and v has the smaller one there. */
  ghost predicate SmallerAt(v: Text, s: Text, i: nat) {
    && (forall j: nat :: j < i ==> CharAt(v, j) == CharAt(s, j) != 0)
    && CharAt(v, i) < CharAt(s, i)
  }

  /** v stands in front of s by the first character in which they differ. */
  ghost predicate InFront(v: Text, s: Text) { exists i: nat :: SmallerAt(v, s, i) }

  lemma {:induction false} FirstDifferenceDecides(v: Text, s: Text, i: nat)
    requires forall j: nat :: j < i ==> CharAt(v, j) == CharAt(s, j) != 0
    ensures StrCmp(v, s, i) < 0 <==> InFront(v, s)
    decreases |v| + |s| - i
  {
    if CharAt(v, i) == CharAt(s, i) != 0 {
      FirstDifferenceDecides(v, s, i + 1);
    } else if CharAt(v, i) < CharAt(s, i) {
      assert SmallerAt(v, s, i);
    } else {
      forall k: nat
        ensures !SmallerAt(v, s, k)
      {
        if k < i {
        } else if k == i {
        } else {
          assert CharAt(v, i) != CharAt(s, i) || CharAt(v, i) == 0;
        }
      }
    }
  }

  /** The comparison of find in terms of characters: which of the two stands in front, or that they read alike. */
  lemma FindComparesWords(v: Text, s: Text)
    ensures CompareKey(v, s) < 0 <==> InFront(v, s)
    ensures CompareKey(v, s) > 0 <==> InFront(s, v)
    ensures CompareKey(v, s) == 0 <==> ReadAsC(v, 0) == ReadAsC(s, 0)
  {
    FirstDifferenceDecides(v, s, 0);
    FirstDifferenceDecides(s, v, 0);
    Antisymmetric(v, s, 0);
    SameReading(v, s, 0);
  }

  /** v may stand before s in a sorted vector. */
  ghost predicate AtMost(v: Text, s: Text) {
    InFront(v, s) || (ReadAsC(v, 0) == ReadAsC(s, 0) && |v| <= |s|)
  }

  /** The comparison of sort in the same terms; strings that read alike are ordered by their length. */
  lemma SortComparesWords(v: Text, s: Text)
    ensures CompareN(s, v) >= 0 <==> AtMost(v, s)
    ensures CompareN(v, s) == 0 <==> ReadAsC(v, 0) == ReadAsC(s, 0) && |v| == |s|
  {
    hide StrCmp, StrNCmp, CompareN;
    FindComparesWords(v, s);
    LengthBreaksTies(s, v);
    LengthBreaksTies(v, s);
    Antisymmetric(v, s, 0);
  }

  // ----- Vectors of references to strings ---------------------------------------------------------

  /** The order of addresses by the strings stored there. */
  function RefBefore(text: nat -> Text): (nat, nat) -> bool { (x: nat, y: nat) => Before(text(x), text(y)) }

  function RefKey(text: nat -> Text): (nat, Text) -> int { (x: nat, k: Text) => CompareKey(text(x), k) }

  function RefKeyN(text: nat -> Text): (nat, Text) -> int { (x: nat, k: Text) => CompareN(text(x), k) }

  lemma RefsOrder(text: nat -> Text)
    ensures Orders(RefBefore(text))
    ensures Respects(RefBefore(text), RefKey(text)) && Respects(RefBefore(text), RefKeyN(text))
  {
    var lt := RefBefore(text);
    forall x: nat, y: nat, z: nat
      ensures !lt(x, x) && (lt(x, y) ==> !lt(y, x)) && (!lt(y, x) && !lt(z, y) ==> !lt(z, x))
    {
      BeforeOrders(text(x), text(y), text(z));
    }
    forall x: nat, y: nat, k: Text | !lt(y, x)
      ensures RefKey(text)(y, k) < 0 ==> RefKey(text)(x, k) < 0
      ensures RefKey(text)(y, k) <= 0 ==> RefKey(text)(x, k) <= 0
      ensures (RefKeyN(text)(y, k) < 0 ==> RefKeyN(text)(x, k) < 0)
           && (RefKeyN(text)(y, k) <= 0 ==> RefKeyN(text)(x, k) <= 0)
    {
      BeforeRespects(text(x), text(y), k);
    }
  }

  /** No string stands behind one that belongs after it. */
  ghost predicate InDictionaryOrder(refs: seq<nat>, text: nat -> Text) {
    forall i, j :: 0 <= i < j < |refs| ==> AtMost(text(refs[i]), text(refs[j]))
  }

  /** The first string that reads like the key, or that none does. */
  ghost predicate LowestReading(refs: seq<nat>, text: nat -> Text, key: Text, r: Found) {
    match r
    case Found(i) => i < |refs| && ReadAsC(text(refs[i]), 0) == ReadAsC(key, 0)
      && forall j :: 0 <= j < i ==> ReadAsC(text(refs[j]), 0) != ReadAsC(key, 0)
    case NotFound => forall j :: 0 <= j < |refs| ==> ReadAsC(text(refs[j]), 0) != ReadAsC(key, 0)
  }

  lemma WordsAscend(refs: seq<nat>, text: nat -> Text)
    ensures Orders(RefBefore(text)) && InDictionaryOrder(Sorted(refs, RefBefore(text)), text)
    ensures multiset(Sorted(refs, RefBefore(text))) == multiset(refs)
  {
    RefsOrder(text);
    SortSorts(refs, RefBefore(text));
    var t := Sorted(refs, RefBefore(text));
    forall i, j | 0 <= i < j < |t|
      ensures AtMost(text(t[i]), text(t[j]))
    {
      assert !RefBefore(text)(t[j], t[i]);
      SortComparesWords(text(t[i]), text(t[j]));
    }
  }

  lemma WordScanIsLowest(refs: seq<nat>, text: nat -> Text, key: Text)
    ensures LowestReading(refs, text, key, Scan(refs, RefKey(text), key, 0, |refs|))
  {
    ScanIsLowest(refs, RefKey(text), key, 0, |refs|);
    forall i | 0 <= i < |refs|
      ensures RefKey(text)(refs[i], key) == 0 <==> ReadAsC(text(refs[i]), 0) == ReadAsC(key, 0)
    {
      FindComparesWords(text(refs[i]), key);
    }
  }

  /**
   Sorting a vector of strings in place and searching it: the answer is the
   lowest index whose string reads like the key up to the first NUL, and there
   is one exactly when some string of the vector does.
   */
  method SortThenFindString(v: array<nat>, base: nat, text: nat -> Text, key: Text) returns (r: Found)
    requires Sortable(base, v[..])
    modifies v
    ensures Orders(RefBefore(text)) && Targets(base, v[..]) == Sorted(Targets(base, old(v[..])), RefBefore(text))
    ensures r == Scan(Targets(base, v[..]), RefKey(text), key, 0, v.Length)
    ensures r.Found? <==> Matches(Targets(base, old(v[..])), RefKey(text), key)
    ensures InDictionaryOrder(Targets(base, v[..]), text)
    ensures multiset(Targets(base, v[..])) == multiset(Targets(base, old(v[..])))
    ensures LowestReading(Targets(base, v[..]), text, key, r)
  {
    RefsOrder(text);
    SortOffsets(v, base, RefBefore(text));
    SortedFindsMatches(Targets(base, old(v[..])), Targets(base, v[..]), RefBefore(text), RefKey(text), key);
    WordsAscend(Targets(base, old(v[..])), text);
    WordScanIsLowest(Targets(base, v[..]), text, key);
    r := Find(Targets(base, v[..]), RefKey(text), key);
  }
}
