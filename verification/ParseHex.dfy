/**
 Hexadecimal parsing (`parse_hex_integer` in pparseint.h) and the typed parsers
 built on it: at most sixteen digits, so the 64-bit word cannot wrap; a
 seventeenth is an overflow.
 */
module ParseHex {
  import opened Arith
  import opened ParseInt

  /** Setting bit 5, which makes an ASCII letter lower case. */
  function Lower(c: char): char
    requires c as int < 256
  {
    if c as int / 32 % 2 == 0 then (c as int + 32) as char else c
  }

  predicate IsHex(c: char) { '0' <= c <= '9' || 'a' <= c <= 'f' || 'A' <= c <= 'F' }

  function HexOf(c: char): (v: nat)
    requires IsHex(c)
    ensures v < 16
  {
    if c <= '9' then c as int - '0' as int
    else if c <= 'F' then c as int - 'A' as int + 10
    else c as int - 'a' as int + 10
  }

  predicate AllHex(s: string) { forall i :: 0 <= i < |s| ==> IsHex(s[i]) }

  function HexValue(s: string): nat
    requires AllHex(s)
  {
    if s == [] then 0 else HexValue(s[..|s| - 1]) * 16 + HexOf(s[|s| - 1])
  }

  /** Characters are bytes. */
  predicate IsBytes(t: string) { forall i :: 0 <= i < |t| ==> t[i] as int < 256 }

  /** Hexadecimal digits up to position k2, and the word they make. */
  function HexRun(t: string, i: nat, k2: nat, x: nat): (r: (nat, nat))
    requires i <= k2 <= |t|
    ensures i <= r.0 <= k2
    decreases k2 - i
  {
    if i < k2 && IsHex(t[i]) then HexRun(t, i + 1, k2, U64(x * 16 + HexOf(t[i]))) else (i, x)
  }

  predicate EndsHexBadly(c: char) { c in {'.', 'p', 'P'} }

  /** Where the digits may end at the latest. */
  function LastDigit(k: nat, len: nat): nat { if len > k + 16 then k + 16 else len }

  function ParseHex(t: string, len: nat): Parsed
    requires len <= |t| && IsBytes(t)
  {
    if len == 0 then Parsed(At(0), END, Unmodified)
    else
      var sign := t[0] == '-';
      var b := if sign then 1 else 0;
      if len - b < 2 || t[b] != '0' || Lower(t[b + 1]) != 'x' then Parsed(At(0), UNMATCHED, Unmodified)
      else
        var k := b + 2;
        var k2 := LastDigit(k, len);
        var (end, x) := HexRun(t, k, k2, 0);
        var done := Parsed(At(end), if sign then SIGNED else UNSIGNED, Stored(x));
        if end == k then if sign then Fail(INVALID) else Parsed(At(end), UNMATCHED, Unmodified)
        else if end == len then done
        else
          var c := if end == k2 then Lower(t[end]) else t[end];
          if end == k2 && IsHex(t[end]) then Fail(if sign then UNDERFLOW else OVERFLOW)
          else if EndsHexBadly(c) then Fail(INVALID)
          else done
  }

  method HexDigits(t: string, k: nat, k2: nat) returns (buf: nat, x: nat)
    requires k <= k2 <= |t| && IsBytes(t)
    ensures (buf, x) == HexRun(t, k, k2, 0)
  {
    buf, x := k, 0;
    while buf != k2
      invariant k <= buf <= k2 && HexRun(t, k, k2, 0) == HexRun(t, buf, k2, x)
      decreases k2 - buf
    {
      var c := t[buf];
      if '0' <= c <= '9' {
        x := U64(x * 16 + c as int - '0' as int);
      } else {
        c := Lower(c);
        if 'a' <= c <= 'f' {
          x := U64(x * 16 + c as int - 'a' as int + 10);
        } else {
          break;
        }
      }
      buf := buf + 1;
    }
  }

  method ParseHexLoop(t: string, len: nat) returns (r: Parsed)
    requires len <= |t| && IsBytes(t)
    ensures r == ParseHex(t, len)
  {
    var x: nat, buf: nat := 0, 0;
    if buf == len {
      return Parsed(At(buf), END, Unmodified);
    }
    var sign := t[buf] == '-';
    if sign {
      buf := buf + 1;
    }
    if len - buf < 2 || t[buf] != '0' || Lower(t[buf + 1]) != 'x' {
      return Parsed(At(if sign then buf - 1 else buf), UNMATCHED, Unmodified);
    }
    buf := buf + 2;
    var k, k2 := buf, len;
    if len - buf > 16 {
      k2 := buf + 16;
    }
    buf, x := HexDigits(t, k, k2);
    var done := Parsed(At(buf), if sign then SIGNED else UNSIGNED, Stored(x));
    if buf == k {
      return if sign then Fail(INVALID) else Parsed(At(buf), UNMATCHED, Unmodified);
    }
    if buf == len {
      return done;
    }
    var c := t[buf];
    if buf == k2 {
      if '0' <= c <= '9' {
        return Fail(if sign then UNDERFLOW else OVERFLOW);
      }
      c := Lower(c);
      if 'a' <= c <= 'f' {
        return Fail(if sign then UNDERFLOW else OVERFLOW);
      }
    }
    if EndsHexBadly(c) {
      return Fail(INVALID);
    }
    return done;
  }

  // ----- Exactness ---------------------------------------------------------------------------

  function Pow16(n: nat): (p: nat)
    ensures p >= 1
  {
    if n == 0 then 1 else 16 * Pow16(n - 1)
  }

  lemma {:induction false} HexBound(s: string)
    requires AllHex(s)
    ensures HexValue(s) < Pow16(|s|)
  {
    if s != [] {
      HexBound(s[..|s| - 1]);
    }
  }

  lemma SixteenDigitsFit(n: nat)
    requires n <= 16
    ensures Pow16(n) <= TWO64
  {
    assert Pow16(8) == TWO32;
    if n <= 8 {
      Pow16Grows(n, 8);
    } else {
      Pow16Grows(n, 16);
      assert Pow16(16) == TWO64;
    }
  }

  lemma {:induction false} Pow16Grows(a: nat, b: nat)
    requires a <= b
    ensures Pow16(a) <= Pow16(b)
  {
    if a < b {
      Pow16Grows(a, b - 1);
    }
  }

  lemma {:induction false} HexRunIsExact(t: string, i: nat, k2: nat, pre: string, j: nat)
    requires i <= j <= k2 <= |t| && AllHex(pre + t[i..j]) && AllHex(pre) && |pre + t[i..j]| <= 16
    requires j < k2 ==> !IsHex(t[j])
    ensures HexRun(t, i, k2, HexValue(pre)) == (j, HexValue(pre + t[i..j]))
    decreases j - i
  {
    if i == j {
      assert pre + t[i..j] == pre;
    } else {
      var all, next := pre + t[i..j], pre + [t[i]];
      assert all[|pre|] == t[i];
      assert next + t[i + 1..j] == all;
      assert next[..|pre|] == pre;
      HexBound(next);
      SixteenDigitsFit(|next|);
      Word(HexValue(pre) * 16 + HexOf(t[i]));
      HexRunIsExact(t, i + 1, k2, next, j);
    }
  }

  /** Text that starts with an optional minus, 0x, and hexadecimal digits, and goes on with something else. */
  predicate StartsWithHex(t: string, len: nat, neg: bool, h: string) {
    var k := if neg then 3 else 2;
    && AllHex(h) && h != [] && k + |h| <= len <= |t| && IsBytes(t)
    && (neg ==> t[0] == '-') && t[k - 2] == '0' && t[k - 1] in {'x', 'X'} && t[k..k + |h|] == h
    && (k + |h| < len ==> !IsHex(t[k + |h|]))
  }

  /** The run over the first n digits of h, where either h or the room for digits ends. */
  lemma HexRunStops(t: string, k: nat, k2: nat, h: string, n: nat)
    requires AllHex(h) && n <= |h| && n <= 16 && k + |h| <= |t| && t[k..k + |h|] == h
    requires k + n <= k2 <= |t| && (k + n < k2 ==> !IsHex(t[k + n]))
    ensures AllHex(h[..n]) && HexRun(t, k, k2, 0) == (k + n, HexValue(h[..n]))
  {
    hide HexRun, IsHex, HexValue, AllHex;
    HexPrefix(h, n);
    assert t[k..k + n] == h[..n];
    NothingBefore(t[k..k + n]);
    HexRunIsExact(t, k, k2, [], k + n);
  }

  lemma NothingBefore(s: string)
    ensures [] + s == s
  {
  }

  lemma HexPrefix(h: string, n: nat)
    requires AllHex(h) && n <= |h|
    ensures AllHex(h[..n]) && AllHex([]) && HexValue([]) == 0
    ensures n < |h| ==> IsHex(h[n])
  {
  }

  /** The character that is looked at behind n digits: with room for no more, it has been made lower case. */
  function EndSeen(c: char, n: nat): char
    requires c as int < 256
  {
    if n == 16 then Lower(c) else c
  }

  /** A point or p is a bad end; behind sixteen digits so is the control character that bit 5 makes a point. */
  lemma BadEnds(c: char, n: nat)
    requires c as int < 256
    ensures EndsHexBadly(EndSeen(c, n)) <==> c in {'.', 'p', 'P'} || (n == 16 && c as int == 14)
  {
  }

  /** Up to sixteen digits are read exactly, unless a bad end follows; one more is an overflow, whatever its value. */
  lemma HexIsExact(t: string, len: nat, neg: bool, h: string)
    requires StartsWithHex(t, len, neg, h)
    ensures var end := (if neg then 3 else 2) + |h|;
      ParseHex(t, len)
      == if |h| > 16 then Fail(if neg then UNDERFLOW else OVERFLOW)
         else if end < len && EndsHexBadly(EndSeen(t[end], |h|)) then Fail(INVALID)
         else Parsed(At(end), if neg then SIGNED else UNSIGNED, Stored(HexValue(h)))
  {
    hide HexRun, HexValue, AllHex, StartsWithHex, Lower, EndsHexBadly, IsHex;
    HexHead(t, len, neg, h);
    var k := if neg then 3 else 2;
    if |h| <= 16 {
      assert h[..|h|] == h;
      HexRunStops(t, k, LastDigit(k, len), h, |h|);
    } else {
      HexPrefix(h, 16);
      assert t[k + 16] == t[k..k + |h|][16];
      HexRunStops(t, k, LastDigit(k, len), h, 16);
    }
  }

  lemma HexHead(t: string, len: nat, neg: bool, h: string)
    requires StartsWithHex(t, len, neg, h)
    ensures var k := if neg then 3 else 2;
      && AllHex(h) && h != [] && k + |h| <= len <= |t| && IsBytes(t) && t[k..k + |h|] == h
      && (t[0] == '-' <==> neg) && t[k - 2] == '0' && Lower(t[k - 1]) == 'x'
      && (k + |h| < len ==> !IsHex(t[k + |h|]))
  {
  }

  lemma LowerX(c: char)
    requires c as int < 256
    ensures Lower(c) == 'x' <==> c in {'x', 'X'}
  {
  }

  /**
   Unmatched text is given back with the pointer where it was, but for one
   family: 0x without a minus and without a digit behind it is swallowed.
   */
  lemma PrefixIsSwallowedIff(t: string, len: nat)
    requires len <= |t| && IsBytes(t)
    ensures var r := ParseHex(t, len);
      && (r.status == UNMATCHED && r.end != At(0)
          <==> 2 <= len && t[0] == '0' && t[1] in {'x', 'X'} && (len == 2 || !IsHex(t[2])))
      && (r.status == UNMATCHED && r.end != At(0) ==> r == Parsed(At(2), UNMATCHED, Unmodified))
  {
    hide HexRun, IsHex, Lower;
    if 2 <= len {
      LowerX(t[1]);
      SwallowedHead(t, len);
    }
  }

  lemma SwallowedHead(t: string, len: nat)
    requires 2 <= len <= |t|
    ensures HexRun(t, 2, LastDigit(2, len), 0).0 == 2 <==> len == 2 || !IsHex(t[2])
  {
  }

  /** Such as 0xg. */
  lemma PrefixIsSwallowed(t: string)
    requires t == "0xg"
    ensures ParseHex(t, 3) == Parsed(At(2), UNMATCHED, Unmodified)
  {
  }

  // ----- The typed parsers -----------------------------------------------------------------------

  function ParseHexUnsigned(t: string, len: nat, limit: nat): Parsed
    requires len <= |t| && IsBytes(t)
  {
    AsUnsigned(ParseHex(t, len), limit)
  }

  function ParseHexSigned(t: string, len: nat, limit: nat): Parsed
    requires len <= |t| && IsBytes(t)
  {
    AsSigned(ParseHex(t, len), limit)
  }

  function ParseHexUint64(t: string, len: nat): Parsed
    requires len <= |t| && IsBytes(t)
  {
    AsUint64(ParseHex(t, len))
  }

  /** Nothing behind the digits spoils the number. */
  predicate EndsHexWell(t: string, len: nat, end: nat, n: nat)
    requires len <= |t| && IsBytes(t)
  {
    end < len ==> !EndsHexBadly(EndSeen(t[end], n))
  }

  /**
   A typed parser stores exactly the numbers in range written with at most
   sixteen digits, 64-bit types included: unlike in decimal, none wraps unnoticed.
   */
  lemma HexTypedIffInRange(t: string, len: nat, neg: bool, h: string, limit: nat)
    requires StartsWithHex(t, len, neg, h) && EndsHexWell(t, len, (if neg then 3 else 2) + |h|, |h|)
    ensures var end, fits, v: int := (if neg then 3 else 2) + |h|, |h| <= 16, HexValue(h);
      && ParseHexUnsigned(t, len, limit)
         == (if neg then Fail(UNDERFLOW)
             else if fits && v <= limit then Parsed(At(end), UNSIGNED, Stored(v)) else Fail(OVERFLOW))
      && ParseHexSigned(t, len, limit)
         == (if fits && v <= Room(neg, limit)
             then Parsed(At(end), if neg then SIGNED else UNSIGNED, Stored(if neg then 0 - v else v))
             else Fail(if neg then UNDERFLOW else OVERFLOW))
  {
    hide HexValue, ParseHex, StartsWithHex, EndsHexBadly, Lower;
    HexHead(t, len, neg, h);
    HexIsExact(t, len, neg, h);
  }

  lemma {:induction false} HexRunReadsDigits(t: string, i: nat, k2: nat, x: nat)
    requires i <= k2 <= |t|
    ensures var end := HexRun(t, i, k2, x).0;
      AllHex(t[i..end]) && (end < k2 ==> !IsHex(t[end]))
    decreases k2 - i
  {
    if i < k2 && IsHex(t[i]) {
      var y := U64(x * 16 + HexOf(t[i]));
      HexRunReadsDigits(t, i + 1, k2, y);
      var end := HexRun(t, i + 1, k2, y).0;
      assert t[i..end] == [t[i]] + t[i + 1..end];
    }
  }

  /** What a stored number was read from. */
  lemma StoredFromDigits(t: string, len: nat)
    requires len <= |t| && IsBytes(t) && ParseHex(t, len).status.SIGNED?
    ensures exists h :: StartsWithHex(t, len, true, h) && |h| <= 16 && EndsHexWell(t, len, 3 + |h|, |h|)
  {
    hide HexRun, IsHex, EndsHexBadly, Lower;
    var k2 := LastDigit(3, len);
    HexRunReadsDigits(t, 3, k2, 0);
    LowerX(t[2]);
    var end := HexRun(t, 3, k2, 0).0;
    var h := t[3..end];
    assert StartsWithHex(t, len, true, h);
    assert EndsHexWell(t, len, 3 + |h|, |h|);
  }

  /**
   For every text: parse_hex_uint64, too, fails and changes the value all the
   same if and only if the text is a minus, 0x, up to sixteen digits and no bad end.
   */
  lemma HexUint64StoresOnFailureIff(t: string, len: nat)
    requires len <= |t| && IsBytes(t)
    ensures var r := ParseHexUint64(t, len);
      IsFailure(r.status) && r.value.Stored?
      <==> exists h :: StartsWithHex(t, len, true, h) && |h| <= 16 && EndsHexWell(t, len, 3 + |h|, |h|)
  {
    hide ParseHex, HexValue, StartsWithHex, EndsHexWell, HexRun, IsHex;
    var r := ParseHexUint64(t, len);
    StoresOnlyNumbers(t, len);
    if IsFailure(r.status) && r.value.Stored? {
      StoredFromDigits(t, len);
    }
    forall h | StartsWithHex(t, len, true, h) && |h| <= 16 && EndsHexWell(t, len, 3 + |h|, |h|)
      ensures IsFailure(r.status) && r.value.Stored?
    {
      HexSigned(t, len, h);
    }
  }

  lemma StoresOnlyNumbers(t: string, len: nat)
    requires len <= |t| && IsBytes(t)
    ensures IsFailure(ParseHex(t, len).status) ==> ParseHex(t, len).value.Unmodified?
  {
    hide HexRun, IsHex, Lower;
  }

  lemma HexSigned(t: string, len: nat, h: string)
    requires len <= |t| && IsBytes(t)
    requires StartsWithHex(t, len, true, h) && |h| <= 16 && EndsHexWell(t, len, 3 + |h|, |h|)
    ensures ParseHex(t, len).status.SIGNED? && ParseHex(t, len).value.Stored?
  {
    hide ParseHex, HexValue, StartsWithHex, EndsHexBadly, Lower;
    HexHead(t, len, true, h);
    HexIsExact(t, len, true, h);
  }

  // ----- Every text -------------------------------------------------------------------------------

  /** The hexadecimal digits from position i on. */
  function LeadingHex(t: string, i: nat, len: nat): (h: string)
    requires i <= len <= |t|
    ensures i + |h| <= len && h == t[i..i + |h|] && AllHex(h)
    ensures h == [] <==> i == len || !IsHex(t[i])
    ensures i + |h| < len ==> !IsHex(t[i + |h|])
    decreases len - i
  {
    if i < len && IsHex(t[i]) then
      var h := LeadingHex(t, i + 1, len);
      assert [t[i]] + t[i + 1..i + 1 + |h|] == t[i..i + 1 + |h|];
      [t[i]] + h
    else []
  }

  /** The text starts with an optional minus and 0x. */
  predicate Prefixed(t: string, len: nat)
    requires len <= |t|
  {
    var b := if Negative(t, len) then 1 else 0;
    len >= b + 2 && t[b] == '0' && t[b + 1] in {'x', 'X'}
  }

  /** The digits behind the prefix. */
  function HexMagnitude(t: string, len: nat): (h: string)
    requires len <= |t| && Prefixed(t, len)
    ensures (if Negative(t, len) then 3 else 2) + |h| <= len
  {
    LeadingHex(t, if Negative(t, len) then 3 else 2, len)
  }

  /**
   How every parser answers to text that is no hexadecimal integer. It is
   invalid if a minus and a prefix are without a digit, or if digits that fit
   are spoilt by what follows.
   */
  ghost predicate RefusesHex(t: string, len: nat, r: Parsed)
    requires len <= |t| && IsBytes(t)
  {
    var neg, prefixed := Negative(t, len), Prefixed(t, len);
    var h := if prefixed then HexMagnitude(t, len) else [];
    && (r.status == END <==> len == 0)
    && (r.status == UNMATCHED <==> len > 0 && (!prefixed || (!neg && h == [])))
    && (r.status == INVALID <==>
          prefixed && ((neg && h == []) || (0 < |h| <= 16 && !EndsHexWell(t, len, (if neg then 3 else 2) + |h|, |h|))))
    && (r.status == END || (r.status == UNMATCHED && !prefixed) ==> r == Parsed(At(0), r.status, Unmodified))
    && (r.status == UNMATCHED && prefixed ==> r == Parsed(At(2), UNMATCHED, Unmodified))
    && (r.status == INVALID ==> r == Parsed(Null, INVALID, Unmodified))
  }

  lemma PrefixedHead(t: string, len: nat)
    requires len <= |t| && IsBytes(t) && len > 0
    ensures var b := if t[0] == '-' then 1 else 0;
      Prefixed(t, len) <==> !(len - b < 2 || t[b] != '0' || Lower(t[b + 1]) != 'x')
  {
    var b := if t[0] == '-' then 1 else 0;
    if b + 1 < len {
      LowerX(t[b + 1]);
    }
  }

  lemma NoDigitRun(t: string, k: nat, len: nat)
    requires k <= len <= |t| && LeadingHex(t, k, len) == []
    ensures HexRun(t, k, LastDigit(k, len), 0).0 == k
  {
    hide IsHex;
  }

  lemma HexOnEveryText(t: string, len: nat)
    requires len <= |t| && IsBytes(t)
    ensures RefusesHex(t, len, ParseHex(t, len))
    ensures var r, neg := ParseHex(t, len), Negative(t, len);
      var h := if Prefixed(t, len) then HexMagnitude(t, len) else [];
      && (r.status == OVERFLOW <==> !neg && |h| > 16)
      && (r.status == UNDERFLOW <==> neg && |h| > 16)
      && (r.status in {OVERFLOW, UNDERFLOW} ==> r == Parsed(Null, r.status, Unmodified))
      && (r.status in {SIGNED, UNSIGNED} ==>
            h != [] && r == Parsed(At((if neg then 3 else 2) + |h|), if neg then SIGNED else UNSIGNED,
                                Stored(HexValue(h))))
  {
    hide HexRun, HexValue, IsHex, Lower, LeadingHex, EndsHexBadly, EndSeen;
    if len > 0 {
      PrefixedHead(t, len);
      if Prefixed(t, len) {
        var neg, h := Negative(t, len), HexMagnitude(t, len);
        if h == [] {
          NoDigitRun(t, if neg then 3 else 2, len);
        } else {
          hide ParseHex;
          assert StartsWithHex(t, len, neg, h);
          HexIsExact(t, len, neg, h);
        }
      }
    }
  }

  /** The typed parsers refuse the same texts in the same way, and decide the rest by their limits. */
  lemma HexTypedOnEveryText(t: string, len: nat, limit: nat)
    requires len <= |t| && IsBytes(t)
    ensures RefusesHex(t, len, ParseHexUnsigned(t, len, limit))
    ensures RefusesHex(t, len, ParseHexSigned(t, len, limit))
    ensures RefusesHex(t, len, ParseHexUint64(t, len))
    ensures var neg := Negative(t, len);
      var h := if Prefixed(t, len) then HexMagnitude(t, len) else [];
      var long := |h| > 16;
      var number := h != [] && EndsHexWell(t, len, (if neg then 3 else 2) + |h|, |h|);
      var u, s, w := ParseHexUnsigned(t, len, limit), ParseHexSigned(t, len, limit), ParseHexUint64(t, len);
      && (u.status == OVERFLOW <==> !neg && (long || (number && HexValue(h) > limit)))
      && (s.status == OVERFLOW <==> !neg && (long || (number && HexValue(h) > limit)))
      && (w.status == OVERFLOW <==> !neg && long)
      && (u.status == UNDERFLOW <==> neg && (long || number))
      && (s.status == UNDERFLOW <==> neg && (long || (number && HexValue(h) > limit + 1)))
      && (w.status == UNDERFLOW <==> neg && (long || number))
  {
    hide ParseHex, HexValue, LeadingHex, EndsHexWell, Prefixed;
    HexOnEveryText(t, len);
  }
}
