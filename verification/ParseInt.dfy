/**
 Integer parsing (pparseint.h): `parse_integer` and the typed parsers built on
 it. Pointers into the text are positions; a result
 stored through a pointer is either stored or left unmodified.
 */
module ParseInt {
  import opened Arith
  import opened Decimal

  datatype Status = UNSIGNED | SIGNED | OVERFLOW | UNDERFLOW | INVALID | UNMATCHED | END

  /** The pointer that is returned. */
  datatype Pointer = Null | At(i: nat)

  /** What becomes of the value the caller's pointer refers to. */
  datatype Target = Unmodified | Stored(x: int)

  datatype Parsed = Parsed(end: Pointer, status: Status, value: Target)

  function Fail(status: Status): Parsed { Parsed(Null, status, Unmodified) }

  // ----- parse_integer -------------------------------------------------------------------

  datatype Run = Wrapped | Run(end: nat, x: nat)

  /** Digits into a 64-bit word. A word that gets smaller has wrapped. */
  function DigitRun(t: string, i: nat, len: nat, x: nat): (r: Run)
    requires i <= len <= |t|
    ensures r.Run? ==> i <= r.end <= len
    decreases len - i
  {
    if i < len && IsDigit(t[i]) then
      var y := U64(x * 10 + DigitOf(t[i]));
      if x > y then Wrapped else DigitRun(t, i + 1, len, y)
    else Run(i, x)
  }

  predicate EndsBadly(c: char) { c in {'e', 'E', '.', 'p', 'P'} }

  function ParseInteger(t: string, len: nat): Parsed
    requires len <= |t|
  {
    if len == 0 then Parsed(At(0), END, Unmodified)
    else
      var sign := t[0] == '-';
      var k := if sign then 1 else 0;
      match DigitRun(t, k, len, 0)
      case Wrapped => Fail(if sign then UNDERFLOW else OVERFLOW)
      case Run(end, x) =>
        if end == 0 then Parsed(At(0), UNMATCHED, Unmodified)
        else if end == k then Fail(INVALID)
        else if end < len && EndsBadly(t[end]) then Fail(INVALID)
        else Parsed(At(end), if sign then SIGNED else UNSIGNED, Stored(x))
  }

  method ParseIntegerLoop(t: string, len: nat) returns (r: Parsed)
    requires len <= |t|
    ensures r == ParseInteger(t, len)
  {
    var x: nat, buf: nat := 0, 0;
    if buf == len {
      return Parsed(At(buf), END, Unmodified);
    }
    var sign := t[buf] == '-';
    ghost var k := if sign then 1 else 0;
    if sign {
      buf := buf + 1;
    }
    while buf != len && IsDigit(t[buf])
      invariant k <= buf <= len && DigitRun(t, k, len, 0) == DigitRun(t, buf, len, x)
      decreases len - buf
    {
      var x0 := x;
      x := U64(x * 10 + DigitOf(t[buf]));
      if x0 > x {
        return Fail(if sign then UNDERFLOW else OVERFLOW);
      }
      buf := buf + 1;
    }
    if buf == 0 {
      return Parsed(At(buf), UNMATCHED, Unmodified);
    }
    if buf == (if sign then 1 else 0) {
      return Fail(INVALID);
    }
    if buf != len && EndsBadly(t[buf]) {
      return Fail(INVALID);
    }
    return Parsed(At(buf), if sign then SIGNED else UNSIGNED, Stored(x));
  }

  // ----- Which numbers are accepted ---------------------------------------------------------

  /** The residues of the successive prefixes never get smaller. */
  ghost predicate NeverDrops(d: string) {
    forall k :: 0 < k <= |d| ==> Value(d[..k - 1]) % TWO64 <= Value(d[..k]) % TWO64
  }

  lemma StepResidue(pre: string, c: char)
    ensures U64(Value(pre) % TWO64 * 10 + DigitOf(c)) == Value(pre + [c]) % TWO64
  {
    ValueSnoc(pre, c);
    var v := Value(pre);
    var q, r := v / TWO64, v % TWO64;
    assert v * 10 + DigitOf(c) == r * 10 + DigitOf(c) + (10 * q) * TWO64;
    SameResidue(r * 10 + DigitOf(c), 10 * q);
  }

  lemma SameResidue(x: int, k: int)
    ensures (x + k * TWO64) % TWO64 == x % TWO64
  {
    DivModUnique(x + k * TWO64, TWO64, x / TWO64 + k, x % TWO64);
  }

  /** The word holds the residue of the digits read; reading goes on while it never drops. */
  lemma {:induction false} RunKeepsResidue(t: string, i: nat, j: nat, len: nat, pre: string)
    requires i <= j <= len <= |t| && AllDigits(t[i..j]) && (j < len ==> !IsDigit(t[j]))
    requires NeverDrops(pre)
    ensures var d := pre + t[i..j];
      DigitRun(t, i, len, Value(pre) % TWO64) == if NeverDrops(d) then Run(j, Value(d) % TWO64) else Wrapped
    decreases j - i
  {
    var d := pre + t[i..j];
    if i == j {
      assert d == pre;
    } else {
      assert t[i..j][0] == t[i];
      var next := pre + [t[i]];
      assert next + t[i + 1..j] == d;
      StepResidue(pre, t[i]);
      DropsAtNext(pre, t[i], d);
      if NeverDrops(next) {
        DigitsFrom(t, i, i + 1, j);
        RunKeepsResidue(t, i + 1, j, len, next);
      }
    }
  }

  lemma DropsAtNext(pre: string, c: char, d: string)
    requires NeverDrops(pre) && pre + [c] <= d
    ensures NeverDrops(pre + [c]) <==> Value(pre) % TWO64 <= Value(pre + [c]) % TWO64
    ensures NeverDrops(d) ==> NeverDrops(pre + [c])
  {
    var next := pre + [c];
    assert next[..|pre|] == pre && next[..|next|] == next;
    assert forall k :: 0 <= k <= |pre| ==> next[..k] == pre[..k];
    assert forall k :: 0 <= k <= |next| ==> next[..k] == d[..k];
  }

  /** A numeral below 2^64 never drops. */
  lemma {:induction false} SmallNeverDrops(d: string)
    requires Value(d) < TWO64
    ensures NeverDrops(d)
  {
    if d != [] {
      var pre := d[..|d| - 1];
      SmallNeverDrops(pre);
      DropsAtNext(pre, d[|d| - 1], d);
      assert pre + [d[|d| - 1]] == d;
    }
  }

  /** A result below (2^64 - 6) / 10 has not wrapped. */
  lemma {:induction false} SmallIsExact(d: string)
    requires NeverDrops(d)
    ensures Value(d) < TWO64 || Value(d) % TWO64 >= 1844674407370955160
  {
    if d != [] && Value(d) >= TWO64 {
      var pre := d[..|d| - 1];
      assert forall k :: 0 <= k <= |pre| ==> pre[..k] == d[..k];
      SmallIsExact(pre);
      assert d[..|d|] == d;
      assert Value(pre) % TWO64 <= Value(d) % TWO64;
    }
  }

  // ----- parse_integer on a numeral -----------------------------------------------------------

  /** Text that starts with an optional minus and digits, and goes on with something else. */
  predicate StartsWith(t: string, len: nat, neg: bool, d: string) {
    var k := if neg then 1 else 0;
    && d != [] && AllDigits(d) && k + |d| <= len <= |t|
    && (neg ==> t[0] == '-') && t[k..k + |d|] == d
    && (k + |d| < len ==> !IsDigit(t[k + |d|]))
  }

  lemma RunOfNumeral(t: string, len: nat, neg: bool, d: string)
    requires StartsWith(t, len, neg, d)
    ensures var k := if neg then 1 else 0;
      DigitRun(t, k, len, 0) == if NeverDrops(d) then Run(k + |d|, Value(d) % TWO64) else Wrapped
    ensures len > 0 && (t[0] == '-' <==> neg)
  {
    hide Value, NeverDrops, DigitRun;
    var k := if neg then 1 else 0;
    assert d[0] == t[k];
    assert [] + t[k..k + |d|] == d;
    NothingDrops();
    RunKeepsResidue(t, k, k + |d|, len, []);
  }

  lemma NothingDrops()
    ensures NeverDrops([]) && Value([]) % TWO64 == 0
  {
  }

  /** Accepted exactly when no prefix drops and nothing bad follows; then the value is the residue. */
  lemma ParseNumeral(t: string, len: nat, neg: bool, d: string)
    requires StartsWith(t, len, neg, d)
    ensures var end := (if neg then 1 else 0) + |d|;
      ParseInteger(t, len)
        == if !NeverDrops(d) then Fail(if neg then UNDERFLOW else OVERFLOW)
           else if end < len && EndsBadly(t[end]) then Fail(INVALID)
           else Parsed(At(end), if neg then SIGNED else UNSIGNED, Stored(Value(d) % TWO64))
  {
    hide Value, NeverDrops, DigitRun, StartsWith, EndsBadly;
    NumeralFits(t, len, neg, d);
    RunOfNumeral(t, len, neg, d);
  }

  lemma NumeralFits(t: string, len: nat, neg: bool, d: string)
    requires StartsWith(t, len, neg, d)
    ensures d != [] && (if neg then 1 else 0) + |d| <= len <= |t|
  {
  }

  /** Below 2^64 the value is exact; whatever is stored is congruent to the numeral modulo 2^64. */
  lemma ParseIsExact(t: string, len: nat, neg: bool, d: string)
    requires StartsWith(t, len, neg, d)
    ensures var r, end := ParseInteger(t, len), (if neg then 1 else 0) + |d|;
      && (Value(d) < TWO64 && !(end < len && EndsBadly(t[end])) ==>
            r == Parsed(At(end), if neg then SIGNED else UNSIGNED, Stored(Value(d))))
      && (r.value.Stored? ==> r.value.x % TWO64 == Value(d) % TWO64)
  {
    ParseNumeral(t, len, neg, d);
    if Value(d) < TWO64 {
      SmallNeverDrops(d);
    }
  }

  lemma ThreeAndZeros(n: nat)
    ensures Value("3" + Zeros(n)) == 3 * Pow10(n)
  {
    ValueConcat("3", Zeros(n));
    ValueOfZeros(n);
    assert "3"[..0] == [];
  }

  lemma ThreeTimesPowers()
    ensures 3 * Pow10(19) == 30000000000000000000 && 3 * Pow10(18) == 3000000000000000000
  {
    assert Pow10(9) == 1000000000;
    Pow10Adds(9, 9);
    assert Pow10(19) == 10 * Pow10(18);
  }

  /** Thirty quintillion is more than 2^64 and is accepted all the same. */
  lemma OverflowMissed()
    ensures var d := "3" + Zeros(19);
      && Value(d) > TWO64
      && ParseInteger(d, 20) == Parsed(At(20), UNSIGNED, Stored(11553255926290448384))
  {
    hide Value, NeverDrops, Pow10;
    var pre, d := "3" + Zeros(18), "3" + Zeros(19);
    ThreeAndZeros(18);
    ThreeAndZeros(19);
    ThreeTimesPowers();
    assert Zeros(18) + ['0'] == Zeros(19);
    assert d == pre + ['0'];
    SmallNeverDrops(pre);
    DropsAtNext(pre, '0', d);
    assert d[0..20] == d;
    ParseNumeral(d, 20, false, d);
  }

  // ----- The typed parsers -----------------------------------------------------------------------

  /** An unsigned type with the given maximum, from what the 64-bit parser has returned. */
  function AsUnsigned(p: Parsed, limit: nat): Parsed {
    match p.status
    case UNSIGNED => if p.value.Stored? && p.value.x <= limit then p else Fail(OVERFLOW)
    case SIGNED => Fail(UNDERFLOW)
    case _ => Parsed(p.end, p.status, Unmodified)
  }

  /** A signed type with the given maximum, in two's complement. */
  function AsSigned(p: Parsed, limit: nat): Parsed {
    match p.status
    case UNSIGNED => if p.value.Stored? && p.value.x <= limit then p else Fail(OVERFLOW)
    case SIGNED =>
      if p.value.Stored? && p.value.x <= limit + 1 then Parsed(p.end, SIGNED, Stored(-p.value.x)) else Fail(UNDERFLOW)
    case _ => Parsed(p.end, p.status, Unmodified)
  }

  /** The unsigned 64-bit type: the value is stored before the sign is looked at. */
  function AsUint64(p: Parsed): Parsed {
    if p.status == SIGNED then Parsed(Null, UNDERFLOW, p.value) else p
  }

  function ParseUnsigned(t: string, len: nat, limit: nat): Parsed
    requires len <= |t|
  {
    AsUnsigned(ParseInteger(t, len), limit)
  }

  function ParseSigned(t: string, len: nat, limit: nat): Parsed
    requires len <= |t|
  {
    AsSigned(ParseInteger(t, len), limit)
  }

  function ParseUint64(t: string, len: nat): Parsed
    requires len <= |t|
  {
    AsUint64(ParseInteger(t, len))
  }

  /** The number a literal denotes. */
  function Denoted(neg: bool, d: string): int { if neg then -(Value(d) as int) else Value(d) }

  /** What may follow a number without spoiling it. */
  predicate EndsWell(t: string, len: nat, end: nat)
    requires len <= |t|
  {
    end < len ==> !EndsBadly(t[end])
  }

  /**
   For types of at most 32 bits - any maximum below 1844674407370955160 - the
   typed parser accepts a number exactly when it is in range, and stores it
   exactly: no number wraps into range unnoticed.
   */
  lemma UnsignedIffInRange(t: string, len: nat, neg: bool, d: string, limit: nat)
    requires StartsWith(t, len, neg, d) && limit < 1844674407370955160
    requires EndsWell(t, len, (if neg then 1 else 0) + |d|)
    ensures ParseUnsigned(t, len, limit)
      == if neg then Fail(UNDERFLOW)
         else if Value(d) <= limit then Parsed(At(|d|), UNSIGNED, Stored(Value(d))) else Fail(OVERFLOW)
  {
    hide Value, NeverDrops, ParseInteger, StartsWith;
    ParseNumeral(t, len, neg, d);
    RangeSeen(d, limit);
  }

  lemma RangeSeen(d: string, limit: nat)
    requires limit < 1844674407370955160
    ensures Value(d) <= limit <==> NeverDrops(d) && Value(d) % TWO64 <= limit
    ensures Value(d) <= limit ==> Value(d) % TWO64 == Value(d)
  {
    if Value(d) <= limit {
      SmallNeverDrops(d);
    }
    if NeverDrops(d) {
      SmallIsExact(d);
    }
  }

  lemma SignedIffInRange(t: string, len: nat, neg: bool, d: string, limit: nat)
    requires StartsWith(t, len, neg, d) && limit + 1 < 1844674407370955160
    requires EndsWell(t, len, (if neg then 1 else 0) + |d|)
    ensures ParseSigned(t, len, limit)
      == if 0 <= Denoted(neg, d) + limit + 1 <= 2 * limit + 1
         then Parsed(At((if neg then 1 else 0) + |d|), if neg then SIGNED else UNSIGNED, Stored(Denoted(neg, d)))
         else Fail(if neg then UNDERFLOW else OVERFLOW)
  {
    hide Value, NeverDrops, ParseInteger, StartsWith;
    ParseNumeral(t, len, neg, d);
    RangeSeen(d, limit);
    RangeSeen(d, limit + 1);
  }

  /** The 64-bit parsers are exact on every number in range as well. */
  lemma SignedInRange(t: string, len: nat, neg: bool, d: string, limit: nat)
    requires StartsWith(t, len, neg, d) && EndsWell(t, len, (if neg then 1 else 0) + |d|)
    requires limit < TWO63 && 0 <= Denoted(neg, d) + limit + 1 <= 2 * limit + 1
    ensures ParseSigned(t, len, limit)
      == Parsed(At((if neg then 1 else 0) + |d|), if neg then SIGNED else UNSIGNED, Stored(Denoted(neg, d)))
  {
    hide Value, NeverDrops, ParseInteger, StartsWith;
    ParseIsExact(t, len, neg, d);
  }

  /** The largest magnitude a signed type has for a sign. */
  function Room(neg: bool, limit: nat): nat { if neg then limit + 1 else limit }

  /** Of any width up to 64 bits: exactly what is stored, and when. */
  lemma SignedStoresIff(t: string, len: nat, neg: bool, d: string, limit: nat)
    requires StartsWith(t, len, neg, d) && EndsWell(t, len, (if neg then 1 else 0) + |d|)
    ensures var m: int := Value(d) % TWO64;
      ParseSigned(t, len, limit)
      == if NeverDrops(d) && m <= Room(neg, limit)
         then Parsed(At((if neg then 1 else 0) + |d|), if neg then SIGNED else UNSIGNED,
                     Stored(if neg then 0 - m else m))
         else Fail(if neg then UNDERFLOW else OVERFLOW)
  {
    hide Value, NeverDrops, ParseInteger, StartsWith;
    ParseNumeral(t, len, neg, d);
  }

  /** The right answer: the number itself when it is in range, and nothing stored when it is not. */
  predicate IsRight(r: Parsed, number: int, limit: nat) {
    r.value == if 0 <= number + limit + 1 <= 2 * limit + 1 then Stored(number) else Unmodified
  }

  /**
   A signed type of up to 64 bits is answered for rightly if and only if the
   numeral is in range, or some prefix drops, or the residue is out of range too.
   */
  lemma SignedRightIff(t: string, len: nat, neg: bool, d: string, limit: nat)
    requires StartsWith(t, len, neg, d) && EndsWell(t, len, (if neg then 1 else 0) + |d|) && limit < TWO63
    ensures IsRight(ParseSigned(t, len, limit), Denoted(neg, d), limit)
      <==> Value(d) <= Room(neg, limit) || !NeverDrops(d) || Value(d) % TWO64 > Room(neg, limit)
  {
    hide Value, NeverDrops, ParseSigned, StartsWith;
    SignedStoresIff(t, len, neg, d, limit);
    if Value(d) <= Room(neg, limit) {
      SmallNeverDrops(d);
    }
  }

  /** The same for the generic parser, which should store exactly the numerals below 2^64. */
  lemma IntegerRightIff(t: string, len: nat, neg: bool, d: string)
    requires StartsWith(t, len, neg, d) && EndsWell(t, len, (if neg then 1 else 0) + |d|)
    ensures ParseInteger(t, len).value == (if Value(d) < TWO64 then Stored(Value(d)) else Unmodified)
      <==> Value(d) < TWO64 || !NeverDrops(d)
  {
    hide Value, NeverDrops, ParseInteger, StartsWith;
    ParseNumeral(t, len, neg, d);
    ParseIsExact(t, len, neg, d);
  }

  /** Such as twenty-five quintillion, which parse_int64 takes for a number in range. */
  lemma Int64OverflowMissed()
    ensures var d := "25" + Zeros(18);
      && Value(d) == 25000000000000000000
      && ParseSigned(d, 20, TWO63 - 1) == Parsed(At(20), UNSIGNED, Stored(6553255926290448384))
  {
    hide Value, NeverDrops, Pow10, ParseInteger;
    var pre, d := "25" + Zeros(17), "25" + Zeros(18);
    TwentyFiveAndZeros(17);
    TwentyFiveAndZeros(18);
    ThreeTimesPowers();
    Pow10Step(17);
    assert Zeros(17) + ['0'] == Zeros(18);
    assert d == pre + ['0'];
    SmallNeverDrops(pre);
    DropsAtNext(pre, '0', d);
    assert d[0..20] == d;
    ParseNumeral(d, 20, false, d);
  }

  lemma TwentyFiveAndZeros(n: nat)
    ensures Value("25" + Zeros(n)) == 25 * Pow10(n)
  {
    ValueConcat("25", Zeros(n));
    ValueOfZeros(n);
    assert "25"[..1] == "2" && "2"[..0] == [];
  }

  predicate IsFailure(s: Status) { !s.UNSIGNED? && !s.SIGNED? }

  /** On a negative number parse_uint64 reports underflow, but has stored the residue if no prefix drops. */
  lemma Uint64StoresOnUnderflow(t: string, len: nat, neg: bool, d: string)
    requires StartsWith(t, len, neg, d)
    ensures var r, end := ParseUint64(t, len), (if neg then 1 else 0) + |d|;
      && (IsFailure(r.status) && r.value.Stored? <==> neg && NeverDrops(d) && EndsWell(t, len, end))
      && (IsFailure(r.status) && r.value.Stored? ==> r == Parsed(Null, UNDERFLOW, Stored(Value(d) % TWO64)))
  {
    hide Value, NeverDrops, ParseInteger, StartsWith;
    ParseNumeral(t, len, neg, d);
  }

  lemma {:induction false} RunReadsDigits(t: string, i: nat, len: nat, x: nat)
    requires i <= len <= |t| && DigitRun(t, i, len, x).Run?
    ensures var end := DigitRun(t, i, len, x).end;
      AllDigits(t[i..end]) && (end < len ==> !IsDigit(t[end]))
    decreases len - i
  {
    if i < len && IsDigit(t[i]) {
      var y := U64(x * 10 + DigitOf(t[i]));
      RunReadsDigits(t, i + 1, len, y);
      var end := DigitRun(t, i + 1, len, y).end;
      assert t[i..end] == [t[i]] + t[i + 1..end];
    }
  }

  /**
   For every text: parse_uint64 fails and changes the value all the same if and
   only if the text is a minus, digits of which no prefix drops, and no bad end.
   */
  lemma Uint64StoresOnFailureIff(t: string, len: nat)
    requires len <= |t|
    ensures var r := ParseUint64(t, len);
      IsFailure(r.status) && r.value.Stored?
      <==> exists d :: StartsWith(t, len, true, d) && NeverDrops(d) && EndsWell(t, len, 1 + |d|)
  {
    hide Value, NeverDrops;
    var r := ParseUint64(t, len);
    if IsFailure(r.status) && r.value.Stored? {
      RunReadsDigits(t, 1, len, 0);
      var d := t[1..DigitRun(t, 1, len, 0).end];
      assert StartsWith(t, len, true, d);
      Uint64StoresOnUnderflow(t, len, true, d);
    }
    forall d | StartsWith(t, len, true, d) && NeverDrops(d) && EndsWell(t, len, 1 + |d|)
      ensures IsFailure(r.status) && r.value.Stored?
    {
      Uint64StoresOnUnderflow(t, len, true, d);
    }
  }

  // ----- Every text -------------------------------------------------------------------------------

  /** The digits from position i on. */
  function Leading(t: string, i: nat, len: nat): (d: string)
    requires i <= len <= |t|
    ensures i + |d| <= len && d == t[i..i + |d|] && AllDigits(d)
    ensures d == [] <==> i == len || !IsDigit(t[i])
    ensures i + |d| < len ==> !IsDigit(t[i + |d|])
    decreases len - i
  {
    if i < len && IsDigit(t[i]) then
      var d := Leading(t, i + 1, len);
      assert [t[i]] + t[i + 1..i + 1 + |d|] == t[i..i + 1 + |d|];
      [t[i]] + d
    else []
  }

  predicate Negative(t: string, len: nat)
    requires len <= |t|
  {
    len > 0 && t[0] == '-'
  }

  /** The digits behind the sign, if there is one. */
  function Magnitude(t: string, len: nat): (d: string)
    requires len <= |t|
    ensures (if Negative(t, len) then 1 else 0) + |d| <= len
  {
    Leading(t, if Negative(t, len) then 1 else 0, len)
  }

  /** Digits are followed by what makes the text no integer. */
  predicate Spoilt(t: string, len: nat)
    requires len <= |t|
  {
    var end := (if Negative(t, len) then 1 else 0) + |Magnitude(t, len)|;
    end < len && t[end] in {'e', 'E', '.', 'p', 'P'}
  }

  /**
   How every parser answers to text that is no integer: an end and an unmatched
   text leave the pointer where it was, an invalid one gives none; nothing is
   stored.
   */
  ghost predicate Refuses(t: string, len: nat, r: Parsed)
    requires len <= |t|
  {
    var d := Magnitude(t, len);
    && (r.status == END <==> len == 0)
    && (r.status == UNMATCHED <==> len > 0 && t[0] != '-' && !IsDigit(t[0]))
    && (r.status == INVALID <==>
          || (len > 0 && t[0] == '-' && (len == 1 || !IsDigit(t[1])))
          || (d != [] && NeverDrops(d) && Spoilt(t, len)))
    && (r.status in {END, UNMATCHED} ==> r == Parsed(At(0), r.status, Unmodified))
    && (r.status == INVALID ==> r == Parsed(Null, INVALID, Unmodified))
  }

  /** The text is a number that takes part in the comparison with a limit. */
  ghost predicate Exceeds(t: string, len: nat, limit: nat)
    requires len <= |t|
  {
    var d := Magnitude(t, len);
    d != [] && !Spoilt(t, len) && Value(d) % TWO64 > limit
  }

  lemma IntegerOnEveryText(t: string, len: nat)
    requires len <= |t|
    ensures var r, neg, d := ParseInteger(t, len), Negative(t, len), Magnitude(t, len);
      && Refuses(t, len, r)
      && (r.status == OVERFLOW <==> !neg && !NeverDrops(d))
      && (r.status == UNDERFLOW <==> neg && !NeverDrops(d))
      && (r.status in {OVERFLOW, UNDERFLOW} ==> r == Parsed(Null, r.status, Unmodified))
      && (r.status in {SIGNED, UNSIGNED} ==>
            r == Parsed(At((if neg then 1 else 0) + |d|), if neg then SIGNED else UNSIGNED, Stored(Value(d) % TWO64)))
  {
    hide Value, NeverDrops, Leading;
    var neg, d := Negative(t, len), Magnitude(t, len);
    NothingDrops();
    if d != [] {
      assert StartsWith(t, len, neg, d);
      ParseNumeral(t, len, neg, d);
    }
  }

  /** The typed parsers refuse the same texts in the same way, and decide the rest by their limits. */
  lemma TypedOnEveryText(t: string, len: nat, limit: nat)
    requires len <= |t| && limit < TWO64
    ensures var u, neg, d := ParseUnsigned(t, len, limit), Negative(t, len), Magnitude(t, len);
      && Refuses(t, len, u)
      && (u.status == OVERFLOW <==> !neg && (!NeverDrops(d) || Exceeds(t, len, limit)))
      && (u.status == UNDERFLOW <==> neg && d != [] && (!NeverDrops(d) || !Spoilt(t, len)))
      && (u.status in {OVERFLOW, UNDERFLOW} ==> u == Parsed(Null, u.status, Unmodified))
    ensures var s, neg, d := ParseSigned(t, len, limit), Negative(t, len), Magnitude(t, len);
      && Refuses(t, len, s)
      && (s.status == OVERFLOW <==> !neg && (!NeverDrops(d) || Exceeds(t, len, limit)))
      && (s.status == UNDERFLOW <==> neg && (!NeverDrops(d) || Exceeds(t, len, limit + 1)))
      && (s.status in {OVERFLOW, UNDERFLOW} ==> s == Parsed(Null, s.status, Unmodified))
    ensures var w, neg, d := ParseUint64(t, len), Negative(t, len), Magnitude(t, len);
      && Refuses(t, len, w)
      && (w.status == OVERFLOW <==> !neg && !NeverDrops(d))
      && (w.status == UNDERFLOW <==> neg && d != [] && (!NeverDrops(d) || !Spoilt(t, len)))
      && (w.status == OVERFLOW ==> w == Parsed(Null, OVERFLOW, Unmodified))
      && (w.status == UNDERFLOW ==> w.end == Null)
  {
    hide Value, NeverDrops, Leading, ParseInteger;
    IntegerOnEveryText(t, len);
    NothingDrops();
  }

  // ----- Print and parse -------------------------------------------------------------------------

  /** A printed number starts a parse: sign and numeral, then the end or something else. */
  lemma IntTextStarts(t: string, len: nat, n: int)
    requires IntText(n) <= t && |IntText(n)| <= len <= |t|
    requires |IntText(n)| < len ==> !IsDigit(t[|IntText(n)|])
    ensures var d := Numeral(if n < 0 then -n else n);
      StartsWith(t, len, n < 0, d) && Denoted(n < 0, d) == n && |IntText(n)| == (if n < 0 then 1 else 0) + |d|
  {
    hide Numeral, Value;
    var m := if n < 0 then -n else n;
    NumeralValue(m);
    var d, k := Numeral(m), if n < 0 then 1 else 0;
    assert IntText(n)[k..] == d && t[..k + |d|] == IntText(n);
    assert t[k..k + |d|] == t[..k + |d|][k..];
  }

  /** Every signed number survives the trip through text, the minimum included. */
  lemma SignedRoundTrip(t: string, len: nat, n: int, half: nat)
    requires half <= TWO63 && 0 <= n + half < 2 * half
    requires IntText(n) <= t && |IntText(n)| <= len <= |t|
    requires |IntText(n)| < len ==> !IsDigit(t[|IntText(n)|]) && !EndsBadly(t[|IntText(n)|])
    ensures ParseSigned(t, len, half - 1) == Parsed(At(|IntText(n)|), if n < 0 then SIGNED else UNSIGNED, Stored(n))
  {
    hide Value, StartsWith, ParseSigned, IntText, Numeral;
    IntTextStarts(t, len, n);
    SignedInRange(t, len, n < 0, Numeral(if n < 0 then -n else n), half - 1);
  }

  /** Every unsigned number does, with the parser of its width or the generic one. */
  lemma UnsignedRoundTrip(t: string, len: nat, n: nat, limit: nat)
    requires n <= limit < TWO64 && Numeral(n) <= t && |Numeral(n)| <= len <= |t|
    requires |Numeral(n)| < len ==> !IsDigit(t[|Numeral(n)|]) && !EndsBadly(t[|Numeral(n)|])
    ensures ParseInteger(t, len) == Parsed(At(|Numeral(n)|), UNSIGNED, Stored(n))
    ensures ParseUint64(t, len) == Parsed(At(|Numeral(n)|), UNSIGNED, Stored(n))
    ensures ParseUnsigned(t, len, limit) == Parsed(At(|Numeral(n)|), UNSIGNED, Stored(n))
  {
    hide Value, StartsWith, ParseInteger, Numeral;
    IntTextStarts(t, len, n);
    ParseIsExact(t, len, false, Numeral(n));
  }
}
