/**
 Printing a double and scanning it again (`grisu3_print_double`, then the
 scanner of `grisu3_parse_double`): the text denotes exactly the digits that
 were generated, so a correctly rounding reader gets the same double back.
 */
module DoublePrint {
  import opened Arith
  import opened Decimal
  import opened Reals
  import opened DiyFps
  import opened Doubles
  import opened Grisu
  import opened DoubleText
  import opened DoubleScan
  import opened DoubleLiterals
  import opened ParseInt
  import opened ParseHex

  /** The real number a successful scan stands for. */
  function Reading(r: Scan): real
    requires r.Number?
  {
    r.fraction as real * PowR(10.0, r.exponent - r.fractionExp)
  }

  // ----- A layout is a well-formed number --------------------------------------------

  function Decimals(len: nat, dExp: int): int {
    if -dExp <= len - 1 then -dExp else len - 1
  }

  function LiteralOf(neg: bool, digits: string, dExp: int): Literal
    requires digits != []
  {
    var len := |digits|;
    if dExp < 0 && len + dExp > -3 && len <= -dExp then
      Literal(neg, "0", Zeros(-dExp - len) + digits, "", "")
    else if dExp < 0 && len > 1 then
      var decimals := Decimals(len, dExp);
      var ip, fp := digits[..len - decimals], digits[len - decimals..];
      if dExp + decimals != 0 then Literal(neg, ip, fp, "e-", Numeral(-(dExp + decimals)))
      else Literal(neg, ip, fp, "", "")
    else if dExp < 0 then
      Literal(neg, digits, "", "e-", Numeral(-dExp))
    else if dExp > 2 then
      Literal(neg, digits, "", "e", Numeral(dExp))
    else
      Literal(neg, digits + Zeros(dExp), "", "", "")
  }

  lemma LayoutIsLiteral(neg: bool, digits: string, dExp: int)
    requires digits != [] && AllDigits(digits)
    ensures var l := LiteralOf(neg, digits, dExp);
      l.neg == neg && l.Valid() && l.Text() == l.Lead() + LayoutText(digits, dExp)
  {
    hide Numeral, LayoutText, LiteralOf, Literal.Valid;
    BodyIsLayout(neg, digits, dExp);
    LayoutIsValid(neg, digits, dExp);
    var l := LiteralOf(neg, digits, dExp);
    assert l.Text() == l.Lead() + (l.ip + l.Behind() + l.mark + l.x);
  }

  lemma LayoutIsValid(neg: bool, digits: string, dExp: int)
    requires digits != [] && AllDigits(digits)
    ensures LiteralOf(neg, digits, dExp).neg == neg && LiteralOf(neg, digits, dExp).Valid()
  {
    hide Numeral;
  }

  lemma BodyIsLayout(neg: bool, digits: string, dExp: int)
    requires digits != []
    ensures var l := LiteralOf(neg, digits, dExp);
      l.ip + l.Behind() + l.mark + l.x == LayoutText(digits, dExp)
  {
    hide Numeral, Zeros;
    var len := |digits|;
    if dExp < 0 && len + dExp > -3 && len <= -dExp {
      assert "0" + ("." + (Zeros(-dExp - len) + digits)) + "" + "" == "0." + Zeros(-dExp - len) + digits;
    } else if dExp < 0 && len > 1 {
      BodyWithPoint(neg, digits, dExp);
    } else if dExp < 0 {
      Exponential(digits, dExp);
      assert digits + "" == digits;
    } else if dExp > 2 {
      assert digits + "" + "e" + Numeral(dExp) == digits + "e" + IntText(dExp);
    } else {
      assert digits + Zeros(dExp) + "" + "" + "" == digits + Zeros(dExp);
    }
  }

  lemma BodyWithPoint(neg: bool, digits: string, dExp: int)
    requires dExp < 0 && |digits| > 1 && (|digits| + dExp <= -3 || |digits| > -dExp)
    ensures var l := LiteralOf(neg, digits, dExp);
      l.ip + l.Behind() + l.mark + l.x == LayoutText(digits, dExp)
  {
    hide Numeral, Zeros, IntText;
    var decimals := Decimals(|digits|, dExp);
    var ip, fp := digits[..|digits| - decimals], digits[|digits| - decimals..];
    if dExp + decimals != 0 {
      Exponential(ip + "." + fp, dExp + decimals);
      assert ip + ("." + fp) == ip + "." + fp;
    } else {
      assert ip + ("." + fp) + "" + "" == ip + "." + fp;
    }
  }

  lemma Exponential(body: string, v: int)
    requires v < 0
    ensures body + "e-" + Numeral(-v) == body + "e" + IntText(v)
  {
    assert "e-" == "e" + "-";
    assert body + ("e" + "-") + Numeral(-v) == body + "e" + ("-" + Numeral(-v));
  }

  lemma NumeralExponent(n: nat)
    requires n < 1000
    ensures ReadExponent(Numeral(n)) == n
  {
    NumeralValue(n);
    ExponentIsValue(Numeral(n));
  }

  /** The places the layout spends on zeros behind the digits. */
  function Padding(dExp: int): nat {
    if 0 < dExp <= 2 then dExp else 0
  }

  lemma LiteralDenotes(neg: bool, digits: string, dExp: int)
    requires digits != [] && -1000 < dExp < 1000
    ensures var l := LiteralOf(neg, digits, dExp);
      && Value(l.Digits()) == Value(digits) * Pow10(Padding(dExp))
      && l.Power() - |l.fp| == dExp - Padding(dExp)
  {
    hide Numeral, Value, ReadExponent;
    var len, l := |digits|, LiteralOf(neg, digits, dExp);
    assert Pow10(0) == 1;
    NoExponentDigits();
    if dExp < 0 && len + dExp > -3 && len <= -dExp {
      assert l.Digits() == Zeros(1 + (-dExp - len)) + digits;
      ValueConcat(Zeros(1 + (-dExp - len)), digits);
      ValueOfZeros(1 + (-dExp - len));
    } else if dExp < 0 && len > 1 {
      var decimals := Decimals(len, dExp);
      assert l.Digits() == digits;
      NumeralExponent(-(dExp + decimals));
    } else if dExp < 0 || dExp > 2 {
      assert l.Digits() == digits;
      NumeralExponent(if dExp < 0 then -dExp else dExp);
    } else {
      assert l.Digits() == digits + Zeros(dExp);
      ValueConcat(digits, Zeros(dExp));
      ValueOfZeros(dExp);
    }
  }

  lemma LiteralIsShort(neg: bool, digits: string, dExp: int)
    requires 1 <= |digits| <= 17 && AllDigits(digits) && -1000 < dExp < 1000
    ensures |LiteralOf(neg, digits, dExp).Text()| <= 24
    ensures Value(LiteralOf(neg, digits, dExp).Digits()) < 10 * SATURATED
  {
    hide LayoutText, LiteralOf, Value, Pow10, Literal.Valid, Literal.Text;
    LayoutIsLiteral(neg, digits, dExp);
    LayoutFits(digits, dExp);
    LiteralDenotes(neg, digits, dExp);
    ValueBound(digits);
    Pow10Grows(|digits|, 17);
    Pow10Grows(Padding(dExp), 2);
    SeventeenAndTwo();
    ProductBound(Value(digits), 100_000_000_000_000_000, Pow10(Padding(dExp)), 100);
  }

  lemma ProductBound(a: nat, b: nat, c: nat, d: nat)
    requires a <= b && c <= d
    ensures a * c <= b * d
  {
    MulMono(c, a, b);
    MulMono(b, c, d);
  }

  lemma SeventeenAndTwo()
    ensures Pow10(17) == 100_000_000_000_000_000 && Pow10(2) == 100
  {
    Pow10Adds(8, 9);
  }

  /** Text followed by anything that cannot continue it is scanned whole, and denotes what was laid out. */
  lemma LayoutScansBack(neg: bool, digits: string, dExp: int, t: string, len: nat)
    requires 1 <= |digits| <= 17 && AllDigits(digits) && -1000 < dExp < 1000
    requires var text := (if neg then "-" else "") + LayoutText(digits, dExp);
      text <= t && |text| <= len && Readable(t, len) && Ends(t[|text|])
    ensures var r, text := ScanText(t, len), (if neg then "-" else "") + LayoutText(digits, dExp);
      && r.Number? && r.end == |text| && r.sign == neg && !r.halfUlp
      && Reading(r) == Multiple(Value(digits), dExp)
  {
    hide ScanText, LayoutText, LiteralOf, Value, ReadExponent, Ends, Pow10, PowR, Multiple,
         Literal.Valid, Literal.Text, Literal.Digits, Literal.Power;
    var l := LiteralOf(neg, digits, dExp);
    LayoutIsLiteral(neg, digits, dExp);
    LiteralIsShort(neg, digits, dExp);
    LiteralDenotes(neg, digits, dExp);
    ShortScansExactly(l, t, len);
    Rescaled(Value(digits), dExp, Padding(dExp));
  }

  /** A number with few digits is scanned without leaving one out. */
  lemma ShortScansExactly(l: Literal, t: string, len: nat)
    requires l.Valid() && Value(l.Digits()) < 10 * SATURATED && |l.Text()| <= 24
    requires l.Text() <= t && |l.Text()| <= len && Readable(t, len) && Ends(t[|l.Text()|])
    ensures var r := ScanText(t, len);
      && r.Number? && r.end == |l.Text()| && r.sign == l.neg && !r.halfUlp
      && r.fraction == Value(l.Digits()) && r.exponent - r.fractionExp == l.Power() - |l.fp|
  {
    hide ScanText, Value, Ends, Stops, Literal.Valid, Literal.Text, Literal.Power;
    EndsStops(l, t[|l.Text()|]);
    ScanLiteral(l, t, len);
    var d := l.Digits();
    AllTaken(d, Taken(d));
    assert d[..|d|] == d;
  }

  lemma Rescaled(v: nat, dExp: int, k: nat)
    ensures (v * Pow10(k)) as real * PowR(10.0, dExp - k) == Multiple(v, dExp)
  {
    hide PowR, Pow10;
    PowRAdds(10.0, k, dExp - k);
    PowRIsPow10(k);
    ProductAsReal(v, Pow10(k));
    Associate(v as real, Pow10(k) as real, PowR(10.0, dExp - k));
  }

  lemma Associate(a: real, b: real, c: real)
    ensures a * b * c == a * (b * c)
  {
  }

  // ----- Reading the double back -----------------------------------------------------------

  /** Nearer to the double u than to any other: every correctly rounding reader chooses u. */
  ghost predicate ReadsAs(x: real, u: nat)
    requires u < INFINITY_BITS
  {
    forall other: nat :: other < INFINITY_BITS && other != u ==>
      AbsR(x - DoubleValue(u)) < AbsR(x - DoubleValue(other))
  }

  lemma ShortestReadsBack(u: nat, digits: string, dExp: int)
    requires 0 < u < INFINITY_BITS && ShortestDigits(u, digits, dExp, true)
    ensures ReadsAs(Multiple(Value(digits), dExp), u)
  {
    hide DoubleValue, ValueOf, LowerBoundary, UpperBoundary, NoneFits, ClosestAtItsLength, Multiple, Value;
    var x := Multiple(Value(digits), dExp);
    forall other: nat | other < INFINITY_BITS && other != u
      ensures AbsR(x - DoubleValue(u)) < AbsR(x - DoubleValue(other))
    {
      BetweenBoundariesIsNearest(u, other, x);
    }
  }

  // ----- The printer ---------------------------------------------------------------------------

  const SIGN_BIT := TWO63

  /** The bits of a double without its sign. */
  function Magnitude(bits: nat): nat { bits % SIGN_BIT }

  function IsNegative(bits: nat): bool { bits >= SIGN_BIT }

  function Sign(bits: nat): string { if IsNegative(bits) then "-" else "" }

  function HexDigit(d: nat): (c: char)
    requires d < 16
    ensures c as int < 128
  {
    "0123456789ABCDEF"[d]
  }

  /** The last n hexadecimal digits of v. */
  function HexText(v: nat, n: nat): (s: string)
    ensures |s| == n && forall i :: 0 <= i < n ==> s[i] as int < 128
  {
    if n == 0 then [] else HexText(v / 16, n - 1) + [HexDigit(v % 16)]
  }

  /** Read as a hexadecimal number, the digits are the number they were made from. */
  lemma {:induction false} HexTextReads(v: nat, n: nat)
    requires v < Pow16(n)
    ensures AllHex(HexText(v, n)) && HexValue(HexText(v, n)) == v
    ensures forall i :: 0 <= i < n ==> !('a' <= HexText(v, n)[i] <= 'f')
  {
    if n > 0 {
      hide IsHex, HexOf, HexDigit;
      HexTextReads(v / 16, n - 1);
      HexDigitReads(v % 16);
      assert HexText(v, n)[..n - 1] == HexText(v / 16, n - 1);
      assert v / 16 * 16 + v % 16 == v;
    }
  }

  lemma HexDigitReads(d: nat)
    requires d < 16
    ensures IsHex(HexDigit(d)) && HexOf(HexDigit(d)) == d && !('a' <= HexDigit(d) <= 'f')
  {
    match d
    case 0 => case 1 => case 2 => case 3 => case 4 => case 5 => case 6 => case 7 =>
    case 8 => case 9 => case 10 => case 11 => case 12 => case 13 => case 14 => case 15 =>
  }

  /** Behind 0x they parse as an integer of 64 bits: those of the number that was no number. */
  lemma NanBitsParse(bits: nat)
    requires bits < TWO64
    ensures ParseHexUint64("0x" + HexText(bits, 16), 18) == Parsed(At(18), UNSIGNED, Stored(bits))
  {
    hide HexText, HexValue, AllHex, ParseHex.ParseHex, IsHex;
    var h := HexText(bits, 16);
    var t := "0x" + h;
    SixteenDigits();
    HexTextReads(bits, 16);
    HexIsBytes(h);
    assert t[2..18] == h;
    assert StartsWithHex(t, 18, false, h);
    HexIsExact(t, 18, false, h);
  }

  lemma SixteenDigits()
    ensures Pow16(16) == TWO64
  {
    assert Pow16(8) == TWO32;
  }

  lemma HexIsBytes(h: string)
    requires AllHex(h)
    ensures IsBytes("0x" + h)
  {
  }

  method PrintNan(bits: nat, dst: array<char>) returns (n: nat)
    requires dst.Length >= 30
    modifies dst
    ensures n == 21 && dst[..n] == "NaN(" + HexText(bits, 16) + ")" && dst[n] == '\0'
  {
    dst[0], dst[1], dst[2], dst[3] := 'N', 'a', 'N', '(';
    dst[20], dst[21] := ')', '\0';
    var v, i := bits, 15;
    while i >= 0
      invariant -1 <= i <= 15
      invariant dst[..4] == "NaN(" && dst[20] == ')' && dst[21] == '\0'
      invariant HexText(bits, 16) == HexText(v, i + 1) + dst[5 + i..20]
    {
      ghost var tail := dst[5 + i..20];
      dst[4 + i] := HexDigit(v % 16);
      assert dst[4 + i..20] == [HexDigit(v % 16)] + tail;
      v := v / 16;
      i := i - 1;
    }
    assert dst[4..20] == HexText(bits, 16);
    assert dst[..21] == dst[..4] + dst[4..20] + [dst[20]];
    n := 21;
  }

  /** What has been printed: characters up to n, then the terminator. */
  ghost predicate Printed(dst: array<char>, n: nat, text: string)
    reads dst
  {
    n < dst.Length && dst[..n] == text && dst[n] == '\0'
  }

  /** A finite double as text: scanned whole, with its sign, and read back as itself. */
  ghost predicate RoundTrips(t: string, n: nat, bits: nat)
    requires n < |t| && t[n] == '\0' && bits < TWO64
    requires 0 < Magnitude(bits) < INFINITY_BITS
  {
    var r := ScanText(t, n);
    && r.Number? && r.end == n && r.sign == IsNegative(bits) && !r.halfUlp
    && ReadsAs(Reading(r), Magnitude(bits))
  }

  /** Where some decimal is clear for the double, exactly that is printed, without falling back. */
  ghost predicate PrintsClear(t: string, n: nat, bits: nat, fallback: bool)
    requires 0 < Magnitude(bits) < INFINITY_BITS
  {
    forall m: nat, place: int :: Clear(Magnitude(bits), m, place) ==>
      !fallback && n <= |t| && t[..n] == Sign(bits) + LayoutText(Numeral(m), place)
  }

  lemma NothingClear(t: string, bits: nat, digits: string, dExp: int)
    requires 0 < Magnitude(bits) < INFINITY_BITS && FindsClear(Magnitude(bits), digits, dExp, false)
    ensures PrintsClear(t, 0, bits, true)
  {
    hide Clear;
  }

  lemma ClearIsPrinted(t: string, n: nat, bits: nat, digits: string, dExp: int)
    requires 0 < Magnitude(bits) < INFINITY_BITS && FindsClear(Magnitude(bits), digits, dExp, true)
    requires digits != [] && AllDigits(digits) && digits[0] != '0'
    requires n <= |t| && t[..n] == Sign(bits) + LayoutText(digits, dExp)
    ensures PrintsClear(t, n, bits, false)
  {
    hide Clear, LayoutText, Value, Numeral;
    CanonicalNumeral(digits);
  }

  const ONE_TENTH := 0x3FB999999999999A

  /** The double nearest to one tenth, half a unit of its last place, and its boundaries. */
  lemma OneTenth()
    ensures DoubleValue(ONE_TENTH) == 14411518807585588.0 / 144115188075855872.0
    ensures ValueOf(LowerBoundary(ONE_TENTH)) == 14411518807585587.0 / 144115188075855872.0
    ensures ValueOf(UpperBoundary(ONE_TENTH)) == 14411518807585589.0 / 144115188075855872.0
  {
    assert FromBits(ONE_TENTH) == DiyFp(0x1999999999999A, -56);
    assert !LowerBoundaryIsCloser(ONE_TENTH);
    hide PowR;
    Pow57();
    PowRSucc(2.0, -57);
  }

  lemma Pow57()
    ensures PowR(2.0, -57) == 1.0 / 144115188075855872.0
  {
    hide PowR;
    InverseR(2.0, 57);
    PowRIsPow2(57);
    Pow2Literals();
    Pow2Adds(32, 25);
  }

  lemma NearOneTenth(x: real)
    requires Near(ONE_TENTH, x)
    ensures 0.09 < x < 0.11
  {
    hide ValueOf, DoubleValue, LowerBoundary, UpperBoundary;
    OneTenth();
  }

  lemma OneTenthIsInside()
    ensures ValueOf(LowerBoundary(ONE_TENTH)) + 4.0 * Grain(ONE_TENTH) <= 0.1
    ensures 0.1 <= ValueOf(UpperBoundary(ONE_TENTH)) - 2.0 * Grain(ONE_TENTH)
  {
    hide ValueOf, DoubleValue, LowerBoundary, UpperBoundary;
    OneTenth();
  }

  /** One tenth is clear for it, and so printed as 0.1. */
  lemma OneTenthIsClear()
    ensures Clear(ONE_TENTH, 1, -1) && Sign(ONE_TENTH) + LayoutText(Numeral(1), -1) == "0.1"
  {
    hide ValueOf, DoubleValue, LowerBoundary, UpperBoundary, Grain, Near, AbsR, LayoutText;
    OneTenthIsInside();
    forall n: int | Near(ONE_TENTH, Multiple(n, -1)) ensures n == 1 {
      NearOneTenth(Multiple(n, -1));
      Tenths(n);
    }
    forall n: int ensures !Near(ONE_TENTH, Multiple(n, 0)) {
      if Near(ONE_TENTH, Multiple(n, 0)) {
        NearOneTenth(Multiple(n, 0));
        Tenths(n);
      }
    }
    Tenths(1);
    TenthText();
  }

  lemma Tenths(n: int)
    ensures Multiple(n, -1) == n as real * 0.1 && Multiple(n, 0) == n as real
  {
    assert PowR(10.0, 0) == 1.0 && PowR(10.0, -1) == 0.1;
  }

  lemma TenthText()
    ensures Sign(ONE_TENTH) + LayoutText(Numeral(1), -1) == "0.1"
  {
    assert Numeral(1) == "1";
  }

  method CopyDigits(dst: array<char>, at: nat, digits: array<char>, len: nat)
    requires at + len <= dst.Length && len <= digits.Length && dst != digits
    modifies dst
    ensures dst[..at] == old(dst[..at]) && dst[at..at + len] == digits[..len]
  {
    var i := 0;
    while i < len
      invariant 0 <= i <= len
      invariant dst[..at] == old(dst[..at])
      invariant forall k :: 0 <= k < i ==> dst[at + k] == digits[k]
    {
      dst[at + i] := digits[i];
      i := i + 1;
    }
  }

  /** The digits behind the sign: generated, then laid out in place. */
  method PrintDigits(u: nat, dst: array<char>, s2: nat, ghost bits: nat) returns (n: nat, fallback: bool)
    requires bits < TWO64 && u == Magnitude(bits) && 0 < u < INFINITY_BITS
    requires 30 <= dst.Length && s2 <= 1 && dst[..s2] == Sign(bits)
    modifies dst
    ensures !fallback ==> n <= 24 && dst[n] == '\0' && RoundTrips(dst[..], n, bits)
    ensures PrintsClear(dst[..], n, bits, fallback)
  {
    hide LayoutText, NoneFits, Grisu.Between, ClosestAtItsLength, RoundTrips, Clear, PrintsClear, FindsClear;
    var buffer := new char[20];
    var ok, len, dExp := Grisu3(u, buffer);
    if !ok {
      NothingClear(dst[..], bits, buffer[..len], dExp);
      return 0, true;
    }
    ghost var digits := buffer[..len];
    CopyDigits(dst, s2, buffer, len);
    n := Layout(dst, s2, len, dExp);
    assert dst[..n] == dst[..s2] + dst[s2..n];
    LayoutFits(digits, dExp);
    PrintedRoundTrips(dst[..], n, bits, digits, dExp);
    ClearIsPrinted(dst[..], n, bits, digits, dExp);
    fallback := false;
  }

  /**
   `grisu3_print_double`. The answer is None where the code falls back to
   sprintf, which is not part of this model.
   */
  method PrintDouble(bits: nat, dst: array<char>) returns (n: nat, fallback: bool)
    requires bits < TWO64 && 30 <= dst.Length
    modifies dst
    ensures !fallback ==> n < dst.Length && dst[n] == '\0'
    ensures Magnitude(bits) > INFINITY_BITS ==> !fallback && Printed(dst, n, "NaN(" + HexText(bits, 16) + ")")
    ensures Magnitude(bits) == INFINITY_BITS ==> !fallback && Printed(dst, n, Sign(bits) + "inf")
    ensures Magnitude(bits) == 0 ==> !fallback && Printed(dst, n, Sign(bits) + "0")
    ensures 0 < Magnitude(bits) < INFINITY_BITS && !fallback ==> n <= 24 && RoundTrips(dst[..], n, bits)
    ensures 0 < Magnitude(bits) < INFINITY_BITS ==> PrintsClear(dst[..], n, bits, fallback)
  {
    hide RoundTrips, HexText, PrintsClear;
    n, fallback := 0, false;
    if U64(2 * bits) > 0xFFE0000000000000 {
      n := PrintNan(bits, dst);
      return;
    }
    var s2, u := 0, bits;
    if u >= SIGN_BIT {
      dst[s2] := '-';
      s2 := s2 + 1;
      u := u - SIGN_BIT;
    }
    assert dst[..s2] == Sign(bits);
    if u == 0 {
      dst[s2], dst[s2 + 1] := '0', '\0';
      n := s2 + 1;
      assert dst[..n] == dst[..s2] + ['0'];
      return;
    }
    if u == INFINITY_BITS {
      dst[s2], dst[s2 + 1], dst[s2 + 2], dst[s2 + 3] := 'i', 'n', 'f', '\0';
      n := s2 + 3;
      assert dst[..n] == dst[..s2] + ['i', 'n', 'f'];
      return;
    }
    n, fallback := PrintDigits(u, dst, s2, bits);
  }

  lemma PrintedRoundTrips(t: string, n: nat, bits: nat, digits: string, dExp: int)
    requires bits < TWO64 && 0 < Magnitude(bits) < INFINITY_BITS && -1000 < dExp < 1000
    requires ShortestDigits(Magnitude(bits), digits, dExp, true)
    requires n < |t| && t[n] == '\0' && t[..n] == Sign(bits) + LayoutText(digits, dExp)
    ensures n <= 24 && RoundTrips(t, n, bits)
  {
    hide LayoutText, NoneFits, Grisu.Between, ClosestAtItsLength, ReadsAs, ScanText;
    LayoutFits(digits, dExp);
    LayoutScansBack(IsNegative(bits), digits, dExp, t, n);
    ShortestReadsBack(Magnitude(bits), digits, dExp);
  }
}
