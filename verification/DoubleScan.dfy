/**
 The scanner of `grisu3_parse_double` (grisu3_parse.h): from text to sign,
 64-bit fraction, decimal exponent and fraction exponent. The number denoted is
 fraction * 10^(exponent - fractionExp); turning it into a double is not part
 of this model.
 */
module DoubleScan {
  import opened Arith
  import opened Decimal

  /** UINT64_MAX / 10: from here on the fraction takes no further digit. */
  const SATURATED := 1844674407370955161
  const NUM_MAX_LEN := 1000

  /** NotANumber leaves the input alone; Malformed started as a number but is not one. */
  datatype Scan =
    | NotANumber
    | Malformed
    | Number(end: nat, sign: bool, fraction: nat, exponent: int, fractionExp: nat, halfUlp: bool)

  /** The variables of the scanner between two of its stages. */
  datatype Stage = Stage(pos: nat, fraction: nat, exponent: int, fractionExp: nat, halfUlp: bool)

  datatype Step = Stop(result: Scan) | Go(stage: Stage)

  predicate IsX(c: char) { c == 'x' || c == 'X' }

  predicate IsE(c: char) { c == 'e' || c == 'E' }

  predicate IsNonzeroDigit(c: char) { '1' <= c <= '9' }

  function RoundUp(c: char): (r: nat)
    ensures r <= 1
  {
    if c >= '5' then 1 else 0
  }

  // ----- The loops, as functions ---------------------------------------------------

  function SkipZeros(t: string, i: nat, end: nat): (j: nat)
    requires i <= end <= |t|
    ensures i <= j <= end
    decreases end - i
  {
    if i < end && t[i] == '0' then SkipZeros(t, i + 1, end) else i
  }

  function SkipDigits(t: string, i: nat, end: nat): (j: nat)
    requires i <= end <= |t|
    ensures i <= j <= end
    decreases end - i
  {
    if i < end && IsDigit(t[i]) then SkipDigits(t, i + 1, end) else i
  }

  /** Where accumulation stops, the fraction there, and whether it stopped because it was full. */
  function Accumulate(t: string, i: nat, end: nat, f: nat): (r: (nat, nat, bool))
    requires i <= end <= |t|
    ensures i <= r.0 <= end && (r.2 ==> r.0 < end)
    decreases end - i
  {
    if i < end && IsDigit(t[i]) then
      if f >= SATURATED then (i, f, true) else Accumulate(t, i + 1, end, U64(f * 10 + DigitOf(t[i])))
    else (i, f, false)
  }

  function AccumulateExponent(t: string, i: nat, end: nat, ee: int): (r: (nat, int))
    requires i <= end <= |t|
    ensures i <= r.0 <= end
    decreases end - i
  {
    if i < end && IsDigit(t[i]) then AccumulateExponent(t, i + 1, end, NextExponent(ee, t[i])) else (i, ee)
  }

  function NextExponent(ee: int, c: char): int {
    if ee <= 0x7fff then ee * 10 + DigitOf(c) else ee
  }

  /** Past the zeros, are there digits that count for nothing but their place? */
  predicate Surplus(t: string, z: nat, end: nat)
    requires z <= end <= |t|
  {
    z < end && IsNonzeroDigit(t[z])
  }

  function AfterSurplus(t: string, z: nat, end: nat): (pos: nat)
    requires z <= end <= |t|
    ensures z <= pos <= end
  {
    if Surplus(t, z, end) then SkipDigits(t, z + 1, end) else z
  }

  // ----- The stages, as functions --------------------------------------------------

  function IntegerDigits(t: string, k: nat, end: nat, f: nat): (s: Stage)
    requires k <= end <= |t|
    ensures k <= s.pos <= end
  {
    var (b, f1, full) := Accumulate(t, k, end, f);
    var f2 := if full then U64(f1 + RoundUp(t[b])) else f1;
    var z := SkipZeros(t, b, end);
    var pos := AfterSurplus(t, z, end);
    Stage(pos, f2, pos - b, b - k, full || Surplus(t, z, end))
  }

  function IntegerPart(t: string, p: nat, end: nat, sign: bool): (r: Step)
    requires p < end <= |t|
    ensures r.Go? ==> p < r.stage.pos <= end
  {
    if t[p] == '0' then
      if p + 1 < end && IsX(t[p + 1]) then Stop(NotANumber)
      else Go(IntegerDigits(t, SkipZeros(t, p + 1, end), end, 0))
    else if !IsNonzeroDigit(t[p]) then Stop(if sign then Malformed else NotANumber)
    else Go(IntegerDigits(t, p + 1, end, DigitOf(t[p])))
  }

  predicate PointReadable(t: string, end: nat, pos: nat) {
    pos <= end <= |t| && (pos < end && t[pos] == '.' ==> pos + 1 < |t|)
  }

  function FractionPart(t: string, end: nat, s: Stage): (r: Step)
    requires PointReadable(t, end, s.pos)
    ensures r.Go? ==> s.pos <= r.stage.pos <= end
  {
    if s.pos < end && t[s.pos] == '.' then
      var k := s.pos + 1;
      if !IsDigit(t[k]) then Stop(Malformed)
      else
        var (b, f1, full) := Accumulate(t, k, end, s.fraction);
        var f2 := if full && !s.halfUlp then U64(f1 + RoundUp(t[b])) else f1;
        var z := SkipZeros(t, b, end);
        var exponent, fractionExp := s.exponent - (b - k) + (z - b), s.fractionExp + (b - k);
        Go(Stage(AfterSurplus(t, z, end), f2, exponent, fractionExp, s.halfUlp || full || Surplus(t, z, end)))
    else Go(s)
  }

  /** Position after the exponent part and the exponent itself, or nothing when it is malformed. */
  datatype Exponent = BadExponent | Exponent(pos: nat, value: int)

  function ExponentPart(t: string, end: nat, pos: nat): Exponent
    requires pos <= end <= |t|
  {
    if pos < end && IsE(t[pos]) then
      if end - pos < 2 then BadExponent
      else
        var signed := t[pos + 1] == '+' || t[pos + 1] == '-';
        var q := if signed then pos + 2 else pos + 1;
        if q == end || !IsDigit(t[q]) then BadExponent
        else
          var (b, ee) := AccumulateExponent(t, q + 1, end, DigitOf(t[q]));
          Exponent(b, if t[pos + 1] == '-' then -ee else ee)
    else Exponent(pos, 0)
  }

  function End(len: nat): nat {
    if len > NUM_MAX_LEN then NUM_MAX_LEN + 1 else len + 1
  }

  /** What the interface asks of its caller: one readable character more, and it is no point. */
  predicate Readable(t: string, len: nat) {
    len < |t| && (len <= NUM_MAX_LEN ==> t[len] != '.')
  }

  /** The whole scan of len characters. */
  function ScanText(t: string, len: nat): Scan
    requires Readable(t, len)
  {
    var end, sign := End(len), t[0] == '-';
    var p := if sign then 1 else 0;
    if p == end then Malformed
    else
      match IntegerPart(t, p, end, sign)
      case Stop(r) => r
      case Go(s1) =>
        match FractionPart(t, end, s1)
        case Stop(r) => r
        case Go(s) => Finish(t, end, sign, s)
  }

  function Finish(t: string, end: nat, sign: bool, s: Stage): Scan
    requires s.pos <= end <= |t|
  {
    match ExponentPart(t, end, s.pos)
    case BadExponent => Malformed
    case Exponent(b, ee) =>
      if b == end then Malformed
      else Number(b, sign, s.fraction, s.exponent + s.fractionExp + ee, s.fractionExp, s.halfUlp)
  }

  // ----- The same, in place ----------------------------------------------------------

  method PassZeros(t: string, from: nat, end: nat, e: int) returns (pos: nat, exponent: int)
    requires from <= end <= |t|
    ensures pos == SkipZeros(t, from, end) && exponent == e + (pos - from)
  {
    pos, exponent := from, e;
    while pos != end && t[pos] == '0'
      invariant from <= pos <= end && exponent == e + (pos - from)
      invariant SkipZeros(t, from, end) == SkipZeros(t, pos, end)
      decreases end - pos
    {
      exponent := exponent + 1;
      pos := pos + 1;
    }
  }

  method PassDigits(t: string, from: nat, end: nat, e: int) returns (pos: nat, exponent: int)
    requires from <= end <= |t|
    ensures pos == SkipDigits(t, from, end) && exponent == e + (pos - from)
  {
    pos, exponent := from, e;
    while pos != end && IsDigit(t[pos])
      invariant from <= pos <= end && exponent == e + (pos - from)
      invariant SkipDigits(t, from, end) == SkipDigits(t, pos, end)
      decreases end - pos
    {
      exponent := exponent + 1;
      pos := pos + 1;
    }
  }

  method ScanInteger(t: string, k: nat, end: nat, f: nat) returns (s: Stage)
    requires k <= end <= |t|
    ensures s == IntegerDigits(t, k, end, f)
  {
    var pos: nat, fraction: nat, exponent, halfUlp := k, f, 0, false;
    while pos != end && IsDigit(t[pos])
      invariant k <= pos <= end && !halfUlp
      invariant Accumulate(t, k, end, f) == Accumulate(t, pos, end, fraction)
      decreases end - pos
    {
      if fraction >= SATURATED {
        fraction := U64(fraction + RoundUp(t[pos]));
        halfUlp := true;
        break;
      }
      fraction := U64(fraction * 10 + DigitOf(t[pos]));
      pos := pos + 1;
    }
    var fractionExp := pos - k;
    pos, exponent := PassZeros(t, pos, end, exponent);
    if pos != end && IsNonzeroDigit(t[pos]) {
      halfUlp := true;
      pos, exponent := PassDigits(t, pos + 1, end, exponent + 1);
    }
    s := Stage(pos, fraction, exponent, fractionExp, halfUlp);
  }

  method ScanFraction(t: string, end: nat, s: Stage) returns (r: Step)
    requires PointReadable(t, end, s.pos)
    ensures r == FractionPart(t, end, s)
  {
    if s.pos == end || t[s.pos] != '.' {
      return Go(s);
    }
    var k := s.pos + 1;
    if !IsDigit(t[k]) {
      return Stop(Malformed);
    }
    var pos: nat, fraction: nat, exponent, halfUlp := k, s.fraction, s.exponent, s.halfUlp;
    ghost var full := false;
    while pos != end && IsDigit(t[pos])
      invariant k <= pos <= end && halfUlp == s.halfUlp && !full
      invariant exponent == s.exponent - (pos - k)
      invariant Accumulate(t, k, end, s.fraction) == Accumulate(t, pos, end, fraction)
      decreases end - pos
    {
      if fraction >= SATURATED {
        full := true;
        if !halfUlp {
          fraction := U64(fraction + RoundUp(t[pos]));
          halfUlp := true;
        }
        break;
      }
      fraction := U64(fraction * 10 + DigitOf(t[pos]));
      pos := pos + 1;
      exponent := exponent - 1;
    }
    var fractionExp := s.fractionExp + (pos - k);
    pos, exponent := PassZeros(t, pos, end, exponent);
    if pos != end && IsNonzeroDigit(t[pos]) {
      halfUlp := true;
      var unused;
      pos, unused := PassDigits(t, pos + 1, end, 0);
    }
    r := Go(Stage(pos, fraction, exponent, fractionExp, halfUlp));
  }

  method ScanExponent(t: string, end: nat, from: nat) returns (r: Exponent)
    requires from <= end <= |t|
    ensures r == ExponentPart(t, end, from)
  {
    var pos, ee, esign := from, 0, false;
    if pos != end && IsE(t[pos]) {
      if end - pos < 2 {
        return BadExponent;
      }
      pos := pos + 1;
      if t[pos] == '+' {
        pos := pos + 1;
        if pos == end {
          return BadExponent;
        }
      } else if t[pos] == '-' {
        esign := true;
        pos := pos + 1;
        if pos == end {
          return BadExponent;
        }
      }
      if !IsDigit(t[pos]) {
        return BadExponent;
      }
      ee := DigitOf(t[pos]);
      pos := pos + 1;
      ghost var q, e0 := pos, ee;
      while pos != end && IsDigit(t[pos])
        invariant q <= pos <= end && 0 <= ee
        invariant AccumulateExponent(t, q, end, e0) == AccumulateExponent(t, pos, end, ee)
        decreases end - pos
      {
        if ee <= 0x7fff {
          ee := ee * 10 + DigitOf(t[pos]);
        }
        pos := pos + 1;
      }
    }
    r := Exponent(pos, if esign then -ee else ee);
  }

  /** `grisu3_parse_double` up to the call that turns the decimal into a double. */
  method ParseDouble(t: string, len: nat) returns (r: Scan)
    requires Readable(t, len)
    ensures r == ScanText(t, len)
  {
    hide IntegerDigits, FractionPart, ExponentPart, SkipZeros;
    var end := End(len);
    var buf, sign := 0, false;
    if t[buf] == '-' {
      buf := buf + 1;
      sign := true;
      if buf == end {
        return Malformed;
      }
    }
    var s;
    if t[buf] == '0' {
      buf := buf + 1;
      if buf != end && IsX(t[buf]) {
        return NotANumber;
      }
      var unused;
      buf, unused := PassZeros(t, buf, end, 0);
      s := ScanInteger(t, buf, end, 0);
    } else {
      if !IsNonzeroDigit(t[buf]) {
        return if sign then Malformed else NotANumber;
      }
      s := ScanInteger(t, buf + 1, end, DigitOf(t[buf]));
    }
    var step := ScanFraction(t, end, s);
    if step.Stop? {
      return step.result;
    }
    s := step.stage;
    var e := ScanExponent(t, end, s.pos);
    if e.BadExponent? || e.pos == end {
      return Malformed;
    }
    r := Number(e.pos, sign, s.fraction, s.exponent + s.fractionExp + e.value, s.fractionExp, s.halfUlp);
  }
}
