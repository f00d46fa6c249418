/**
 Digit generation and weeding of the Grisu3 algorithm (grisu3_print.h).

 The three inputs are approximations, each off by less than one unit, of the
 lower boundary, the value and the upper boundary of a double, all scaled by
 the same power of two. Generation emits the digits of the upper end of the
 widest interval the boundaries may span, stops as soon as the remainder falls
 inside that interval, and weeding then walks the last digit down towards the
 value.
 */
module DigitGens {
  import opened Arith
  import opened Decimal
  import opened DiyFps

  function Abs(x: int): nat {
    if x < 0 then -x else x
  }

  // ----- What the result means -------------------------------------------------

  /** A decimal D * 10^kappa is compared at scale `Unit`, where one step is `Step`. */
  function Unit(kappa: int): (u: nat)
    ensures u >= 1
  {
    if kappa < 0 then Pow10(-kappa) else 1
  }

  function Step(kappa: int, one: nat): nat
  {
    if kappa > 0 then Pow10(kappa) * one else one
  }

  /** The multiple m of t lies in the closed interval. */
  ghost predicate Candidate(m: int, t: int, lo: int, hi: int)
  {
    lo <= m * t <= hi
  }

  /** No multiple of t inside the interval is nearer to x than d * t is. */
  ghost predicate Nearest(d: int, t: int, lo: int, hi: int, x: int)
  {
    forall m :: Candidate(m, t, lo, hi) ==> Abs(d * t - x) <= Abs(m * t - x)
  }

  /** No multiple of t lies above lo and not above hi. */
  ghost predicate NoMultiple(t: int, lo: int, hi: int)
  {
    forall m :: Candidate(m, t, lo, hi) ==> m * t == lo
  }

  ghost predicate ReadyForDigits(low: DiyFp, w: DiyFp, high: DiyFp)
  {
    && -60 <= w.e <= -32 && low.e == w.e == high.e
    && 0 < low.f < w.f < high.f < TWO64 - 1 && TWO62 <= high.f
  }

  // ----- Weeding -----------------------------------------------------------------

  /** Distances below the top of the interval: step i away from rest. */
  ghost predicate Reachable(i: int, rest: int, t: int, delta: int)
  {
    0 <= rest + i * t <= delta
  }

  ghost predicate NearestBelow(rest: int, t: int, delta: int, x: int)
  {
    forall i :: Reachable(i, rest, t, delta) ==> Abs(rest - x) <= Abs(rest + i * t - x)
  }

  /** Comparing with the two neighbours is enough. */
  lemma NeighboursSuffice(rest: int, t: int, delta: int, x: int)
    requires t > 0
    requires rest + t <= delta ==> Abs(rest - x) <= Abs(rest + t - x)
    requires 0 <= rest - t ==> Abs(rest - x) <= Abs(rest - t - x)
    ensures NearestBelow(rest, t, delta, x)
  {
    forall i | Reachable(i, rest, t, delta)
      ensures Abs(rest - x) <= Abs(rest + i * t - x)
    {
      if i >= 1 {
        MulMono(t, 1, i);
      } else if i <= -1 {
        MulMono(t, i, -1);
      }
    }
  }

  /** The loop condition of weeding, in uint64 arithmetic. */
  predicate StepIsCloser(rest: nat, t: nat, delta: nat, up: nat)
  {
    && rest < up && U64(delta - rest) >= t
    && (U64(rest + t) < up || U64(up - rest) >= U64(U64(rest + t) - up))
  }

  /** The rejection test after the loop, in uint64 arithmetic. */
  predicate StepIsStrictlyCloser(rest: nat, t: nat, delta: nat, down: nat)
  {
    && rest < down && U64(delta - rest) >= t
    && (U64(rest + t) < down || U64(down - rest) > U64(U64(rest + t) - down))
  }

  /** Neither test wraps; they compare the distances from one step to the next. */
  lemma TestsCompareDistances(rest: nat, t: nat, delta: nat, x: nat)
    requires rest <= delta < TWO64 && 0 < t < TWO64 && x <= delta
    ensures StepIsCloser(rest, t, delta, x)
       <==> rest < x && rest + t <= delta && Abs(rest + t - x) <= Abs(rest - x)
    ensures StepIsStrictlyCloser(rest, t, delta, x)
       <==> rest + t <= delta && Abs(rest + t - x) < Abs(rest - x)
  {
    Word(delta - rest);
    if rest + t <= delta {
      Word(rest + t);
      if rest < x {
        Word(x - rest);
        if x <= rest + t {
          Word(rest + t - x);
        }
      }
    }
  }

  /** The walk ends before the digit would drop below '0'. */
  lemma StepsStayAboveZero(rest0: nat, t: nat, digit: nat, j: nat, delta: nat)
    requires rest0 + digit * t >= delta && rest0 + j * t + t <= delta && t > 0
    ensures j < digit && rest0 + (j + 1) * t == rest0 + j * t + t
  {
    if digit <= j {
      MulMono(t, digit, j);
    }
  }

  /** The final test: well inside the interval, in uint64 arithmetic. */
  predicate WellInside(rest: nat, delta: nat, ulp: nat)
  {
    U64(2 * ulp) <= rest && rest <= U64(delta - U64(4 * ulp))
  }

  /** Safely inside, and nearest whether the value is one unit too high or one too low. */
  ghost predicate SafeAndNearest(rest: nat, t: nat, delta: nat, wpW: nat, ulp: nat)
  {
    && 2 * ulp <= rest <= delta - 4 * ulp
    && NearestBelow(rest, t, delta, wpW - ulp) && NearestBelow(rest, t, delta, wpW + ulp)
  }

  /** When the walk has ended, the two remaining tests decide the verdict. */
  lemma WalkEnds(rest: nat, t: nat, delta: nat, wpW: nat, ulp: nat)
    requires 0 < ulp <= wpW && wpW + ulp <= delta < TWO64 && 4 * ulp <= delta
    requires rest <= delta && 0 < t < TWO64
    requires !StepIsCloser(rest, t, delta, wpW - ulp)
    requires ClosestSoFar(rest, t, wpW - ulp)
    ensures SafeAndNearest(rest, t, delta, wpW, ulp)
       <==> !StepIsStrictlyCloser(rest, t, delta, wpW + ulp) && WellInside(rest, delta, ulp)
    ensures NearestBelow(rest, t, delta, wpW - ulp)
  {
    hide U64, StepIsCloser, StepIsStrictlyCloser, WellInside;
    var up, down := wpW - ulp, wpW + ulp;
    InsideIsInside(rest, delta, ulp);
    TestsCompareDistances(rest, t, delta, up);
    TestsCompareDistances(rest, t, delta, down);
    NeighboursSuffice(rest, t, delta, up);
    if rest + t <= delta && Abs(rest + t - down) < Abs(rest - down) {
      assert Reachable(1, rest, t, delta);
    } else {
      NeighboursSuffice(rest, t, delta, down);
    }
  }

  lemma InsideIsInside(rest: nat, delta: nat, ulp: nat)
    requires 4 * ulp <= delta < TWO64
    ensures WellInside(rest, delta, ulp) <==> 2 * ulp <= rest <= delta - 4 * ulp
  {
    Word(2 * ulp);
    Word(4 * ulp);
    Word(delta - 4 * ulp);
  }

  /** The step back up is no closer. */
  predicate ClosestSoFar(rest: int, t: int, x: int)
  {
    0 <= rest - t ==> Abs(rest - x) <= Abs(rest - t - x)
  }

  lemma WalkStep(rest0: nat, j: nat, t: nat, digit: nat, rest: nat, delta: nat, up: nat)
    requires rest0 + digit * t >= delta && 0 < t < TWO64 && rest == rest0 + j * t <= delta < TWO64
    requires up <= delta && StepIsCloser(rest, t, delta, up)
    ensures j < digit && U64(rest + t) == rest + t == rest0 + (j + 1) * t <= delta
    ensures ClosestSoFar(rest + t, t, up)
  {
    TestsCompareDistances(rest, t, delta, up);
    StepsStayAboveZero(rest0, t, digit, j, delta);
    Word(rest + t);
  }

  /**
   What both callers establish: the value lies at least one unit inside the
   interval, the remainder is inside it, and dropping the last digit to 0
   would leave it.
   */
  ghost predicate Weedable(digit: nat, wpW: nat, delta: nat, rest: nat, t: nat, ulp: nat)
  {
    && 0 < ulp <= wpW && wpW + ulp <= delta < TWO64 && 4 * ulp <= delta
    && rest < delta && rest < t < TWO64 && LastDigitLeaves(digit, t, rest, delta)
  }

  /** With the last digit 0, the number would be outside the interval, but within one coarser step. */
  ghost predicate LastDigitLeaves(digit: nat, t: nat, rest: nat, delta: int)
  {
    delta <= rest + digit * t < 10 * t
  }

  /**
   Walks the last digit down while that brings the number closer to the value
   plus one unit, until none is nearer to that; succeeds if and only if the outcome is safely inside the
   interval and is nearest whether the value is one unit too high or too low.
   */
  method RoundWeed(buffer: array<char>, len: nat, wpW: nat, delta: nat, rest0: nat, tenKappa: nat, ulp: nat)
      returns (ok: bool, ghost j: nat, rest: nat)
    requires 1 <= len <= buffer.Length && IsDigit(buffer[len - 1])
    requires Weedable(DigitOf(buffer[len - 1]), wpW, delta, rest0, tenKappa, ulp)
    modifies buffer
    ensures forall i :: 0 <= i < buffer.Length && i != len - 1 ==> buffer[i] == old(buffer[i])
    ensures IsDigit(buffer[len - 1]) && DigitOf(buffer[len - 1]) == DigitOf(old(buffer[len - 1])) - j
    ensures rest == rest0 + j * tenKappa
    ensures rest0 <= rest <= delta
    ensures NearestBelow(rest, tenKappa, delta, wpW - ulp)
    ensures ok <==> SafeAndNearest(rest, tenKappa, delta, wpW, ulp)
  {
    Word(wpW - ulp);
    var up, down := U64(wpW - ulp), U64(wpW + ulp);
    rest := rest0;
    ghost var digit0 := DigitOf(buffer[len - 1]);
    j := 0;
    while StepIsCloser(rest, tenKappa, delta, up)
      invariant 0 <= j <= digit0 && buffer[len - 1] == DigitChar(digit0 - j)
      invariant rest == rest0 + j * tenKappa && rest0 <= rest <= delta
      invariant ClosestSoFar(rest, tenKappa, up)
      invariant forall i :: 0 <= i < buffer.Length && i != len - 1 ==> buffer[i] == old(buffer[i])
      decreases delta - rest
    {
      WalkStep(rest0, j, tenKappa, digit0, rest, delta, up);
      buffer[len - 1] := (buffer[len - 1] as int - 1) as char;
      rest := U64(rest + tenKappa);
      j := j + 1;
    }
    WalkEnds(rest, tenKappa, delta, wpW, ulp);
    Word(wpW + ulp);
    if StepIsStrictlyCloser(rest, tenKappa, delta, down) {
      return false, j, rest;
    }
    ok := WellInside(rest, delta, ulp);
  }

  // ----- Generation --------------------------------------------------------------

  /** D * 10^kappa stays inside the widest and the narrowest interval, and is nearest to the value. */
  ghost predicate SafeAndClosest(low: DiyFp, w: DiyFp, high: DiyFp, d: int, kappa: int)
    requires w.e <= 0
  {
    var u, t := Unit(kappa), Step(kappa, Pow2(-w.e));
    var lo, hi := low.f * u - u, high.f * u + u;
    && lo + 4 * u <= d * t <= hi - 2 * u
    && Nearest(d, t, lo, hi, w.f * u - u) && Nearest(d, t, lo, hi, w.f * u + u)
  }

  /** What digit generation leaves behind, whether it succeeds or not. */
  ghost predicate Generated(low: DiyFp, w: DiyFp, high: DiyFp, digits: string, kappa: int, ok: bool)
    requires w.e <= 0
  {
    var u, t := Unit(kappa), Step(kappa, Pow2(-w.e));
    var lo, hi := low.f * u - u, high.f * u + u;
    && digits != [] && AllDigits(digits)
    && Candidate(Value(digits), t, lo, hi)
    && NoMultiple(10 * t, lo, hi) && Nearest(Value(digits), t, lo, hi, w.f * u + u)
    && (|digits| >= 2 ==> Pow10(|digits| - 2) * (high.f - low.f + 2) < high.f + 1)
    && (ok <==> SafeAndClosest(low, w, high, Value(digits), kappa))
    && (ok ==> digits[0] != '0')
  }

  /** Distances below the top and multiples of the step say the same. */
  lemma NearestEitherWay(d: int, t: int, lo: int, hi: int, rest: int, x: int)
    requires hi == d * t + rest
    ensures NearestBelow(rest, t, hi - lo, x) <==> Nearest(d, t, lo, hi, hi - x)
  {
    if NearestBelow(rest, t, hi - lo, x) {
      forall m | Candidate(m, t, lo, hi)
        ensures Abs(d * t - (hi - x)) <= Abs(m * t - (hi - x))
      {
        assert (d - m) * t == d * t - m * t;
        assert Reachable(d - m, rest, t, hi - lo);
      }
    }
    if Nearest(d, t, lo, hi, hi - x) {
      forall i | Reachable(i, rest, t, hi - lo)
        ensures Abs(rest - x) <= Abs(rest + i * t - x)
      {
        assert (d - i) * t == d * t - i * t;
        assert Candidate(d - i, t, lo, hi);
      }
    }
  }

  /** The remainder before the last digit was still outside: nothing shorter fits. */
  lemma NothingShorter(d: nat, t10: nat, rest: nat, lo: int, hi: int)
    requires hi == d * t10 + rest && hi - lo <= rest < t10
    ensures NoMultiple(t10, lo, hi)
  {
    forall m | Candidate(m, t10, lo, hi)
      ensures m * t10 == lo
    {
      if m <= d {
        MulMono(t10, m, d);
      } else {
        MulMono(t10, d + 1, m);
      }
    }
  }

  lemma ValueOfLast(s: string, t: string, j: nat)
    requires |s| == |t| > 0 && s[..|s| - 1] == t[..|t| - 1]
    requires DigitOf(t[|t| - 1]) == DigitOf(s[|s| - 1]) - j
    ensures Value(t) == Value(s) - j
  {
  }

  /** While the remainder is outside the interval, the digits so far are few. */
  lemma FewDigits(th: nat, u: nat, d: nat, t: nat, rest: nat, delta: nat)
    requires th * u == d * t + rest && delta * u <= rest < t && d > 0 && u > 0
    ensures d * delta < th
  {
    assert d * (delta * u) < d * t by { MulMono(d, delta * u + 1, t); }
    MulSwap(d, delta, u);
    if d * delta >= th {
      MulMono(u, th, d * delta);
    }
  }

  lemma Regroup(d: nat, digit: nat, q: nat, one: nat, div: nat)
    ensures (10 * d + digit) * (div * one) + q * one == d * (10 * div * one) + (digit * div + q) * one
  {
    var t := div * one;
    MulAssoc(10, div, one);
    MulAssoc(digit, div, one);
    assert (10 * d + digit) * t == d * (10 * t) + digit * t;
    assert (digit * div + q) * one == digit * div * one + q * one;
  }

  /** The leading digit of a number below ten times the divisor. */
  lemma QuotientDigit(p1: nat, div: nat)
    requires div > 0 && p1 < 10 * div
    ensures 0 <= p1 / div <= 9 && 0 <= p1 % div < div && p1 == p1 / div * div + p1 % div
    ensures p1 >= div ==> p1 / div >= 1
  {
    DivMod(p1, div);
    var digit := p1 / div;
    if digit >= 10 {
      MulMono(div, 10, digit);
    }
  }

  /** One digit of the integer part. */
  lemma IntegerStep(th: nat, d: nat, p1: nat, p2: nat, one: nat, div: nat)
    requires one > 0 && div > 0 && p1 < 10 * div && p2 < one
    requires th == d * (10 * div * one) + p1 * one + p2
    ensures var digit, q := p1 / div, p1 % div;
      0 <= digit <= 9 && q < div && (p1 >= div ==> digit >= 1)
      && th == (10 * d + digit) * (div * one) + (q * one + p2)
      && 0 <= q * one <= q * one + p2 < div * one
      && q * one + p2 + digit * (div * one) == p1 * one + p2
  {
    var digit, q := p1 / div, p1 % div;
    QuotientDigit(p1, div);
    Regroup(d, digit, q, one, div);
    Regroup(0, digit, q, one, div);
    MulMono(one, q + 1, div);
  }

  /** The verdict of weeding, translated back from distances to multiples of the step. */
  lemma Verdict(before: string, after: string, j: nat, rest0: nat, rest: nat,
                t: nat, lo: int, hi: int, x: int, u: int, ok: bool)
    requires before != [] && AllDigits(before) && before[0] != '0' && |after| == |before|
    requires before[..|before| - 1] == after[..|after| - 1] && IsDigit(after[|after| - 1])
    requires DigitOf(after[|after| - 1]) == DigitOf(before[|before| - 1]) - j
    requires hi == Value(before) * t + rest0 && rest == rest0 + j * t && rest0 <= rest <= hi - lo && t > 0
    requires hi - lo <= rest0 + DigitOf(before[|before| - 1]) * t < 10 * t
    requires 0 <= hi - x - u && 0 <= hi - x && 0 < u && 0 <= lo
    requires NearestBelow(rest, t, hi - lo, hi - x - u) && (ok <==> SafeAndNearest(rest, t, hi - lo, hi - x, u))
    ensures Nearest(Value(after), t, lo, hi, x + u)
    ensures AllDigits(after) && Candidate(Value(after), t, lo, hi) && NoMultiple(10 * t, lo, hi)
    ensures ok <==> (lo + 4 * u <= Value(after) * t <= hi - 2 * u
                     && Nearest(Value(after), t, lo, hi, x - u) && Nearest(Value(after), t, lo, hi, x + u))
    ensures ok ==> after[0] != '0'
  {
    var n, d := |before|, Value(after);
    var top, digit := Value(before[..n - 1]), DigitOf(before[n - 1]);
    ValueOfLast(before, after, j);
    LastDigitOut(top, digit, j, t);
    NothingShorter(top, 10 * t, rest0 + digit * t, lo, hi);
    NearestEitherWay(d, t, lo, hi, rest, hi - x - u);
    NearestEitherWay(d, t, lo, hi, rest, hi - x + u);
    SamePrefixDigits(before, after);
    if ok {
      LeadingDigit(before, after, d, t);
    }
  }

  lemma LastDigitOut(top: nat, digit: nat, j: nat, t: nat)
    ensures (10 * top + digit) * t == top * (10 * t) + digit * t
    ensures (10 * top + digit - j) * t == (10 * top + digit) * t - j * t
  {
  }

  lemma SamePrefixDigits(before: string, after: string)
    requires before != [] && AllDigits(before) && |after| == |before|
    requires before[..|before| - 1] == after[..|after| - 1] && IsDigit(after[|after| - 1])
    ensures AllDigits(after)
  {
    forall i | 0 <= i < |after| ensures IsDigit(after[i]) {
      if i < |after| - 1 {
        assert after[i] == before[..|before| - 1][i];
      }
    }
  }

  lemma LeadingDigit(before: string, after: string, d: nat, t: nat)
    requires before != [] && |after| == |before| && before[..|before| - 1] == after[..|after| - 1]
    requires IsDigit(after[|after| - 1]) && before[0] != '0' && d == Value(after) && d * t > 0
    ensures after[0] != '0'
  {
    if |before| > 1 {
      assert after[0] == before[..|before| - 1][0];
    } else {
      assert after[..0] == [];
    }
  }

  lemma DivBounds(x: nat, m: nat, a: nat, b: nat)
    requires m > 0 && a * m <= x < b * m
    ensures a <= x / m < b
  {
    DivMod(x, m);
    var q := x / m;
    if q < a {
      MulMono(m, q + 1, a);
    }
    if q >= b {
      MulMono(m, b, q);
    }
  }

  /** The integer and the fraction part of the upper end. */
  lemma SplitsInTwo(th: nat, n: nat)
    requires 32 <= n <= 60 && TWO62 <= th < TWO64
    ensures var one := Pow2(n);
      && TWO32 <= one <= TWO60
      && th == th / one * one + th % one && th % one < one
      && Pow2(62 - n) <= th / one < Pow2(64 - n) && th / one < TWO32
  {
    Pow2Literals();
    Pow2Grows(32, n);
    Pow2Grows(n, 60);
    Pow2Grows(64 - n, 32);
    Pow2Adds(62 - n, n);
    Pow2Adds(64 - n, n);
    assert Pow2(62) == TWO62 && Pow2(64) == TWO64 by { Pow2Adds(60, 2); Pow2Adds(60, 4); }
    DivMod(th, Pow2(n));
    DivBounds(th, Pow2(n), Pow2(62 - n), Pow2(64 - n));
  }

  /** While generation goes on, the digits so far count less than the interval is wide. */
  lemma StillShort(digits: string, th: nat, u: nat, t: nat, rest: nat, delta: nat)
    requires digits != [] && IsDigit(digits[0]) && digits[0] != '0'
    requires th * u == Value(digits) * t + rest && delta * u <= rest < t && u > 0
    ensures Pow10(|digits| - 1) * delta < th
  {
    ValueLead(digits);
    FewDigits(th, u, Value(digits), t, rest, delta);
    MulMono(delta, Pow10(|digits| - 1), Value(digits));
  }

  lemma AtMostNineteen(length: nat, th: nat, delta: nat)
    requires length > 0 && Pow10(length - 1) * delta < th < TWO64 && delta >= 4
    ensures length <= 19
  {
    if length > 19 {
      Pow10Literals();
      Pow10Adds(10, 9);
      Pow10Grows(19, length - 1);
      MulMono(Pow10(length - 1), 4, delta);
    }
  }

  lemma Appended(before: string, after: string, c: char)
    requires after == before + [c] && IsDigit(c) && AllDigits(before)
    ensures AllDigits(after) && Value(after) == 10 * Value(before) + DigitOf(c)
    ensures after[..|after| - 1] == before
  {
    ValueSnoc(before, c);
  }

  /** The scaled distances passed to weeding keep their order. */
  lemma ScaledWidths(low: nat, w: nat, high: nat, u: nat)
    requires 0 < low < w < high && u > 0
    ensures (high - low + 2) * u == (high * u + u) - (low * u - u)
    ensures (high + 1 - w) * u == high * u + u - w * u
    ensures u <= (high + 1 - w) * u && (high + 1 - w) * u + u <= (high - low + 2) * u
    ensures 4 * u <= (high - low + 2) * u && 0 <= low * u - u
    ensures (high + 1) * u == high * u + u
  {
    MulMono(u, 1, high + 1 - w);
    MulMono(u, high + 1 - w + 1, high - low + 2);
    MulMono(u, 4, high - low + 2);
    MulMono(u, 1, low);
  }

  // Products of two variables are kept behind these definitions, which the
  // larger proofs hide.

  /** The upper end, split into the digits so far and a remainder. */
  ghost predicate Splits(hi: int, d: nat, t: nat, rest: int)
  {
    hi == d * t + rest
  }

  /** The remainder held in two halves. */
  function Joined(p1: nat, p2: nat, one: nat): nat
  {
    p1 * one + p2
  }

  /** The three inputs at scale u. */
  ghost predicate AtScale(low: DiyFp, w: DiyFp, high: DiyFp, u: nat, lo: int, x: int, hi: int)
  {
    lo == low.f * u - u && x == w.f * u && hi == high.f * u + u
  }

  ghost predicate Short(n: nat, low: DiyFp, high: DiyFp)
  {
    n >= 2 ==> Pow10(n - 2) * (high.f - low.f + 2) < high.f + 1
  }

  /** One digit emitted, remainder inside the interval: what weeding starts from. */
  ghost predicate WeedReady(low: DiyFp, w: DiyFp, high: DiyFp, digits: string, kappa: int,
                            lo: nat, hi: nat, wpW: nat, rest: nat, t: nat, ulp: nat)
    requires w.e <= 0
  {
    && digits != [] && AllDigits(digits) && digits[0] != '0'
    && ulp == Unit(kappa) && t == Step(kappa, Pow2(-w.e)) && 0 < t
    && AtScale(low, w, high, ulp, lo, hi - wpW, hi) && lo <= hi && Splits(hi, Value(digits), t, rest)
    && Weedable(DigitOf(digits[|digits| - 1]), wpW, hi - lo, rest, t, ulp)
    && Short(|digits|, low, high)
  }

  lemma WeedDone(low: DiyFp, w: DiyFp, high: DiyFp, before: string, after: string, kappa: int,
                 lo: nat, hi: nat, wpW: nat, rest0: nat, t: nat, ulp: nat, j: nat, rest: nat, ok: bool)
    requires w.e <= 0 && WeedReady(low, w, high, before, kappa, lo, hi, wpW, rest0, t, ulp)
    requires |after| == |before| && before[..|before| - 1] == after[..|after| - 1]
    requires IsDigit(after[|after| - 1])
    requires DigitOf(after[|after| - 1]) == DigitOf(before[|before| - 1]) - j
    requires rest == rest0 + j * t && rest0 <= rest <= hi - lo
    requires NearestBelow(rest, t, hi - lo, wpW - ulp) && (ok <==> SafeAndNearest(rest, t, hi - lo, wpW, ulp))
    ensures Generated(low, w, high, after, kappa, ok)
  {
    hide NoMultiple, Nearest, Candidate, SafeAndNearest, Pow2, Pow10, Value, AllDigits, Unit, Step;
    Verdict(before, after, j, rest0, rest, t, lo, hi, hi - wpW, ulp, ok);
  }

  /** A call of weeding, with its verdict read back as a statement about the digits. */
  method WeedAndJudge(low: DiyFp, w: DiyFp, high: DiyFp, buffer: array<char>, length: nat, kappa: int,
                      ghost lo: nat, ghost hi: nat, wpW: nat, delta: nat, rest: nat, tenKappa: nat, ulp: nat)
      returns (ok: bool)
    requires w.e <= 0 && 1 <= length <= buffer.Length && lo + delta == hi
    requires WeedReady(low, w, high, buffer[..length], kappa, lo, hi, wpW, rest, tenKappa, ulp)
    modifies buffer
    ensures Generated(low, w, high, buffer[..length], kappa, ok)
    ensures forall i :: length <= i < buffer.Length ==> buffer[i] == old(buffer[i])
  {
    ghost var before := buffer[..length];
    ghost var j;
    var r;
    ok, j, r := RoundWeed(buffer, length, wpW, delta, rest, tenKappa, ulp);
    assert before[..length - 1] == buffer[..length][..length - 1];
    WeedDone(low, w, high, before, buffer[..length], kappa, lo, hi, wpW, rest, tenKappa, ulp, j, r, ok);
  }

  /** Invariant of the first loop: digits so far and the two halves of the remainder. */
  ghost predicate IntegerState(low: DiyFp, high: DiyFp, one: nat, digits: string,
                               p1: nat, p2: nat, kappa: int, div: nat)
  {
    && 0 <= kappa && |digits| + kappa <= 10 && (kappa > 0 ==> div == Pow10(kappa - 1))
    && p1 < Pow10(kappa) && p2 < one && (digits == [] ==> kappa > 0 && p1 >= div)
    && Splits(high.f + 1, Value(digits), Step(kappa, one), Joined(p1, p2, one))
    && high.f - low.f + 2 <= Joined(p1, p2, one)
    && AllDigits(digits) && (digits != [] ==> digits[0] != '0')
  }

  lemma IntegerStart(low: DiyFp, w: DiyFp, high: DiyFp)
    requires ReadyForDigits(low, w, high)
    ensures var one := Pow2(-w.e);
      var p1, p2 := (high.f + 1) / one, (high.f + 1) % one;
      && 0 < one <= TWO60 && p1 < TWO32 && p1 % TWO32 == p1
      && var (kappa, div) := LargestPow10(p1, 64 + w.e);
         1 <= kappa <= 10 && IntegerState(low, high, one, [], p1, p2, kappa, div)
  {
    hide LargestPow10, Splits, Joined, Step, Pow2, IntegerState;
    var one := Pow2(-w.e);
    SplitsInTwo(high.f + 1, -w.e);
    var p1, p2 := (high.f + 1) / one, (high.f + 1) % one;
    LargestPow10IsExact(p1, 64 + w.e);
    NoDigitsYet(low, high, one, p1, p2, LargestPow10(p1, 64 + w.e).0, LargestPow10(p1, 64 + w.e).1);
  }

  lemma NoDigitsYet(low: DiyFp, high: DiyFp, one: nat, p1: nat, p2: nat, kappa: int, div: nat)
    requires 1 <= kappa <= 10 && div == Pow10(kappa - 1) <= p1 < Pow10(kappa) && p2 < one
    requires high.f + 1 == p1 * one + p2 && low.f > 0
    ensures IntegerState(low, high, one, [], p1, p2, kappa, div)
  {
    hide Step, Pow10;
  }

  lemma Shorter(digits: string, low: DiyFp, high: DiyFp, u: nat, t: nat, rest: nat)
    requires u > 0 && low.f < high.f && AllDigits(digits)
    requires digits != [] ==> digits[0] != '0'
    requires Splits((high.f + 1) * u, Value(digits), t, rest) && (high.f - low.f + 2) * u <= rest < t
    ensures Short(|digits| + 1, low, high)
  {
    if digits != [] {
      StillShort(digits, high.f + 1, u, t, rest, high.f - low.f + 2);
    }
  }

  /** One digit of the integer part; no sum wraps. */
  lemma IntegerDigit(th: nat, d: nat, p1: nat, p2: nat, one: nat, kappa: nat, div: nat)
    requires one > 0 && kappa > 0 && div == Pow10(kappa - 1) && p1 < 10 * div && p2 < one && th < TWO64
    requires Splits(th, d, Step(kappa, one), Joined(p1, p2, one)) && (d >= 1 || p1 >= div)
    ensures var digit, q := p1 / div, p1 % div;
      && 0 <= digit <= 9 && 0 <= q < div && (p1 >= div ==> digit >= 1)
      && Splits(th, 10 * d + digit, Step(kappa - 1, one), Joined(q, p2, one))
      && Joined(q, p2, one) < Step(kappa - 1, one) < TWO64
      && LastDigitLeaves(digit, Step(kappa - 1, one), Joined(q, p2, one), Joined(p1, p2, one))
      && U64(U64(q * one) + p2) == Joined(q, p2, one) && U64(div * one) == Step(kappa - 1, one)
      && Joined(p1, p2, one) < Step(kappa, one)
  {
    var digit, q := p1 / div, p1 % div;
    IntegerStep(th, d, p1, p2, one, div);
    IntegerFits(th, 10 * d + digit, q, p2, one, div);
    Leaves(digit, q, p1, p2, one, div);
  }

  lemma Leaves(digit: nat, q: nat, p1: nat, p2: nat, one: nat, div: nat)
    requires p1 < 10 * div && p2 < one && q * one + p2 + digit * (div * one) == p1 * one + p2
    ensures LastDigitLeaves(digit, div * one, Joined(q, p2, one), Joined(p1, p2, one))
    ensures p1 * one + p2 < 10 * div * one
  {
    MulAssoc(10, div, one);
    MulMono(one, p1 + 1, 10 * div);
  }

  lemma IntegerFits(th: nat, v: nat, q: nat, p2: nat, one: nat, div: nat)
    requires th < TWO64 && v >= 1 && th == v * (div * one) + (q * one + p2)
    ensures 0 <= q * one && U64(U64(q * one) + p2) == q * one + p2
    ensures 0 <= div * one && U64(div * one) == div * one < TWO64
  {
    MulMono(div * one, 1, v);
    Word(q * one);
    Word(q * one + p2);
    Word(div * one);
  }

  lemma LeavesSmaller(digit: nat, t: nat, rest: nat, wide: int, delta: int)
    requires LastDigitLeaves(digit, t, rest, wide) && delta <= wide
    ensures LastDigitLeaves(digit, t, rest, delta)
  {
  }

  /** One pass of the first loop, remainder inside the interval: weeding can start. */
  lemma IntegerWeeds(low: DiyFp, w: DiyFp, high: DiyFp, one: nat, digits: string,
                     p1: nat, p2: nat, kappa: int, div: nat, digit: nat, rest: nat)
    requires ReadyForDigits(low, w, high) && 0 < one == Pow2(-w.e) && kappa > 0
    requires IntegerState(low, high, one, digits, p1, p2, kappa, div)
    requires digit <= 9 && rest < high.f - low.f + 2 && rest < Step(kappa - 1, one) < TWO64
    requires digits == [] ==> digit >= 1
    requires Splits(high.f + 1, 10 * Value(digits) + digit, Step(kappa - 1, one), rest)
    requires LastDigitLeaves(digit, Step(kappa - 1, one), rest, Joined(p1, p2, one))
    requires Joined(p1, p2, one) < Step(kappa, one)
    ensures WeedReady(low, w, high, digits + [DigitChar(digit)], kappa - 1, low.f - 1, high.f + 1,
                      high.f + 1 - w.f, rest, Step(kappa - 1, one), 1)
  {
    hide Splits, Joined, Step, LastDigitLeaves, Short;
    Appended(digits, digits + [DigitChar(digit)], DigitChar(digit));
    Shorter(digits, low, high, 1, Step(kappa, one), Joined(p1, p2, one));
    LeavesSmaller(digit, Step(kappa - 1, one), rest, Joined(p1, p2, one), high.f - low.f + 2);
  }

  lemma DigitFits(low: DiyFp, high: DiyFp, one: nat, digits: string, p1: nat, p2: nat, kappa: int, div: nat)
    requires IntegerState(low, high, one, digits, p1, p2, kappa, div) && kappa > 0
    ensures div > 0 && 0 <= p1 / div <= 9 && 0 <= p1 % div
  {
    hide Splits, Joined, Step;
  }

  /** One pass of the first loop: weeding can start, or the next pass can. */
  lemma IntegerAdvance(low: DiyFp, w: DiyFp, high: DiyFp, one: nat, digits: string,
                       p1: nat, p2: nat, kappa: int, div: nat, digit: nat, q: nat)
    requires ReadyForDigits(low, w, high) && 0 < one == Pow2(-w.e) && kappa > 0
    requires IntegerState(low, high, one, digits, p1, p2, kappa, div)
    requires div > 0 && digit == p1 / div <= 9 && q == p1 % div
    ensures |digits| < 10
    ensures
      var now := digits + [DigitChar(digit)];
      var delta, rest := high.f - low.f + 2, Joined(q, p2, one);
      && U64(U64(q * one) + p2) == rest && U64(div * one) == Step(kappa - 1, one)
      && (rest < delta ==>
            WeedReady(low, w, high, now, kappa - 1, low.f - 1, high.f + 1, high.f + 1 - w.f, rest,
                      Step(kappa - 1, one), 1))
      && (rest >= delta ==> IntegerState(low, high, one, now, q, p2, kappa - 1, div / 10))
  {
    hide Splits, Joined, Step, LastDigitLeaves, WeedReady;
    if digits != [] {
      ValueLead(digits);
    }
    IntegerDigit(high.f + 1, Value(digits), p1, p2, one, kappa, div);
    var rest := Joined(q, p2, one);
    Appended(digits, digits + [DigitChar(digit)], DigitChar(digit));
    if rest < high.f - low.f + 2 {
      IntegerWeeds(low, w, high, one, digits, p1, p2, kappa, div, digit, rest);
    }
  }

  /** Invariant of the second loop: everything is scaled by `unit`, a power of ten. */
  ghost predicate FractionState(low: DiyFp, w: DiyFp, high: DiyFp, one: nat, digits: string,
                                p2: nat, kappa: int, unit: nat, delta: nat)
  {
    && kappa <= 0 && 1 <= |digits| && |digits| + kappa <= 10 && unit == Unit(kappa)
    && digits[0] != '0' && AllDigits(digits)
    && delta == (high.f - low.f + 2) * unit
    && Splits((high.f + 1) * unit, Value(digits), one, p2)
    && unit < delta <= p2 < one
  }

  lemma FractionStart(low: DiyFp, w: DiyFp, high: DiyFp, one: nat, digits: string, p1: nat, p2: nat, div: nat)
    requires ReadyForDigits(low, w, high) && one == Pow2(-w.e)
    requires IntegerState(low, high, one, digits, p1, p2, 0, div)
    ensures FractionState(low, w, high, one, digits, p2, 0, 1, high.f - low.f + 2) && |digits| <= 10
  {
    assert p1 == 0;
  }

  lemma FewSoFar(low: DiyFp, w: DiyFp, high: DiyFp, one: nat, digits: string,
                 p2: nat, kappa: int, unit: nat, delta: nat)
    requires ReadyForDigits(low, w, high)
    requires FractionState(low, w, high, one, digits, p2, kappa, unit, delta)
    ensures |digits| <= 19
  {
    StillShort(digits, high.f + 1, unit, one, p2, high.f - low.f + 2);
    AtMostNineteen(|digits|, high.f + 1, high.f - low.f + 2);
  }

  /** One pass of the second loop: nothing wraps, and weeding or the next pass can go on. */
  lemma FractionAdvance(low: DiyFp, w: DiyFp, high: DiyFp, one: nat, digits: string,
                        p2: nat, kappa: int, unit: nat, delta: nat)
    requires ReadyForDigits(low, w, high) && one == Pow2(-w.e) && 0 < one <= TWO60
    requires FractionState(low, w, high, one, digits, p2, kappa, unit, delta)
    ensures |digits| <= 19
    ensures U64(p2 * 10) == 10 * p2 && U64(unit * 10) == 10 * unit && U64(delta * 10) == 10 * delta
    ensures 0 <= 10 * p2 / one <= 9 && 0 <= 10 * p2 % one
    ensures
      var now := digits + [DigitChar(10 * p2 / one)];
      var u, q := 10 * unit, 10 * p2 % one;
      var lo, hi, wpW := low.f * u - u, high.f * u + u, (high.f + 1 - w.f) * u;
      && (q < 10 * delta ==>
            0 <= lo <= hi && 0 <= wpW && U64(wpW) == wpW && 10 * delta == hi - lo
            && WeedReady(low, w, high, now, kappa - 1, lo, hi, wpW, q, one, u))
      && (q >= 10 * delta ==> FractionState(low, w, high, one, now, q, kappa - 1, u, 10 * delta))
  {
    hide Splits, LastDigitLeaves, Short;
    FewSoFar(low, w, high, one, digits, p2, kappa, unit, delta);
    assert FractionState(low, w, high, one, digits, p2, kappa, unit, delta);
    FractionDigit(high.f + 1, unit, Value(digits), p2, one, delta);
    var now := digits + [DigitChar(10 * p2 / one)];
    Appended(digits, now, DigitChar(10 * p2 / one));
    FractionScales(low, w, high, unit, delta);
    Shorter(digits, low, high, unit, one, p2);
  }

  lemma FractionScales(low: DiyFp, w: DiyFp, high: DiyFp, unit: nat, delta: nat)
    requires ReadyForDigits(low, w, high) && 0 < unit && delta == (high.f - low.f + 2) * unit < TWO60
    ensures
      var u := 10 * unit;
      var lo, hi, wpW := low.f * u - u, high.f * u + u, (high.f + 1 - w.f) * u;
      && (high.f + 1) * u == hi && 10 * delta == (high.f - low.f + 2) * u == hi - lo < TWO64
      && 0 <= lo <= hi && u <= wpW && wpW + u <= hi - lo && 4 * u <= hi - lo
      && U64(wpW) == wpW && U64(u) == u && AtScale(low, w, high, u, lo, hi - wpW, hi)
  {
    var u := 10 * unit;
    MulSwap(high.f - low.f + 2, 10, unit);
    ScaledWidths(low.f, w.f, high.f, u);
    Word(u);
    Word((high.f + 1 - w.f) * u);
  }

  /** The loop over the integer part: it ends in weeding, or with all of that part emitted. */
  method IntegerDigits(low: DiyFp, w: DiyFp, high: DiyFp, one: nat, first: nat, p2: nat, guess: (int, nat),
                       wpW: nat, delta: nat, buffer: array<char>)
      returns (weeded: bool, ok: bool, length: nat, kappa: int)
    requires ReadyForDigits(low, w, high) && buffer.Length >= 20 && 0 < one == Pow2(-w.e)
    requires 1 <= guess.0 <= 10 && IntegerState(low, high, one, [], first, p2, guess.0, guess.1)
    requires delta == high.f - low.f + 2 && wpW == high.f + 1 - w.f
    modifies buffer
    ensures length <= 20 && 1 <= length + kappa <= 10
    ensures if weeded then Generated(low, w, high, buffer[..length], kappa, ok)
            else kappa == 0 && FractionState(low, w, high, one, buffer[..length], p2, 0, 1, delta)
    ensures forall i :: length <= i < buffer.Length ==> buffer[i] == old(buffer[i])
  {
    hide IntegerState, FractionState, WeedReady, Generated, Pow2, Pow10, Value, Joined, Step, Unit, U64;
    var p1: nat, div: nat := first, guess.1;
    kappa, length, ok := guess.0, 0, false;
    assert buffer[..length] == [];
    while kappa > 0
      invariant 0 <= kappa && 1 <= length + kappa <= 10
      invariant IntegerState(low, high, one, buffer[..length], p1, p2, kappa, div)
      invariant forall i :: length <= i < buffer.Length ==> buffer[i] == old(buffer[i])
    {
      DigitFits(low, high, one, buffer[..length], p1, p2, kappa, div);
      var digit: nat := p1 / div;
      IntegerAdvance(low, w, high, one, buffer[..length], p1, p2, kappa, div, digit, p1 % div);
      ghost var before := buffer[..length];
      buffer[length] := DigitChar(digit);
      length := length + 1;
      p1 := p1 % div;
      kappa := kappa - 1;
      assert buffer[..length] == before + [DigitChar(digit)];
      var rest := U64(U64(p1 * one) + p2);
      if rest < delta {
        ok := WeedAndJudge(low, w, high, buffer, length, kappa, low.f - 1, high.f + 1,
                           wpW, delta, rest, U64(div * one), 1);
        return true, ok, length, kappa;
      }
      div := div / 10;
    }
    FractionStart(low, w, high, one, buffer[..length], p1, p2, div);
    weeded := false;
  }

  /** The loop over the fraction, which always ends in weeding. */
  method FractionDigits(low: DiyFp, w: DiyFp, high: DiyFp, one: nat, first: nat, wpW: nat, widths: nat,
                        buffer: array<char>, from: nat, power: int)
      returns (ok: bool, length: nat, kappa: int)
    requires ReadyForDigits(low, w, high) && buffer.Length >= 20 && 0 < one <= TWO60 && one == Pow2(-w.e)
    requires from <= 20 && power <= 0 && 1 <= from + power <= 10 && wpW == high.f + 1 - w.f
    requires FractionState(low, w, high, one, buffer[..from], first, power, 1, widths)
    modifies buffer
    ensures from <= length <= 20 && 1 <= length + kappa <= 10
    ensures Generated(low, w, high, buffer[..length], kappa, ok)
    ensures forall i :: length <= i < buffer.Length ==> buffer[i] == old(buffer[i])
  {
    hide FractionState, WeedReady, Generated, Pow2, Pow10, Value, Step, Unit, U64;
    var p2: nat, unit: nat, delta: nat := first, 1, widths;
    length, kappa := from, power;
    while true
      invariant kappa <= 0 && 1 <= length + kappa <= 10 && from <= length <= 20
      invariant FractionState(low, w, high, one, buffer[..length], p2, kappa, unit, delta)
      invariant forall i :: length <= i < buffer.Length ==> buffer[i] == old(buffer[i])
      decreases one - delta
    {
      FractionAdvance(low, w, high, one, buffer[..length], p2, kappa, unit, delta);
      WidthsGrow(low, w, high, one, buffer[..length], p2, kappa, unit, delta);
      ghost var before := buffer[..length];
      p2 := U64(p2 * 10);
      unit := U64(unit * 10);
      delta := U64(delta * 10);
      var digit := p2 / one;
      buffer[length] := DigitChar(digit);
      length := length + 1;
      p2 := p2 % one;
      kappa := kappa - 1;
      assert buffer[..length] == before + [DigitChar(digit)];
      if p2 < delta {
        ok := WeedAndJudge(low, w, high, buffer, length, kappa, low.f * unit - unit, high.f * unit + unit,
                           U64(wpW * unit), delta, p2, one, unit);
        return;
      }
    }
  }

  lemma WidthsGrow(low: DiyFp, w: DiyFp, high: DiyFp, one: nat, digits: string,
                   p2: nat, kappa: int, unit: nat, delta: nat)
    requires FractionState(low, w, high, one, digits, p2, kappa, unit, delta)
    ensures 0 < delta < one
  {
  }

  /** One digit of the fraction. */
  lemma FractionDigit(th: nat, u: nat, d: nat, p2: nat, one: nat, delta: nat)
    requires 0 < one <= TWO60 && p2 < one && delta <= p2 && Splits(th * u, d, one, p2)
    ensures var digit, q := 10 * p2 / one, 10 * p2 % one;
      && 0 <= digit <= 9 && 0 <= q < one && U64(p2 * 10) == 10 * p2 && U64(delta * 10) == 10 * delta
      && Splits(th * (10 * u), 10 * d + digit, one, q)
      && LastDigitLeaves(digit, one, q, 10 * delta)
  {
    QuotientDigit(10 * p2, one);
    var digit, q := 10 * p2 / one, 10 * p2 % one;
    Word(10 * p2);
    Word(10 * delta);
    MulSwap(th, 10, u);
    TenTimes(d, digit, one);
  }

  lemma TenTimes(d: nat, digit: nat, one: nat)
    ensures (10 * d + digit) * one == 10 * (d * one) + digit * one
  {
  }

  /** The interval and the distance to its upper end, before any digit. */
  lemma Widths(low: DiyFp, w: DiyFp, high: DiyFp)
    requires ReadyForDigits(low, w, high)
    ensures U64(low.f - 1) == low.f - 1 && U64(high.f + 1) == high.f + 1
    ensures Minus(DiyFp(high.f + 1, high.e), DiyFp(low.f - 1, low.e)).f == high.f - low.f + 2
    ensures Minus(DiyFp(high.f + 1, high.e), w).f == high.f + 1 - w.f
  {
    Word(low.f - 1);
    Word(high.f + 1);
    Word(high.f - low.f + 2);
    Word(high.f + 1 - w.f);
  }

  method DigitGen(low: DiyFp, w: DiyFp, high: DiyFp, buffer: array<char>)
      returns (ok: bool, length: nat, kappa: int)
    requires ReadyForDigits(low, w, high) && buffer.Length >= 20
    modifies buffer
    ensures length <= 20 && 1 <= length + kappa <= 10
    ensures Generated(low, w, high, buffer[..length], kappa, ok)
    ensures forall i :: length <= i < buffer.Length ==> buffer[i] == old(buffer[i])
  {
    hide IntegerState, FractionState, Generated, LargestPow10, Pow2, U64, Minus, Unit, Step, Value;
    Widths(low, w, high);
    IntegerStart(low, w, high);
    var unit := 1;
    var tooLow := DiyFp(U64(low.f - unit), low.e);
    var tooHigh := DiyFp(U64(high.f + unit), high.e);
    var unsafe := Minus(tooHigh, tooLow);
    var one := Pow2(-w.e);
    var p1: nat := tooHigh.f / one % TWO32;
    var p2: nat := tooHigh.f % one;
    var wpW := Minus(tooHigh, w).f;
    var weeded;
    weeded, ok, length, kappa :=
      IntegerDigits(low, w, high, one, p1, p2, LargestPow10(p1, 64 + w.e), wpW, unsafe.f, buffer);
    if !weeded {
      ok, length, kappa := FractionDigits(low, w, high, one, p2, wpW, unsafe.f, buffer, length, kappa);
    }
  }
}
