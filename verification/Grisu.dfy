/**
 From a binary64 to its shortest digits: the boundaries are normalised to a
 common exponent, scaled by a cached power of ten and handed to digit
 generation (`grisu3` in grisu3_print.h).
 */
module Grisu {
  import opened Arith
  import opened Decimal
  import opened DiyFps
  import opened DigitGens
  import opened Doubles
  import opened PowerTable
  import opened Reals

  // ----- A common exponent -------------------------------------------------------

  /** Normalisation is unique: only one shift puts the leading bit in place. */
  lemma ShiftIsUnique(f: nat, a: nat, b: nat)
    requires TWO63 <= f * Pow2(a) < TWO64 && TWO63 <= f * Pow2(b) < TWO64
    ensures a == b
  {
    if a < b {
      DoublesAtLeast(f, a, b);
    } else if b < a {
      DoublesAtLeast(f, b, a);
    }
  }

  lemma DoublesAtLeast(f: nat, a: nat, b: nat)
    requires a < b
    ensures 2 * (f * Pow2(a)) <= f * Pow2(b)
  {
    Pow2Grows(a + 1, b);
    MulMono(f, 2 * Pow2(a), Pow2(b));
    MulSwap(f, 2, Pow2(a));
  }

  /** A normalised 53-bit significand has been shifted by at least eleven places. */
  lemma ShiftIsLarge(f: nat, s: nat)
    requires f < 2 * IMPLICIT_ONE && TWO63 <= f * Pow2(s)
    ensures s >= 11
  {
    if s <= 10 {
      Pow2Grows(s, 10);
      assert Pow2(10) == 1024 by { assert Pow2(5) == 32; }
      MulMono(f, Pow2(s), 1024);
    }
  }

  /** Both 2^64 and f * 2^s are multiples of 2^s: below 2^64 there is room for one more. */
  lemma RoomForOneMore(f: nat, s: nat)
    requires 0 < f && f * Pow2(s) < TWO64
    ensures f * Pow2(s) + Pow2(s) <= TWO64
  {
    assert Pow2(64) == TWO64 by { Pow2Literals(); Pow2Adds(60, 4); }
    MulMono(Pow2(s), 1, f);
    if s > 64 {
      Pow2Grows(64, s);
    } else {
      Pow2Adds(64 - s, s);
      NextMultiple(f, Pow2(64 - s), Pow2(s));
    }
  }

  lemma NextMultiple(f: nat, n: nat, p: nat)
    requires f * p < n * p
    ensures f * p + p <= n * p
  {
    if f >= n {
      MulMono(p, n, f);
    }
    MulMono(p, f + 1, n);
  }

  /** The half-way point above, normalised, has the exponent of the value normalised. */
  lemma UpperSharesExponent(f: nat, s: nat, s': nat)
    requires f < 2 * IMPLICIT_ONE && TWO63 <= f * Pow2(s) < TWO64
    requires TWO63 <= (2 * f + 1) * Pow2(s') < TWO64
    ensures s >= 11 && s' == s - 1 && (2 * f + 1) * Pow2(s - 1) == f * Pow2(s) + Pow2(s - 1)
  {
    ShiftIsLarge(f, s);
    UpperShifted(f, Pow2(s - 1));
    RoomForOneMore(f, s);
    ShiftIsUnique(2 * f + 1, s', s - 1);
  }

  lemma UpperShifted(f: nat, h: nat)
    ensures (2 * f + 1) * h == f * (2 * h) + h
  {
  }

  /** The lower boundary, shifted to the same exponent. */
  lemma LowerShifted(f: nat, s: nat)
    requires s >= 2 && f > 0
    ensures (2 * f - 1) * Pow2(s - 1) == f * Pow2(s) - Pow2(s - 1)
    ensures (4 * f - 1) * Pow2(s - 2) == f * Pow2(s) - Pow2(s - 2)
    ensures Pow2(s) == 2 * Pow2(s - 1) == 4 * Pow2(s - 2)
  {
    var q := Pow2(s - 2);
    assert (2 * f - 1) * (2 * q) == f * (4 * q) - 2 * q;
    assert (4 * f - 1) * q == f * (4 * q) - q;
  }

  // ----- Scaling by a cached power -------------------------------------------------

  /** A significand multiplied by a cached power, as `Multiply` rounds it. */
  ghost predicate RoundsTo(r: nat, x: nat, c: nat)
  {
    -TWO63 < r * TWO64 - x * c <= TWO63
  }

  lemma RoundedApart(x: nat, y: nat, c: nat, rx: nat, ry: nat)
    requires x + 512 <= y && TWO63 <= c && RoundsTo(rx, x, c) && RoundsTo(ry, y, c)
    ensures rx < ry
  {
    MulMono(c, x + 512, y);
    assert c * (x + 512) == x * c + 512 * c;
  }

  lemma RoundedRange(x: nat, c: nat, r: nat)
    requires x < TWO64 && TWO63 <= c < TWO64 && RoundsTo(r, x, c)
    ensures r < TWO64 - 1
    ensures x >= TWO63 ==> r >= TWO62
    ensures x >= TWO62 ==> r >= 1
  {
    MulBound(x, c, TWO64 - 1, TWO64 - 1);
    if x >= TWO63 {
      MulBound(TWO63, TWO63, x, c);
    } else if x >= TWO62 {
      MulBound(TWO62, TWO63, x, c);
    }
  }

  /** Scaled boundaries and value meet what digit generation asks for. */
  lemma ScaledReady(v: nat, below: nat, above: nat, c: nat, low: nat, w: nat, high: nat)
    requires TWO63 <= v && v + above < TWO64 && 512 <= below <= v - TWO62 && 512 <= above
    requires TWO63 <= c < TWO64
    requires RoundsTo(low, v - below, c) && RoundsTo(w, v, c) && RoundsTo(high, v + above, c)
    ensures 0 < low < w < high < TWO64 - 1 && TWO62 <= high
  {
    RoundedApart(v - below, v, c, low, w);
    RoundedApart(v, v + above, c, w, high);
    RoundedRange(v - below, c, low);
    RoundedRange(v + above, c, high);
  }

  /** The interval of a double is wide enough for seventeen digits. */
  lemma WideEnough(v: nat, below: nat, above: nat, c: nat, low: nat, high: nat)
    requires 10_000_000_000_000_000 * (below + above) >= v + above && below <= v
    requires RoundsTo(low, v - below, c) && RoundsTo(high, v + above, c) && low < high
    ensures 10_000_000_000_000_000 * (high - low + 2) >= high + 1
  {
    var width, top := (below + above) * c, (v + above) * c;
    assert top - (v - below) * c == width;
    assert 10_000_000_000_000_000 * width >= top by {
      MulMono(c, v + above, 10_000_000_000_000_000 * (below + above));
      MulAssoc(10_000_000_000_000_000, below + above, c);
    }
  }

  lemma AtMostSeventeen(n: nat, low: nat, high: nat)
    requires low < high && 10_000_000_000_000_000 * (high - low + 2) >= high + 1
    requires n >= 2 ==> Pow10(n - 2) * (high - low + 2) < high + 1
    ensures n <= 17
  {
    if n > 17 {
      Pow10Literals();
      Pow10Adds(8, 8);
      Pow10Grows(16, n - 2);
      MulMono(high - low + 2, 10_000_000_000_000_000, Pow10(n - 2));
    }
  }

  const TWO64R := 18446744073709551616.0

  /** The exact number a scaled significand stands for. */
  function Exactly(x: nat, power: real): real
  {
    x as real * power / TWO64R
  }

  /** With a power known to half a unit, each scaled number is off by less than one unit. */
  lemma OffByLessThanOne(x: nat, c: nat, r: nat, power: real)
    requires x < TWO64 && RoundsTo(r, x, c) && AbsR(power - c as real) <= 0.5
    ensures r as real - 1.0 < Exactly(x, power) < r as real + 1.0
  {
    var used, usedR, exact := x * c, x as real * c as real, x as real * power;
    ProductAsReal(x, c);
    Drift(x as real, power, c as real, exact, usedR);
    HalfPlusHalf(r, used, usedR, x, exact);
  }

  lemma HalfPlusHalf(r: nat, used: int, usedR: real, x: nat, exact: real)
    requires -TWO63 < r * TWO64 - used <= TWO63 && x < TWO64 && usedR == used as real
    requires -0.5 * x as real <= exact - usedR <= 0.5 * x as real
    ensures r as real - 1.0 < exact / TWO64R < r as real + 1.0
  {
  }

  lemma ProductAsReal(x: nat, c: nat)
    ensures 0 <= x * c && x as real * c as real == (x * c) as real
  {
  }

  lemma Drift(x: real, p: real, c: real, xp: real, xc: real)
    requires x >= 0.0 && AbsR(p - c) <= 0.5 && xp == x * p && xc == x * c
    ensures -0.5 * x <= xp - xc <= 0.5 * x
  {
    var d := p - c;
    assert x * d == xp - xc;
    assert -0.5 * x <= x * d <= 0.5 * x;
  }

  // ----- From scaled integers to the reals they stand for -----------------------------

  lemma ShiftedValue(f: nat, e: int, k: nat)
    ensures ValueOf(DiyFp(f * Pow2(k), e - k)) == ValueOf(DiyFp(f, e))
  {
    hide PowR, Pow2;
    var p, q, pq := PowR(2.0, k), PowR(2.0, e - k), PowR(2.0, e);
    assert pq == p * q by {
      PowRAdds(2.0, k, e - k);
      assert k + (e - k) == e;
    }
    var n, fn := Pow2(k) as real, (f * Pow2(k)) as real;
    assert n == p by { PowRIsPow2(k); }
    assert fn == f as real * n by { ProductAsReal(f, Pow2(k)); }
    Regather(f as real, n, fn, p, q, pq);
  }

  lemma Regather(f: real, n: real, fn: real, p: real, q: real, pq: real)
    requires n == p && fn == f * n && pq == p * q
    ensures fn * q == f * pq
  {
  }

  /** What one unit of a scaled significand is worth. */
  function UnitValue(e: int, mk: int): (r: real)
    ensures r > 0.0
  {
    PowR(2.0, e) * PowR(10.0, -mk)
  }

  lemma InverseR(b: real, k: int)
    requires b > 0.0
    ensures PowR(b, k) * PowR(b, -k) == 1.0
  {
    PowRAdds(b, k, -k);
    assert k + (-k) == 0;
  }

  /** Scaling by the power and reading off at the unit's worth gives the number back. */
  lemma ScalingCancels(n: DiyFp, mk: int, ce: int)
    ensures Exactly(n.f, Power(mk, ce)) * UnitValue(n.e + ce + 64, mk) == ValueOf(n)
  {
    hide PowR;
    InverseR(10.0, mk);
    InverseR(2.0, ce);
    PowRAdds(2.0, n.e, ce + 64);
    PowRAdds(2.0, ce, 64);
    TwoTo64();
    assert n.e + (ce + 64) == n.e + ce + 64;
    CancelsOut(n.f as real, PowR(10.0, mk), PowR(10.0, -mk), PowR(2.0, ce), PowR(2.0, -ce),
               PowR(2.0, n.e), PowR(2.0, ce + 64), PowR(2.0, n.e + ce + 64));
  }

  lemma TwoTo64()
    ensures PowR(2.0, 64) == TWO64R
  {
    PowRIsPow2(64);
    Pow2Literals();
    Pow2Adds(60, 4);
  }

  lemma CancelsOut(f: real, p: real, q: real, a: real, b: real, z: real, y: real, zy: real)
    requires p * q == 1.0 && a * b == 1.0 && y == a * TWO64R && zy == z * y
    ensures f * (p * b) / TWO64R * (zy * q) == f * z
  {
    var l := f * (p * b) / TWO64R;
    assert l * TWO64R == f * (p * b);
    assert zy == z * a * TWO64R;
    assert l * (zy * q) == l * TWO64R * (z * a * q);
    assert f * (p * b) * (z * a * q) == f * z * (p * q) * (a * b);
  }

  /** The decimal m * 10^dExp. */
  function Multiple(m: int, dExp: int): real {
    m as real * PowR(10.0, dExp)
  }

  /** One step of the last digit is worth 10^(kappa - mk). */
  lemma StepValue(kappa: int, mk: int, e: int)
    requires e <= 0
    ensures Step(kappa, Pow2(-e)) as real * UnitValue(e, mk) == Unit(kappa) as real * PowR(10.0, kappa - mk)
  {
    hide PowR, Pow2, Pow10, UnitValue;
    PowRIsPow2(-e);
    InverseR(2.0, e);
    PowRAdds(10.0, kappa, -mk);
    assert kappa + (-mk) == kappa - mk;
    if kappa > 0 {
      StepAboveOne(kappa, mk, e);
    } else {
      StepBelowOne(kappa, mk, e);
    }
  }

  lemma StepAboveOne(kappa: nat, mk: int, e: int)
    requires e <= 0 && kappa > 0 && PowR(2.0, -e) == Pow2(-e) as real
    requires PowR(2.0, e) * PowR(2.0, -e) == 1.0
    requires PowR(10.0, kappa - mk) == PowR(10.0, kappa) * PowR(10.0, -mk)
    ensures (Pow10(kappa) * Pow2(-e)) as real * UnitValue(e, mk) == PowR(10.0, kappa - mk)
  {
    hide PowR, Pow2, Pow10;
    PowRIsPow10(kappa);
    ProductAsReal(Pow10(kappa), Pow2(-e));
    StepUp(Pow10(kappa) as real, PowR(2.0, -e), PowR(2.0, e), PowR(10.0, -mk), PowR(10.0, kappa - mk));
  }

  lemma StepBelowOne(kappa: int, mk: int, e: int)
    requires e <= 0 && kappa <= 0 && PowR(2.0, -e) == Pow2(-e) as real
    requires PowR(2.0, e) * PowR(2.0, -e) == 1.0
    requires PowR(10.0, kappa - mk) == PowR(10.0, kappa) * PowR(10.0, -mk)
    ensures Pow2(-e) as real * UnitValue(e, mk) == Unit(kappa) as real * PowR(10.0, kappa - mk)
  {
    hide PowR, Pow2;
    PowRIsPow10(-kappa);
    InverseR(10.0, kappa);
    StepDown(Unit(kappa) as real, PowR(10.0, kappa), PowR(2.0, -e), PowR(2.0, e), PowR(10.0, -mk),
             PowR(10.0, kappa - mk));
  }

  lemma StepUp(k: real, one: real, p: real, q: real, r: real)
    requires p * one == 1.0 && r == k * q
    ensures k * one * (p * q) == r
  {
    assert k * one * (p * q) == k * q * (p * one);
  }

  lemma StepDown(u: real, k: real, one: real, p: real, q: real, r: real)
    requires p * one == 1.0 && k * u == 1.0 && r == k * q
    ensures one * (p * q) == u * r
  {
    assert one * (p * q) == q * (p * one);
    assert u * (k * q) == q * (k * u);
  }

  lemma DecimalScale(m: int, t: nat, u: nat, unitValue: real, ten: real)
    requires t as real * unitValue == u as real * ten
    ensures m as real * ten * u as real == (m * t) as real * unitValue
  {
    IntProductAsReal(m, t);
    Regroup3(m as real, t as real, u as real, unitValue, ten);
  }

  lemma IntProductAsReal(m: int, t: int)
    ensures (m * t) as real == m as real * t as real
  {
  }

  lemma Regroup3(m: real, t: real, u: real, s: real, ten: real)
    requires t * s == u * ten
    ensures m * ten * u == m * t * s
  {
    assert m * ten * u == m * (u * ten);
    assert m * t * s == m * (t * s);
  }

  /**
   A number X at scale and a decimal n at scale u compare as the reals x and m
   they stand for, and so do distances.
   */
  lemma Comparable(x: real, scaled: real, m: real, n: int, u: nat, unitValue: real)
    requires u > 0 && unitValue > 0.0 && x == scaled * unitValue && m * u as real == n as real * unitValue
    ensures x < m <==> scaled * u as real < n as real
    ensures m < x <==> n as real < scaled * u as real
    ensures AbsR(m - x) * u as real == AbsR(n as real - scaled * u as real) * unitValue
  {
    var ur, nr, su := u as real, n as real, scaled * u as real;
    assert x * ur == su * unitValue by { Regroup4(x, scaled, unitValue, ur, su); }
    ScaleLess(ur, x, m);
    ScaleLess(ur, m, x);
    ScaleLess(unitValue, su, nr);
    ScaleLess(unitValue, nr, su);
    ScaleAbs(ur, m, x);
    ScaleAbs(unitValue, nr, su);
  }

  lemma Regroup4(x: real, scaled: real, s: real, u: real, su: real)
    requires x == scaled * s && su == scaled * u
    ensures x * u == su * s
  {
  }

  lemma Margin(r: nat, x: real, u: nat)
    requires r as real - 1.0 < x < r as real + 1.0 && u > 0
    ensures (r * u - u) as real < x * u as real < (r * u + u) as real
  {
    var p := r * u;
    ProductAsReal(r, u);
    MarginAt(r as real, x, u as real, p as real);
    assert (p - u) as real == p as real - u as real && (p + u) as real == p as real + u as real;
  }

  lemma MarginAt(r: real, x: real, u: real, p: real)
    requires u > 0.0 && r - 1.0 < x < r + 1.0 && r * u == p
    ensures p - u < x * u < p + u
  {
    var above, below := x - r + 1.0, r + 1.0 - x;
    PositiveProduct(above, u);
    PositiveProduct(below, u);
    assert above * u == x * u - p + u;
    assert below * u == p + u - x * u;
  }

  lemma PositiveProduct(a: real, b: real)
    requires a > 0.0 && b > 0.0
    ensures a * b > 0.0
  {
  }

  // ----- What the digits of a double promise -------------------------------------------

  /** The decimal lies strictly between the boundaries. */
  ghost predicate Between(u: nat, x: real)
    requires 0 < u < INFINITY_BITS
  {
    ValueOf(LowerBoundary(u)) < x < ValueOf(UpperBoundary(u))
  }

  /** No decimal with the same last place, boundaries included, is closer to the double. */
  ghost predicate ClosestAtItsLength(u: nat, d: nat, dExp: int)
    requires 0 < u < INFINITY_BITS
  {
    forall m ::
      ValueOf(LowerBoundary(u)) <= Multiple(m, dExp) <= ValueOf(UpperBoundary(u)) ==>
        AbsR(Multiple(d, dExp) - DoubleValue(u)) <= AbsR(Multiple(m, dExp) - DoubleValue(u))
  }

  /** No decimal that ends at the given place lies between the boundaries, or on one. */
  ghost predicate NoneFits(u: nat, place: int)
    requires 0 < u < INFINITY_BITS
  {
    forall m :: !(ValueOf(LowerBoundary(u)) <= Multiple(m, place) <= ValueOf(UpperBoundary(u)))
  }

  /** A boundary or a value: its exact real, the same at scale, and the significand used for it. */
  ghost predicate Stands(x: real, scaled: real, r: nat, unitValue: real)
  {
    x == scaled * unitValue && r as real - 1.0 < scaled < r as real + 1.0
  }

  lemma ShorterMisses(x: real, y: real, lower: real, upper: real, low: nat, high: nat,
                      m: int, mult: real, t10: nat, u: nat, unitValue: real)
    requires u > 0 && unitValue > 0.0 && mult * u as real == (m * t10) as real * unitValue
    requires Stands(lower, x, low, unitValue) && Stands(upper, y, high, unitValue)
    requires NoMultiple(t10, low * u - u, high * u + u)
    ensures !(lower <= mult <= upper)
  {
    Comparable(lower, x, mult, m * t10, u, unitValue);
    Comparable(upper, y, mult, m * t10, u, unitValue);
    Margin(low, x, u);
    Margin(high, y, u);
    assert Candidate(m, t10, low * u - u, high * u + u) ==> m * t10 == low * u - u;
  }

  lemma SafeIsBetween(x: real, y: real, lower: real, upper: real, low: nat, high: nat,
                      d: nat, mult: real, t: nat, u: nat, unitValue: real)
    requires u > 0 && unitValue > 0.0 && mult * u as real == (d * t) as real * unitValue
    requires Stands(lower, x, low, unitValue) && Stands(upper, y, high, unitValue)
    requires low * u + 3 * u <= d * t <= high * u - u
    ensures lower < mult < upper
  {
    Comparable(lower, x, mult, d * t, u, unitValue);
    Comparable(upper, y, mult, d * t, u, unitValue);
    Margin(low, x, u);
    Margin(high, y, u);
  }

  /** Nearest to the value one unit off either way means nearest to the value itself. */
  lemma NearestInside(d: int, n: int, a: int, b: int, z: real)
    requires Abs(d - a) <= Abs(n - a) && Abs(d - b) <= Abs(n - b) && a as real < z < b as real
    ensures AbsR(d as real - z) <= AbsR(n as real - z)
  {
  }

  /** A decimal between the boundaries is a candidate of the widest interval. */
  lemma InsideIsCandidate(x: real, y: real, lower: real, upper: real, low: nat, high: nat,
                          m: int, mult: real, t: nat, u: nat, unitValue: real)
    requires u > 0 && unitValue > 0.0 && mult * u as real == (m * t) as real * unitValue
    requires Stands(lower, x, low, unitValue) && Stands(upper, y, high, unitValue)
    requires lower <= mult <= upper
    ensures Candidate(m, t, low * u - u, high * u + u)
  {
    Comparable(lower, x, mult, m * t, u, unitValue);
    Comparable(upper, y, mult, m * t, u, unitValue);
    Margin(low, x, u);
    Margin(high, y, u);
  }

  /** Distances at scale decide distances. */
  lemma CloserAtScale(value: real, z: real, w: nat, n: int, nMult: real, k: int, kMult: real, u: nat, unitValue: real)
    requires u > 0 && unitValue > 0.0 && Stands(value, z, w, unitValue)
    requires nMult * u as real == n as real * unitValue && kMult * u as real == k as real * unitValue
    requires Abs(n - (w * u - u)) <= Abs(k - (w * u - u)) && Abs(n - (w * u + u)) <= Abs(k - (w * u + u))
    ensures AbsR(nMult - value) <= AbsR(kMult - value)
  {
    hide Abs, AbsR;
    Comparable(value, z, nMult, n, u, unitValue);
    Comparable(value, z, kMult, k, u, unitValue);
    Margin(w, z, u);
    NearestInside(n, k, w * u - u, w * u + u, z * u as real);
    Undo(AbsR(nMult - value), AbsR(kMult - value), u as real,
         AbsR(n as real - z * u as real), AbsR(k as real - z * u as real), unitValue);
  }

  lemma Undo(a: real, b: real, u: real, c: real, d: real, s: real)
    requires u > 0.0 && s > 0.0 && a * u == c * s && b * u == d * s && c <= d
    ensures a <= b
  {
    ScaleLess(s, c, d);
    ScaleLess(u, a, b);
  }

  /** A normalised number and the significand it is scaled to. */
  lemma ScaledStands(n: DiyFp, c: DiyFp, mk: int, r: nat, e: int, x: real)
    requires n.f < TWO64 && RoundsTo(r, n.f, c.f) && HalfUnitPower(c, mk)
    requires e == n.e + c.e + 64 && x == ValueOf(n)
    ensures Stands(x, Exactly(n.f, Power(mk, c.e)), r, UnitValue(e, mk))
  {
    hide Exactly, Power, UnitValue, ValueOf, RoundsTo;
    ScalingCancels(n, mk, c.e);
    OffByLessThanOne(n.f, c.f, r, Power(mk, c.e));
  }

  /** Everything the scaled computation knows about one double. */
  ghost predicate ScaledInputs(u: nat, low: DiyFp, w: DiyFp, high: DiyFp, unitValue: real, x: real, z: real, y: real)
    requires 0 < u < INFINITY_BITS
  {
    && Stands(ValueOf(LowerBoundary(u)), x, low.f, unitValue)
    && Stands(DoubleValue(u), z, w.f, unitValue)
    && Stands(ValueOf(UpperBoundary(u)), y, high.f, unitValue)
  }

  lemma ShorterDecimalsMiss(u: nat, low: DiyFp, w: DiyFp, high: DiyFp, digits: string, kappa: int, ok: bool,
                            mk: int, x: real, z: real, y: real)
    requires 0 < u < INFINITY_BITS && w.e <= 0 && Generated(low, w, high, digits, kappa, ok)
    requires ScaledInputs(u, low, w, high, UnitValue(w.e, mk), x, z, y)
    ensures NoneFits(u, kappa - mk + 1)
  {
    hide UnitValue, PowR, Stands, LowerBoundary, UpperBoundary, ValueOf, Step, Unit, NoMultiple, SafeAndClosest,
         Candidate, Value;
    var unitValue, u10, t := UnitValue(w.e, mk), Unit(kappa), Step(kappa, Pow2(-w.e));
    var place := kappa - mk + 1;
    var ten := PowR(10.0, place);
    StepValue(kappa, mk, w.e);
    PowRSucc(10.0, kappa - mk);
    TenfoldStep(t, unitValue, u10, PowR(10.0, kappa - mk), ten);
    forall m
      ensures !(ValueOf(LowerBoundary(u)) <= Multiple(m, place) <= ValueOf(UpperBoundary(u)))
    {
      DecimalScale(m, 10 * t, u10, unitValue, ten);
      ShorterMisses(x, y, ValueOf(LowerBoundary(u)), ValueOf(UpperBoundary(u)), low.f, high.f,
                    m, Multiple(m, place), 10 * t, u10, unitValue);
    }
  }

  lemma TenfoldStep(t: nat, unitValue: real, u: nat, p: real, ten: real)
    requires t as real * unitValue == u as real * p && ten == 10.0 * p
    ensures (10 * t) as real * unitValue == u as real * ten
  {
  }

  lemma SafeDigits(u: nat, low: DiyFp, w: DiyFp, high: DiyFp, d: nat, kappa: int,
                   mk: int, x: real, z: real, y: real)
    requires 0 < u < INFINITY_BITS && w.e <= 0 && SafeAndClosest(low, w, high, d, kappa)
    requires ScaledInputs(u, low, w, high, UnitValue(w.e, mk), x, z, y)
    ensures Between(u, Multiple(d, kappa - mk))
  {
    hide UnitValue, PowR, Stands, LowerBoundary, UpperBoundary, ValueOf, Step, Unit, Nearest, DoubleValue;
    var unitValue, u10, t := UnitValue(w.e, mk), Unit(kappa), Step(kappa, Pow2(-w.e));
    StepValue(kappa, mk, w.e);
    DecimalScale(d, t, u10, unitValue, PowR(10.0, kappa - mk));
    SafeIsBetween(x, y, ValueOf(LowerBoundary(u)), ValueOf(UpperBoundary(u)), low.f, high.f,
                  d, Multiple(d, kappa - mk), t, u10, unitValue);
  }

  lemma ClosestBothWays(low: DiyFp, w: DiyFp, high: DiyFp, d: nat, kappa: int)
    requires w.e <= 0 && SafeAndClosest(low, w, high, d, kappa)
    ensures var u, t := Unit(kappa), Step(kappa, Pow2(-w.e));
      var lo, hi := low.f * u - u, high.f * u + u;
      Nearest(d, t, lo, hi, w.f * u - u) && Nearest(d, t, lo, hi, w.f * u + u)
  {
  }

  lemma CloserThanAnother(u: nat, low: DiyFp, w: DiyFp, high: DiyFp, d: nat, kappa: int,
                          mk: int, x: real, z: real, y: real, m: int)
    requires 0 < u < INFINITY_BITS && w.e <= 0 && SafeAndClosest(low, w, high, d, kappa)
    requires ScaledInputs(u, low, w, high, UnitValue(w.e, mk), x, z, y)
    requires ValueOf(LowerBoundary(u)) <= Multiple(m, kappa - mk) <= ValueOf(UpperBoundary(u))
    ensures AbsR(Multiple(d, kappa - mk) - DoubleValue(u)) <= AbsR(Multiple(m, kappa - mk) - DoubleValue(u))
  {
    hide UnitValue, PowR, Stands, LowerBoundary, UpperBoundary, ValueOf, Step, Unit, AbsR, Abs, Nearest, DoubleValue,
         Candidate, SafeAndClosest, Pow2;
    ClosestBothWays(low, w, high, d, kappa);
    var unitValue, u10, t := UnitValue(w.e, mk), Unit(kappa), Step(kappa, Pow2(-w.e));
    var place, ten := kappa - mk, PowR(10.0, kappa - mk);
    StepValue(kappa, mk, w.e);
    DecimalScale(d, t, u10, unitValue, ten);
    DecimalScale(m, t, u10, unitValue, ten);
    InsideIsCandidate(x, y, ValueOf(LowerBoundary(u)), ValueOf(UpperBoundary(u)), low.f, high.f,
                      m, Multiple(m, place), t, u10, unitValue);
    NearestApplied(d, m, t, low.f * u10 - u10, high.f * u10 + u10, w.f * u10 - u10);
    NearestApplied(d, m, t, low.f * u10 - u10, high.f * u10 + u10, w.f * u10 + u10);
    CloserAtScale(DoubleValue(u), z, w.f, d * t, Multiple(d, place), m * t, Multiple(m, place), u10, unitValue);
  }

  lemma GoodDigits(u: nat, low: DiyFp, w: DiyFp, high: DiyFp, d: nat, kappa: int,
                   mk: int, x: real, z: real, y: real)
    requires 0 < u < INFINITY_BITS && w.e <= 0 && SafeAndClosest(low, w, high, d, kappa)
    requires ScaledInputs(u, low, w, high, UnitValue(w.e, mk), x, z, y)
    ensures Between(u, Multiple(d, kappa - mk))
    ensures ClosestAtItsLength(u, d, kappa - mk)
  {
    hide UnitValue, LowerBoundary, UpperBoundary, ValueOf, AbsR, DoubleValue, Multiple, SafeAndClosest, ScaledInputs;
    var place := kappa - mk;
    SafeDigits(u, low, w, high, d, kappa, mk, x, z, y);
    forall m | ValueOf(LowerBoundary(u)) <= Multiple(m, place) <= ValueOf(UpperBoundary(u))
      ensures AbsR(Multiple(d, place) - DoubleValue(u)) <= AbsR(Multiple(m, place) - DoubleValue(u))
    {
      CloserThanAnother(u, low, w, high, d, kappa, mk, x, z, y, m);
    }
  }

  lemma NearestApplied(d: int, m: int, t: int, lo: int, hi: int, x: int)
    requires Nearest(d, t, lo, hi, x) && Candidate(m, t, lo, hi)
    ensures Abs(d * t - x) <= Abs(m * t - x)
  {
  }

  // ----- grisu3 ------------------------------------------------------------------------

  /** The three inputs of digit generation before scaling: a common exponent, known distances. */
  ghost predicate Normalised(u: nat, bMinus: DiyFp, w: DiyFp, bPlus: DiyFp)
    requires 0 < u < INFINITY_BITS
  {
    && bMinus.e == w.e == bPlus.e && TWO63 <= w.f <= bPlus.f < TWO64
    && 512 <= w.f - bMinus.f <= w.f - TWO62 && 512 <= bPlus.f - w.f
    && 10_000_000_000_000_000 * (bPlus.f - bMinus.f) >= bPlus.f
    && -1137 <= w.e <= 960
    && ValueOf(bMinus) == ValueOf(LowerBoundary(u)) && ValueOf(w) == DoubleValue(u)
    && ValueOf(bPlus) == ValueOf(UpperBoundary(u))
  }

  lemma BoundariesNormalised(u: nat, w: DiyFp, bPlus: DiyFp)
    requires 0 < u < INFINITY_BITS
    requires var v, t := FromBits(u), UpperBoundary(u);
      && w.e <= v.e && w.f == v.f * Pow2(v.e - w.e) && TWO63 <= w.f < TWO64
      && bPlus.e <= t.e && bPlus.f == t.f * Pow2(t.e - bPlus.e) && TWO63 <= bPlus.f < TWO64
    ensures var b := LowerBoundary(u);
      && bPlus.e <= b.e && 0 <= b.f * Pow2(b.e - bPlus.e) < TWO64
      && Normalised(u, DiyFp(b.f * Pow2(b.e - bPlus.e), bPlus.e), w, bPlus)
      && bPlus.e == w.e && -1137 <= w.e <= 960
  {
    hide ValueOf, Pow2;
    var v, b := FromBits(u), LowerBoundary(u);
    var s := v.e - w.e;
    SignificandRange(u);
    UpperSharesExponent(v.f, s, v.e - 1 - bPlus.e);
    LowerShifted(v.f, s);
    ShiftSizes(v.f, s);
    ShiftedValue(v.f, v.e, s);
    ShiftedValue(2 * v.f + 1, v.e - 1, s - 1);
    ShiftedValue(b.f, b.e, b.e - bPlus.e);
  }

  lemma SignificandRange(u: nat)
    requires 0 < u < INFINITY_BITS
    ensures var v := FromBits(u);
      && 0 < v.f < 2 * IMPLICIT_ONE && -1074 <= v.e <= 971
      && (LowerBoundaryIsCloser(u) ==> v.f == IMPLICIT_ONE)
  {
    Split(u);
  }

  lemma ShiftSizes(f: nat, s: nat)
    requires 0 < f < 2 * IMPLICIT_ONE && TWO63 <= f * Pow2(s) < TWO64 && s >= 11
    ensures s <= 63 && 512 <= Pow2(s - 2) && Pow2(s - 1) == 2 * Pow2(s - 2)
    ensures 4 * Pow2(s - 2) <= f * Pow2(s) <= 8 * IMPLICIT_ONE * Pow2(s - 2)
    ensures f == IMPLICIT_ONE ==> f * Pow2(s) == 4 * IMPLICIT_ONE * Pow2(s - 2)
  {
    ShiftIsSmall(f, s);
    AtLeast512(s - 2);
    QuarterPower(s);
    hide Pow2;
    FourTimes(f, Pow2(s - 2));
  }

  lemma ShiftIsSmall(f: nat, s: nat)
    requires 0 < f && f * Pow2(s) < TWO64
    ensures s <= 63
  {
    if s > 63 {
      assert Pow2(64) == TWO64 by { Pow2Literals(); Pow2Adds(60, 4); }
      Pow2Grows(64, s);
      MulMono(Pow2(s), 1, f);
    }
  }

  lemma AtLeast512(n: nat)
    requires n >= 9
    ensures 512 <= Pow2(n)
  {
    Pow2Grows(9, n);
    assert Pow2(9) == 512 by { assert Pow2(5) == 32; }
  }

  lemma QuarterPower(s: nat)
    requires s >= 2
    ensures Pow2(s - 1) == 2 * Pow2(s - 2) && Pow2(s) == 4 * Pow2(s - 2)
  {
  }

  lemma FourTimes(f: nat, q: nat)
    requires 0 < f < 2 * IMPLICIT_ONE
    ensures 4 * q <= f * (4 * q) <= 8 * IMPLICIT_ONE * q
    ensures f == IMPLICIT_ONE ==> f * (4 * q) == 4 * IMPLICIT_ONE * q
  {
    MulMono(4 * q, 1, f);
    MulMono(4 * q, f, 2 * IMPLICIT_ONE);
  }

  // ----- When it succeeds ----------------------------------------------------------------

  const TWO61R := 2305843009213693952.0

  /** At least what one unit of the scaled significands is worth. */
  function Grain(u: nat): real
    requires 0 < u < INFINITY_BITS
  {
    DoubleValue(u) / TWO61R
  }

  /** Between the boundaries, or at most two grains outside. */
  ghost predicate Near(u: nat, x: real)
    requires 0 < u < INFINITY_BITS
  {
    ValueOf(LowerBoundary(u)) - 2.0 * Grain(u) <= x <= ValueOf(UpperBoundary(u)) + 2.0 * Grain(u)
  }

  /** Every other decimal of the same place that is near is farther from the double, by at least four grains. */
  ghost predicate ClearlyClosest(u: nat, m: nat, place: int)
    requires 0 < u < INFINITY_BITS
  {
    forall n: int :: n != m && Near(u, Multiple(n, place)) ==>
      AbsR(Multiple(n, place) - DoubleValue(u)) >= AbsR(Multiple(m, place) - DoubleValue(u)) + 4.0 * Grain(u)
  }

  /** No decimal that ends one place earlier is near. */
  ghost predicate NoneNear(u: nat, place: int)
    requires 0 < u < INFINITY_BITS
  {
    forall n: int :: !Near(u, Multiple(n, place))
  }

  /** The decimal m * 10^place is the shortest for the double, and that by more than the arithmetic blurs. */
  ghost predicate Clear(u: nat, m: nat, place: int)
    requires 0 < u < INFINITY_BITS
  {
    && ValueOf(LowerBoundary(u)) + 4.0 * Grain(u) <= Multiple(m, place)
    && Multiple(m, place) <= ValueOf(UpperBoundary(u)) - 2.0 * Grain(u)
    && ClearlyClosest(u, m, place) && NoneNear(u, place + 1)
  }

  lemma GrainIsMore(u: nat, z: real, w: nat, unitValue: real)
    requires 0 < u < INFINITY_BITS && unitValue > 0.0 && Stands(DoubleValue(u), z, w, unitValue) && w >= TWO62
    ensures unitValue <= Grain(u)
  {
    hide DoubleValue;
    ManyUnits(z, unitValue, DoubleValue(u));
  }

  lemma ManyUnits(z: real, unitValue: real, value: real)
    requires z >= TWO61R && unitValue > 0.0 && value == z * unitValue
    ensures unitValue <= value / TWO61R
  {
    assert (z - TWO61R) * unitValue >= 0.0;
    assert value >= TWO61R * unitValue;
  }

  /** A boundary at scale u, with the integers around it. */
  lemma ScaledUp(bound: real, x: real, low: nat, u: nat, unitValue: real) returns (xu: real)
    requires u > 0 && Stands(bound, x, low, unitValue)
    ensures bound * u as real == xu * unitValue
    ensures (low * u - u) as real < xu < (low * u + u) as real
  {
    Margin(low, x, u);
    xu := x * u as real;
    Regroup4(bound, x, unitValue, u as real, xu);
  }

  /** A decimal some grains above the lower boundary is as many units above it at scale, and so for the upper one. */
  lemma InsideAtScale(x: real, y: real, lower: real, upper: real, low: nat, high: nat, grain: real,
                      n: int, mult: real, u: nat, unitValue: real)
    requires u > 0 && 0.0 < unitValue <= grain && mult * u as real == n as real * unitValue
    requires Stands(lower, x, low, unitValue) && Stands(upper, y, high, unitValue)
    requires lower + 4.0 * grain <= mult <= upper - 2.0 * grain
    ensures low * u + 3 * u <= n <= high * u - u
  {
    hide Stands;
    var xu := ScaledUp(lower, x, low, u, unitValue);
    var yu := ScaledUp(upper, y, high, u, unitValue);
    ApartByGrains(lower, xu, mult, n as real, u as real, unitValue, grain, 4.0);
    ApartByGrains(mult, n as real, upper, yu, u as real, unitValue, grain, 2.0);
  }

  /** A candidate of the widest interval is near. */
  lemma CandidateIsNear(x: real, y: real, lower: real, upper: real, low: nat, high: nat, grain: real,
                        n: int, mult: real, u: nat, unitValue: real)
    requires u > 0 && 0.0 < unitValue <= grain && mult * u as real == n as real * unitValue
    requires Stands(lower, x, low, unitValue) && Stands(upper, y, high, unitValue)
    requires low * u - u <= n <= high * u + u
    ensures lower - 2.0 * grain <= mult <= upper + 2.0 * grain
  {
    hide Stands;
    var xu := ScaledUp(lower, x, low, u, unitValue);
    var yu := ScaledUp(upper, y, high, u, unitValue);
    NotApart(mult, n as real, lower, xu, u as real, unitValue, grain);
    NotApart(upper, yu, mult, n as real, u as real, unitValue, grain);
  }

  /** Numbers apart by some grains are apart by as many units at scale. */
  lemma ApartByGrains(a: real, p: real, b: real, q: real, u: real, unitValue: real, grain: real, k: real)
    requires u > 0.0 && 0.0 < unitValue <= grain && k >= 0.0 && a * u == p * unitValue && b * u == q * unitValue
    requires a + k * grain <= b
    ensures p + k * u <= q
  {
    MoreGrains(k, unitValue, grain);
    Distribute(a, p, k, u, unitValue);
    Undo(p + k * u, q, unitValue, a + k * unitValue, b, u);
  }

  lemma NotApart(a: real, p: real, b: real, q: real, u: real, unitValue: real, grain: real)
    requires u > 0.0 && 0.0 < unitValue <= grain && a * u == p * unitValue && b * u == q * unitValue
    requires q < p + 2.0 * u
    ensures b < a + 2.0 * grain
  {
    if a + 2.0 * grain <= b {
      ApartByGrains(a, p, b, q, u, unitValue, grain, 2.0);
    }
  }

  lemma MoreGrains(k: real, unitValue: real, grain: real)
    requires k >= 0.0 && unitValue <= grain
    ensures k * unitValue <= k * grain
  {
  }

  lemma Distribute(a: real, p: real, k: real, u: real, unitValue: real)
    requires a * u == p * unitValue
    ensures (a + k * unitValue) * u == (p + k * u) * unitValue
  {
    assert k * unitValue * u == k * u * unitValue;
  }

  /** Farther by four grains is farther at scale, from the value one unit off either way. */
  lemma FartherAtScale(value: real, z: real, w: nat, n: int, nMult: real, k: int, kMult: real,
                       u: nat, unitValue: real, grain: real)
    requires u > 0 && 0.0 < unitValue <= grain && Stands(value, z, w, unitValue)
    requires nMult * u as real == n as real * unitValue && kMult * u as real == k as real * unitValue
    requires AbsR(kMult - value) >= AbsR(nMult - value) + 4.0 * grain
    ensures Abs(n - (w * u - u)) < Abs(k - (w * u - u)) && Abs(n - (w * u + u)) < Abs(k - (w * u + u))
  {
    hide AbsR, Abs;
    Comparable(value, z, nMult, n, u, unitValue);
    Comparable(value, z, kMult, k, u, unitValue);
    Margin(w, z, u);
    ApartByGrains(AbsR(nMult - value), AbsR(n as real - z * u as real), AbsR(kMult - value),
                  AbsR(k as real - z * u as real), u as real, unitValue, grain, 4.0);
    FartherThanBlur(n, k, w * u - u, w * u + u, u, z * u as real);
  }

  lemma FartherThanBlur(n: int, k: int, a: int, b: int, u: nat, z: real)
    requires a + 2 * u == b && a as real < z < b as real
    requires AbsR(n as real - z) + 4.0 * u as real <= AbsR(k as real - z)
    ensures Abs(n - a) < Abs(k - a) && Abs(n - b) < Abs(k - b)
  {
    assert b as real - a as real == 2.0 * u as real;
  }

  /** A decimal is as well one that ends at a later place. */
  lemma FinerPlace(m: int, place: int, finer: int)
    requires finer <= place
    ensures Multiple(m, place) == Multiple(m * Pow10(place - finer), finer)
  {
    hide PowR, Pow10;
    var k := place - finer;
    PowRAdds(10.0, k, finer);
    PowRIsPow10(k);
    IntProductAsReal(m, Pow10(k));
    assert m as real * (Pow10(k) as real * PowR(10.0, finer)) == m as real * Pow10(k) as real * PowR(10.0, finer);
  }

  /** Digit generation stops at the place of the clear decimal: before it nothing is near, and there something fits. */
  lemma SamePlace(u: nat, m: nat, place: int, d: int, dExp: int)
    requires 0 < u < INFINITY_BITS && Clear(u, m, place)
    requires NoneFits(u, dExp + 1) && Near(u, Multiple(d, dExp))
    ensures dExp == place
  {
    hide ValueOf, LowerBoundary, UpperBoundary, Multiple, DoubleValue, ClearlyClosest;
    GrainIsPositive(u);
    if place > dExp {
      FinerPlace(m, place, dExp + 1);
    } else if dExp > place {
      FinerPlace(d, dExp, place + 1);
    }
  }

  lemma GrainIsPositive(u: nat)
    requires 0 < u < INFINITY_BITS
    ensures Grain(u) > 0.0
  {
    hide PowR;
    SignificandRange(u);
    PositiveProduct(FromBits(u).f as real, PowR(2.0, FromBits(u).e));
  }

  /** Another candidate of digit generation is farther at scale than the clear decimal. */
  lemma ClearIsNearer(u: nat, low: DiyFp, w: DiyFp, high: DiyFp, kappa: int, mk: int, x: real, z: real, y: real,
                      m: nat, n: int)
    requires 0 < u < INFINITY_BITS && w.e <= 0 && Clear(u, m, kappa - mk) && UnitValue(w.e, mk) <= Grain(u)
    requires ScaledInputs(u, low, w, high, UnitValue(w.e, mk), x, z, y)
    requires var u10, t := Unit(kappa), Step(kappa, Pow2(-w.e));
      n != m && Candidate(n, t, low.f * u10 - u10, high.f * u10 + u10)
    ensures var u10, t := Unit(kappa), Step(kappa, Pow2(-w.e));
      && Abs(m * t - (w.f * u10 - u10)) < Abs(n * t - (w.f * u10 - u10))
      && Abs(m * t - (w.f * u10 + u10)) < Abs(n * t - (w.f * u10 + u10))
  {
    hide UnitValue, PowR, Stands, LowerBoundary, UpperBoundary, ValueOf, Step, Unit, AbsR, Abs, DoubleValue,
         NoneNear, Pow2, Grain;
    var unitValue, u10, t := UnitValue(w.e, mk), Unit(kappa), Step(kappa, Pow2(-w.e));
    var place, ten := kappa - mk, PowR(10.0, kappa - mk);
    StepValue(kappa, mk, w.e);
    DecimalScale(m, t, u10, unitValue, ten);
    DecimalScale(n, t, u10, unitValue, ten);
    CandidateIsNear(x, y, ValueOf(LowerBoundary(u)), ValueOf(UpperBoundary(u)), low.f, high.f, Grain(u),
                    n * t, Multiple(n, place), u10, unitValue);
    FartherAtScale(DoubleValue(u), z, w.f, m * t, Multiple(m, place), n * t, Multiple(n, place),
                   u10, unitValue, Grain(u));
  }

  /** The clear decimal is well inside at scale. */
  lemma ClearIsSafe(u: nat, low: DiyFp, w: DiyFp, high: DiyFp, kappa: int, mk: int, x: real, z: real, y: real, m: nat)
    requires 0 < u < INFINITY_BITS && w.e <= 0 && Clear(u, m, kappa - mk) && UnitValue(w.e, mk) <= Grain(u)
    requires ScaledInputs(u, low, w, high, UnitValue(w.e, mk), x, z, y)
    ensures var u10, t := Unit(kappa), Step(kappa, Pow2(-w.e));
      low.f * u10 + 3 * u10 <= m * t <= high.f * u10 - u10
  {
    hide UnitValue, PowR, Stands, LowerBoundary, UpperBoundary, ValueOf, Step, Unit, DoubleValue,
         ClearlyClosest, NoneNear, Pow2, Grain;
    var unitValue, u10, t := UnitValue(w.e, mk), Unit(kappa), Step(kappa, Pow2(-w.e));
    StepValue(kappa, mk, w.e);
    DecimalScale(m, t, u10, unitValue, PowR(10.0, kappa - mk));
    InsideAtScale(x, y, ValueOf(LowerBoundary(u)), ValueOf(UpperBoundary(u)), low.f, high.f, Grain(u),
                  m * t, Multiple(m, kappa - mk), u10, unitValue);
  }

  /** Whatever digit generation leaves behind is near. */
  lemma GeneratedIsNear(u: nat, low: DiyFp, w: DiyFp, high: DiyFp, digits: string, kappa: int, ok: bool,
                        mk: int, x: real, z: real, y: real)
    requires 0 < u < INFINITY_BITS && w.e <= 0 && Generated(low, w, high, digits, kappa, ok)
    requires UnitValue(w.e, mk) <= Grain(u)
    requires ScaledInputs(u, low, w, high, UnitValue(w.e, mk), x, z, y)
    ensures Near(u, Multiple(Value(digits), kappa - mk))
  {
    hide UnitValue, PowR, Stands, LowerBoundary, UpperBoundary, ValueOf, Step, Unit, DoubleValue, Value,
         NoMultiple, Nearest, SafeAndClosest, Pow2, Grain;
    var unitValue, u10, t := UnitValue(w.e, mk), Unit(kappa), Step(kappa, Pow2(-w.e));
    var d := Value(digits);
    StepValue(kappa, mk, w.e);
    DecimalScale(d, t, u10, unitValue, PowR(10.0, kappa - mk));
    CandidateIsNear(x, y, ValueOf(LowerBoundary(u)), ValueOf(UpperBoundary(u)), low.f, high.f, Grain(u),
                    d * t, Multiple(d, kappa - mk), u10, unitValue);
  }

  /** At its own place, a clear decimal is what digit generation finds, and it succeeds. */
  lemma ClearIsFound(u: nat, low: DiyFp, w: DiyFp, high: DiyFp, digits: string, kappa: int, ok: bool,
                     mk: int, x: real, z: real, y: real, m: nat)
    requires 0 < u < INFINITY_BITS && w.e <= 0 && Generated(low, w, high, digits, kappa, ok)
    requires Clear(u, m, kappa - mk) && UnitValue(w.e, mk) <= Grain(u)
    requires ScaledInputs(u, low, w, high, UnitValue(w.e, mk), x, z, y)
    ensures ok && Value(digits) == m
  {
    hide UnitValue, Step, Unit, Abs, Clear, ScaledInputs, NoMultiple, Value, Pow2, Pow10, AllDigits, Nearest;
    var u10, t := Unit(kappa), Step(kappa, Pow2(-w.e));
    var lo, hi := low.f * u10 - u10, high.f * u10 + u10;
    ClearIsSafe(u, low, w, high, kappa, mk, x, z, y, m);
    assert Candidate(m, t, lo, hi);
    if Value(digits) != m {
      ClearIsNearer(u, low, w, high, kappa, mk, x, z, y, m, Value(digits));
      NearestApplied(Value(digits), m, t, lo, hi, w.f * u10 + u10);
    }
    forall n | Candidate(n, t, lo, hi)
      ensures Abs(m * t - (w.f * u10 - u10)) <= Abs(n * t - (w.f * u10 - u10))
      ensures Abs(m * t - (w.f * u10 + u10)) <= Abs(n * t - (w.f * u10 + u10))
    {
      if n != m {
        ClearIsNearer(u, low, w, high, kappa, mk, x, z, y, m, n);
      }
    }
    NearestEverywhere(m, t, lo, hi, w.f * u10 - u10);
    NearestEverywhere(m, t, lo, hi, w.f * u10 + u10);
  }

  lemma NearestEverywhere(d: int, t: int, lo: int, hi: int, x: int)
    requires forall n :: Candidate(n, t, lo, hi) ==> Abs(d * t - x) <= Abs(n * t - x)
    ensures Nearest(d, t, lo, hi, x)
  {
  }

  /** Where some decimal is clear, it is reported, and with success. */
  ghost predicate FindsClear(u: nat, digits: string, dExp: int, ok: bool)
    requires 0 < u < INFINITY_BITS
  {
    forall m: nat, place: int :: Clear(u, m, place) ==> ok && dExp == place && Value(digits) == m
  }

  lemma ClearSucceeds(u: nat, low: DiyFp, w: DiyFp, high: DiyFp, digits: string, kappa: int, ok: bool,
                      mk: int, x: real, z: real, y: real)
    requires 0 < u < INFINITY_BITS && w.e <= 0 && Generated(low, w, high, digits, kappa, ok) && w.f >= TWO62
    requires ScaledInputs(u, low, w, high, UnitValue(w.e, mk), x, z, y) && NoneFits(u, kappa - mk + 1)
    ensures FindsClear(u, digits, kappa - mk, ok)
  {
    hide UnitValue, Clear, Stands, Near, NoneFits, Generated, Grain, DoubleValue, ValueOf, Multiple, Value;
    GrainIsMore(u, z, w.f, UnitValue(w.e, mk));
    GeneratedIsNear(u, low, w, high, digits, kappa, ok, mk, x, z, y);
    forall m: nat, place: int | Clear(u, m, place)
      ensures ok && kappa - mk == place && Value(digits) == m
    {
      SamePlace(u, m, place, Value(digits), kappa - mk);
      ClearIsFound(u, low, w, high, digits, kappa, ok, mk, x, z, y, m);
    }
  }

  const GRISU_MIN_TARGET_EXP := -60

  /** Scaled by a fitting power, the boundaries and the value are ready for digit generation. */
  lemma ScaledBoundaries(u: nat, bMinus: DiyFp, w: DiyFp, bPlus: DiyFp, c: DiyFp, mk: int)
    requires 0 < u < INFINITY_BITS && Normalised(u, bMinus, w, bPlus)
    requires TWO63 <= c.f < TWO64 && GRISU_MIN_TARGET_EXP - 64 - w.e <= c.e <= -96 - w.e
    ensures ReadyForDigits(Multiply(bMinus, c), Multiply(w, c), Multiply(bPlus, c))
    ensures Multiply(w, c).e == w.e + c.e + 64
    ensures RoundsTo(Multiply(bMinus, c).f, bMinus.f, c.f)
    ensures RoundsTo(Multiply(w, c).f, w.f, c.f) && RoundsTo(Multiply(bPlus, c).f, bPlus.f, c.f)
    ensures 10_000_000_000_000_000 * (Multiply(bPlus, c).f - Multiply(bMinus, c).f + 2) >= Multiply(bPlus, c).f + 1
  {
    hide Combine, ValueOf;
    MultiplyRounds(bMinus, c);
    MultiplyRounds(w, c);
    MultiplyRounds(bPlus, c);
    ScaledReady(w.f, w.f - bMinus.f, bPlus.f - w.f, c.f,
                Multiply(bMinus, c).f, Multiply(w, c).f, Multiply(bPlus, c).f);
    WideEnough(w.f, w.f - bMinus.f, bPlus.f - w.f, c.f, Multiply(bMinus, c).f, Multiply(bPlus, c).f);
  }

  lemma DigitsOfDouble(u: nat, bMinus: DiyFp, w: DiyFp, bPlus: DiyFp, c: DiyFp, mk: int,
                       digits: string, kappa: int, ok: bool)
    requires 0 < u < INFINITY_BITS && Normalised(u, bMinus, w, bPlus)
    requires TWO63 <= c.f < TWO64 && GRISU_MIN_TARGET_EXP - 64 - w.e <= c.e <= -96 - w.e && HalfUnitPower(c, mk)
    requires w.e + c.e + 64 <= 0
    requires Generated(Multiply(bMinus, c), Multiply(w, c), Multiply(bPlus, c), digits, kappa, ok)
    ensures ShortestDigits(u, digits, kappa - mk, ok) && FindsClear(u, digits, kappa - mk, ok)
  {
    hide Exactly, Power, UnitValue, ValueOf, RoundsTo, HalfUnitPower, Stands, NoneFits, Between, ClosestAtItsLength,
         FindsClear;
    var low', w', high' := Multiply(bMinus, c), Multiply(w, c), Multiply(bPlus, c);
    ScaledBoundaries(u, bMinus, w, bPlus, c, mk);
    var x, z, y := Exactly(bMinus.f, Power(mk, c.e)), Exactly(w.f, Power(mk, c.e)), Exactly(bPlus.f, Power(mk, c.e));
    ScaledStands(bMinus, c, mk, low'.f, w'.e, ValueOf(LowerBoundary(u)));
    ScaledStands(w, c, mk, w'.f, w'.e, DoubleValue(u));
    ScaledStands(bPlus, c, mk, high'.f, w'.e, ValueOf(UpperBoundary(u)));
    ShorterDecimalsMiss(u, low', w', high', digits, kappa, ok, mk, x, z, y);
    AtMostSeventeen(|digits|, low'.f, high'.f);
    RoundedRange(w.f, c.f, w'.f);
    ClearSucceeds(u, low', w', high', digits, kappa, ok, mk, x, z, y);
    if ok {
      GoodDigits(u, low', w', high', Value(digits), kappa, mk, x, z, y);
    }
  }

  /** What `grisu3` promises about the digits and the decimal exponent it reports. */
  ghost predicate ShortestDigits(u: nat, digits: string, dExp: int, ok: bool)
    requires 0 < u < INFINITY_BITS
  {
    && 1 <= |digits| <= 17 && AllDigits(digits)
    && NoneFits(u, dExp + 1)
    && (ok ==> digits[0] != '0' && Between(u, Multiple(Value(digits), dExp))
               && ClosestAtItsLength(u, Value(digits), dExp))
  }

  method Grisu3(u: nat, buffer: array<char>) returns (ok: bool, length: nat, dExp: int)
    requires 0 < u < INFINITY_BITS && buffer.Length >= 20
    modifies buffer
    ensures length <= 20 && ShortestDigits(u, buffer[..length], dExp, ok)
    ensures FindsClear(u, buffer[..length], dExp, ok)
    ensures -360 <= dExp <= 360
    ensures forall i :: length <= i < buffer.Length ==> buffer[i] == old(buffer[i])
  {
    hide Normalised, ShortestDigits, FindsClear, ValueOf, Pow2, LowerBoundaryIsCloser, Multiply, Generated,
         HalfUnitPower, CachedPow, CachedIndex, FromBits;
    var dfp := FromBits(u);
    SignificandRange(u);
    Word(dfp.f * 2);
    Word(dfp.f * 4);
    Word(dfp.f * 4 - 1);
    Word(dfp.f * 2 - 1);
    var w := Normalize(dfp);
    var bPlus := Normalize(DiyFp(U64(dfp.f * 2) + 1, dfp.e - 1));
    var bMinus;
    if LowerBoundaryIsCloser(u) {
      bMinus := DiyFp(U64(U64(dfp.f * 4) - 1), dfp.e - 2);
    } else {
      bMinus := DiyFp(U64(U64(dfp.f * 2) - 1), dfp.e - 1);
    }
    assert bMinus == LowerBoundary(u);
    BoundariesNormalised(u, w, bPlus);
    Word(bMinus.f * Pow2(bMinus.e - bPlus.e));
    bMinus := DiyFp(U64(bMinus.f * Pow2(bMinus.e - bPlus.e)), bPlus.e);
    CachedPowFits(GRISU_MIN_TARGET_EXP - 64 - w.e);
    var (c, mk) := CachedPow(GRISU_MIN_TARGET_EXP - 64 - w.e);
    ghost var low0, w0, high0 := bMinus, w, bPlus;
    w := Multiply(w, c);
    bMinus := Multiply(bMinus, c);
    bPlus := Multiply(bPlus, c);
    ScaledBoundaries(u, low0, w0, high0, c, mk);
    var kappa;
    ok, length, kappa := DigitGen(bMinus, w, bPlus, buffer);
    dExp := kappa - mk;
    DigitsOfDouble(u, low0, w0, high0, c, mk, buffer[..length], kappa, ok);
  }
}
