/**
 The real numbers that non-negative binary64 values denote, the boundaries of
 the interval of reals that round to one of them, and why staying strictly
 between the boundaries identifies the double.
 */
module Doubles {
  import opened Arith
  import opened DiyFps
  import opened Reals

  const INFINITY_BITS := 0x7FF * IMPLICIT_ONE

  function ValueOf(x: DiyFp): real {
    x.f as real * PowR(2.0, x.e)
  }

  function DoubleValue(u: nat): real
    requires u < TWO64
  {
    ValueOf(FromBits(u))
  }

  /** The lower neighbour is only half as far away. */
  predicate LowerBoundaryIsCloser(u: nat)
    requires u < TWO64
  {
    u % IMPLICIT_ONE == 0 && u / IMPLICIT_ONE % 0x800 != 0
  }

  function UpperBoundary(u: nat): DiyFp
    requires u < TWO64
  {
    var v := FromBits(u);
    DiyFp(2 * v.f + 1, v.e - 1)
  }

  function LowerBoundary(u: nat): DiyFp
    requires 0 < u < INFINITY_BITS
  {
    var v := FromBits(u);
    if LowerBoundaryIsCloser(u) then DiyFp(4 * v.f - 1, v.e - 2) else DiyFp(2 * v.f - 1, v.e - 1)
  }

  /** Consecutive bit patterns are one unit in the last place apart. */
  lemma NextDouble(u: nat)
    requires u + 1 < INFINITY_BITS
    ensures DoubleValue(u + 1) == DoubleValue(u) + PowR(2.0, FromBits(u).e)
  {
    hide PowR, FromBits;
    var v, n := FromBits(u), FromBits(u + 1);
    NextBits(u);
    PowRSucc(2.0, v.e);
    NextValue(v.f, n.f, PowR(2.0, v.e), PowR(2.0, n.e));
  }

  lemma NextBits(u: nat)
    requires u + 1 < INFINITY_BITS
    ensures var v, n := FromBits(u), FromBits(u + 1);
      (n.e == v.e && n.f == v.f + 1) || (n.e == v.e + 1 && 2 * n.f == v.f + 1)
  {
    Split(u);
    if u % IMPLICIT_ONE == IMPLICIT_ONE - 1 {
      assert u + 1 == (u / IMPLICIT_ONE + 1) * IMPLICIT_ONE;
    }
  }

  lemma NextValue(f: nat, f': nat, p: real, p': real)
    requires (p' == p && f' == f + 1) || (p' == 2.0 * p && 2 * f' == f + 1)
    ensures f' as real * p' == f as real * p + p
  {
    if p' == p && f' == f + 1 {
      Spread(f as real, 1.0, 1.0, p, p);
    } else {
      assert 2.0 * f' as real == f as real + 1.0;
      Spread(f as real, 1.0, 1.0, p, p);
      Spread(f' as real, 2.0, 0.0, p, p');
    }
  }

  lemma Split(u: nat)
    requires u < INFINITY_BITS
    ensures var hi, lo := u / IMPLICIT_ONE, u % IMPLICIT_ONE;
      u == hi * IMPLICIT_ONE + lo && 0 <= hi < 0x7FF && hi % 0x800 == hi
  {
  }

  lemma {:induction false} DoublesIncrease(u: nat, k: nat)
    requires u + 1 + k < INFINITY_BITS
    ensures DoubleValue(u) < DoubleValue(u + 1) <= DoubleValue(u + 1 + k)
    decreases k
  {
    NextDouble(u);
    if k > 0 {
      DoublesIncrease(u, k - 1);
      NextDouble(u + k);
    }
  }

  lemma BoundaryValues(u: nat)
    requires 0 < u < INFINITY_BITS
    ensures var e := FromBits(u).e;
      && ValueOf(UpperBoundary(u)) == DoubleValue(u) + PowR(2.0, e - 1)
      && ValueOf(LowerBoundary(u)) == DoubleValue(u) - PowR(2.0, if LowerBoundaryIsCloser(u) then e - 2 else e - 1)
      && PowR(2.0, e) == 2.0 * PowR(2.0, e - 1) == 4.0 * PowR(2.0, e - 2)
  {
    hide PowR, FromBits, LowerBoundaryIsCloser;
    var v := FromBits(u);
    PowRSucc(2.0, v.e - 2);
    PowRSucc(2.0, v.e - 1);
    Expand(v.f, PowR(2.0, v.e - 2), PowR(2.0, v.e - 1), PowR(2.0, v.e));
  }

  lemma Expand(f: nat, q: real, half: real, one: real)
    requires half == 2.0 * q && one == 2.0 * half
    ensures (2 * f + 1) as real * half == f as real * one + half
    ensures (2 * f - 1) as real * half == f as real * one - half
    ensures (4 * f - 1) as real * q == f as real * one - q
  {
    var g := f as real;
    assert (2 * f + 1) as real == 2.0 * g + 1.0 && (2 * f - 1) as real == 2.0 * g - 1.0;
    assert (4 * f - 1) as real == 4.0 * g - 1.0;
    Spread(g, 2.0, 1.0, half, one);
    Spread(g, 2.0, -1.0, half, one);
    Spread(g, 4.0, -1.0, q, one);
  }

  lemma Spread(g: real, k: real, c: real, q: real, one: real)
    requires one == k * q
    ensures (k * g + c) * q == g * one + c * q
  {
  }

  /** The boundaries lie no further out than half way to the neighbours. */
  lemma BoundariesAreHalfWay(u: nat)
    requires 0 < u < INFINITY_BITS
    ensures u + 1 < INFINITY_BITS ==>
      2.0 * ValueOf(UpperBoundary(u)) == DoubleValue(u) + DoubleValue(u + 1)
    ensures 2.0 * ValueOf(LowerBoundary(u)) >= DoubleValue(u - 1) + DoubleValue(u)
  {
    hide FromBits, PowR, LowerBoundaryIsCloser, DoubleValue, ValueOf;
    BoundaryValues(u);
    if u + 1 < INFINITY_BITS {
      NextDouble(u);
    }
    NextDouble(u - 1);
    ExponentBelow(u);
  }

  /** The double before has the same exponent, or the one below where the lower boundary is closer. */
  lemma ExponentBelow(u: nat)
    requires 0 < u < INFINITY_BITS
    ensures var v, p := FromBits(u), FromBits(u - 1);
      p.e == v.e || (p.e == v.e - 1 && LowerBoundaryIsCloser(u))
  {
    Split(u);
    Split(u - 1);
    if LowerBoundaryIsCloser(u) {
      assert u - 1 == (u / IMPLICIT_ONE - 1) * IMPLICIT_ONE + (IMPLICIT_ONE - 1);
    }
  }

  /**
   A real strictly between the boundaries of a double is nearer to it than to
   any other non-negative double: a correctly rounding reader gets it back.
   */
  lemma BetweenBoundariesIsNearest(u: nat, other: nat, x: real)
    requires 0 < u < INFINITY_BITS && other < INFINITY_BITS && other != u
    requires ValueOf(LowerBoundary(u)) < x < ValueOf(UpperBoundary(u))
    ensures AbsR(x - DoubleValue(u)) < AbsR(x - DoubleValue(other))
  {
    hide ValueOf, LowerBoundary, UpperBoundary, DoubleValue, FromBits, PowR;
    BoundariesAreHalfWay(u);
    if other > u {
      DoublesIncrease(u, other - u - 1);
    } else {
      DoublesIncrease(u - 1, 0);
      if other < u - 1 {
        DoublesIncrease(other, u - 2 - other);
      }
    }
  }
}
