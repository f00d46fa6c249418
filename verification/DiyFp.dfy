/**
 "Do it yourself" floating point: a 64-bit significand and a binary exponent
 (grisu3_math.h). A binary64 is represented by its bits.
 */
module DiyFps {
  import opened Arith

  datatype DiyFp = DiyFp(f: nat, e: int)

  const IMPLICIT_ONE := 0x0010_0000_0000_0000
  const EXP_BIAS := 1075
  const DENORM_EXP := -1074

  /** Subtraction of equally scaled numbers, as uint64 arithmetic. */
  function Minus(x: DiyFp, y: DiyFp): DiyFp
  {
    DiyFp(U64(x.f - y.f), x.e)
  }

  /** Adds up the four 32-bit partial products, every intermediate held in 64 bits. */
  function Combine(ac: int, ad: int, bc: int, bd: int): nat
  {
    var tmp := U64(U64(bd) / TWO32 + U64(ad) % TWO32 + U64(bc) % TWO32);
    var rounded := U64(tmp + TWO31);
    U64(U64(ac) + U64(ad) / TWO32 + U64(bc) / TWO32 + rounded / TWO32)
  }

  function Multiply(x: DiyFp, y: DiyFp): DiyFp
  {
    var a, b := x.f / TWO32, x.f % TWO32;
    var c, d := y.f / TWO32, y.f % TWO32;
    DiyFp(Combine(a * c, a * d, b * c, b * d), x.e + y.e + 64)
  }

  lemma MulBound(a: nat, b: nat, m: nat, n: nat)
    requires a <= m && b <= n
    ensures 0 <= a * b <= m * n
  {
    MulMono(a, b, n);
    MulMono(n, a, m);
  }

  lemma PartialProducts(a: nat, b: nat, c: nat, d: nat)
    ensures (a * TWO32 + b) * (c * TWO32 + d) == a * c * TWO64 + (a * d + b * c) * TWO32 + b * d
  {
    var p, q := a * TWO32, c * TWO32;
    assert (p + b) * (q + d) == p * q + p * d + b * q + b * d;
    assert p * q == a * c * TWO64;
  }

  /** With 32-bit factors no partial sum wraps. */
  lemma CombineRounds(ac: nat, ad: nat, bc: nat, bd: nat)
    requires ac <= (TWO32 - 1) * (TWO32 - 1) && ad <= (TWO32 - 1) * (TWO32 - 1)
    requires bc <= (TWO32 - 1) * (TWO32 - 1) && bd <= (TWO32 - 1) * (TWO32 - 1)
    requires ac * TWO64 + (ad + bc) * TWO32 + bd <= (TWO64 - 1) * (TWO64 - 1)
    ensures Combine(ac, ad, bc, bd) == (ac * TWO64 + (ad + bc) * TWO32 + bd + TWO63) / TWO64
  {
    var adh, adl := ad / TWO32, ad % TWO32;
    var bch, bcl := bc / TWO32, bc % TWO32;
    var bdh, bdl := bd / TWO32, bd % TWO32;
    var t := bdh + adl + bcl + TWO31;
    var th, tl := t / TWO32, t % TWO32;
    var total := ac * TWO64 + (ad + bc) * TWO32 + bd + TWO63;
    assert total == (ac + adh + bch + th) * TWO64 + (tl * TWO32 + bdl);
    Word(ad);
    Word(bc);
    Word(bd);
    Word(ac);
    Word(t);
    Word(t - TWO31);
    Word(ac + adh + bch + th);
  }

  /** The product rounded to the nearest unit, half a unit up; it fits 64 bits. */
  lemma MultiplyRounds(x: DiyFp, y: DiyFp)
    requires x.f < TWO64 && y.f < TWO64
    ensures 0 <= x.f * y.f <= (TWO64 - 1) * (TWO64 - 1)
    ensures Multiply(x, y).f == (x.f * y.f + TWO63) / TWO64 < TWO64
    ensures -TWO63 < Multiply(x, y).f * TWO64 - x.f * y.f <= TWO63
  {
    var a, b := x.f / TWO32, x.f % TWO32;
    var c, d := y.f / TWO32, y.f % TWO32;
    MulBound(a, c, TWO32 - 1, TWO32 - 1);
    MulBound(b, c, TWO32 - 1, TWO32 - 1);
    MulBound(a, d, TWO32 - 1, TWO32 - 1);
    MulBound(b, d, TWO32 - 1, TWO32 - 1);
    MulBound(x.f, y.f, TWO64 - 1, TWO64 - 1);
    PartialProducts(a, b, c, d);
    CombineRounds(a * c, a * d, b * c, b * d);
  }

  // ----- Normalisation -------------------------------------------------------

  /**
   Shifts the significand left until bit 63 is set, ten bits at a time while
   the top ten bits are clear. The value f * 2^e does not change.
   */
  method Normalize(n: DiyFp) returns (r: DiyFp)
    requires 0 < n.f < TWO64
    ensures TWO63 <= r.f < TWO64
    ensures r.e <= n.e && r.f == n.f * Pow2(n.e - r.e)
  {
    r := n;
    NotShifted(n);
    while r.f < 0x40_0000_0000_0000
      invariant 0 < r.f < TWO64 && Shifted(n, r)
      decreases TWO64 - r.f
    {
      hide Shifted;
      ShiftKeepsValue(n, r, 10, 1024);
      Word(r.f * 1024);
      r := DiyFp(U64(r.f * 1024), r.e - 10);
    }
    while r.f < TWO63
      invariant 0 < r.f < TWO64 && Shifted(n, r)
      decreases TWO64 - r.f
    {
      hide Shifted;
      ShiftKeepsValue(n, r, 1, 2);
      Word(r.f * 2);
      r := DiyFp(U64(r.f * 2), r.e - 1);
    }
  }

  /** Shifted left, with the exponent lowered to match. */
  ghost predicate Shifted(n: DiyFp, r: DiyFp) {
    r.e <= n.e && r.f == n.f * Pow2(n.e - r.e)
  }

  lemma NotShifted(n: DiyFp)
    ensures Shifted(n, n)
  {
    assert n.f * Pow2(0) == n.f;
  }

  lemma ShiftKeepsValue(n: DiyFp, r: DiyFp, j: nat, factor: nat)
    requires Shifted(n, r) && (if j == 1 then factor == 2 else j == 10 && factor == 1024)
    ensures Shifted(n, DiyFp(r.f * factor, r.e - j))
  {
    hide Pow2;
    ScaleUp(n.f, n.e - r.e, j);
  }

  lemma ScaleUp(f: nat, k: nat, j: nat)
    ensures f * Pow2(k + j) == f * Pow2(k) * Pow2(j)
    ensures Pow2(1) == 2 && Pow2(10) == 1024
  {
    Pow2Adds(k, j);
    MulAssoc(f, Pow2(k), Pow2(j));
    assert Pow2(5) == 32;
  }

  // ----- Conversions from and to the bits of a binary64 ----------------------

  /** Significand and exponent of a non-negative binary64 given by its bits. */
  function FromBits(u: nat): DiyFp
    requires u < TWO64
  {
    var fraction, biased := u % IMPLICIT_ONE, u / IMPLICIT_ONE % 0x800;
    if biased == 0 then DiyFp(fraction, 1 - EXP_BIAS)
    else DiyFp(fraction + IMPLICIT_ONE, biased - EXP_BIAS)
  }

  /** The first loop of the conversion to double: drop bits until 53 remain. */
  function Narrow(v: DiyFp): DiyFp
    decreases v.f
  {
    if v.f >= 2 * IMPLICIT_ONE then Narrow(DiyFp(v.f / 2, v.e + 1)) else v
  }

  /** The second loop: move the leading bit up to bit 52, unless the exponent bottoms out. */
  function Widen(v: DiyFp): (r: DiyFp)
    requires DENORM_EXP <= v.e
    ensures DENORM_EXP <= r.e
    decreases v.e - DENORM_EXP
  {
    if v.e > DENORM_EXP && v.f / IMPLICIT_ONE % 2 == 0
    then Widen(DiyFp(U64(v.f * 2), v.e - 1))
    else v
  }

  function Pack(v: DiyFp): nat
    requires DENORM_EXP <= v.e
  {
    var biased := if v.e == DENORM_EXP && v.f / IMPLICIT_ONE % 2 == 0 then 0 else v.e + EXP_BIAS;
    U64(v.f % IMPLICIT_ONE + U64(biased * IMPLICIT_ONE))
  }

  /** Bits of the double that a DiyFp is cast to. */
  function ToBits(n: DiyFp): nat
  {
    var v := Narrow(n);
    if v.e < DENORM_EXP then 0 else Pack(Widen(v))
  }

  method CastToBits(n: DiyFp) returns (u: nat)
    requires n.f < TWO64
    ensures u == ToBits(n)
  {
    var v := n;
    while v.f > IMPLICIT_ONE + (IMPLICIT_ONE - 1)
      invariant Narrow(v) == Narrow(n)
      decreases v.f
    {
      v := DiyFp(v.f / 2, v.e + 1);
    }
    if v.e < DENORM_EXP {
      return 0;
    }
    while v.e > DENORM_EXP && v.f / IMPLICIT_ONE % 2 == 0
      invariant DENORM_EXP <= v.e && Widen(v) == Widen(Narrow(n))
      decreases v.e - DENORM_EXP
    {
      v := DiyFp(U64(v.f * 2), v.e - 1);
    }
    u := Pack(v);
  }

  /** Every finite non-negative double survives the trip through a DiyFp. */
  lemma CastRoundTrip(u: nat)
    requires u < 0x7FF * IMPLICIT_ONE
    ensures ToBits(FromBits(u)) == u
  {
    var fraction, biased := u % IMPLICIT_ONE, u / IMPLICIT_ONE;
    assert u == biased * IMPLICIT_ONE + fraction && biased < 0x7FF;
    hide Pack;
    var v := FromBits(u);
    assert v.f < 2 * IMPLICIT_ONE && DENORM_EXP <= v.e;
    assert biased > 0 ==> v.f / IMPLICIT_ONE == 1;
    assert Narrow(v) == v && Widen(v) == v;
    PackUndoes(biased, fraction, v);
  }

  lemma PackUndoes(biased: nat, fraction: nat, v: DiyFp)
    requires fraction < IMPLICIT_ONE && biased < 0x7FF
    requires v == if biased == 0 then DiyFp(fraction, 1 - EXP_BIAS)
                  else DiyFp(fraction + IMPLICIT_ONE, biased - EXP_BIAS)
    ensures DENORM_EXP <= v.e && Pack(v) == biased * IMPLICIT_ONE + fraction
  {
  }

  /** Two numbers denote the same value. */
  ghost predicate SameValue(a: DiyFp, b: DiyFp)
  {
    if a.e >= b.e then a.f * Pow2(a.e - b.e) == b.f else a.f == b.f * Pow2(b.e - a.e)
  }

  /** Narrowing loses nothing. */
  ghost predicate Exact(n: DiyFp)
    decreases n.f
  {
    n.f < 2 * IMPLICIT_ONE || (n.f % 2 == 0 && Exact(DiyFp(n.f / 2, n.e + 1)))
  }

  lemma {:induction false} NarrowKeepsValue(n: DiyFp)
    requires n.f > 0
    ensures 0 < Narrow(n).f < 2 * IMPLICIT_ONE && n.e <= Narrow(n).e
    ensures Narrow(n).f * Pow2(Narrow(n).e - n.e) <= n.f
    ensures Exact(n) <==> n.f == Narrow(n).f * Pow2(Narrow(n).e - n.e)
    decreases n.f
  {
    if n.f >= 2 * IMPLICIT_ONE {
      var half := DiyFp(n.f / 2, n.e + 1);
      NarrowKeepsValue(half);
      TwiceTheProduct(Narrow(half).f, Pow2(Narrow(half).e - half.e), Pow2(Narrow(n).e - n.e));
    }
  }

  lemma TwiceTheProduct(f: nat, p: nat, q: nat)
    requires q == 2 * p
    ensures f * q == 2 * (f * p)
  {
  }

  lemma {:induction false} WidenKeepsValue(v: DiyFp)
    requires 0 < v.f < 2 * IMPLICIT_ONE && DENORM_EXP <= v.e
    ensures var w := Widen(v);
      DENORM_EXP <= w.e <= v.e && 0 < w.f < 2 * IMPLICIT_ONE
      && (w.f >= IMPLICIT_ONE || w.e == DENORM_EXP)
      && w.f == v.f * Pow2(v.e - w.e)
    decreases v.e - DENORM_EXP
  {
    hide Pow2, U64;
    LeadingBit(v.f);
    Word(v.f * 2);
    if v.e > DENORM_EXP && v.f < IMPLICIT_ONE {
      var u := DiyFp(v.f * 2, v.e - 1);
      WidenKeepsValue(u);
      var w := Widen(v);
      assert w == Widen(u);
      TwiceAsMuch(v.f, u.e - w.e);
    } else {
      AsMuch(v.f);
    }
  }

  lemma LeadingBit(f: nat)
    requires f < 2 * IMPLICIT_ONE
    ensures f / IMPLICIT_ONE % 2 == if f < IMPLICIT_ONE then 0 else 1
  {
  }

  lemma TwiceAsMuch(f: nat, n: nat)
    ensures f * 2 * Pow2(n) == f * Pow2(n + 1)
  {
    MulAssoc(f, 2, Pow2(n));
  }

  lemma AsMuch(f: nat)
    ensures f * Pow2(0) == f
  {
  }

  lemma PackUnpack(w: DiyFp)
    requires DENORM_EXP <= w.e <= 971 && 0 < w.f < 2 * IMPLICIT_ONE
    requires w.f >= IMPLICIT_ONE || w.e == DENORM_EXP
    ensures 0 < Pack(w) < 0x7FF * IMPLICIT_ONE && FromBits(Pack(w)) == w
  {
    var biased := if w.f < IMPLICIT_ONE then 0 else w.e + EXP_BIAS;
    var fraction := if w.f < IMPLICIT_ONE then w.f else w.f - IMPLICIT_ONE;
    PackIs(w, biased, fraction);
    DivModUnique(Pack(w), IMPLICIT_ONE, biased, fraction);
  }

  lemma PackIs(w: DiyFp, biased: int, fraction: nat)
    requires DENORM_EXP <= w.e <= 971 && 0 < w.f < 2 * IMPLICIT_ONE
    requires w.f >= IMPLICIT_ONE || w.e == DENORM_EXP
    requires biased == if w.f < IMPLICIT_ONE then 0 else w.e + EXP_BIAS
    requires fraction == if w.f < IMPLICIT_ONE then w.f else w.f - IMPLICIT_ONE
    ensures 0 <= biased < 0x7FF && Pack(w) == biased * IMPLICIT_ONE + fraction
  {
    LeadingBit(w.f);
    DivModUnique(w.f, IMPLICIT_ONE, if w.f < IMPLICIT_ONE then 0 else 1, fraction);
    Word(biased * IMPLICIT_ONE);
    Word(fraction + biased * IMPLICIT_ONE);
  }

  /** A number in units of 2^e0. */
  function Scaled(x: DiyFp, e0: int): nat
    requires e0 <= x.e
  {
    x.f * Pow2(x.e - e0)
  }

  lemma ScaledStep(x: DiyFp, e1: int, e0: int)
    requires e0 <= e1 <= x.e
    ensures Scaled(x, e0) == Scaled(x, e1) * Pow2(e1 - e0)
  {
    Pow2Adds(x.e - e1, e1 - e0);
    MulAssoc(x.f, Pow2(x.e - e1), Pow2(e1 - e0));
  }

  /** In a unit that divides both, having the same value is being the same multiple. */
  lemma SameMultiple(a: DiyFp, b: DiyFp, e0: int)
    requires e0 <= a.e && e0 <= b.e
    ensures SameValue(a, b) <==> Scaled(a, e0) == Scaled(b, e0)
  {
    var e1 := if a.e >= b.e then b.e else a.e;
    ScaledStep(a, e1, e0);
    ScaledStep(b, e1, e0);
    AsMuch(a.f);
    AsMuch(b.f);
    SameFactor(Scaled(a, e1), Scaled(b, e1), Pow2(e1 - e0));
  }

  lemma SameFactor(x: nat, y: nat, p: nat)
    requires p > 0
    ensures x * p == y * p <==> x == y
  {
  }

  /** A smaller exponent and no larger significand: the smaller number. */
  lemma LessScaled(x: DiyFp, w: DiyFp, e0: int)
    requires x.f <= w.f && 0 < w.f && e0 <= x.e < w.e
    ensures Scaled(x, e0) < Scaled(w, e0)
  {
    var p, q := Pow2(x.e - e0), Pow2(w.e - e0);
    Pow2Grows(x.e - e0 + 1, w.e - e0);
    assert p < q;
    MulMono(p, x.f, w.f);
    assert w.f * p < w.f * q;
  }

  /** Bits of a finite double that is not negative. */
  predicate IsFinite(u: nat) { u < 0x7FF * IMPLICIT_ONE }

  /** Past the largest exponent, what is packed is an infinity, negative, or a smaller number. */
  lemma PackTooLarge(w: DiyFp)
    requires 971 < w.e && IMPLICIT_ONE <= w.f < 2 * IMPLICIT_ONE
    ensures IsFinite(Pack(w)) ==> FromBits(Pack(w)).f <= w.f && DENORM_EXP <= FromBits(Pack(w)).e < w.e
  {
    var biased := w.e + EXP_BIAS;
    var k, low := biased / 4096, biased % 4096;
    assert U64(biased * IMPLICIT_ONE) == low * IMPLICIT_ONE by {
      assert biased * IMPLICIT_ONE == k * TWO64 + low * IMPLICIT_ONE;
      DivModUnique(biased * IMPLICIT_ONE, TWO64, k, low * IMPLICIT_ONE);
    }
    var fraction := w.f % IMPLICIT_ONE;
    assert Pack(w) == low * IMPLICIT_ONE + fraction;
    if low < 0x7FF {
      DivModUnique(Pack(w), IMPLICIT_ONE, low, fraction);
      assert k >= 1;
    }
  }

  lemma {:induction false} WidenZero(v: DiyFp)
    requires DENORM_EXP <= v.e && v.f == 0
    ensures Widen(v) == DiyFp(0, DENORM_EXP)
    decreases v.e - DENORM_EXP
  {
    if v.e > DENORM_EXP {
      WidenZero(DiyFp(0, v.e - 1));
    }
  }

  lemma ZeroCasts(n: DiyFp)
    requires n.f == 0
    ensures ToBits(n) == 0 && SameValue(FromBits(0), n)
  {
    if DENORM_EXP <= n.e {
      WidenZero(n);
    }
    assert FromBits(0) == DiyFp(0, DENORM_EXP);
  }

  /** The cast results in a finite double of the same value. */
  ghost predicate CastKeepsValue(n: DiyFp) {
    IsFinite(ToBits(n)) && ToBits(n) < TWO64 && SameValue(FromBits(ToBits(n)), n)
  }

  /**
   The cast keeps the value if and only if narrowing loses no bit, the exponent
   is then not below that of the subnormals, and once widened not above that of
   the largest double. Below, such as for a normalised subnormal, it is 0.
   */
  lemma CastKeepsValueIff(n: DiyFp)
    requires n.f < TWO64
    ensures CastKeepsValue(n)
      <==> n.f == 0 || (Exact(n) && DENORM_EXP <= Narrow(n).e && Widen(Narrow(n)).e <= 971)
    ensures Narrow(n).e < DENORM_EXP ==> ToBits(n) == 0
  {
    hide Widen, Narrow, Exact, Pack, FromBits, SameValue;
    if n.f == 0 {
      ZeroCasts(n);
    } else {
      NarrowKeepsValue(n);
      if DENORM_EXP <= Narrow(n).e {
        CastOfWidened(n, Narrow(n), Widen(Narrow(n)));
      } else {
        ZeroIsNot(n);
      }
    }
  }

  lemma ZeroIsNot(n: DiyFp)
    requires 0 < n.f
    ensures !SameValue(FromBits(0), n)
  {
    var zero := FromBits(0);
    assert zero == DiyFp(0, DENORM_EXP);
    if zero.e >= n.e {
      assert 0 * Pow2(zero.e - n.e) == 0;
    } else {
      MulMono(Pow2(n.e - zero.e), 1, n.f);
    }
  }

  lemma CastOfWidened(n: DiyFp, v: DiyFp, w: DiyFp)
    requires 0 < n.f < TWO64 && v == Narrow(n) && DENORM_EXP <= v.e && w == Widen(v)
    ensures CastKeepsValue(n) <==> Exact(n) && w.e <= 971
  {
    hide Widen, Narrow, Exact, Pack, FromBits, SameValue, Scaled, Pow2, IsFinite;
    NarrowKeepsValue(n);
    WidenKeepsValue(v);
    var e0 := Lowest(n.e, w.e);
    ScaledParts(n, v, w, e0);
    if w.e <= 971 {
      PackUnpack(w);
      FiniteBelow(Pack(w));
      SameMultiple(w, n, e0);
    } else {
      PackTooLarge(w);
      FiniteBelow(Pack(w));
      if IsFinite(Pack(w)) {
        var x := FromBits(Pack(w));
        LessScaled(x, w, e0);
        SameMultiple(x, n, e0);
      }
    }
  }

  function Lowest(a: int, b: int): (r: int)
    ensures r <= a && r <= b && r <= DENORM_EXP
  {
    var r := if a < b then a else b;
    if r < DENORM_EXP then r else DENORM_EXP
  }

  lemma FiniteBelow(u: nat)
    ensures IsFinite(u) <==> u < 0x7FF * IMPLICIT_ONE
  {
  }

  /** In a common unit: widening changes nothing, and narrowing nothing exactly when it is exact. */
  lemma ScaledParts(n: DiyFp, v: DiyFp, w: DiyFp, e0: int)
    requires e0 <= n.e <= v.e && e0 <= w.e <= v.e
    requires v.f * Pow2(v.e - n.e) <= n.f && w.f == v.f * Pow2(v.e - w.e)
    ensures Scaled(w, e0) <= Scaled(n, e0)
    ensures Scaled(w, e0) == Scaled(n, e0) <==> n.f == v.f * Pow2(v.e - n.e)
  {
    hide Scaled, Pow2;
    ScaledFrom(v, n.e, e0);
    ScaledFrom(v, w.e, e0);
    ScaledFrom(n, n.e, e0);
    ScaledFrom(w, w.e, e0);
    InUnits(Scaled(v, n.e), n.f, Pow2(n.e - e0));
  }

  /** In steps: first in units of 2^e1, then each of those in units of 2^e0. */
  lemma ScaledFrom(x: DiyFp, e1: int, e0: int)
    requires e0 <= e1 <= x.e
    ensures Scaled(x, e1) == x.f * Pow2(x.e - e1) && Scaled(x, e0) == Scaled(x, e1) * Pow2(e1 - e0)
    ensures e1 == x.e ==> Scaled(x, e1) == x.f
  {
    ScaledStep(x, e1, e0);
    AsMuch(x.f);
  }

  lemma InUnits(x: nat, y: nat, p: nat)
    requires p > 0
    ensures (x <= y ==> x * p <= y * p) && (x * p == y * p <==> x == y)
  {
  }

  /** The smallest subnormal, 2^-1074, once normalised, is flushed to zero. */
  lemma NormalisedSubnormalIsFlushed()
    ensures var n := DiyFp(TWO63, -1137);
      SameValue(n, FromBits(1)) && ToBits(n) == 0
  {
    var n := DiyFp(TWO63, -1137);
    Pow2Literals();
    NarrowHalves(n, 11);
  }

  lemma {:induction false} NarrowHalves(n: DiyFp, k: nat)
    requires n.f == IMPLICIT_ONE * Pow2(k)
    ensures Narrow(n) == DiyFp(IMPLICIT_ONE, n.e + k)
    decreases k
  {
    if k > 0 {
      NarrowHalves(DiyFp(n.f / 2, n.e + 1), k - 1);
    }
  }

  // ----- The largest power of ten ----------------------------------------------

  const POW10_CACHE: seq<nat> :=
    [0, 1, 10, 100, 1000, 10000, 100000, 1000000, 10000000, 100000000, 1000000000]

  /** Index one past the digit count guess, and the power of ten found there. */
  function LargestPow10(n: nat, nBits: nat): (r: (int, nat))
    requires nBits <= 32
  {
    var guess := (nBits + 1) * 1233 / 4096 + 1;
    var kappa := if n < POW10_CACHE[guess] then guess - 1 else guess;
    (kappa, POW10_CACHE[kappa])
  }

  lemma Pow2Literals()
    ensures Pow2(2) == 4 && Pow2(4) == 16 && Pow2(5) == 32 && Pow2(7) == 128 && Pow2(8) == 256
    ensures Pow2(11) == 2048 && Pow2(12) == 4096 && Pow2(14) == 16384 && Pow2(15) == 32768
    ensures Pow2(17) == 131072 && Pow2(18) == 262144 && Pow2(21) == 2097152 && Pow2(22) == 4194304
    ensures Pow2(24) == 16777216 && Pow2(25) == 33554432 && Pow2(27) == 134217728
    ensures Pow2(28) == 268435456 && Pow2(32) == TWO32 && Pow2(60) == TWO60 && Pow2(63) == TWO63
  {
    assert Pow2(7) == 128;
    Pow2Adds(7, 7);
    Pow2Adds(14, 7);
    Pow2Adds(21, 7);
    assert Pow2(32) == TWO32 by { assert Pow2(28) == 268435456; }
    Pow2Adds(32, 28);
  }

  lemma Pow10Literals()
    ensures Pow10(0) == 1 && Pow10(1) == 10 && Pow10(2) == 100 && Pow10(3) == 1000
    ensures Pow10(4) == 10000 && Pow10(5) == 100000 && Pow10(6) == 1000000
    ensures Pow10(7) == 10000000 && Pow10(8) == 100000000 && Pow10(9) == 1000000000
    ensures Pow10(10) == 10000000000
  {
    assert Pow10(5) == 100000;
  }

  /** For a number whose top bit is one of the two highest of `nBits`, the guess is exact. */
  lemma LargestPow10IsExact(n: nat, nBits: nat)
    requires 4 <= nBits <= 32 && Pow2(nBits - 2) <= n < Pow2(nBits)
    ensures var (kappa, power) := LargestPow10(n, nBits);
      1 <= kappa <= 10 && power == Pow10(kappa - 1) <= n < Pow10(kappa)
  {
    hide Pow2, Pow10;
    Pow2Literals();
    Pow10Literals();
    if
    case nBits <= 5 => Between(nBits, 4, 5);
    case 6 <= nBits <= 8 => Between(nBits, 6, 8);
    case 9 <= nBits <= 12 => Between(nBits, 9, 12);
    case 13 <= nBits <= 15 => Between(nBits, 13, 15);
    case 16 <= nBits <= 18 => Between(nBits, 16, 18);
    case 19 <= nBits <= 22 => Between(nBits, 19, 22);
    case 23 <= nBits <= 25 => Between(nBits, 23, 25);
    case 26 <= nBits <= 28 => Between(nBits, 26, 28);
    case 29 <= nBits => Between(nBits, 29, 32);
  }

  lemma Between(k: nat, lo: nat, hi: nat)
    requires 2 <= lo <= k <= hi
    ensures Pow2(lo - 2) <= Pow2(k - 2) && Pow2(k) <= Pow2(hi)
  {
    Pow2Grows(lo - 2, k - 2);
    Pow2Grows(k, hi);
  }
}
