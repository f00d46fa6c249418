/**
 Powers of ten and of two, and the few facts about division that the
 fixed-width code keeps using. Machine words are modelled as naturals; a
 wrap-around is written out with `U64`.
 */
module Arith {

  const TWO31 := 0x8000_0000
  const TWO32 := 0x1_0000_0000
  const TWO60 := 0x1000_0000_0000_0000
  const TWO62 := 0x4000_0000_0000_0000
  const TWO63 := 0x8000_0000_0000_0000
  const TWO64 := 0x1_0000_0000_0000_0000

  /** The value an unsigned 64-bit variable holds after being assigned `x`. */
  function U64(x: int): (r: nat)
    ensures r < TWO64
  {
    x % TWO64
  }

  /** The same for 32 bits. */
  function U32(x: int): (r: nat)
    ensures r < TWO32
  {
    x % TWO32
  }

  lemma Word(x: nat)
    requires x < TWO64
    ensures U64(x) == x
  {
  }

  function Pow10(n: nat): (r: nat)
    ensures r >= 1
  {
    if n == 0 then 1 else 10 * Pow10(n - 1)
  }

  function Pow2(n: nat): (r: nat)
    ensures r >= 1
  {
    if n == 0 then 1 else 2 * Pow2(n - 1)
  }

  lemma {:induction false} Pow2Adds(a: nat, b: nat)
    ensures Pow2(a + b) == Pow2(a) * Pow2(b)
  {
    if a > 0 {
      Pow2Adds(a - 1, b);
    }
  }

  lemma {:induction false} Pow10Adds(a: nat, b: nat)
    ensures Pow10(a + b) == Pow10(a) * Pow10(b)
  {
    if a > 0 {
      Pow10Adds(a - 1, b);
    }
  }

  lemma {:induction false} Pow10Grows(a: nat, b: nat)
    requires a <= b
    ensures Pow10(a) <= Pow10(b)
  {
    if a < b {
      Pow10Grows(a, b - 1);
    }
  }

  lemma {:induction false} Pow2Grows(a: nat, b: nat)
    requires a <= b
    ensures Pow2(a) <= Pow2(b)
  {
    if a < b {
      Pow2Grows(a, b - 1);
    }
  }

  lemma Pow10Step(n: nat)
    ensures Pow10(n + 1) == 10 * Pow10(n)
  {
  }

  lemma MulMono(a: nat, x: int, y: int)
    requires x <= y
    ensures a * x <= a * y
  {
  }

  lemma MulAssoc(a: int, b: int, c: int)
    ensures a * b * c == a * (b * c)
  {
  }

  lemma MulSwap(a: int, b: int, c: int)
    ensures a * (b * c) == b * (a * c)
  {
  }

  /** Euclidean division, stated for a divisor that is not a literal. */
  lemma DivMod(x: nat, m: nat)
    requires m > 0
    ensures x == (x / m) * m + x % m && 0 <= x % m < m && 0 <= x / m
  {
  }

  /** The quotient and remainder are the only pair of their kind. */
  lemma DivModUnique(x: int, m: nat, q: int, r: int)
    requires m > 0 && x == q * m + r && 0 <= r < m
    ensures x / m == q && x % m == r
  {
    var q', r' := x / m, x % m;
    assert x == q' * m + r' && 0 <= r' < m;
    assert (q - q') * m == r' - r;
    if q - q' >= 1 {
      MulMono(m, 1, q - q');
    } else if q - q' <= -1 {
      MulMono(m, q - q', -1);
    }
  }
}
