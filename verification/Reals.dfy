/** Integer powers of a positive real, for stating what scaled integers denote. */
module Reals {
  import opened Arith

  function PowR(b: real, e: int): (r: real)
    requires b > 0.0
    ensures r > 0.0
    decreases if e < 0 then -e else e
  {
    if e == 0 then 1.0
    else if e > 0 then b * PowR(b, e - 1)
    else PowR(b, e + 1) / b
  }

  function AbsR(x: real): (r: real)
    ensures r >= 0.0
  {
    if x < 0.0 then -x else x
  }

  lemma PowRSucc(b: real, e: int)
    requires b > 0.0
    ensures PowR(b, e + 1) == b * PowR(b, e)
  {
  }

  lemma {:induction false} PowRUp(b: real, n: nat, y: int)
    requires b > 0.0
    ensures PowR(b, n + y) == PowR(b, n) * PowR(b, y)
  {
    if n > 0 {
      PowRUp(b, n - 1, y);
      PowRSucc(b, n - 1 + y);
      ChainR(b, PowR(b, n - 1), PowR(b, n), PowR(b, y), PowR(b, n - 1 + y));
    }
  }

  lemma ChainR(b: real, p: real, bp: real, q: real, r: real)
    requires r == p * q && bp == b * p
    ensures b * r == bp * q
  {
  }

  lemma PowRAdds(b: real, x: int, y: int)
    requires b > 0.0
    ensures PowR(b, x + y) == PowR(b, x) * PowR(b, y)
  {
    hide PowR;
    if x >= 0 {
      PowRUp(b, x, y);
    } else {
      var n := -x;
      PowRUp(b, n, x + y);
      PowRUp(b, n, x);
      PowRZero(b);
      UndoR(PowR(b, n), PowR(b, x), PowR(b, x + y), PowR(b, y));
    }
  }

  lemma PowRZero(b: real)
    requires b > 0.0
    ensures PowR(b, 0) == 1.0
  {
  }

  lemma UndoR(p: real, q: real, r: real, s: real)
    requires p * q == 1.0 && s == p * r
    ensures r == q * s
  {
    ChainR(q, p, 1.0, r, s);
  }

  lemma {:induction false} PowRIsPow2(n: nat)
    ensures PowR(2.0, n) == Pow2(n) as real
  {
    if n > 0 {
      PowRIsPow2(n - 1);
    }
  }

  lemma {:induction false} PowRIsPow10(n: nat)
    ensures PowR(10.0, n) == Pow10(n) as real
  {
    if n > 0 {
      PowRIsPow10(n - 1);
    }
  }

  lemma ScaleLess(s: real, x: real, y: real)
    requires s > 0.0
    ensures x < y <==> x * s < y * s
    ensures x <= y <==> x * s <= y * s
  {
  }

  lemma ScaleAbs(s: real, x: real, y: real)
    requires s > 0.0
    ensures AbsR(x * s - y * s) == AbsR(x - y) * s
  {
  }
}
