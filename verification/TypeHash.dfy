/**
 Type hashes and file identifiers (flatcc_identifier.h): the FNV-1a hash of a
 type name, its four little-endian identifier bytes, and the dispersing
 permutation. Words are natural numbers below 2^32, wrapped after every
 multiplication.
 */
module TypeHash {
  import opened Arith

  // ----- Exclusive or --------------------------------------------------------------------

  /** Bit by bit. */
  function Xor(a: nat, b: nat): (r: nat)
    decreases a + b
  {
    if a == 0 && b == 0 then 0 else (a % 2 + b % 2) % 2 + 2 * Xor(a / 2, b / 2)
  }

  lemma XorParts(a: nat, b: nat)
    ensures Xor(a, b) % 2 == (a % 2 + b % 2) % 2 && Xor(a, b) / 2 == Xor(a / 2, b / 2)
  {
  }

  lemma SameBit(x: nat, y: nat)
    requires x < 2 && y < 2
    ensures (x + (x + y) % 2) % 2 == y
  {
  }

  lemma {:induction false} XorUndoesItself(a: nat, b: nat)
    ensures Xor(a, Xor(a, b)) == b
    decreases a + b
  {
    if a + b > 0 {
      hide Xor;
      var r := Xor(a, b);
      XorUndoesItself(a / 2, b / 2);
      XorParts(a, b);
      XorParts(a, r);
      SameBit(a % 2, b % 2);
      assert Xor(a, r) / 2 == b / 2;
    }
  }

  lemma {:induction false} XorBound(a: nat, b: nat, n: nat)
    requires a < Pow2(n) && b < Pow2(n)
    ensures Xor(a, b) < Pow2(n)
    decreases n
  {
    if n > 0 {
      XorBound(a / 2, b / 2, n - 1);
    }
  }

  function Shr(x: nat, n: nat): nat { if n == 0 then x else Shr(x / 2, n - 1) }

  lemma {:induction false} XorShifts(a: nat, b: nat, n: nat)
    ensures Shr(Xor(a, b), n) == Xor(Shr(a, n), Shr(b, n))
    decreases n
  {
    if n > 0 {
      XorShifts(a / 2, b / 2, n - 1);
      assert Xor(a, b) / 2 == Xor(a / 2, b / 2);
    }
  }

  lemma {:induction false} ShrDivides(x: nat, n: nat)
    ensures Shr(x, n) * Pow2(n) <= x < (Shr(x, n) + 1) * Pow2(n)
  {
    if n > 0 {
      ShrDivides(x / 2, n - 1);
      MulSwap(Shr(x, n), 2, Pow2(n - 1));
      MulSwap(Shr(x, n) + 1, 2, Pow2(n - 1));
    }
  }

  lemma UpperHalf(x: nat)
    ensures Shr(x, 16) == x / 0x1_0000
  {
    hide Pow2;
    SixteenBits();
    ShrDivides(x, 16);
  }

  lemma {:induction false} XorZero(b: nat)
    ensures Xor(0, b) == b
  {
    if b > 0 {
      XorZero(b / 2);
    }
  }

  /** Distinct operands give distinct results. */
  lemma XorKeepsApart(a: nat, b: nat, c: nat)
    requires Xor(a, b) == Xor(a, c)
    ensures b == c
  {
    XorUndoesItself(a, b);
    XorUndoesItself(a, c);
  }

  lemma {:induction false} XorCommutes(a: nat, b: nat)
    ensures Xor(a, b) == Xor(b, a)
    decreases a + b
  {
    if a + b > 0 {
      XorCommutes(a / 2, b / 2);
    }
  }

  /** An operand of n bits leaves the bits above alone. */
  lemma {:induction false} XorLowBits(q: nat, low: nat, c: nat, n: nat)
    requires low < Pow2(n) && c < Pow2(n)
    ensures Xor(q * Pow2(n) + low, c) == q * Pow2(n) + Xor(low, c)
    decreases n
  {
    if n > 0 {
      hide Xor;
      var h, half := q * Pow2(n) + low, q * Pow2(n - 1);
      MulSwap(q, 2, Pow2(n - 1));
      Halved(h, half, low);
      XorLowBits(q, low / 2, c / 2, n - 1);
      XorParts(h, c);
      XorParts(low, c);
    } else {
      XorCommutes(q, 0);
      XorZero(q);
    }
  }

  lemma Halved(h: nat, half: nat, low: nat)
    requires h == 2 * half + low
    ensures h % 2 == low % 2 && h / 2 == half + low / 2
  {
  }

  // ----- Dispersing ----------------------------------------------------------------------

  const MIX := 0x45d9f3b

  /** A word exclusive-or its upper half. */
  function Fold(x: nat): nat { Xor(x / 0x1_0000, x) }

  function Disperse(h: nat): nat {
    var x := U32(Fold(h) * MIX);
    var y := U32(Fold(x) * MIX);
    Fold(y)
  }

  /** The multiplier is odd, so it has an inverse modulo 2^32. */
  const UNMIX := 0x119de1f3

  lemma SixteenBits()
    ensures Pow2(16) == 0x1_0000 && Pow2(32) == TWO32
  {
    assert Pow2(8) == 256;
    Pow2Adds(8, 8);
    Pow2Adds(16, 16);
  }

  /** Folding brings the upper half down onto the lower one, and leaves it in its place. */
  lemma FoldIsByHalves(upper: nat, lower: nat)
    requires upper < 0x1_0000 && lower < 0x1_0000
    ensures Fold(upper * 0x1_0000 + lower) == upper * 0x1_0000 + Xor(lower, upper)
  {
    hide Xor, Pow2;
    SixteenBits();
    XorLowBits(upper, lower, upper, 16);
    XorCommutes(upper, upper * 0x1_0000 + lower);
  }

  /** Folding leaves the upper half alone, so folding twice undoes it. */
  lemma FoldUndoesItself(x: nat)
    requires x < TWO32
    ensures Fold(x) < TWO32 && Fold(Fold(x)) == x
  {
    hide Pow2;
    SixteenBits();
    var hi := x / 0x1_0000;
    XorBound(hi, x, 32);
    XorShifts(hi, x, 16);
    UpperHalf(x);
    UpperHalf(hi);
    UpperHalf(Xor(hi, x));
    XorZero(hi);
    XorUndoesItself(hi, x);
  }

  lemma Inverts(x: nat, m: nat, w: nat, k: nat)
    requires x < TWO32 && m * w == k * TWO32 + 1
    ensures U32(U32(x * m) * w) == x
  {
    var q := x * m / TWO32;
    assert U32(x * m) == x * m - q * TWO32;
    Expand(x, m, w, q, k);
    DivModUnique(U32(x * m) * w, TWO32, x * k - q * w, x);
  }

  lemma Expand(x: nat, m: nat, w: nat, q: int, k: nat)
    requires m * w == k * TWO32 + 1
    ensures (x * m - q * TWO32) * w == (x * k - q * w) * TWO32 + x
  {
    assert (x * m - q * TWO32) * w == x * m * w - q * TWO32 * w;
    MulAssoc(x, m, w);
    assert x * (k * TWO32 + 1) == x * k * TWO32 + x;
    assert (x * k - q * w) * TWO32 == x * k * TWO32 - q * w * TWO32;
  }

  lemma MultiplierInverts(x: nat)
    requires x < TWO32
    ensures U32(U32(x * MIX) * UNMIX) == x && U32(U32(x * UNMIX) * MIX) == x
  {
    assert MIX * UNMIX == 5040344 * TWO32 + 1;
    Inverts(x, MIX, UNMIX, 5040344);
    Inverts(x, UNMIX, MIX, 5040344);
  }

  /** The stages undone, last first. */
  function Gather(h: nat): nat {
    var y := Fold(h);
    var x := Fold(U32(y * UNMIX));
    Fold(U32(x * UNMIX))
  }

  /** A permutation of the 32-bit values: each is the image of exactly one. */
  lemma DisperseIsPermutation(h: nat)
    requires h < TWO32
    ensures Disperse(h) < TWO32 && Gather(h) < TWO32
    ensures Gather(Disperse(h)) == h && Disperse(Gather(h)) == h
  {
    hide Fold, U32;
    FoldUndoesItself(h);
    var x := U32(Fold(h) * MIX);
    FoldUndoesItself(x);
    var y := U32(Fold(x) * MIX);
    FoldUndoesItself(y);
    MultiplierInverts(Fold(x));
    MultiplierInverts(Fold(h));
    var u := U32(Fold(h) * UNMIX);
    FoldUndoesItself(u);
    var v := U32(Fold(u) * UNMIX);
    FoldUndoesItself(v);
    MultiplierInverts(Fold(u));
  }

  // ----- Hashing a name ------------------------------------------------------------------

  const FNV_OFFSET := 2166136261
  const FNV_PRIME := 16777619
  const FNV_UNPRIME := 0x359c449b

  /** Characters, signed or unsigned as the platform has them. */
  type Name = s: seq<int> | forall i :: 0 <= i < |s| ==> IsChar(s[i])

  predicate IsChar(c: int) { -128 <= c < 256 }

  /** The character is widened to 32 bits, with its sign if it has one. */
  function FnvStep(h: nat, c: int): (r: nat)
    ensures r < TWO32
  {
    U32(Xor(h, U32(c)) * FNV_PRIME)
  }

  function Fnv(h: nat, name: seq<int>): nat
    decreases |name|
  {
    if name == [] then h else Fnv(FnvStep(h, name[0]), name[1..])
  }

  /** Zero is reserved for a missing hash. */
  function HashOfName(name: seq<int>): (h: nat)
    ensures h != 0
  {
    var h := Fnv(FNV_OFFSET, name);
    if h == 0 then FNV_OFFSET else h
  }

  method HashFromName(name: seq<int>) returns (hash: nat)
    ensures hash == HashOfName(name)
  {
    hash := FNV_OFFSET;
    var i := 0;
    assert name[0..] == name;
    while i < |name|
      invariant 0 <= i <= |name| && Fnv(FNV_OFFSET, name) == Fnv(hash, name[i..])
    {
      assert name[i..][1..] == name[i + 1..];
      hash := Xor(hash, U32(name[i]));
      hash := U32(hash * FNV_PRIME);
      i := i + 1;
    }
    if hash == 0 {
      hash := FNV_OFFSET;
    }
  }

  lemma PrimeInverts(x: nat)
    requires x < TWO32
    ensures U32(U32(x * FNV_PRIME) * FNV_UNPRIME) == x
  {
    assert FNV_PRIME * FNV_UNPRIME == 3513497 * TWO32 + 1;
    Inverts(x, FNV_PRIME, FNV_UNPRIME, 3513497);
  }

  /** For one character the step is a permutation of hashes; for one hash, no two characters agree. */
  lemma StepKeepsApart(h: nat, k: nat, c: int, d: int)
    requires h < TWO32 && k < TWO32 && IsChar(c) && IsChar(d)
    ensures h != k ==> FnvStep(h, c) != FnvStep(k, c)
    ensures c != d ==> FnvStep(h, c) != FnvStep(h, d)
  {
    hide Xor;
    WordsKeepApart(h, k, U32(c), U32(d));
  }

  lemma WordsKeepApart(h: nat, k: nat, c: nat, d: nat)
    requires h < TWO32 && k < TWO32 && c < TWO32 && d < TWO32
    ensures h != k ==> U32(Xor(h, c) * FNV_PRIME) != U32(Xor(k, c) * FNV_PRIME)
    ensures c != d ==> U32(Xor(h, c) * FNV_PRIME) != U32(Xor(h, d) * FNV_PRIME)
  {
    hide Pow2;
    SixteenBits();
    XorBound(h, c, 32);
    XorBound(k, c, 32);
    XorBound(h, d, 32);
    PrimeInverts(Xor(h, c));
    PrimeInverts(Xor(k, c));
    PrimeInverts(Xor(h, d));
    XorCommutes(h, c);
    XorCommutes(k, c);
    if Xor(h, c) == Xor(k, c) {
      XorKeepsApart(c, h, k);
    }
    if Xor(h, c) == Xor(h, d) {
      XorKeepsApart(h, c, d);
    }
  }

  lemma {:induction false} RestKeepsApart(h: nat, k: nat, rest: Name)
    requires h < TWO32 && k < TWO32 && h != k
    ensures Fnv(h, rest) != Fnv(k, rest)
    decreases |rest|
  {
    if rest != [] {
      StepKeepsApart(h, k, rest[0], 0);
      RestKeepsApart(FnvStep(h, rest[0]), FnvStep(k, rest[0]), rest[1..]);
    }
  }

  lemma {:induction false} FnvConcat(h: nat, a: seq<int>, b: seq<int>)
    ensures Fnv(h, a + b) == Fnv(Fnv(h, a), b)
    decreases |a|
  {
    if a == [] {
      assert a + b == b;
    } else {
      assert (a + b)[1..] == a[1..] + b;
      FnvConcat(FnvStep(h, a[0]), a[1..], b);
    }
  }

  lemma {:induction false} FnvFits(h: nat, name: Name)
    requires h < TWO32
    ensures Fnv(h, name) < TWO32
    decreases |name|
  {
    if name != [] {
      FnvFits(FnvStep(h, name[0]), name[1..]);
    }
  }

  /** Names that differ in one character never hash alike (before zero is replaced). */
  lemma OneCharacterApart(pre: Name, c: int, d: int, post: Name)
    requires IsChar(c) && IsChar(d) && c != d
    ensures Fnv(FNV_OFFSET, pre + [c] + post) != Fnv(FNV_OFFSET, pre + [d] + post)
  {
    var h := Fnv(FNV_OFFSET, pre);
    FnvFits(FNV_OFFSET, pre);
    FnvConcat(FNV_OFFSET, pre + [c], post);
    FnvConcat(FNV_OFFSET, pre + [d], post);
    FnvConcat(FNV_OFFSET, pre, [c]);
    FnvConcat(FNV_OFFSET, pre, [d]);
    StepKeepsApart(h, h, c, d);
    RestKeepsApart(FnvStep(h, c), FnvStep(h, d), post);
  }

  // ----- Identifiers ----------------------------------------------------------------------

  predicate IsId(id: seq<nat>) { |id| == 4 && id[0] < 256 && id[1] < 256 && id[2] < 256 && id[3] < 256 }

  /** The four bytes of a hash, least significant first. */
  function Identifier(h: nat): (id: seq<nat>) {
    [h % 256, h / 256 % 256, h / 0x1_0000 % 256, h / 0x100_0000 % 256]
  }

  function HashOfIdentifier(id: seq<nat>): nat
    requires |id| == 4
  {
    id[0] + id[1] * 0x100 + id[2] * 0x1_0000 + id[3] * 0x100_0000
  }

  method IdentifierFromTypeHash(h: nat, out: array<nat>)
    requires h < TWO32 && out.Length == 4
    modifies out
    ensures out[..] == Identifier(h) && HashOfIdentifier(out[..]) == h
  {
    var typeHash := h;
    out[0] := typeHash % 256;
    typeHash := typeHash / 256;
    out[1] := typeHash % 256;
    typeHash := typeHash / 256;
    out[2] := typeHash % 256;
    typeHash := typeHash / 256;
    out[3] := typeHash % 256;
  }

  lemma HashOfBytes(h: nat)
    requires h < TWO32
    ensures IsId(Identifier(h)) && HashOfIdentifier(Identifier(h)) == h
  {
    var q1, q2, q3 := h / 0x100, h / 0x1_0000, h / 0x100_0000;
    assert q2 == q1 / 256 && q3 == q2 / 256;
  }

  lemma BytesOfHash(id: seq<nat>)
    requires IsId(id)
    ensures HashOfIdentifier(id) < TWO32 && Identifier(HashOfIdentifier(id)) == id
  {
    FourBytes(id[0], id[1], id[2], id[3]);
  }

  /** The bytes of a number made of four. */
  lemma FourBytes(a: nat, b: nat, c: nat, d: nat)
    requires a < 256 && b < 256 && c < 256 && d < 256
    ensures var h := a + b * 0x100 + c * 0x1_0000 + d * 0x100_0000;
      h < TWO32 && h % 256 == a && h / 0x100 % 256 == b && h / 0x1_0000 % 256 == c && h / 0x100_0000 % 256 == d
  {
    var h := a + b * 0x100 + c * 0x1_0000 + d * 0x100_0000;
    var b', c' := b + c * 0x100 + d * 0x1_0000, c + d * 0x100;
    DivModUnique(h, 0x100, b', a);
    DivModUnique(h, 0x1_0000, c', a + b * 0x100);
    DivModUnique(h, 0x100_0000, d, a + b * 0x100 + c * 0x1_0000);
    DivModUnique(b', 256, c', b);
    DivModUnique(c', 256, d, c);
  }

  /** Hash to bytes to hash, and bytes to hash to bytes. */
  lemma IdentifierRoundTrip(h: nat, id: seq<nat>)
    requires h < TWO32 && IsId(id)
    ensures IsId(Identifier(h)) && HashOfIdentifier(Identifier(h)) == h
    ensures HashOfIdentifier(id) < TWO32 && Identifier(HashOfIdentifier(id)) == id
  {
    hide Identifier, HashOfIdentifier;
    HashOfBytes(h);
    BytesOfHash(id);
  }

  // ----- The hashes of the generated headers ---------------------------------------------------

  /** Plain characters as the numbers they are hashed by. */
  function Codes(text: string): (name: seq<int>)
    ensures |name| == |text|
  {
    seq(|text|, i requires 0 <= i < |text| => text[i] as int)
  }

  lemma LowBit(x: bv8)
    ensures (x >> 1) as nat == x as nat / 2 && x as nat % 2 == (x & 1) as nat
  {
  }

  lemma XorOfBits(x: bv8, y: bv8)
    ensures (x ^ y) >> 1 == (x >> 1) ^ (y >> 1)
    ensures (x ^ y) & 1 == if x & 1 == y & 1 then 0 else 1
    ensures (x & 1 == 0 || x & 1 == 1) && (y & 1 == 0 || y & 1 == 1)
  {
  }

  // Bit vectors are seen through these, so that few of them are turned into numbers at a time.
  function Num(x: bv8): (n: nat)
    ensures n < 256
  {
    x as nat
  }

  function Half(x: bv8): bv8 { x >> 1 }

  function MachineXor(x: bv8, y: bv8): bv8 { x ^ y }

  lemma NumHalf(x: bv8)
    ensures Num(Half(x)) == Num(x) / 2
  {
    LowBit(x);
  }

  lemma HalfOfXor(x: bv8, y: bv8)
    ensures Half(MachineXor(x, y)) == MachineXor(Half(x), Half(y))
  {
    XorOfBits(x, y);
  }

  lemma ParityOfXor(x: bv8, y: bv8)
    ensures Num(MachineXor(x, y)) % 2 == (Num(x) % 2 + Num(y) % 2) % 2
  {
    LowBit(x);
    LowBit(y);
    LowBit(x ^ y);
    XorOfBits(x, y);
  }

  lemma XorStep(a: nat, b: nat, c: nat)
    requires Xor(a / 2, b / 2) == c / 2 && c % 2 == (a % 2 + b % 2) % 2
    ensures Xor(a, b) == c
  {
  }

  lemma BothZero(x: bv8, y: bv8)
    requires Num(x) + Num(y) == 0
    ensures Xor(Num(x), Num(y)) == Num(MachineXor(x, y))
  {
    assert x == 0 && y == 0;
  }

  /** On bytes it is the exclusive or of the machine. */
  lemma {:induction false} XorIsMachineXor(x: bv8, y: bv8, n: nat)
    requires Num(x) + Num(y) <= n
    ensures Xor(Num(x), Num(y)) == Num(MachineXor(x, y))
    decreases n
  {
    hide Xor, Num, Half, MachineXor;
    if n > 0 {
      NumHalf(x);
      NumHalf(y);
      NumHalf(MachineXor(x, y));
      HalfOfXor(x, y);
      ParityOfXor(x, y);
      XorIsMachineXor(Half(x), Half(y), n - 1);
      XorStep(Num(x), Num(y), Num(MachineXor(x, y)));
    } else {
      BothZero(x, y);
    }
  }

  /** One step of the hash: the character meets the low byte, and the product wraps. */
  lemma StepByNumbers(q: nat, low: bv8, c: bv8, x: bv8, wraps: nat, next: nat)
    requires x == MachineXor(low, c) && next < TWO32
    requires (q * 256 + Num(x)) * FNV_PRIME == wraps * TWO32 + next
    ensures FnvStep(q * 256 + Num(low), Num(c)) == next
  {
    hide Xor, Num, Half, MachineXor;
    assert Pow2(8) == 256;
    XorLowBits(q, Num(low), Num(c), 8);
    XorIsMachineXor(low, c, 510);
    DivModUnique((q * 256 + Num(x)) * FNV_PRIME, TWO32, wraps, next);
  }

  lemma {:induction false} ChainOfSteps(text: string, hs: seq<nat>)
    requires |hs| == |text| + 1
    requires forall i :: 0 <= i < |text| ==> FnvStep(hs[i], text[i] as int) == hs[i + 1]
    ensures Fnv(hs[0], Codes(text)) == hs[|text|]
    decreases |text|
  {
    hide FnvStep;
    if text != [] {
      assert Codes(text)[1..] == Codes(text[1..]);
      assert forall i :: 0 <= i < |text| - 1 ==> hs[1..][i] == hs[i + 1] && text[1..][i] == text[i + 1];
      forall i | 0 <= i < |text| - 1
        ensures FnvStep(hs[1..][i], text[1..][i] as int) == hs[1..][i + 1]
      {
        assert FnvStep(hs[i + 1], text[i + 1] as int) == hs[i + 1 + 1];
      }
      ChainOfSteps(text[1..], hs[1..]);
    }
  }

  lemma HashOfPrefix()
    ensures Fnv(2166136261, Codes("hyperionnet.")) == 3786700870
  {
    hide FnvStep;
    var hs: seq<nat> := [
      2166136261, 3977000791, 1480252778, 4272558062, 1891006417, 306075033, 2820753616, 1801815213,
      3553623801, 124635061, 2177993840, 1625254476, 3786700870
    ];
    forall i | 0 <= i < 12
      ensures FnvStep(hs[i], "hyperionnet."[i] as int) == hs[i + 1]
    {
      match i
      case 0 => StepByNumbers(8461469, 197, 104, 173, 8461672, 3977000791);
      case 1 => StepByNumbers(15535159, 87, 121, 46, 15535532, 1480252778);
      case 2 => StepByNumbers(5782237, 106, 112, 26, 5782375, 4272558062);
      case 3 => StepByNumbers(16689679, 238, 101, 139, 16690080, 1891006417);
      case 4 => StepByNumbers(7386743, 209, 114, 163, 7386921, 306075033);
      case 5 => StepByNumbers(1195605, 153, 105, 240, 1195634, 2820753616);
      case 6 => StepByNumbers(11018568, 208, 111, 191, 11018833, 1801815213);
      case 7 => StepByNumbers(7038340, 173, 110, 195, 7038509, 3553623801);
      case 8 => StepByNumbers(13881342, 249, 110, 151, 13881676, 124635061);
      case 9 => StepByNumbers(486855, 181, 101, 208, 486867, 2177993840);
      case 10 => StepByNumbers(8507788, 112, 116, 4, 8507992, 1625254476);
      case 11 => StepByNumbers(6348650, 76, 46, 98, 6348802, 3786700870);
    }
    ChainOfSteps("hyperionnet.", hs);
  }

  lemma HashAfterReply()
    ensures Fnv(3786700870, Codes("Reply")) == 970954938
  {
    hide FnvStep;
    var hs: seq<nat> := [
      3786700870, 1662584700, 426126427, 651659185, 38461671, 970954938
    ];
    forall i | 0 <= i < 5
      ensures FnvStep(hs[i], "Reply"[i] as int) == hs[i + 1]
    {
      match i
      case 0 => StepByNumbers(14791800, 70, 82, 20, 14792155, 1662584700);
      case 1 => StepByNumbers(6494471, 124, 101, 25, 6494627, 426126427);
      case 2 => StepByNumbers(1664556, 91, 112, 43, 1664596, 651659185);
      case 3 => StepByNumbers(2545543, 177, 108, 221, 2545605, 38461671);
      case 4 => StepByNumbers(150240, 231, 121, 158, 150244, 970954938);
    }
    ChainOfSteps("Reply", hs);
  }

  lemma HashAfterRequest()
    ensures Fnv(3786700870, Codes("Request")) == 1525381323
  {
    hide FnvStep;
    var hs: seq<nat> := [
      3786700870, 1662584700, 426126427, 634881566, 4249393777, 3444215164, 995888797, 1525381323
    ];
    forall i | 0 <= i < 7
      ensures FnvStep(hs[i], "Request"[i] as int) == hs[i + 1]
    {
      match i
      case 0 => StepByNumbers(14791800, 70, 82, 20, 14792155, 1662584700);
      case 1 => StepByNumbers(6494471, 124, 101, 25, 6494627, 426126427);
      case 2 => StepByNumbers(1664556, 91, 113, 42, 1664596, 634881566);
      case 3 => StepByNumbers(2480006, 30, 117, 107, 2480065, 4249393777);
      case 4 => StepByNumbers(16599194, 113, 101, 20, 16599592, 3444215164);
      case 5 => StepByNumbers(13453965, 124, 115, 15, 13454288, 995888797);
      case 6 => StepByNumbers(3890190, 157, 116, 233, 3890284, 1525381323);
    }
    ChainOfSteps("Request", hs);
  }

  /** The names of the two root types hash to what their headers define. */
  lemma HeaderHashes()
    ensures HashOfName(Codes("hyperionnet.Reply")) == 0x39df98ba
    ensures HashOfName(Codes("hyperionnet.Request")) == 0x5aeb78cb
    ensures Identifier(0x39df98ba) == [0xba, 0x98, 0xdf, 0x39] && Identifier(0x5aeb78cb) == [0xcb, 0x78, 0xeb, 0x5a]
  {
    hide Fnv, Codes;
    HashOfPrefix();
    HashAfterReply();
    HashAfterRequest();
    CodesConcat("hyperionnet.", "Reply");
    CodesConcat("hyperionnet.", "Request");
    FnvConcat(FNV_OFFSET, Codes("hyperionnet."), Codes("Reply"));
    FnvConcat(FNV_OFFSET, Codes("hyperionnet."), Codes("Request"));
    assert "hyperionnet." + "Reply" == "hyperionnet.Reply";
    assert "hyperionnet." + "Request" == "hyperionnet.Request";
  }

  lemma CodesConcat(a: string, b: string)
    ensures Codes(a + b) == Codes(a) + Codes(b)
  {
  }

  /** The hash of an identifier given as a C string: reading stops at the first NUL. */
  function HashOfString(p: seq<nat>): nat
    requires |p| == 4
  {
    if p[0] == 0 then 0
    else if p[1] == 0 then p[0]
    else if p[2] == 0 then p[0] + p[1] * 0x100
    else HashOfIdentifier(p)
  }

  /** What stands behind the first NUL is read as if it were NUL too. */
  lemma BehindNulIsIgnored(p: seq<nat>, k: nat)
    requires |p| == 4 && k <= 4 && (forall i :: 0 <= i < k ==> p[i] != 0) && (k < 4 ==> p[k] == 0)
    ensures HashOfString(p) == HashOfIdentifier(seq(4, i requires 0 <= i < 4 => if i < k then p[i] else 0))
  {
    match k
    case 0 => case 1 => case 2 => case 3 => case 4 =>
  }

  /** The two readings agree exactly when nothing stands behind the first NUL. */
  lemma StringReadingIff(p: seq<nat>)
    requires IsId(p)
    ensures HashOfString(p) == HashOfIdentifier(p)
       <==> forall i, j :: 0 <= i < j < 4 && p[i] == 0 ==> p[j] == 0
  {
    if HashOfString(p) == HashOfIdentifier(p) {
      assert p[0] == 0 ==> p[1] == 0 && p[2] == 0 && p[3] == 0;
      assert p[1] == 0 ==> p[2] == 0 && p[3] == 0;
      assert p[2] == 0 ==> p[3] == 0;
    }
  }
}
