/**
 The cached powers of ten (grisu3_math.h): each 64-bit significand is within
 half a unit of the power it stands for, and the one that is looked up brings
 the product into the exponent range digit generation accepts.

 The exact powers have up to 1156 bits. They are followed instead along a
 ladder of 96-bit significands, eight decades a rung, from 10^4, which is
 exact, up and down to both ends of the table.
 */
module PowerTable {
  import opened Arith
  import opened DiyFps
  import opened Reals

  /** A row of the table and the same power to 96 bits: fine * 2^(bExp - 32). */
  datatype Rung = Rung(fract: nat, bExp: int, dExp: int, fine: nat)

  function RungAt(i: nat): Rung
    requires i < 87
  {
    match i
    case 0 => Rung(0xfa8fd5a0081c0288, -1220, -348, 0xfa8fd5a0081c02881732c86a)
    case 1 => Rung(0xbaaee17fa23ebf76, -1193, -340, 0xbaaee17fa23ebf765d79bcf0)
    case 2 => Rung(0x8b16fb203055ac76, -1166, -332, 0x8b16fb203055ac764c3bcb50)
    case 3 => Rung(0xcf42894a5dce35ea, -1140, -324, 0xcf42894a5dce35ea52064cad)
    case 4 => Rung(0x9a6bb0aa55653b2d, -1113, -316, 0x9a6bb0aa55653b2d47b233c9)
    case 5 => Rung(0xe61acf033d1a45df, -1087, -308, 0xe61acf033d1a45df6fb92487)
    case 6 => Rung(0xab70fe17c79ac6ca, -1060, -300, 0xab70fe17c79ac6ca6dbd630a)
    case 7 => Rung(0xff77b1fcbebcdc4f, -1034, -292, 0xff77b1fcbebcdc4f25e8e89c)
    case 8 => Rung(0xbe5691ef416bd60c, -1007, -284, 0xbe5691ef416bd60c23cc986c)
    case 9 => Rung(0x8dd01fad907ffc3c, -980, -276, 0x8dd01fad907ffc3bae3da7d9)
    case 10 => Rung(0xd3515c2831559a83, -954, -268, 0xd3515c2831559a830d5a5b45)
    case 11 => Rung(0x9d71ac8fada6c9b5, -927, -260, 0x9d71ac8fada6c9b56f773fc3)
    case 12 => Rung(0xea9c227723ee8bcb, -901, -252, 0xea9c227723ee8bcb465e15a9)
    case 13 => Rung(0xaecc49914078536d, -874, -244, 0xaecc49914078536d58fae9f7)
    case 14 => Rung(0x823c12795db6ce57, -847, -236, 0x823c12795db6ce5776c53d09)
    case 15 => Rung(0xc21094364dfb5637, -821, -228, 0xc21094364dfb5636985915fc)
    case 16 => Rung(0x9096ea6f3848984f, -794, -220, 0x9096ea6f3848984f3ff0d2c8)
    case 17 => Rung(0xd77485cb25823ac7, -768, -212, 0xd77485cb25823ac77d633293)
    case 18 => Rung(0xa086cfcd97bf97f4, -741, -204, 0xa086cfcd97bf97f380e8a40f)
    case 19 => Rung(0xef340a98172aace5, -715, -196, 0xef340a98172aace486fb8971)
    case 20 => Rung(0xb23867fb2a35b28e, -688, -188, 0xb23867fb2a35b28de99e619a)
    case 21 => Rung(0x84c8d4dfd2c63f3b, -661, -180, 0x84c8d4dfd2c63f3b29ecd9f4)
    case 22 => Rung(0xc5dd44271ad3cdba, -635, -172, 0xc5dd44271ad3cdba40eff1e2)
    case 23 => Rung(0x936b9fcebb25c996, -608, -164, 0x936b9fcebb25c995cab10dd9)
    case 24 => Rung(0xdbac6c247d62a584, -582, -156, 0xdbac6c247d62a583df45f747)
    case 25 => Rung(0xa3ab66580d5fdaf6, -555, -148, 0xa3ab66580d5fdaf5c13e60d1)
    case 26 => Rung(0xf3e2f893dec3f126, -529, -140, 0xf3e2f893dec3f1265a89dba4)
    case 27 => Rung(0xb5b5ada8aaff80b8, -502, -132, 0xb5b5ada8aaff80b80d819992)
    case 28 => Rung(0x87625f056c7c4a8b, -475, -124, 0x87625f056c7c4a8b11471cd7)
    case 29 => Rung(0xc9bcff6034c13053, -449, -116, 0xc9bcff6034c13052fc89b394)
    case 30 => Rung(0x964e858c91ba2655, -422, -108, 0x964e858c91ba26553a6a07f9)
    case 31 => Rung(0xdff9772470297ebd, -396, -100, 0xdff9772470297ebd59787e2c)
    case 32 => Rung(0xa6dfbd9fb8e5b88f, -369, -92, 0xa6dfbd9fb8e5b88ecb4ccd50)
    case 33 => Rung(0xf8a95fcf88747d94, -343, -84, 0xf8a95fcf88747d9475a44c64)
    case 34 => Rung(0xb94470938fa89bcf, -316, -76, 0xb94470938fa89bcef808e40f)
    case 35 => Rung(0x8a08f0f8bf0f156b, -289, -68, 0x8a08f0f8bf0f156b1b8e9ecb)
    case 36 => Rung(0xcdb02555653131b6, -263, -60, 0xcdb02555653131b63792f413)
    case 37 => Rung(0x993fe2c6d07b7fac, -236, -52, 0x993fe2c6d07b7fabe546a804)
    case 38 => Rung(0xe45c10c42a2b3b06, -210, -44, 0xe45c10c42a2b3b058cb89a7e)
    case 39 => Rung(0xaa242499697392d3, -183, -36, 0xaa242499697392d2dde50bd2)
    case 40 => Rung(0xfd87b5f28300ca0e, -157, -28, 0xfd87b5f28300ca0d8bca9d6e)
    case 41 => Rung(0xbce5086492111aeb, -130, -20, 0xbce5086492111aea88f4bb1d)
    case 42 => Rung(0x8cbccc096f5088cc, -103, -12, 0x8cbccc096f5088cbf93f87b7)
    case 43 => Rung(0xd1b71758e219652c, -77, -4, 0xd1b71758e219652bd3c36113)
    case 44 => Rung(0x9c40000000000000, -50, 4, 0x9c4000000000000000000000)
    case 45 => Rung(0xe8d4a51000000000, -24, 12, 0xe8d4a5100000000000000000)
    case 46 => Rung(0xad78ebc5ac620000, 3, 20, 0xad78ebc5ac62000000000000)
    case 47 => Rung(0x813f3978f8940984, 30, 28, 0x813f3978f894098440000000)
    case 48 => Rung(0xc097ce7bc90715b3, 56, 36, 0xc097ce7bc90715b34b9f1000)
    case 49 => Rung(0x8f7e32ce7bea5c70, 83, 44, 0x8f7e32ce7bea5c6fe4820024)
    case 50 => Rung(0xd5d238a4abe98068, 109, 52, 0xd5d238a4abe9806872a49046)
    case 51 => Rung(0x9f4f2726179a2245, 136, 60, 0x9f4f2726179a224501d76242)
    case 52 => Rung(0xed63a231d4c4fb27, 162, 68, 0xed63a231d4c4fb274ca7aaa8)
    case 53 => Rung(0xb0de65388cc8ada8, 189, 76, 0xb0de65388cc8ada83b25a55f)
    case 54 => Rung(0x83c7088e1aab65db, 216, 84, 0x83c7088e1aab65db792667c7)
    case 55 => Rung(0xc45d1df942711d9a, 242, 92, 0xc45d1df942711d9a3ba5d0bd)
    case 56 => Rung(0x924d692ca61be758, 269, 100, 0x924d692ca61be758593c2626)
    case 57 => Rung(0xda01ee641a708dea, 295, 108, 0xda01ee641a708de9e80e6f48)
    case 58 => Rung(0xa26da3999aef774a, 322, 116, 0xa26da3999aef7749e3be5e33)
    case 59 => Rung(0xf209787bb47d6b85, 348, 124, 0xf209787bb47d6b84c0678c5e)
    case 60 => Rung(0xb454e4a179dd1877, 375, 132, 0xb454e4a179dd187729babe46)
    case 61 => Rung(0x865b86925b9bc5c2, 402, 140, 0x865b86925b9bc5c20b8a2393)
    case 62 => Rung(0xc83553c5c8965d3d, 428, 148, 0xc83553c5c8965d3d6f928295)
    case 63 => Rung(0x952ab45cfa97a0b3, 455, 156, 0x952ab45cfa97a0b2dd945a74)
    case 64 => Rung(0xde469fbd99a05fe3, 481, 164, 0xde469fbd99a05fe36fca5f8f)
    case 65 => Rung(0xa59bc234db398c25, 508, 172, 0xa59bc234db398c2543fab983)
    case 66 => Rung(0xf6c69a72a3989f5c, 534, 180, 0xf6c69a72a3989f5b8aad549e)
    case 67 => Rung(0xb7dcbf5354e9bece, 561, 188, 0xb7dcbf5354e9bece0c11ed6d)
    case 68 => Rung(0x88fcf317f22241e2, 588, 196, 0x88fcf317f22241e2441fece4)
    case 69 => Rung(0xcc20ce9bd35c78a5, 614, 204, 0xcc20ce9bd35c78a531ec038e)
    case 70 => Rung(0x98165af37b2153df, 641, 212, 0x98165af37b2153dec3727a33)
    case 71 => Rung(0xe2a0b5dc971f303a, 667, 220, 0xe2a0b5dc971f303a2e44ae65)
    case 72 => Rung(0xa8d9d1535ce3b396, 694, 228, 0xa8d9d1535ce3b3967f1839a7)
    case 73 => Rung(0xfb9b7cd9a4a7443c, 720, 236, 0xfb9b7cd9a4a7443c169840ef)
    case 74 => Rung(0xbb764c4ca7a44410, 747, 244, 0xbb764c4ca7a4440f9d6d1ad4)
    case 75 => Rung(0x8bab8eefb6409c1a, 774, 252, 0x8bab8eefb6409c1a1ad089b7)
    case 76 => Rung(0xd01fef10a657842c, 800, 260, 0xd01fef10a657842c2d2b756a)
    case 77 => Rung(0x9b10a4e5e9913129, 827, 268, 0x9b10a4e5e9913128ca7cf2b4)
    case 78 => Rung(0xe7109bfba19c0c9d, 853, 276, 0xe7109bfba19c0c9d0cc51267)
    case 79 => Rung(0xac2820d9623bf429, 880, 284, 0xac2820d9623bf429546345fb)
    case 80 => Rung(0x80444b5e7aa7cf85, 907, 292, 0x80444b5e7aa7cf857980d164)
    case 81 => Rung(0xbf21e44003acdd2d, 933, 300, 0xbf21e44003acdd2ce0470a64)
    case 82 => Rung(0x8e679c2f5e44ff8f, 960, 308, 0x8e679c2f5e44ff8f570f09eb)
    case 83 => Rung(0xd433179d9c8cb841, 986, 316, 0xd433179d9c8cb8415fa60693)
    case 84 => Rung(0x9e19db92b4e31ba9, 1013, 324, 0x9e19db92b4e31ba96c07a2c2)
    case 85 => Rung(0xeb96bf6ebadf77d9, 1039, 332, 0xeb96bf6ebadf77d8e41c5bd2)
    case 86 => Rung(0xaf87023b9bf0ee6b, 1066, 340, 0xaf87023b9bf0ee6aeb8fad7c)
  }

  const TWO95 := 0x8000_0000_0000_0000_0000_0000
  const TWO26 := 0x400_0000
  const TWO27 := 0x800_0000

  /** The fine significand is normalised and rounds to the table's, with room to spare. */
  predicate RowHolds(r: Rung)
  {
    && TWO95 <= r.fine < 2 * TWO95
    && -TWO31 + 400 <= r.fine - r.fract * TWO32 <= TWO31 - 400
    && TWO63 <= r.fract < TWO64
    // log10(2), as written in the source, times 10^17
    && (r.bExp + 64) * 30102999566398114 > r.dExp * 100000000000000000
    && (r.bExp + 34) * 30102999566398114 <= (r.dExp - 8) * 100000000000000000
  }

  /** One rung up multiplies by 10^8, to within two units of the fine significand. */
  predicate RungHolds(r: Rung, s: Rung)
  {
    && s.dExp == r.dExp + 8
    && ((s.bExp == r.bExp + 26 && -2 * TWO26 <= s.fine * TWO26 - r.fine * 100000000 <= 2 * TWO26)
        || (s.bExp == r.bExp + 27 && -2 * TWO27 <= s.fine * TWO27 - r.fine * 100000000 <= 2 * TWO27))
  }

  lemma FirstRows(i: nat)
    requires 0 <= i < 15
    ensures RowHolds(RungAt(i)) && RungAt(i).dExp == 8 * i - 348
  {
  }

  lemma SecondRows(i: nat)
    requires 15 <= i < 30
    ensures RowHolds(RungAt(i)) && RungAt(i).dExp == 8 * i - 348
  {
  }

  lemma ThirdRows(i: nat)
    requires 30 <= i < 45
    ensures RowHolds(RungAt(i)) && RungAt(i).dExp == 8 * i - 348
  {
  }

  lemma FourthRows(i: nat)
    requires 45 <= i < 60
    ensures RowHolds(RungAt(i)) && RungAt(i).dExp == 8 * i - 348
  {
  }

  lemma FifthRows(i: nat)
    requires 60 <= i < 75
    ensures RowHolds(RungAt(i)) && RungAt(i).dExp == 8 * i - 348
  {
  }

  lemma LastRows(i: nat)
    requires 75 <= i < 87
    ensures RowHolds(RungAt(i)) && RungAt(i).dExp == 8 * i - 348
  {
  }

  lemma FirstRungs(i: nat)
    requires 0 <= i < 10
    ensures RungHolds(RungAt(i), RungAt(i + 1))
  {
  }

  lemma SecondRungs(i: nat)
    requires 10 <= i < 20
    ensures RungHolds(RungAt(i), RungAt(i + 1))
  {
  }

  lemma ThirdRungs(i: nat)
    requires 20 <= i < 30
    ensures RungHolds(RungAt(i), RungAt(i + 1))
  {
  }

  lemma FourthRungs(i: nat)
    requires 30 <= i < 40
    ensures RungHolds(RungAt(i), RungAt(i + 1))
  {
  }

  lemma FifthRungs(i: nat)
    requires 40 <= i < 50
    ensures RungHolds(RungAt(i), RungAt(i + 1))
  {
  }

  lemma SixthRungs(i: nat)
    requires 50 <= i < 60
    ensures RungHolds(RungAt(i), RungAt(i + 1))
  {
  }

  lemma SeventhRungs(i: nat)
    requires 60 <= i < 70
    ensures RungHolds(RungAt(i), RungAt(i + 1))
  {
  }

  lemma EighthRungs(i: nat)
    requires 70 <= i < 80
    ensures RungHolds(RungAt(i), RungAt(i + 1))
  {
  }

  lemma NinthRungs(i: nat)
    requires 80 <= i < 83
    ensures RungHolds(RungAt(i), RungAt(i + 1))
  {
  }

  lemma LastRungs(i: nat)
    requires 83 <= i < 86
    ensures RungHolds(RungAt(i), RungAt(i + 1))
  {
  }

  lemma RowsHold(i: nat)
    requires i < 87
    ensures RowHolds(RungAt(i)) && RungAt(i).dExp == 8 * i - 348
  {
    hide RungAt, RowHolds;
    if
    case i < 15 => FirstRows(i);
    case 15 <= i < 30 => SecondRows(i);
    case 30 <= i < 45 => ThirdRows(i);
    case 45 <= i < 60 => FourthRows(i);
    case 60 <= i < 75 => FifthRows(i);
    case 75 <= i => LastRows(i);
  }

  lemma RungsHold(i: nat)
    requires i < 86
    ensures RungHolds(RungAt(i), RungAt(i + 1))
  {
    hide RungAt, RungHolds;
    if
    case i < 10 => FirstRungs(i);
    case 10 <= i < 20 => SecondRungs(i);
    case 20 <= i < 30 => ThirdRungs(i);
    case 30 <= i < 40 => FourthRungs(i);
    case 40 <= i < 50 => FifthRungs(i);
    case 50 <= i < 60 => SixthRungs(i);
    case 60 <= i < 70 => SeventhRungs(i);
    case 70 <= i < 80 => EighthRungs(i);
    case 80 <= i < 83 => NinthRungs(i);
    case 83 <= i => LastRungs(i);
  }

  // ----- Climbing the ladder -------------------------------------------------------

  /** The exact power, in units of the fine significand. */
  function Fine(r: Rung): real
  {
    PowR(10.0, r.dExp) * PowR(2.0, 32 - r.bExp)
  }

  const TWO93R := 9903520314283042199192993792.0

  /** After n rungs the fine significand is off by at most n parts in 2^93. */
  ghost predicate OffBy(n: nat, r: Rung)
  {
    AbsR(Fine(r) - r.fine as real) * TWO93R <= n as real * r.fine as real
  }

  /** One rung in exact arithmetic. */
  lemma ExactRung(r: Rung, s: Rung)
    requires RungHolds(r, s)
    ensures Fine(s) * PowR(2.0, s.bExp - r.bExp) == Fine(r) * 100000000.0
    ensures s.bExp == r.bExp + 26 ==> PowR(2.0, s.bExp - r.bExp) == TWO26 as real
    ensures s.bExp == r.bExp + 27 ==> PowR(2.0, s.bExp - r.bExp) == TWO27 as real
  {
    hide PowR;
    var k := s.bExp - r.bExp;
    PowRAdds(10.0, r.dExp, 8);
    PowRAdds(2.0, 32 - s.bExp, k);
    assert 32 - s.bExp + k == 32 - r.bExp;
    EightDecades();
    SmallPowers();
    Rearrange(PowR(10.0, r.dExp), PowR(2.0, 32 - s.bExp), PowR(2.0, k), PowR(10.0, s.dExp), PowR(2.0, 32 - r.bExp));
  }

  lemma Rearrange(p: real, q: real, k: real, p8: real, qk: real)
    requires p8 == p * 100000000.0 && qk == q * k
    ensures p8 * q * k == p * qk * 100000000.0
  {
  }

  lemma EightDecades()
    ensures PowR(10.0, 8) == 100000000.0
  {
    PowRIsPow10(8);
    Pow10Literals();
  }

  lemma SmallPowers()
    ensures PowR(2.0, 26) == TWO26 as real && PowR(2.0, 27) == TWO27 as real
  {
    PowRIsPow2(26);
    PowRIsPow2(27);
    Pow2Literals();
  }

  /**
   Errors a below and b above one rung, next to p and q, n times the two
   significands: the bound n carries over to the other side as n + 1.
   */
  lemma ErrorCarries(a: real, b: real, e: real, e2: real, p: real, q: real, n: real, d: real)
    requires d == TWO26 as real || d == TWO27 as real
    requires 0.0 <= n <= 100.0 && e >= 4.0 * TWO93R && e2 >= 4.0 * TWO93R
    requires -2.0 * d <= e2 * d - e * 100000000.0 <= 2.0 * d
    requires b * d <= a * 100000000.0 + 2.0 * d && a * 100000000.0 <= b * d + 2.0 * d
    requires -2.0 * d * n <= q * d - p * 100000000.0 <= 2.0 * d * n
    ensures a * TWO93R <= p ==> b * TWO93R <= q + e2
    ensures b * TWO93R <= q ==> a * TWO93R <= p + e
  {
  }

  lemma ErrorsDiffer(y: real, e: real, y2: real, e2: real, d: real)
    requires d == TWO26 as real || d == TWO27 as real
    requires y2 * d == y * 100000000.0 && -2.0 * d <= e2 * d - e * 100000000.0 <= 2.0 * d
    ensures AbsR(y2 - e2) * d <= AbsR(y - e) * 100000000.0 + 2.0 * d
    ensures AbsR(y - e) * 100000000.0 <= AbsR(y2 - e2) * d + 2.0 * d
  {
  }

  lemma BoundsDiffer(n: real, e: real, e2: real, p: real, q: real, d: real)
    requires d == TWO26 as real || d == TWO27 as real
    requires 0.0 <= n && p == n * e && q == n * e2 && -2.0 * d <= e2 * d - e * 100000000.0 <= 2.0 * d
    ensures -2.0 * d * n <= q * d - p * 100000000.0 <= 2.0 * d * n
  {
    var x, w := e2 * d - e * 100000000.0, 2.0 * d;
    assert q * d - p * 100000000.0 == n * x;
    MulMonoR(n, -w, x);
    MulMonoR(n, x, w);
  }

  lemma MulMonoR(n: real, x: real, y: real)
    requires n >= 0.0 && x <= y
    ensures n * x <= n * y
  {
  }

  lemma RungError(y: real, e: real, y2: real, e2: real, d: real, n: real)
    requires 0.0 <= n <= 100.0 && (d == TWO26 as real || d == TWO27 as real)
    requires y2 * d == y * 100000000.0 && -2.0 * d <= e2 * d - e * 100000000.0 <= 2.0 * d
    requires e >= 4.0 * TWO93R && e2 >= 4.0 * TWO93R
    ensures AbsR(y - e) * TWO93R <= n * e ==> AbsR(y2 - e2) * TWO93R <= n * e2 + e2
    ensures AbsR(y2 - e2) * TWO93R <= n * e2 ==> AbsR(y - e) * TWO93R <= n * e + e
  {
    hide AbsR;
    ErrorsDiffer(y, e, y2, e2, d);
    BoundsDiffer(n, e, e2, n * e, n * e2, d);
    ErrorCarries(AbsR(y - e), AbsR(y2 - e2), e, e2, n * e, n * e2, n, d);
  }

  lemma Parts(n: nat, r: Rung)
    ensures OffBy(n, r) <==> AbsR(Fine(r) - r.fine as real) * TWO93R <= n as real * r.fine as real
    ensures OffBy(n + 1, r) <==>
      AbsR(Fine(r) - r.fine as real) * TWO93R <= n as real * r.fine as real + r.fine as real
  {
    hide Fine, AbsR;
    var nr, f := n as real, r.fine as real;
    assert (n + 1) as real * f == nr * f + f by { assert (n + 1) as real == nr + 1.0; }
  }

  lemma RungUpOrDown(n: nat, i: nat)
    requires i < 86 && n <= 100
    ensures OffBy(n, RungAt(i)) ==> OffBy(n + 1, RungAt(i + 1))
    ensures OffBy(n, RungAt(i + 1)) ==> OffBy(n + 1, RungAt(i))
  {
    hide RungAt, Fine, AbsR, PowR, OffBy, RowHolds, RungHolds;
    var r, s := RungAt(i), RungAt(i + 1);
    RowsHold(i);
    RowsHold(i + 1);
    RungsHold(i);
    ExactRung(r, s);
    RungInReals(r, s);
    Parts(n, r);
    Parts(n, s);
    RungError(Fine(r), r.fine as real, Fine(s), s.fine as real, PowR(2.0, s.bExp - r.bExp), n as real);
  }

  lemma RungInReals(r: Rung, s: Rung)
    requires RowHolds(r) && RowHolds(s) && RungHolds(r, s)
    ensures r.fine as real >= 4.0 * TWO93R && s.fine as real >= 4.0 * TWO93R
    ensures
      var d := if s.bExp == r.bExp + 26 then TWO26 as real else TWO27 as real;
      && (s.bExp == r.bExp + 26 || s.bExp == r.bExp + 27)
      && -2.0 * d <= s.fine as real * d - r.fine as real * 100000000.0 <= 2.0 * d
  {
  }

  lemma ExactAtTenThousand()
    ensures OffBy(0, RungAt(44))
  {
    var r := RungAt(44);
    assert r.bExp == -50 && r.dExp == 4;
    assert r.fine == 10000 * 0x4_0000_0000_0000_0000_0000;
    BigPower();
  }

  lemma BigPower()
    ensures PowR(2.0, 82) == 0x4_0000_0000_0000_0000_0000 as real && PowR(10.0, 4) == 10000.0
  {
    hide PowR, Pow2;
    PowRIsPow10(4);
    Pow10Literals();
    PowRIsPow2(82);
    Pow2Literals();
    Pow2Adds(60, 22);
  }

  lemma {:induction false} EveryRung(i: nat)
    requires i < 87
    ensures OffBy(if i < 44 then 44 - i else i - 44, RungAt(i))
    decreases if i < 44 then 44 - i else i - 44
  {
    hide RungAt, OffBy;
    if i == 44 {
      ExactAtTenThousand();
    } else if i < 44 {
      EveryRung(i + 1);
      RungUpOrDown(44 - (i + 1), i);
    } else {
      EveryRung(i - 1);
      RungUpOrDown(i - 1 - 44, i - 1);
    }
  }

  // ----- The promise -----------------------------------------------------------------

  /** The power of ten, at the scale of its cached significand. */
  function Power(mk: int, ce: int): real {
    PowR(10.0, mk) * PowR(2.0, -ce)
  }

  /** The cached power is off from the power of ten by at most half a unit. */
  ghost predicate HalfUnitPower(c: DiyFp, mk: int)
  {
    AbsR(Power(mk, c.e) - c.f as real) <= 0.5
  }

  lemma FineIsShifted(r: Rung)
    ensures Fine(r) == Power(r.dExp, r.bExp) * 4294967296.0
  {
    hide PowR;
    PowRAdds(2.0, -r.bExp, 32);
    assert -r.bExp + 32 == 32 - r.bExp;
    TwoTo32();
    Assoc(PowR(10.0, r.dExp), PowR(2.0, -r.bExp), PowR(2.0, 32 - r.bExp));
  }

  /** Every row of the table is the power of ten rounded to the nearest 64-bit significand. */
  lemma TableIsHalfUnit(i: nat)
    requires i < 87
    ensures HalfUnitPower(DiyFp(RungAt(i).fract, RungAt(i).bExp), RungAt(i).dExp)
  {
    hide RungAt, Fine, Power;
    var r := RungAt(i);
    EveryRung(i);
    RowsHold(i);
    FineIsShifted(r);
    var p := Power(r.dExp, r.bExp);
    RoundsHalf(p, Fine(r), r.fine, r.fract, if i < 44 then 44 - i else i - 44);
  }

  lemma TwoTo32()
    ensures PowR(2.0, 32) == 4294967296.0
  {
    PowRIsPow2(32);
    Pow2Literals();
  }

  lemma Assoc(a: real, b: real, c: real)
    requires c == b * 4294967296.0
    ensures a * c == a * b * 4294967296.0
  {
  }

  lemma RoundsHalf(p: real, y: real, fine: nat, fract: nat, n: nat)
    requires y == p * 4294967296.0 && n <= 44 && fine < 2 * TWO95
    requires AbsR(y - fine as real) * TWO93R <= n as real * fine as real
    requires -TWO31 + 400 <= fine - fract * TWO32 <= TWO31 - 400
    ensures AbsR(p - fract as real) <= 0.5
  {
    var f, d := fine as real, fine - fract * TWO32;
    ScaledToReal(fine, fract);
    assert f <= 8.0 * TWO93R;
    ErrorIsSmall(AbsR(y - f), f, n as real, TWO93R);
    assert AbsR(y - fract as real * 4294967296.0) <= 2147483648.0;
  }

  lemma ErrorIsSmall(e: real, f: real, n: real, u: real)
    requires 0.0 <= n <= 44.0 && 0.0 <= f <= 8.0 * u && 0.0 < u && e * u <= n * f
    ensures e <= 352.0
  {
    MulMonoR(f, n, 44.0);
    Commute(n, f);
    ScaleLess(u, e, 352.0);
  }

  lemma ScaledToReal(a: nat, b: nat)
    ensures (a - b * TWO32) as real == a as real - b as real * 4294967296.0
  {
    assert (b * 4294967296) as real == b as real * 4294967296.0;
  }

  lemma Commute(a: real, b: real)
    ensures a * b == b * a
  {
  }

  // ----- Looking a power up ------------------------------------------------------------

  /** Ceiling by truncation, for lack of a math library. */
  function ICeil(v: real): int
  {
    var k := if v < 0.0 then -((-v).Floor) else v.Floor;
    if v < 0.0 then k else if v - k as real == 0.0 then k else k + 1
  }

  /** Division as C does it, rounding toward zero. */
  function CDiv(a: int, b: nat): int
    requires b > 0
  {
    if a < 0 then -((-a) / b) else a / b
  }

  /** The index, from the product as it has been computed. */
  function IndexFrom(product: real): int
  {
    CDiv(ICeil(product) + 348 - 1, 8) + 1
  }

  /** Digits per bit, times a number of bits. */
  function Product(bits: int): real { bits as real * 0.30102999566398114 }

  function CachedIndex(exp: int): int { IndexFrom(Product(exp + 63)) }

  /** The cached power for a binary exponent, and its decimal exponent. */
  function CachedPow(exp: int): (DiyFp, int)
    requires 0 <= CachedIndex(exp) < 87
  {
    var r := RungAt(CachedIndex(exp));
    (DiyFp(r.fract, r.bExp), r.dExp)
  }

  /** For the exponents of normalised doubles the index is inside the table and the power fits. */
  lemma CachedPowFits(exp: int)
    requires -1084 <= exp <= 1013
    ensures 0 <= CachedIndex(exp) < 87
    ensures var (c, mk) := CachedPow(exp);
      exp <= c.e <= exp + 28 && TWO63 <= c.f < TWO64 && HalfUnitPower(c, mk) && -348 <= mk <= 340
  {
    hide RungAt, HalfUnitPower;
    var x := Product(exp + 63);
    var k := ICeil(x);
    assert k as real - 1.0 < x <= k as real;
    var i := CachedIndex(exp);
    RowsHold(i);
    TableIsHalfUnit(i);
    var r := RungAt(i);
    assert r.dExp - 8 < k <= r.dExp;
    assert (exp + 63) * 30102999566398114 <= k * 100000000000000000;
    assert (exp + 63) * 30102999566398114 > (k - 1) * 100000000000000000;
  }

  /**
   The product stays away from whole numbers: 146/485 and 643/2136 are
   consecutive convergents of the factor, and nothing with a smaller
   denominator than the second comes closer than the first.
   */
  lemma ProductIsNotWhole(bits: int, m: int)
    requires -2136 < bits < 2136 && bits != 0
    ensures bits * 30102999566398114 - m * 100000000000000000 >= 45000000000000
         || bits * 30102999566398114 - m * 100000000000000000 <= -45000000000000
  {
    var u, v := m * 2136 - bits * 643, bits * 146 - m * 485;
    assert bits == u * 485 + v * 2136 && m == u * 146 + v * 643;
    NotBothSmall(u, v);
    assert bits * 30102999566398114 - m * 100000000000000000 == v * 7073826371504 - u * 45210296914710;
  }

  lemma NotBothSmall(u: int, v: int)
    requires -2136 < u * 485 + v * 2136 < 2136 && (u != 0 || v != 0)
    ensures v * 7073826371504 - u * 45210296914710 >= 45000000000000
         || v * 7073826371504 - u * 45210296914710 <= -45000000000000
  {
    if v > 0 {
      assert u <= -1;
    } else if v < 0 {
      assert u >= 1;
    }
  }

  lemma CeilingIs(v: real, k: int)
    requires k as real - 1.0 < v <= k as real
    ensures ICeil(v) == k
  {
  }

  /** The result of two roundings to 53 bits, with room to spare. */
  predicate NearlyEqual(computed: real, exact: real) {
    exact - AbsR(exact) / 1000000000000000.0 <= computed <= exact + AbsR(exact) / 1000000000000000.0
  }

  /** However factor and product are rounded to binary64, the index is the same. */
  lemma RoundingKeepsIndex(exp: int, computed: real)
    requires -1084 <= exp <= 1013 && NearlyEqual(computed, Product(exp + 63))
    ensures IndexFrom(computed) == CachedIndex(exp)
  {
    var x := Product(exp + 63);
    var k := ICeil(x);
    assert k as real - 1.0 < x <= k as real;
    if exp + 63 != 0 {
      ProductIsNotWhole(exp + 63, k);
      ProductIsNotWhole(exp + 63, k - 1);
      CeilingIs(computed, k);
    }
  }
}
