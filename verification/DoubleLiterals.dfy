/**
 What the scanner of `grisu3_parse_double` makes of a well-formed number: which
 digits it takes, how it rounds the rest, and exactly when the decimal it
 reports is within half a unit of the one that was written.
 */
module DoubleLiterals {
  import opened Arith
  import opened Decimal
  import opened DoubleScan

  /** A number as text: sign, integer part, digits behind the point, exponent mark, exponent digits. */
  datatype Literal = Literal(neg: bool, ip: string, fp: string, mark: string, x: string)
  {
    predicate Valid() {
      && ip != [] && AllDigits(ip) && AllDigits(fp) && AllDigits(x)
      && IsMark(mark, x)
    }

    function Digits(): string { ip + fp }

    function Lead(): string { if neg then "-" else "" }

    function Behind(): string { if fp == [] then "" else "." + fp }

    function Text(): string { Lead() + ip + Behind() + mark + x }

    /** The exponent the scanner reads. */
    function Power(): int {
      Signed(mark, ReadExponent(x))
    }
  }

  /** Exponent digits stop counting once the exponent dominates every fraction. */
  function ReadExponent(x: string): int
  {
    if x == [] then 0 else NextExponent(ReadExponent(x[..|x| - 1]), x[|x| - 1])
  }

  lemma {:induction false} ExponentIsValue(x: string)
    ensures Value(x) <= 0x7fff ==> ReadExponent(x) == Value(x)
    ensures Value(x) > 0x7fff ==> 0x7fff < ReadExponent(x) <= 327679
  {
    if x != [] {
      ExponentIsValue(x[..|x| - 1]);
    }
  }

  // ----- How many digits are taken -----------------------------------------------------

  /** The scanner takes k of the digits d: as many as it needs to fill the fraction. */
  predicate CutAt(d: string, k: nat) {
    && k <= |d|
    && (k < |d| ==> Value(d[..k]) >= SATURATED)
    && (k > 0 ==> Value(d[..k - 1]) < SATURATED)
  }

  function Taken(d: string): (k: nat)
    ensures CutAt(d, k)
  {
    if d == [] then 0
    else
      var front := d[..|d| - 1];
      var k := Taken(front);
      assert forall i :: 0 <= i <= |front| ==> front[..i] == d[..i];
      if k == |front| && Value(front) < SATURATED then |d| else k
  }

  lemma {:induction false} PrefixValue(d: string, a: nat, b: nat)
    requires a <= b <= |d|
    ensures Value(d[..a]) <= Value(d[..b])
  {
    if a < b {
      PrefixValue(d, a, b - 1);
      assert d[..b][..b - 1] == d[..b - 1];
    }
  }

  /** All digits are taken exactly when the number they denote is below 10 * SATURATED. */
  lemma AllTaken(d: string, k: nat)
    requires CutAt(d, k)
    ensures k == |d| <==> Value(d) < 10 * SATURATED
  {
    assert d[..|d|] == d;
    if d != [] {
      assert Value(d) == 10 * Value(d[..|d| - 1]) + DigitOf(d[|d| - 1]);
      if k < |d| {
        PrefixValue(d, k, |d| - 1);
      }
    }
  }

  /** The digits taken, rounded by the first one that is not. */
  function Rounded(d: string, k: nat): nat
    requires k <= |d|
  {
    Value(d[..k]) + if k < |d| then RoundUp(d[k]) else 0
  }

  lemma RoundedFits(d: string, k: nat)
    requires CutAt(d, k)
    ensures Value(d[..k]) <= 10 * SATURATED - 1 && Rounded(d, k) < TWO64
    ensures k < |d| ==> SATURATED <= Rounded(d, k)
  {
    if k > 0 {
      assert d[..k][..k - 1] == d[..k - 1];
    }
  }

  lemma {:induction false} AccumulateTakes(t: string, i: nat, q: nat, end: nat, pre: string, d: string, k: nat)
    requires i <= q < end <= |t| && AllDigits(t[i..q]) && !IsDigit(t[q])
    requires d == pre + t[i..q] && CutAt(d, k) && |pre| <= k
    ensures Accumulate(t, i, end, Value(pre)) == (i + (k - |pre|), Value(d[..k]), k < |d|)
    decreases q - i
  {
    hide Value;
    assert d[..|pre|] == pre;
    if i < q {
      assert t[i..q][0] == t[i] == d[|pre|];
      if Value(pre) >= SATURATED {
        if |pre| < k {
          PrefixValue(d, |pre|, k - 1);
        }
      } else {
        TakeOneMore(t, i, q, pre, d, k);
        Word(Value(pre) * 10 + DigitOf(t[i]));
        AccumulateTakes(t, i + 1, q, end, pre + [t[i]], d, k);
      }
    }
  }

  lemma TakeOneMore(t: string, i: nat, q: nat, pre: string, d: string, k: nat)
    requires i < q <= |t| && AllDigits(t[i..q])
    requires d == pre + t[i..q] && CutAt(d, k) && |pre| <= k && Value(pre) < SATURATED
    ensures |pre| < k && d == (pre + [t[i]]) + t[i + 1..q] && AllDigits(t[i + 1..q])
    ensures Value(pre + [t[i]]) == Value(pre) * 10 + DigitOf(t[i]) < TWO64
  {
    hide Value;
    Regrouped(pre, t[i..q], t[i]);
    assert t[i..q][1..] == t[i + 1..q];
    ValueSnoc(pre, t[i]);
    DigitsFrom(t, i, i + 1, q);
  }

  lemma Regrouped(pre: string, s: string, c: char)
    requires s != [] && s[0] == c
    ensures pre + s == (pre + [c]) + s[1..] && (pre + s)[..|pre|] == pre
  {
    assert s == [c] + s[1..];
  }

  // ----- Digits that are passed over ------------------------------------------------------

  function LeadingZeros(s: string): (z: nat)
    ensures z <= |s| && (z > 0 <==> s != [] && s[0] == '0')
  {
    if s != [] && s[0] == '0' then 1 + LeadingZeros(s[1..]) else 0
  }

  lemma {:induction false} LeadingZerosAreZero(s: string)
    ensures Value(s[..LeadingZeros(s)]) == 0
  {
    if s != [] && s[0] == '0' {
      var z := LeadingZeros(s[1..]);
      LeadingZerosAreZero(s[1..]);
      assert s[..1 + z] == [s[0]] + s[1..][..z];
      ValueConcat([s[0]], s[1..][..z]);
      assert [s[0]][..0] == [];
    }
  }

  lemma {:induction false} ZerosPassed(t: string, i: nat, q: nat, end: nat)
    requires i <= q < end <= |t| && AllDigits(t[i..q]) && !IsDigit(t[q])
    ensures SkipZeros(t, i, end) == i + LeadingZeros(t[i..q]) <= q
    ensures SkipZeros(t, i, end) < q ==> IsNonzeroDigit(t[SkipZeros(t, i, end)])
    decreases q - i
  {
    if i < q {
      assert t[i..q][0] == t[i];
      if t[i] == '0' {
        assert t[i..q][1..] == t[i + 1..q];
        ZerosPassed(t, i + 1, q, end);
      }
    }
  }

  lemma {:induction false} DigitsPassed(t: string, i: nat, q: nat, end: nat)
    requires i <= q < end <= |t| && AllDigits(t[i..q]) && !IsDigit(t[q])
    ensures SkipDigits(t, i, end) == q
    decreases q - i
  {
    if i < q {
      assert t[i..q][0] == t[i];
      DigitsFrom(t, i, i + 1, q);
      DigitsPassed(t, i + 1, q, end);
    }
  }

  /** Past the surplus digits: zeros first, then anything. */
  lemma SurplusPassed(t: string, b: nat, q: nat, end: nat)
    requires b <= q < end <= |t| && AllDigits(t[b..q]) && !IsDigit(t[q])
    ensures var z := SkipZeros(t, b, end);
      && z == b + LeadingZeros(t[b..q]) <= q
      && (Surplus(t, z, end) <==> z < q) && AfterSurplus(t, z, end) == q
  {
    ZerosPassed(t, b, q, end);
    var z := SkipZeros(t, b, end);
    if z < q {
      DigitsFrom(t, b, z + 1, q);
      DigitsPassed(t, z + 1, q, end);
    }
  }

  // ----- The stages on well-formed text -----------------------------------------------------

  lemma IntegerDigitsScan(t: string, p: nat, k0: nat, q: nat, end: nat, k: nat)
    requires p <= k0 <= q < end <= |t| && AllDigits(t[p..q]) && !IsDigit(t[q])
    requires CutAt(t[p..q], k) && k0 - p <= k
    ensures var s := IntegerDigits(t, k0, end, Value(t[p..k0]));
      && s.pos == q && s.fraction == Rounded(t[p..q], k)
      && s.exponent == q - p - k && s.halfUlp == (k < q - p)
  {
    hide Value, Accumulate, LeadingZeros, SkipZeros, Surplus, AfterSurplus;
    var d := t[p..q];
    DigitsFrom(t, p, k0, q);
    assert t[p..k0] + t[k0..q] == d;
    AccumulateTakes(t, k0, q, end, t[p..k0], d, k);
    RoundedFits(d, k);
    var b := p + k;
    if k < |d| {
      assert d[k] == t[b];
      Word(Rounded(d, k));
    }
    DigitsFrom(t, p, b, q);
    SurplusPassed(t, b, q, end);
  }

  lemma ZerosAreTaken(d: string, n: nat, k: nat)
    requires n <= |d| && Value(d[..n]) == 0 && CutAt(d, k)
    ensures n <= k
  {
    if k < n {
      PrefixValue(d, k, n);
    }
  }

  lemma IntegerScan(t: string, p: nat, q: nat, end: nat, sign: bool, k: nat)
    requires p < q < end <= |t| && AllDigits(t[p..q]) && !IsDigit(t[q])
    requires CutAt(t[p..q], k) && (t[p..q] == "0" ==> !IsX(t[q]))
    ensures var r := IntegerPart(t, p, end, sign);
      && r.Go? && r.stage.pos == q && r.stage.fraction == Rounded(t[p..q], k)
      && r.stage.exponent == q - p - k && r.stage.halfUlp == (k < q - p)
  {
    hide IntegerDigits;
    var d := t[p..q];
    assert d[0] == t[p];
    assert t[p..p + 1][..0] == [];
    assert Value(t[p..p + 1]) == DigitOf(t[p]);
    assert k > 0 by { assert d[..0] == []; }
    if t[p] == '0' {
      assert p + 1 < q ==> d[1] == t[p + 1];
      DigitsFrom(t, p, p + 1, q);
      ZerosPassed(t, p, q, end);
      var z := SkipZeros(t, p, end);
      assert z == SkipZeros(t, p + 1, end);
      assert d[..z - p] == t[p..z];
      LeadingZerosAreZero(d);
      ZerosAreTaken(d, z - p, k);
      IntegerDigitsScan(t, p, z, q, end, k);
    } else {
      IntegerDigitsScan(t, p, p + 1, q, end, k);
    }
  }

  lemma CutWithin(ip: string, fp: string, k: nat)
    requires CutAt(ip + fp, k)
    ensures CutAt(ip, if k < |ip| then k else |ip|)
    ensures k <= |ip| ==> Value((ip + fp)[..k]) == Value(ip[..k])
  {
    var d := ip + fp;
    assert forall i :: 0 <= i <= |ip| ==> d[..i] == ip[..i];
    if |ip| <= k && 0 < |ip| {
      PrefixValue(d, |ip| - 1, k - 1);
    }
  }

  /** Resuming behind the point: either the fraction is full already, or digits are still taken. */
  lemma FractionTakes(t: string, q: nat, m: nat, end: nat, ip: string, fp: string, k: nat)
    requires q + 1 < m < end <= |t| && fp == t[q + 1..m] && AllDigits(fp) && !IsDigit(t[m])
    requires CutAt(ip + fp, k)
    ensures var ki := if k < |ip| then k else |ip|;
      && ki <= |ip| && Accumulate(t, q + 1, end, Rounded(ip, ki)).0 == q + 1 + (k - ki)
    ensures k < |ip| ==>
      Accumulate(t, q + 1, end, Rounded(ip, k)) == (q + 1, Rounded(ip + fp, k), true)
    ensures k >= |ip| ==>
      Accumulate(t, q + 1, end, Rounded(ip, |ip|)) == (q + 1 + (k - |ip|), Value((ip + fp)[..k]), k < |ip + fp|)
  {
    hide Value;
    var d := ip + fp;
    CutWithin(ip, fp, k);
    assert fp[0] == t[q + 1];
    if k < |ip| {
      RoundedFits(ip, k);
      assert d[k] == ip[k];
    } else {
      assert ip[..|ip|] == ip;
      AccumulateTakes(t, q + 1, m, end, ip, d, k);
    }
  }

  lemma FractionScan(t: string, end: nat, s: Stage, ip: string, fp: string, m: nat, k: nat, from: nat)
    requires s.pos + 1 < m < end <= |t| && t[s.pos] == '.' && !IsDigit(t[m])
    requires fp == t[s.pos + 1..m] && AllDigits(fp) && CutAt(ip + fp, k)
    requires from == if k < |ip| then 0 else k - |ip|
    requires s.fraction == Rounded(ip, k - from) && s.exponent == |ip| - (k - from) && s.halfUlp == (k < |ip|)
    ensures FractionPart(t, end, s).Go?
    ensures var n := FractionPart(t, end, s).stage;
      && n.pos == m && n.fraction == Rounded(ip + fp, k) && n.halfUlp == (k < |ip + fp|)
      && n.exponent == |ip| - k + LeadingZeros(fp[from..])
  {
    hide Value, Accumulate, LeadingZeros, SkipZeros, Surplus, AfterSurplus;
    var k0, b := s.pos + 1, s.pos + 1 + from;
    FractionTakes(t, s.pos, m, end, ip, fp, k);
    assert fp[0] == t[k0];
    RoundedFits(ip + fp, k);
    assert k0 <= b <= m && fp[from..] == t[b..m];
    DigitsFrom(t, k0, b, m);
    SurplusPassed(t, b, m, end);
    if |ip| <= k < |ip + fp| {
      assert (ip + fp)[k] == t[b];
      Word(Rounded(ip + fp, k));
    }
  }

  lemma {:induction false} ExponentDigits(t: string, i: nat, q: nat, end: nat, pre: string)
    requires i <= q < end <= |t| && AllDigits(t[i..q]) && !IsDigit(t[q])
    ensures AccumulateExponent(t, i, end, ReadExponent(pre)) == (q, ReadExponent(pre + t[i..q]))
    decreases q - i
  {
    if i == q {
      assert pre + t[i..q] == pre;
    } else {
      assert t[i..q][0] == t[i] && t[i..q][1..] == t[i + 1..q];
      Regrouped(pre, t[i..q], t[i]);
      DigitsFrom(t, i, i + 1, q);
      assert (pre + [t[i]])[..|pre|] == pre;
      ExponentDigits(t, i + 1, q, end, pre + [t[i]]);
    }
  }

  predicate IsMark(mark: string, x: string) {
    if x == [] then mark == "" else mark in ["e", "E", "e+", "E+", "e-", "E-"]
  }

  function Signed(mark: string, ee: int): int {
    if mark == "e-" || mark == "E-" then -ee else ee
  }

  lemma ExponentScan(t: string, end: nat, m: nat, q: nat, e: nat, mark: string, x: string)
    requires m <= q <= e < end <= |t| && t[m..q] == mark && t[q..e] == x && AllDigits(x)
    requires IsMark(mark, x) && !IsDigit(t[e]) && (x == [] ==> !IsE(t[e]))
    ensures ExponentPart(t, end, m) == Exponent(e, Signed(mark, ReadExponent(x)))
  {
    hide AccumulateExponent, ReadExponent;
    if x == [] {
      NoExponentDigits();
    } else {
      assert t[m] == mark[0] && x[0] == t[q];
      assert |mark| == 2 ==> t[m + 1] == mark[1];
      assert [x[0]] + t[q + 1..e] == x;
      FirstExponentDigit(x[0]);
      DigitsFrom(t, q, q + 1, e);
      ExponentDigits(t, q + 1, e, end, [x[0]]);
      assert IsE(t[m]);
      assert mark == "e-" || mark == "E-" <==> t[m + 1] == '-';
    }
  }

  lemma NoExponentDigits()
    ensures ReadExponent([]) == 0
  {
  }

  lemma FirstExponentDigit(c: char)
    ensures ReadExponent([c]) == DigitOf(c)
  {
    assert [c][..0] == [];
  }

  // ----- The whole number -----------------------------------------------------------------------

  /** Zeros among the digits behind the point that come after the fraction is full. */
  function ZerosPassedOver(l: Literal): nat
  {
    var k := Taken(l.Digits());
    LeadingZeros(l.fp[if k < |l.ip| then 0 else k - |l.ip|..])
  }

  /** What may follow a number without becoming part of it. */
  predicate Ends(c: char) {
    !IsDigit(c) && !IsX(c) && !IsE(c) && c != '.' && c != '-' && c != '+'
  }

  /** Exactly what may follow this number: one that has an exponent is ended by more than one that has none. */
  predicate Stops(l: Literal, c: char) {
    && !IsDigit(c)
    && (l.mark == "" ==> !IsE(c))
    && (l.mark == "" && l.fp == "" ==> c != '.' && (l.ip == "0" ==> !IsX(c)))
  }

  lemma EndsStops(l: Literal, c: char)
    ensures Ends(c) ==> Stops(l, c)
  {
  }

  /** The pieces of a number, where they stand in the text, and what follows each of them. */
  predicate Placed(l: Literal, t: string, p: nat, q: nat, m: nat, x: nat, e: nat) {
    && p < q <= m <= x <= e < |t|
    && t[p..q] == l.ip && t[m..x] == l.mark && t[x..e] == l.x
    && (if l.neg then p == 1 && t[0] == '-' else p == 0)
    && (if l.fp == [] then m == q else q + 1 < m && t[q + 1..m] == l.fp)
    && (t[q] == '.' <==> l.fp != []) && (l.ip == "0" ==> !IsX(t[q])) && !IsDigit(t[q])
    && !IsDigit(t[m]) && Stops(l, t[e])
  }

  /** Text that starts with two pieces. */
  lemma LastPiece(t: string, pre: string, all: string, piece: string)
    requires all <= t && all == pre + piece
    ensures pre <= t && t[|pre|..|all|] == piece
  {
    assert t[..|all|] == all;
    assert t[..|pre|] == all[..|pre|] == pre;
    assert t[|pre|..|all|] == all[|pre|..];
  }

  lemma Pieces(l: Literal, t: string, p: nat, q: nat, m: nat, x: nat, e: nat)
    requires l.Valid() && e < |t| && t == l.Text() + t[e..] && Stops(l, t[e])
    requires p == |l.Lead()| && q == p + |l.ip| && m == q + |l.Behind()| && x == m + |l.mark| && e == x + |l.x|
    ensures Placed(l, t, p, q, m, x, e)
  {
    hide Literal.Text, Literal.Behind, Stops, AllDigits, IsMark;
    PiecesStand(l, t);
    PiecesSeen(l, t, p, q, m, x, e);
  }

  /** Each piece stands behind the ones before it. */
  lemma PiecesStand(l: Literal, t: string)
    requires l.Text() <= t
    ensures var p := |l.Lead()|; var q := p + |l.ip|; var m := q + |l.Behind()|; var x := m + |l.mark|;
      && x + |l.x| <= |t| && t[..p] == l.Lead() && t[p..q] == l.ip
      && t[q..m] == l.Behind() && t[m..x] == l.mark && t[x..x + |l.x|] == l.x
  {
    hide Literal.Lead, Literal.Behind;
    var a, b, c := l.Lead() + l.ip, l.Lead() + l.ip + l.Behind(), l.Lead() + l.ip + l.Behind() + l.mark;
    LastPiece(t, c, l.Text(), l.x);
    LastPiece(t, b, c, l.mark);
    LastPiece(t, a, b, l.Behind());
    LastPiece(t, l.Lead(), a, l.ip);
  }

  /** What the scanner finds at each of them. */
  lemma PiecesSeen(l: Literal, t: string, p: nat, q: nat, m: nat, x: nat, e: nat)
    requires l.Valid() && e < |t| && Stops(l, t[e])
    requires p == |l.Lead()| && q == p + |l.ip| && m == q + |l.Behind()| && x == m + |l.mark| && e == x + |l.x|
    requires t[..p] == l.Lead() && t[p..q] == l.ip && t[q..m] == l.Behind() && t[m..x] == l.mark && t[x..e] == l.x
    ensures Placed(l, t, p, q, m, x, e)
  {
    hide AllDigits;
    assert l.fp != [] ==> t[q] == t[q..m][0] && t[q + 1..m] == t[q..m][1..];
    assert l.mark != [] ==> t[m] == t[m..x][0];
    MarkIsSeen(l, t[e]);
  }

  /** What may stand behind the digits starts no further one. */
  lemma MarkIsSeen(l: Literal, c: char)
    requires l.Valid() && Stops(l, c)
    ensures !IsDigit(c) && (l.mark == [] ==> l.x == [])
    ensures l.mark != [] ==> !IsDigit(l.mark[0]) && !IsX(l.mark[0]) && l.mark[0] != '.'
  {
    hide AllDigits;
  }

  /**
   Every well-formed number is accepted whole. The fraction holds the digits
   taken, rounded, and the exponent accounts for the digits left out - and once
   more for every zero behind the point that is passed over.
   */
  lemma ScanLiteral(l: Literal, t: string, len: nat)
    requires l.Valid() && l.Text() <= t && Readable(t, len)
    requires |l.Text()| <= len && |l.Text()| <= 1000 && Stops(l, t[|l.Text()|])
    ensures var r, d := ScanText(t, len), l.Digits();
      && r.Number? && r.end == |l.Text()| && r.sign == l.neg
      && r.fraction == Rounded(d, Taken(d)) && r.halfUlp == (Taken(d) < |d|)
      && r.exponent - r.fractionExp == l.Power() - |l.fp| + (|d| - Taken(d)) + ZerosPassedOver(l)
  {
    hide Value, IntegerPart, FractionPart, ExponentPart, LeadingZeros, Taken, Stops, Placed, Rounded,
         ZerosPassedOver, AllDigits;
    var p := |l.Lead()|;
    var q := p + |l.ip|;
    var m := q + |l.Behind()|;
    var x := m + |l.mark|;
    var e := x + |l.x|;
    Pieces(l, t, p, q, m, x, e);
    SignIsSeen(l, t, p, q, m, x, e);
    ScanPlaced(l, t, p, q, m, x, e, End(len), Taken(l.Digits()));
  }

  lemma NothingGoesOn(l: Literal, t: string, p: nat, q: nat, m: nat, x: nat, e: nat)
    requires l.Valid() && Placed(l, t, p, q, m, x, e)
    ensures !IsDigit(t[e]) && (l.x == [] ==> !IsE(t[e]))
    ensures CutAt(l.Digits(), Taken(l.Digits())) && Taken(l.Digits()) <= |l.Digits()|
  {
  }

  lemma SignIsSeen(l: Literal, t: string, p: nat, q: nat, m: nat, x: nat, e: nat)
    requires l.Valid() && Placed(l, t, p, q, m, x, e)
    ensures (t[0] == '-' <==> l.neg) && p == if l.neg then 1 else 0
  {
    hide Stops;
    assert t[p..q][0] == t[p];
  }

  lemma ScanPlaced(l: Literal, t: string, p: nat, q: nat, m: nat, x: nat, e: nat, end: nat, k: nat)
    requires l.Valid() && Placed(l, t, p, q, m, x, e) && e < end <= |t| && k == Taken(l.Digits())
    ensures IntegerPart(t, p, end, l.neg).Go?
    ensures var s1 := IntegerPart(t, p, end, l.neg).stage;
      && PointReadable(t, end, s1.pos) && FractionPart(t, end, s1).Go?
    ensures var s := FractionPart(t, end, IntegerPart(t, p, end, l.neg).stage).stage;
      && s.pos == m && s.fraction == Rounded(l.Digits(), k) && s.halfUlp == (k < |l.Digits()|)
      && s.exponent == |l.ip| - k + ZerosPassedOver(l)
    ensures ExponentPart(t, end, m) == Exponent(e, l.Power())
  {
    hide Value, IntegerPart, ExponentPart, LeadingZeros, Taken, Rounded, ReadExponent, Signed, Stops, CutAt;
    var d := l.Digits();
    NothingGoesOn(l, t, p, q, m, x, e);
    var from := if k < |l.ip| then 0 else k - |l.ip|;
    CutWithin(l.ip, l.fp, k);
    IntegerScan(t, p, q, end, l.neg, k - from);
    var s1 := IntegerPart(t, p, end, l.neg).stage;
    if l.fp == [] {
      assert d == l.ip;
    } else {
      FractionScan(t, end, s1, l.ip, l.fp, m, k, from);
    }
    ExponentScan(t, end, m, x, e, l.mark, l.x);
  }

  // ----- Nothing else is accepted -------------------------------------------------------------------

  predicate DigitSpan(t: string, a: nat, b: nat) {
    a <= b <= |t| && forall k :: a <= k < b ==> IsDigit(t[k])
  }

  predicate NoDigitAt(t: string, i: nat, end: nat)
    requires end <= |t|
  {
    i < end ==> !IsDigit(t[i])
  }

  lemma {:induction false} ZerosSpan(t: string, i: nat, end: nat)
    requires i <= end <= |t|
    ensures DigitSpan(t, i, SkipZeros(t, i, end))
    ensures var z := SkipZeros(t, i, end); z < end ==> t[z] != '0'
    decreases end - i
  {
    if i < end && t[i] == '0' {
      ZerosSpan(t, i + 1, end);
    }
  }

  lemma {:induction false} DigitsSpan(t: string, i: nat, end: nat)
    requires i <= end <= |t|
    ensures DigitSpan(t, i, SkipDigits(t, i, end)) && NoDigitAt(t, SkipDigits(t, i, end), end)
    decreases end - i
  {
    if i < end && IsDigit(t[i]) {
      DigitsSpan(t, i + 1, end);
    }
  }

  lemma {:induction false} AccumulateSpan(t: string, i: nat, end: nat, f: nat)
    requires i <= end <= |t|
    ensures DigitSpan(t, i, Accumulate(t, i, end, f).0)
    ensures Accumulate(t, i, end, f).2 ==> IsDigit(t[Accumulate(t, i, end, f).0])
    decreases end - i
  {
    if i < end && IsDigit(t[i]) && f < SATURATED {
      AccumulateSpan(t, i + 1, end, U64(f * 10 + DigitOf(t[i])));
    }
  }

  lemma {:induction false} ExponentSpan(t: string, i: nat, end: nat, ee: int)
    requires i <= end <= |t|
    ensures var b := AccumulateExponent(t, i, end, ee).0; DigitSpan(t, i, b) && NoDigitAt(t, b, end)
    decreases end - i
  {
    if i < end && IsDigit(t[i]) {
      ExponentSpan(t, i + 1, end, NextExponent(ee, t[i]));
    }
  }

  /** Where accumulation stops, zeros and surplus digits follow. */
  lemma SurplusSpan(t: string, b: nat, end: nat)
    requires b <= end <= |t|
    ensures var z := SkipZeros(t, b, end); DigitSpan(t, b, AfterSurplus(t, z, end))
    ensures b < end && IsDigit(t[b]) ==> b < AfterSurplus(t, SkipZeros(t, b, end), end)
    ensures NoDigitAt(t, AfterSurplus(t, SkipZeros(t, b, end), end), end)
  {
    var z := SkipZeros(t, b, end);
    ZerosSpan(t, b, end);
    if Surplus(t, z, end) {
      DigitsSpan(t, z + 1, end);
    }
  }

  lemma IntegerSpan(t: string, p: nat, end: nat, sign: bool)
    requires p < end <= |t|
    ensures var r := IntegerPart(t, p, end, sign);
      r.Go? ==> p < r.stage.pos && DigitSpan(t, p, r.stage.pos) && NoDigitAt(t, r.stage.pos, end)
    ensures var r := IntegerPart(t, p, end, sign);
      r.Go? && r.stage.pos == p + 1 < end && t[p] == '0' ==> !IsX(t[p + 1])
  {
    var k, f := p + 1, DigitOf(t[p]);
    if t[p] == '0' {
      ZerosSpan(t, p + 1, end);
      k, f := SkipZeros(t, p + 1, end), 0;
    }
    AccumulateSpan(t, k, end, f);
    SurplusSpan(t, Accumulate(t, k, end, f).0, end);
  }

  lemma FractionSpan(t: string, end: nat, s: Stage)
    requires PointReadable(t, end, s.pos)
    ensures var r := FractionPart(t, end, s);
      r.Go? && r.stage.pos < end && s.pos < end && t[s.pos] == '.' ==>
        s.pos + 1 < r.stage.pos && DigitSpan(t, s.pos + 1, r.stage.pos) && NoDigitAt(t, r.stage.pos, end)
    ensures !(s.pos < end && t[s.pos] == '.') ==> FractionPart(t, end, s) == Go(s)
  {
    if s.pos < end && t[s.pos] == '.' {
      var k := s.pos + 1;
      AccumulateSpan(t, k, end, s.fraction);
      SurplusSpan(t, Accumulate(t, k, end, s.fraction).0, end);
    }
  }

  lemma ExponentMarks(t: string, end: nat, pos: nat)
    requires pos <= end <= |t| && ExponentPart(t, end, pos).Exponent?
    ensures var b := ExponentPart(t, end, pos).pos;
      b == pos || exists q :: pos < q < b <= end && DigitSpan(t, q, b) && IsMark(t[pos..q], t[q..b])
    ensures var b := ExponentPart(t, end, pos).pos;
      b < end ==> if b == pos then !IsE(t[b]) else !IsDigit(t[b])
  {
    if pos < end && IsE(t[pos]) {
      var signed := t[pos + 1] == '+' || t[pos + 1] == '-';
      var q := if signed then pos + 2 else pos + 1;
      ExponentSpan(t, q + 1, end, DigitOf(t[q]));
      var b := ExponentPart(t, end, pos).pos;
      assert DigitSpan(t, q, b);
      MarkInText(t, pos, q, b);
    }
  }

  lemma MarkInText(t: string, pos: nat, q: nat, b: nat)
    requires pos < q < b <= |t| && IsE(t[pos])
    requires q == if t[pos + 1] == '+' || t[pos + 1] == '-' then pos + 2 else pos + 1
    ensures IsMark(t[pos..q], t[q..b])
  {
    if q == pos + 1 {
      assert t[pos..q] == [t[pos]];
    } else {
      assert t[pos..q] == [t[pos], t[pos + 1]];
    }
    assert t[q..b] != [];
  }

  lemma SpanDigits(t: string, a: nat, b: nat)
    requires DigitSpan(t, a, b)
    ensures AllDigits(t[a..b])
  {
  }

  lemma Joined(t: string, a: nat, b: nat)
    requires a <= b <= |t|
    ensures t[..a] + t[a..b] == t[..b]
  {
  }

  /** A number made of spans of the text. */
  lemma SpansMakeLiteral(t: string, p: nat, q: nat, m: nat, x: nat, e: nat)
    requires p < q <= m <= x <= e <= |t| && (p == 0 || (p == 1 && t[0] == '-'))
    requires DigitSpan(t, p, q) && DigitSpan(t, x, e) && IsMark(t[m..x], t[x..e])
    requires m == q || (q + 1 < m && t[q] == '.' && DigitSpan(t, q + 1, m))
    requires e < |t| && !IsDigit(t[e]) && (m == e ==> !IsE(t[e])) && (q == e ==> t[e] != '.')
    requires q == e == p + 1 && t[p] == '0' ==> !IsX(t[e])
    ensures exists l: Literal :: l.Valid() && l.Text() == t[..e] && Stops(l, t[e])
  {
    hide DigitSpan, AllDigits, IsMark, Stops;
    var fp := if m == q then [] else t[q + 1..m];
    var l := Literal(p == 1, t[p..q], fp, t[m..x], t[x..e]);
    SpanDigits(t, p, q);
    SpanDigits(t, x, e);
    assert AllDigits(fp) && l.Behind() == t[q..m] by {
      if m != q {
        SpanDigits(t, q + 1, m);
        assert t[q..m] == ['.'] + t[q + 1..m];
      } else {
        NoCharacters(fp);
      }
    }
    assert l.Lead() == t[..p];
    Joined(t, p, q);
    Joined(t, q, m);
    Joined(t, m, x);
    Joined(t, x, e);
    SpansStop(t, p, q, m, x, e, l);
    assert l.Valid() && l.Text() == t[..e] && Stops(l, t[e]);
  }

  lemma SpansStop(t: string, p: nat, q: nat, m: nat, x: nat, e: nat, l: Literal)
    requires p < q <= m <= x <= e < |t| && IsMark(l.mark, l.x) && (m == q || q + 1 < m)
    requires l.ip == t[p..q] && |l.fp| == (if m == q then 0 else m - q - 1) && |l.mark| == x - m && |l.x| == e - x
    requires !IsDigit(t[e]) && (m == e ==> !IsE(t[e])) && (q == e ==> t[e] != '.')
    requires q == e == p + 1 && t[p] == '0' ==> !IsX(t[e])
    ensures Stops(l, t[e])
  {
    assert l.mark == "" ==> m == e;
    assert l.mark == "" && l.fp == "" ==> q == e;
    assert l.ip == "0" ==> q == p + 1 && t[p] == l.ip[0];
  }

  lemma NoCharacters(s: string)
    requires s == []
    ensures AllDigits(s)
  {
  }

  /** The stages an accepted number went through. */
  lemma StagesOfNumber(t: string, len: nat)
    requires Readable(t, len) && ScanText(t, len).Number?
    ensures var end, sign := End(len), t[0] == '-';
      var p := if sign then 1 else 0;
      && p < end <= |t| && end <= len + 1 && IntegerPart(t, p, end, sign).Go?
      && var s1 := IntegerPart(t, p, end, sign).stage;
      && PointReadable(t, end, s1.pos) && FractionPart(t, end, s1).Go?
      && var s := FractionPart(t, end, s1).stage;
      && ExponentPart(t, end, s.pos).Exponent? && ExponentPart(t, end, s.pos).pos == ScanText(t, len).end < end
  {
    hide IntegerDigits, Accumulate, SkipZeros, AfterSurplus, AccumulateExponent;
  }

  /** What is accepted as a number is a well-formed number, up to where the scan ends. */
  lemma AcceptedIsLiteral(t: string, len: nat)
    requires Readable(t, len) && ScanText(t, len).Number?
    ensures ScanText(t, len).end <= len && ScanText(t, len).end <= 1000
    ensures var e := ScanText(t, len).end;
      exists l: Literal :: l.Valid() && l.Text() == t[..e] && Stops(l, t[e])
  {
    hide IntegerPart, FractionPart, ExponentPart, ScanText, DigitSpan, Literal.Valid, Literal.Text;
    var end, sign := End(len), t[0] == '-';
    var p := if sign then 1 else 0;
    StagesOfNumber(t, len);
    var s1 := IntegerPart(t, p, end, sign).stage;
    var s := FractionPart(t, end, s1).stage;
    var b := ExponentPart(t, end, s.pos).pos;
    IntegerSpan(t, p, end, sign);
    FractionSpan(t, end, s1);
    ExponentMarks(t, end, s.pos);
    if b == s.pos {
      NoSpan(t, b);
      SpansMakeLiteral(t, p, s1.pos, s.pos, b, b);
    } else {
      var q :| s.pos < q < b <= end && DigitSpan(t, q, b) && IsMark(t[s.pos..q], t[q..b]);
      SpansMakeLiteral(t, p, s1.pos, s.pos, q, b);
    }
  }

  /** The text starts with a number, in full view and followed by what ends it. */
  predicate Starts(l: Literal, t: string, len: nat)
    requires len < |t|
  {
    && l.Valid() && l.Text() <= t && |l.Text()| <= len && |l.Text()| <= 1000
    && Stops(l, t[|l.Text()|])
  }

  /** 0x, with or without a minus in front: left to the parser of hexadecimal numbers. */
  predicate HexStarts(t: string, len: nat)
    requires Readable(t, len)
  {
    var p := if t[0] == '-' then 1 else 0;
    p + 1 < End(len) && t[p] == '0' && t[p + 1] in {'x', 'X'}
  }

  /**
   Every readable text is decided: it is a number exactly when it starts with
   one; it is handed back when its first character starts none, or to the
   parser of hexadecimal numbers; and everything else is an error.
   */
  lemma EveryTextIsDecided(t: string, len: nat)
    requires Readable(t, len)
    ensures ScanText(t, len).NotANumber? <==> (t[0] != '-' && !IsDigit(t[0])) || HexStarts(t, len)
    ensures ScanText(t, len).Number? <==> exists l: Literal :: Starts(l, t, len)
  {
    HandedBackIff(t, len);
    hide ScanText, Stops, Literal.Valid, Literal.Text;
    if ScanText(t, len).Number? {
      AcceptedIsLiteral(t, len);
      var e := ScanText(t, len).end;
      var l: Literal :| l.Valid() && l.Text() == t[..e] && Stops(l, t[e]);
      assert Starts(l, t, len);
    }
    forall l: Literal | Starts(l, t, len)
      ensures ScanText(t, len).Number?
    {
      ScanLiteral(l, t, len);
    }
  }

  lemma HandedBackIff(t: string, len: nat)
    requires Readable(t, len)
    ensures ScanText(t, len).NotANumber? <==> (t[0] != '-' && !IsDigit(t[0])) || HexStarts(t, len)
  {
    hide IntegerDigits, Accumulate, SkipZeros, AfterSurplus, ExponentPart;
  }

  lemma NoSpan(t: string, b: nat)
    requires b <= |t|
    ensures DigitSpan(t, b, b) && IsMark(t[b..b], t[b..b])
  {
    assert t[b..b] == [];
  }

  // ----- How close the decimal is ---------------------------------------------------------------

  /** fraction units of 10^scale lie within half a unit of v. */
  predicate WithinHalf(v: nat, fraction: nat, scale: nat) {
    var unit: int := Pow10(scale);
    0 - unit <= 2 * (fraction * unit - v) <= unit
  }

  /** Taking k digits and rounding by the next one is off by at most half a unit of the last place taken. */
  lemma RoundingIsClose(d: string, k: nat)
    requires k <= |d| && AllDigits(d)
    ensures WithinHalf(Value(d), Rounded(d, k), |d| - k)
    ensures k < |d| ==> Value(d) < (Value(d[..k]) + 1) * Pow10(|d| - k)
  {
    hide Value, Pow10;
    if k == |d| {
      assert d[..k] == d;
      UnitScale();
    } else {
      SplitAtCut(d, k);
      HalfUp(Value(d[..k]), DigitOf(d[k]), Value(d[k + 1..]), Pow10(|d| - k - 1), Value(d));
      Pow10Step(|d| - k - 1);
    }
  }

  lemma UnitScale()
    ensures Pow10(0) == 1
  {
  }

  lemma SplitAtCut(d: string, k: nat)
    requires k < |d|
    ensures var p := Pow10(|d| - k - 1);
      && Value(d[k + 1..]) < p
      && Value(d) == Value(d[..k]) * (10 * p) + (DigitOf(d[k]) * p + Value(d[k + 1..]))
  {
    hide Value, Pow10;
    assert d == d[..k + 1] + d[k + 1..] && d[..k + 1] == d[..k] + [d[k]];
    ValueConcat(d[..k + 1], d[k + 1..]);
    ValueSnoc(d[..k], d[k]);
    ValueBound(d[k + 1..]);
    Spread(Value(d[..k]), DigitOf(d[k]), Pow10(|d| - k - 1));
  }

  lemma Spread(a: nat, digit: nat, p: nat)
    ensures (10 * a + digit) * p == a * (10 * p) + digit * p
  {
  }

  lemma HalfUp(a: nat, digit: nat, c: nat, p: nat, v: nat)
    requires digit <= 9 && c < p && v == a * (10 * p) + (digit * p + c)
    ensures var up := if digit >= 5 then 1 else 0;
      -(10 * p) <= 2 * ((a + up) * (10 * p) - v) <= 10 * p
    ensures v < (a + 1) * (10 * p)
  {
    var up := if digit >= 5 then 1 else 0;
    assert (a + up) * (10 * p) == a * (10 * p) + up * (10 * p);
    assert (a + 1) * (10 * p) == a * (10 * p) + 10 * p;
    MulMono(p, digit, 9);
    if digit >= 5 {
      MulMono(p, 5, digit);
    } else {
      MulMono(p, digit, 4);
    }
  }

  /** A fraction scaled up by a further power of ten is far away. */
  lemma ScaledTooFar(a: nat, f: nat, v: nat, p: nat, z: nat)
    requires f >= a >= 10 && v < (a + 1) * p && z >= 10 && p >= 1
    ensures 2 * (f * (z * p) - v) > z * p
  {
    var zp := z * p;
    MulMono(zp, a, f);
    assert f * zp >= a * zp by { MulSwap(1, f, zp); }
    MulMono(p, 10, z);
    assert a * zp == a * (zp - p) + a * p;
    assert (a + 1) * p == a * p + p;
    MulMono(zp - p, 10, a);
  }

  /**
   The reported decimal is within half a unit of the number written, exactly
   when no zero behind the point follows a full fraction. Every such zero makes
   it ten times too large.
   */
  lemma CloseUnlessZerosPassedOver(l: Literal)
    requires l.Valid()
    ensures var d := l.Digits(); var k := Taken(d);
      WithinHalf(Value(d), Rounded(d, k), |d| - k + ZerosPassedOver(l)) <==> ZerosPassedOver(l) == 0
  {
    hide Value, Rounded, Taken, ZerosPassedOver, WithinHalf;
    var d := l.Digits();
    var k, z := Taken(d), ZerosPassedOver(l);
    BothAreDigits(l.ip, l.fp);
    RoundingIsClose(d, k);
    if z > 0 {
      SomeNotTaken(l);
      TooFar(d, k, z);
    } else {
      assert |d| - k + z == |d| - k;
    }
  }

  /** Zeros are passed over among the digits that are not taken. */
  lemma SomeNotTaken(l: Literal)
    requires ZerosPassedOver(l) > 0
    ensures Taken(l.Digits()) < |l.Digits()|
  {
    hide Taken;
  }

  lemma BothAreDigits(a: string, b: string)
    requires AllDigits(a) && AllDigits(b)
    ensures AllDigits(a + b)
  {
  }

  /** With a zero passed over, the decimal is too large by far. */
  lemma TooFar(d: string, k: nat, z: nat)
    requires CutAt(d, k) && z > 0 && k < |d| && Value(d) < (Value(d[..k]) + 1) * Pow10(|d| - k)
    ensures !WithinHalf(Value(d), Rounded(d, k), |d| - k + z)
  {
    hide Value, Pow10, RoundUp;
    RoundedFits(d, k);
    Pow10Adds(z, |d| - k);
    Pow10Grows(1, z);
    Ten();
    ScaledTooFar(Value(d[..k]), Rounded(d, k), Value(d), Pow10(|d| - k), Pow10(z));
  }

  lemma Ten()
    ensures Pow10(1) == 10
  {
    assert Pow10(0) == 1;
  }

  /** Such a zero is one the caller can see: the first digit behind the point that is not taken. */
  lemma PassedOverIsVisible(l: Literal)
    requires l.Valid()
    ensures var d := l.Digits(); var k := Taken(d); var from := if k < |l.ip| then 0 else k - |l.ip|;
      ZerosPassedOver(l) > 0 <==> k < |d| && from < |l.fp| && l.fp[from] == '0'
  {
  }

  lemma CutIsUnique(d: string, j: nat, k: nat)
    requires CutAt(d, j) && CutAt(d, k)
    ensures j == k
  {
    if j < k {
      PrefixValue(d, j, k - 1);
    } else if k < j {
      PrefixValue(d, k, j - 1);
    }
  }

  lemma AppendThree(s: string, a: char, b: char, c: char)
    ensures Value(s + [a, b, c]) == 1000 * Value(s) + 100 * DigitOf(a) + 10 * DigitOf(b) + DigitOf(c)
  {
    ValueSnoc(s, a);
    ValueSnoc(s + [a], b);
    ValueSnoc(s + [a] + [b], c);
    assert s + [a, b, c] == s + [a] + [b] + [c];
  }

  lemma SaturatedDigits()
    ensures Value("1844674407370955161") == SATURATED
  {
    hide Value;
    NoDigits();
    AppendThree([], '1', '8', '4');
    AppendThree("184", '4', '6', '7');
    AppendThree("184467", '4', '4', '0');
    AppendThree("184467440", '7', '3', '7');
    AppendThree("184467440737", '0', '9', '5');
    AppendThree("184467440737095", '5', '1', '6');
    ValueSnoc("184467440737095516", '1');
    assert [] + ['1', '8', '4'] == "184" && "184" + ['4', '6', '7'] == "184467";
    assert "184467" + ['4', '4', '0'] == "184467440" && "184467440" + ['7', '3', '7'] == "184467440737";
    assert "184467440737" + ['0', '9', '5'] == "184467440737095";
    assert "184467440737095" + ['5', '1', '6'] == "184467440737095516";
    assert "184467440737095516" + ['1'] == "1844674407370955161";
  }

  lemma NoDigits()
    ensures Value([]) == 0
  {
  }

  /** Of 1844674407370955161.0 the nineteen digits before the point are taken. */
  lemma NineteenTaken()
    ensures var l := Literal(false, "1844674407370955161", "0", "", "");
      && l.Valid() && l.Text() == "1844674407370955161.0" && l.Power() == 0
      && Taken(l.Digits()) == 19 && Rounded(l.Digits(), 19) == SATURATED && ZerosPassedOver(l) == 1
  {
    hide Value, LeadingZeros;
    var ip := "1844674407370955161";
    var l := Literal(false, ip, "0", "", "");
    var d := l.Digits();
    SaturatedDigits();
    assert d[..19] == ip && ip[..19] == ip;
    DropLast(ip);
    assert d[..18] == ip[..18];
    CutIsUnique(d, 19, Taken(d));
    NoExponentDigits();
    OneZero();
    assert l.fp[0..] == "0";
  }

  /** Twenty digits, none of them wrong: 1844674407370955161.0 is reported as ten times that. */
  lemma TenTimesTooLarge(t: string)
    requires t == "1844674407370955161.0" + ['\0']
    ensures var r := ScanText(t, 21);
      r.Number? && r.end == 21 && r.fraction == SATURATED && r.exponent - r.fractionExp == 1
  {
    hide Value, ScanText, Taken, Rounded, ZerosPassedOver;
    NineteenTaken();
    assert t[21] == '\0';
    ScanLiteral(Literal(false, "1844674407370955161", "0", "", ""), t, 21);
  }

  lemma DropLast(s: string)
    requires s != [] && Value(s) == SATURATED
    ensures Value(s[..|s| - 1]) < SATURATED
  {
  }

  lemma OneZero()
    ensures LeadingZeros("0") == 1
  {
  }
}
