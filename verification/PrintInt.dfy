/**
 Integer printing (pprintint.h). The fast printers find the number of digits by
 comparison and then write pairs of digits backwards from the end, unrolled;
 the simple one divides by 100 in a loop, into a temporary. Both write the
 canonical numeral and a terminator.
 */
module PrintInt {
  import opened Arith
  import opened Decimal

  // ----- Pairs of digits -----------------------------------------------------------------

  /** Exactly k digits of n, with leading zeros. */
  function Padded(n: nat, k: nat): (s: string)
    ensures |s| == k
  {
    if k == 0 then [] else Padded(n / 10, k - 1) + [DigitChar(n % 10)]
  }

  /** The table of digit pairs, ten to a row. */
  function PairRow(tens: nat): string {
    match tens
    case 0 => "00010203040506070809"
    case 1 => "10111213141516171819"
    case 2 => "20212223242526272829"
    case 3 => "30313233343536373839"
    case 4 => "40414243444546474849"
    case 5 => "50515253545556575859"
    case 6 => "60616263646566676869"
    case 7 => "70717273747576777879"
    case 8 => "80818283848586878889"
    case _ => "90919293949596979899"
  }

  /** The two characters the table holds for a number below 100 are its digits. */
  lemma PairAt(m: nat)
    requires m < 100
    ensures var row := PairRow(m / 10);
      |row| == 20 && row[2 * (m % 10)] == DigitChar(m / 10) && row[2 * (m % 10) + 1] == DigitChar(m % 10)
  {
    DigitChars();
    TensIn(m / 10, m % 10);
  }

  lemma DigitChars()
    ensures forall d: nat :: d < 10 ==> "0123456789"[d] == DigitChar(d)
  {
    assert DigitChar(0) == '0' && DigitChar(1) == '1' && DigitChar(2) == '2' && DigitChar(3) == '3';
    assert DigitChar(4) == '4' && DigitChar(5) == '5' && DigitChar(6) == '6';
    assert DigitChar(7) == '7' && DigitChar(8) == '8' && DigitChar(9) == '9';
  }

  lemma TensIn(t: nat, u: nat)
    requires t < 10 && u < 10
    ensures var row := PairRow(t); |row| == 20 && row[2 * u] == "0123456789"[t] && row[2 * u + 1] == "0123456789"[u]
  {
    hide PairRow;
    if t < 5 { FirstRows(t); } else { LastRows(t); }
    RowAt("0123456789"[t], u);
  }

  function Row(c: char): string { [c, '0', c, '1', c, '2', c, '3', c, '4', c, '5', c, '6', c, '7', c, '8', c, '9'] }

  lemma RowAt(c: char, u: nat)
    requires u < 10
    ensures Row(c)[2 * u] == c && Row(c)[2 * u + 1] == "0123456789"[u]
  {
  }

  lemma FirstRows(t: nat)
    requires t < 5
    ensures PairRow(t) == Row("0123456789"[t])
  {
  }

  lemma LastRows(t: nat)
    requires 5 <= t < 10
    ensures PairRow(t) == Row("0123456789"[t])
  {
  }

  // ----- Digits from the end -----------------------------------------------------------------

  /** A number with k digits has no leading zeros to write. */
  lemma {:induction false} PaddedIsNumeral(n: nat, k: nat)
    requires k > 0 && n < Pow10(k) && (k > 1 ==> Pow10(k - 1) <= n)
    ensures Padded(n, k) == Numeral(n)
  {
    if k > 1 {
      PaddedIsNumeral(n / 10, k - 1);
    } else {
      assert Padded(n, 1) == [] + [DigitChar(n % 10)];
    }
  }

  lemma PaddedPair(n: nat, k: nat)
    requires k >= 2
    ensures Padded(n, k) == Padded(n / 100, k - 2) + [DigitChar(n % 100 / 10), DigitChar(n % 100 % 10)]
    ensures n < Pow10(k) ==> n / 100 < Pow10(k - 2)
  {
    assert n / 10 / 10 == n / 100 && n / 10 % 10 == n % 100 / 10 && n % 100 % 10 == n % 10;
    assert Padded(n, k) == Padded(n / 10, k - 1) + [DigitChar(n % 10)];
    assert Padded(n / 10, k - 1) == Padded(n / 100, k - 2) + [DigitChar(n / 10 % 10)];
    assert [DigitChar(n / 10 % 10)] + [DigitChar(n % 10)] == [DigitChar(n % 100 / 10), DigitChar(n % 100 % 10)];
    assert Pow10(k) == 10 * Pow10(k - 1) == 100 * Pow10(k - 2);
  }

  /** The last digits of value stand behind p; n is what is left of it, to go before. */
  ghost predicate Filling(text: string, value: nat, k: nat, at: nat, p: nat, n: nat) {
    && at <= p <= at + k < |text| && text[at + k] == '\0'
    && n < Pow10(p - at) && Padded(value, k) == Padded(n, p - at) + text[p..at + k]
  }

  /** Everything but the characters from at to at + k stays. */
  twostate predicate OnlyHere(a: array<char>, at: nat, k: nat)
    reads a
  {
    forall i :: 0 <= i < a.Length && !(at <= i <= at + k) ==> a[i] == old(a[i])
  }

  lemma FillPair(before: string, after: string, value: nat, k: nat, at: nat, p: nat, n: nat)
    requires Filling(before, value, k, at, p, n) && p - at >= 2 && |after| == |before|
    requires after[p - 2] == DigitChar(n % 100 / 10) && after[p - 1] == DigitChar(n % 100 % 10)
    requires forall i :: p <= i < |after| ==> after[i] == before[i]
    ensures Filling(after, value, k, at, p - 2, n / 100)
  {
    hide Padded, Pow10;
    PaddedPair(n, p - at);
    var pair := [DigitChar(n % 100 / 10), DigitChar(n % 100 % 10)];
    assert after[p..at + k] == before[p..at + k];
    assert after[p - 2..at + k] == pair + after[p..at + k];
  }

  lemma FillDigit(before: string, after: string, value: nat, k: nat, at: nat, p: nat, n: nat)
    requires Filling(before, value, k, at, p, n) && p - at >= 1 && |after| == |before|
    requires after[p - 1] == DigitChar(n % 10)
    requires forall i :: p <= i < |after| ==> after[i] == before[i]
    ensures Filling(after, value, k, at, p - 1, n / 10)
  {
    var j := p - at;
    assert Pow10(j) == 10 * Pow10(j - 1);
    assert after[p..at + k] == before[p..at + k];
    assert after[p - 1..at + k] == [DigitChar(n % 10)] + after[p..at + k];
    assert Padded(n, j) == Padded(n / 10, j - 1) + [DigitChar(n % 10)];
    assert Padded(n / 10, j - 1) + [DigitChar(n % 10)] + after[p..at + k]
        == Padded(n / 10, j - 1) + ([DigitChar(n % 10)] + after[p..at + k]);
  }

  /** Where the fill has reached the front, the numeral is complete. */
  lemma Filled(text: string, value: nat, k: nat, at: nat, n: nat)
    requires Filling(text, value, k, at, at, n) && k > 0 && value < Pow10(k) && (k > 1 ==> Pow10(k - 1) <= value)
    ensures |Numeral(value)| == k && text[at..at + k] == Numeral(value)
  {
    PaddedIsNumeral(value, k);
    assert Padded(n, 0) == [];
  }

  /** Two digits. */
  method PrintStage(a: array<char>, p: nat, n: nat, ghost value: nat, ghost k: nat, ghost at: nat)
      returns (p': nat, n': nat)
    requires Filling(a[..], value, k, at, p, n) && p - at >= 2
    modifies a
    ensures p' == p - 2 && n' == n / 100 && Filling(a[..], value, k, at, p', n')
    ensures OnlyHere(a, at, k)
  {
    hide PairRow, Padded;
    ghost var before := a[..];
    PairAt(n % 100);
    p' := p - 2;
    var dp := n % 100;
    n' := n / 100;
    a[p'] := PairRow(dp / 10)[2 * (dp % 10)];
    a[p' + 1] := PairRow(dp / 10)[2 * (dp % 10) + 1];
    FillPair(before, a[..], value, k, at, p, n);
  }

  /** Four digits. */
  method PrintLongStage(a: array<char>, p: nat, n: nat, ghost value: nat, ghost k: nat, ghost at: nat)
      returns (p': nat, n': nat)
    requires Filling(a[..], value, k, at, p, n) && p - at >= 4
    modifies a
    ensures p' == p - 4 && n' == n / 10000 && Filling(a[..], value, k, at, p', n')
    ensures OnlyHere(a, at, k)
  {
    hide Filling;
    p', n' := PrintStage(a, p, n, value, k, at);
    p', n' := PrintStage(a, p', n', value, k, at);
  }

  /** One digit. */
  method PrintShortStage(a: array<char>, p: nat, n: nat, ghost value: nat, ghost k: nat, ghost at: nat)
      returns (p': nat, n': nat)
    requires Filling(a[..], value, k, at, p, n) && p - at >= 1
    modifies a
    ensures p' == p - 1 && n' == n / 10 && Filling(a[..], value, k, at, p', n')
    ensures OnlyHere(a, at, k)
  {
    ghost var before := a[..];
    p' := p - 1;
    a[p'] := DigitChar(n % 10);
    n' := n / 10;
    FillDigit(before, a[..], value, k, at, p, n);
  }

  /** The first of an odd number of digits: what is left is a digit already. */
  method PrintLead(a: array<char>, p: nat, n: nat, ghost value: nat, ghost k: nat, ghost at: nat)
    requires Filling(a[..], value, k, at, p, n) && p - at == 1
    modifies a
    ensures Filling(a[..], value, k, at, at, 0) && OnlyHere(a, at, k)
  {
    ghost var before := a[..];
    assert Pow10(1) == 10;
    a[p - 1] := DigitChar(n);
    FillDigit(before, a[..], value, k, at, p, n);
  }

  method Begin(a: array<char>, at: nat, k: nat, value: nat) returns (p: nat)
    requires value < Pow10(k) && at + k < a.Length
    modifies a
    ensures p == at + k && Filling(a[..], value, k, at, p, value) && OnlyHere(a, at, k)
  {
    p := at + k;
    a[p] := '\0';
    assert Padded(value, k) + [] == Padded(value, k);
  }

  // ----- How many digits ----------------------------------------------------------------------

  predicate HasDigits(n: nat, k: nat) {
    k > 0 && n < Pow10(k) && (k > 1 ==> Pow10(k - 1) <= n)
  }

  function Count16(n: nat): nat {
    if n >= 1000 then if n >= 10000 then 5 else 4
    else if n >= 100 then 3 else if n >= 10 then 2 else 1
  }

  function Count32(n: nat): nat {
    if n >= 10000 then
      if n >= 10000000 then if n >= 1000000000 then 10 else if n >= 100000000 then 9 else 8
      else if n >= 1000000 then 7 else if n >= 100000 then 6 else 5
    else
      if n >= 100 then if n >= 1000 then 4 else 3
      else if n >= 10 then 2 else 1
  }

  const BILLION := 1000000000

  /** For numbers of ten digits or more. */
  function Count64(n: nat): nat {
    if n >= 10000 * BILLION then
      if n >= 10000000 * BILLION then
        if n >= 1000000000 * BILLION then if n >= 10000000000 * BILLION then 11 + 9 else 10 + 9
        else if n >= 100000000 * BILLION then 9 + 9 else 8 + 9
      else if n >= 1000000 * BILLION then 7 + 9 else if n >= 100000 * BILLION then 6 + 9 else 5 + 9
    else
      if n >= 100 * BILLION then if n >= 1000 * BILLION then 4 + 9 else 3 + 9
      else if n >= 10 * BILLION then 2 + 9 else 1 + 9
  }

  lemma Powers()
    ensures Pow10(1) == 10 && Pow10(2) == 100 && Pow10(3) == 1000 && Pow10(4) == 10000
    ensures Pow10(5) == 100000 && Pow10(6) == 1000000 && Pow10(7) == 10000000 && Pow10(8) == 100000000
    ensures Pow10(9) == BILLION && Pow10(10) == 10 * BILLION
    ensures Pow10(11) == 100 * BILLION && Pow10(12) == 1000 * BILLION && Pow10(13) == 10000 * BILLION
    ensures Pow10(14) == 100000 * BILLION && Pow10(15) == 1000000 * BILLION && Pow10(16) == 10000000 * BILLION
    ensures Pow10(17) == 100000000 * BILLION && Pow10(18) == 1000000000 * BILLION
    ensures Pow10(19) == 10000000000 * BILLION && Pow10(20) == 100000000000 * BILLION
  {
    assert Pow10(5) == 100000;
    assert Pow10(9) == BILLION;
    assert Pow10(14) == 100000 * BILLION;
    assert Pow10(18) == 1000000000 * BILLION;
  }

  lemma Count16IsRight(n: nat)
    requires n < 0x1_0000
    ensures HasDigits(n, Count16(n)) && 1 <= Count16(n) <= 5
  {
    hide Pow10;
    Powers();
  }

  lemma Count32IsRight(n: nat)
    requires n < TWO32
    ensures HasDigits(n, Count32(n)) && 1 <= Count32(n) <= 10
  {
    hide Pow10;
    Powers();
  }

  lemma Count64IsRight(n: nat)
    requires BILLION <= n < TWO64
    ensures HasDigits(n, Count64(n)) && 10 <= Count64(n) <= 20
    ensures n <= TWO63 ==> Count64(n) <= 19
  {
    hide Pow10;
    Powers();
  }

  /** What every printer leaves: the numeral, its length, and a terminator. */
  ghost predicate Shows(a: array<char>, at: nat, k: nat, text: string)
    reads a
  {
    k == |text| && at + k < a.Length && a[at..at + k] == text && a[at + k] == '\0'
  }

  lemma Complete(a: array<char>, value: nat, k: nat, at: nat, n: nat)
    requires Filling(a[..], value, k, at, at, n) && HasDigits(value, k)
    ensures Shows(a, at, k, Numeral(value))
  {
    Filled(a[..], value, k, at, n);
  }

  // ----- The printers ----------------------------------------------------------------------------

  method PrintUint8(n: nat, a: array<char>, at: nat) returns (k: nat)
    requires n < 0x100 && at + 4 <= a.Length
    modifies a
    ensures Shows(a, at, k, Numeral(n)) && k <= 3 && OnlyHere(a, at, k)
  {
    hide Pow10, Filling, Shows, Numeral;
    Powers();
    var p, m;
    if n >= 100 {
      p := Begin(a, at, 3, n);
      p, m := PrintStage(a, p, n, n, 3, at);
      PrintLead(a, p, m, n, 3, at);
      Complete(a, n, 3, at, 0);
      return 3;
    }
    if n >= 10 {
      p := Begin(a, at, 2, n);
      p, m := PrintStage(a, p, n, n, 2, at);
      Complete(a, n, 2, at, m);
      return 2;
    }
    p := Begin(a, at, 1, n);
    PrintLead(a, p, n, n, 1, at);
    Complete(a, n, 1, at, 0);
    return 1;
  }

  method PrintUint16(n: nat, a: array<char>, at: nat) returns (k: nat)
    requires n < 0x1_0000 && at + 6 <= a.Length
    modifies a
    ensures Shows(a, at, k, Numeral(n)) && k <= 5 && OnlyHere(a, at, k)
  {
    hide Pow10, Filling, Shows, Numeral;
    Count16IsRight(n);
    k := Count16(n);
    var p := Begin(a, at, k, n);
    var m := n;
    if k % 2 == 1 {
      if k == 5 {
        p, m := PrintStage(a, p, m, n, k, at);
      }
      if k >= 3 {
        p, m := PrintStage(a, p, m, n, k, at);
      }
      PrintLead(a, p, m, n, k, at);
      Complete(a, n, k, at, 0);
    } else {
      if k == 4 {
        p, m := PrintStage(a, p, m, n, k, at);
      }
      p, m := PrintStage(a, p, m, n, k, at);
      Complete(a, n, k, at, m);
    }
  }

  method PrintUint32(n: nat, a: array<char>, at: nat) returns (k: nat)
    requires n < TWO32 && at + 11 <= a.Length
    modifies a
    ensures Shows(a, at, k, Numeral(n)) && k <= 10 && OnlyHere(a, at, k)
  {
    hide Pow10, Filling, Shows, Numeral, Count32;
    Count32IsRight(n);
    k := Count32(n);
    var p := Begin(a, at, k, n);
    var m := n;
    if k % 2 == 1 {
      if k == 9 {
        p, m := PrintStage(a, p, m, n, k, at);
      }
      if k >= 7 {
        p, m := PrintStage(a, p, m, n, k, at);
      }
      if k >= 5 {
        p, m := PrintStage(a, p, m, n, k, at);
      }
      if k >= 3 {
        p, m := PrintStage(a, p, m, n, k, at);
      }
      PrintLead(a, p, m, n, k, at);
      Complete(a, n, k, at, 0);
    } else {
      if k == 10 {
        p, m := PrintStage(a, p, m, n, k, at);
      }
      if k >= 8 {
        p, m := PrintStage(a, p, m, n, k, at);
      }
      if k >= 6 {
        p, m := PrintStage(a, p, m, n, k, at);
      }
      if k >= 4 {
        p, m := PrintStage(a, p, m, n, k, at);
      }
      p, m := PrintStage(a, p, m, n, k, at);
      Complete(a, n, k, at, m);
    }
  }

  /** All but the last eight of ten to twenty digits. */
  method PrintHigh(a: array<char>, p0: nat, n: nat, k: nat, ghost at: nat) returns (p: nat, m: nat)
    requires 10 <= k <= 20 && p0 == at + k && Filling(a[..], n, k, at, p0, n)
    modifies a
    ensures p == at + 8 && Filling(a[..], n, k, at, p, m) && OnlyHere(a, at, k)
  {
    hide Filling;
    p, m := p0, n;
    if k % 2 == 1 {
      if k == 19 {
        p, m := PrintStage(a, p, m, n, k, at);
      }
      if k >= 17 {
        p, m := PrintStage(a, p, m, n, k, at);
      }
      if k >= 15 {
        p, m := PrintStage(a, p, m, n, k, at);
      }
      if k >= 13 {
        p, m := PrintStage(a, p, m, n, k, at);
      }
      p, m := PrintStage(a, p, m, n, k, at);
      p, m := PrintShortStage(a, p, m, n, k, at);
    } else {
      if k == 20 {
        p, m := PrintStage(a, p, m, n, k, at);
      }
      if k >= 18 {
        p, m := PrintStage(a, p, m, n, k, at);
      }
      if k >= 16 {
        p, m := PrintStage(a, p, m, n, k, at);
      }
      if k >= 14 {
        p, m := PrintStage(a, p, m, n, k, at);
      }
      if k >= 12 {
        p, m := PrintStage(a, p, m, n, k, at);
      }
      p, m := PrintStage(a, p, m, n, k, at);
    }
  }

  method PrintUint64(n: nat, a: array<char>, at: nat) returns (k: nat)
    requires n < TWO64 && (if n <= TWO63 then at + 20 else at + 21) <= a.Length
    modifies a
    ensures Shows(a, at, k, Numeral(n)) && k <= (if n <= TWO63 then 19 else 20) && OnlyHere(a, at, k)
  {
    hide Pow10, Filling, Shows, Numeral, Count64;
    if n < BILLION {
      k := PrintUint32(n, a, at);
      return;
    }
    Count64IsRight(n);
    k := Count64(n);
    var p := Begin(a, at, k, n);
    var m;
    p, m := PrintHigh(a, p, n, k, at);
    p, m := PrintLongStage(a, p, m, n, k, at);
    p, m := PrintLongStage(a, p, m, n, k, at);
    Complete(a, n, k, at, m);
  }

  method PutPair(tmp: array<char>, p: nat, m: nat)
    requires p + 2 <= tmp.Length && m < 100
    modifies tmp
    ensures tmp[p..] == [DigitChar(m / 10), DigitChar(m % 10)] + old(tmp[p + 2..])
  {
    hide PairRow;
    PairAt(m);
    tmp[p], tmp[p + 1] := PairRow(m / 10)[2 * (m % 10)], PairRow(m / 10)[2 * (m % 10) + 1];
  }

  /** The pairs of a numeral, written backwards into a temporary that they fill to its end. */
  method FillPairs(n: nat, tmp: array<char>) returns (p: nat)
    requires n < TWO64 && tmp.Length == 20
    modifies tmp
    ensures p <= 20 && tmp[p..] == Numeral(n)
  {
    hide Numeral, Pow10;
    Powers();
    NumeralLength(n, 20);
    NumeralIsOneAtLeast(n);
    p := 20;
    var v := n;
    assert Numeral(v) + tmp[p..] == Numeral(n);
    while v >= 100
      invariant 0 <= v && 1 <= |Numeral(v)| <= p <= 20 && p % 2 == 0
      invariant Numeral(n) == Numeral(v) + tmp[p..]
    {
      NumeralPair(v);
      NumeralIsOneAtLeast(v / 100);
      p := p - 2;
      PutPair(tmp, p, v % 100);
      v := v / 100;
    }
    p := PutFirst(v, tmp, p);
  }

  /** The last one or two digits, which come first; a zero in front of a single one is left out. */
  method PutFirst(v: nat, tmp: array<char>, from: nat) returns (p: nat)
    requires v < 100 && 2 <= from <= tmp.Length
    modifies tmp
    ensures p <= from && tmp[p..] == Numeral(v) + old(tmp[from..])
  {
    hide Numeral;
    FirstPair(v);
    p := from - 2;
    PutPair(tmp, p, v);
    if v < 10 {
      p := p + 1;
    }
  }

  lemma FirstPair(v: nat)
    requires v < 100
    ensures Numeral(v) == if v < 10 then [DigitChar(v)] else [DigitChar(v / 10), DigitChar(v % 10)]
  {
    if v >= 10 {
      assert Numeral(v) == Numeral(v / 10) + [DigitChar(v % 10)];
    }
  }

  /** Copies what stands from p on to the end of a temporary. */
  method CopyOut(tmp: array<char>, from: nat, a: array<char>, at: nat) returns (buf: nat)
    requires tmp.Length == 20 && from <= 20 && at + 20 - from <= a.Length && a != tmp
    modifies a
    ensures buf == at + 20 - from && a[at..buf] == tmp[from..]
    ensures forall i :: 0 <= i < a.Length && !(at <= i < buf) ==> a[i] == old(a[i])
  {
    var p := from;
    buf := at;
    while p != 20
      invariant from <= p <= 20 && buf == at + (p - from)
      invariant a[at..buf] == tmp[from..p]
      invariant forall i :: 0 <= i < a.Length && !(at <= i < buf) ==> a[i] == old(a[i])
      decreases 20 - p
    {
      ghost var before := a[at..buf];
      a[buf] := tmp[p];
      buf := buf + 1;
      p := p + 1;
      assert a[at..buf] == before + [tmp[p - 1]] == tmp[from..p];
    }
  }

  /** The compact printer: a loop over pairs into a temporary, then a copy. */
  method PrintSimple(n: nat, a: array<char>, at: nat) returns (k: nat)
    requires n < TWO64 && at + 21 <= a.Length
    modifies a
    ensures Shows(a, at, k, Numeral(n)) && k <= 20 && OnlyHere(a, at, k)
  {
    hide Numeral;
    var tmp := new char[20];
    var p := FillPairs(n, tmp);
    k := 20 - p;
    var buf := CopyOut(tmp, p, a, at);
    ghost var text := a[at..buf];
    a[buf] := '\0';
    assert a[at..buf] == text;
  }

  lemma NumeralPair(v: nat)
    requires v >= 100
    ensures Numeral(v) == Numeral(v / 100) + [DigitChar(v % 100 / 10), DigitChar(v % 100 % 10)]
  {
    assert v / 10 / 10 == v / 100 && v / 10 % 10 == v % 100 / 10 && v % 100 % 10 == v % 10;
    assert Numeral(v) == Numeral(v / 100) + [DigitChar(v / 10 % 10)] + [DigitChar(v % 10)];
  }

  lemma NumeralIsOneAtLeast(v: nat)
    ensures |Numeral(v)| >= 1
  {
  }

  // ----- Signed --------------------------------------------------------------------------------------

  /** The range of a signed type of the given width, and its unsigned counterpart. */
  predicate IsInt(n: int, half: nat) { 0 <= n + half < 2 * half }

  /** Negation in two's complement: the minimum is its own negative. */
  function Negate(n: int, half: nat): int { if n + half == 0 then n else -n }

  /** Conversion to the unsigned type of the same width. */
  function AsUnsigned(n: int, half: nat): nat
    requires IsInt(n, half)
  {
    if n < 0 then n + 2 * half else n
  }

  /** Every negative number leaves its absolute value to the unsigned printer, the minimum included. */
  lemma NegatedMagnitude(n: int, half: nat)
    requires IsInt(n, half) && n < 0
    ensures IsInt(Negate(n, half), half) && AsUnsigned(Negate(n, half), half) == -n
  {
  }

  lemma WithMinus(a: array<char>, at: nat, k: nat, n: int)
    requires n < 0 && at < a.Length && a[at] == '-' && Shows(a, at + 1, k, Numeral(-n))
    ensures Shows(a, at, k + 1, IntText(n))
  {
    assert a[at..at + 1 + k] == [a[at]] + a[at + 1..at + 1 + k];
  }

  method PrintInt8(n: int, a: array<char>, at: nat) returns (k: nat)
    requires IsInt(n, 0x80) && at + 5 <= a.Length
    modifies a
    ensures Shows(a, at, k, IntText(n)) && k <= 4 && OnlyHere(a, at, k)
  {
    hide Numeral, Shows;
    var p, v := at, n;
    if n < 0 {
      a[p] := '-';
      p := p + 1;
      v := Negate(n, 0x80);
    }
    k := PrintUint8(AsUnsigned(v, 0x80), a, p);
    if n < 0 {
      WithMinus(a, at, k, n);
      k := k + 1;
    }
  }

  method PrintInt16(n: int, a: array<char>, at: nat) returns (k: nat)
    requires IsInt(n, 0x8000) && at + 7 <= a.Length
    modifies a
    ensures Shows(a, at, k, IntText(n)) && k <= 6 && OnlyHere(a, at, k)
  {
    hide Numeral, Shows;
    var p, v := at, n;
    if n < 0 {
      a[p] := '-';
      p := p + 1;
      v := Negate(n, 0x8000);
    }
    k := PrintUint16(AsUnsigned(v, 0x8000), a, p);
    if n < 0 {
      WithMinus(a, at, k, n);
      k := k + 1;
    }
  }

  method PrintInt32(n: int, a: array<char>, at: nat) returns (k: nat)
    requires IsInt(n, TWO31) && at + 12 <= a.Length
    modifies a
    ensures Shows(a, at, k, IntText(n)) && k <= 11 && OnlyHere(a, at, k)
  {
    hide Numeral, Shows;
    var p, v := at, n;
    if n < 0 {
      a[p] := '-';
      p := p + 1;
      v := Negate(n, TWO31);
    }
    k := PrintUint32(AsUnsigned(v, TWO31), a, p);
    if n < 0 {
      WithMinus(a, at, k, n);
      k := k + 1;
    }
  }

  method PrintInt64(n: int, a: array<char>, at: nat) returns (k: nat)
    requires IsInt(n, TWO63) && at + 21 <= a.Length
    modifies a
    ensures Shows(a, at, k, IntText(n)) && k <= 20 && OnlyHere(a, at, k)
  {
    hide Numeral, Shows;
    var p, v := at, n;
    if n < 0 {
      a[p] := '-';
      p := p + 1;
      v := Negate(n, TWO63);
    }
    k := PrintUint64(AsUnsigned(v, TWO63), a, p);
    if n < 0 {
      WithMinus(a, at, k, n);
      k := k + 1;
    }
  }
}
