/** Decimal text: the value of a string of digits. */
module Decimal {
  import opened Arith

  predicate IsDigit(c: char) {
    '0' <= c <= '9'
  }

  function DigitOf(c: char): (d: nat)
    ensures d <= 9
  {
    if IsDigit(c) then c as int - '0' as int else 0
  }

  function DigitChar(d: nat): (c: char)
    requires d <= 9
    ensures IsDigit(c) && DigitOf(c) == d
  {
    (d + '0' as int) as char
  }

  predicate AllDigits(s: string) {
    forall i :: 0 <= i < |s| ==> IsDigit(s[i])
  }

  lemma DigitsFrom(t: string, a: nat, b: nat, q: nat)
    requires a <= b <= q <= |t| && AllDigits(t[a..q])
    ensures AllDigits(t[b..q])
  {
    forall j | 0 <= j < q - b ensures IsDigit(t[b..q][j]) {
      assert t[b..q][j] == t[a..q][b - a + j];
    }
  }

  /** The number a digit string denotes, most significant digit first. */
  function Value(s: string): nat
  {
    if s == [] then 0 else 10 * Value(s[..|s| - 1]) + DigitOf(s[|s| - 1])
  }

  lemma ValueSnoc(s: string, c: char)
    ensures Value(s + [c]) == 10 * Value(s) + DigitOf(c)
  {
    assert (s + [c])[..|s|] == s;
  }

  lemma {:induction false} ValueConcat(s: string, t: string)
    ensures Value(s + t) == Value(s) * Pow10(|t|) + Value(t)
  {
    if t == [] {
      assert s + t == s;
    } else {
      var t' := t[..|t| - 1];
      ValueConcat(s, t');
      assert (s + t)[..|s + t| - 1] == s + t';
      assert (s + t)[|s + t| - 1] == t[|t| - 1];
      MulSwap(10, Value(s), Pow10(|t'|));
    }
  }

  lemma {:induction false} ValueBound(s: string)
    ensures Value(s) < Pow10(|s|)
  {
    if s != [] {
      ValueBound(s[..|s| - 1]);
    }
  }

  /** A nonzero leading digit makes the length of a digit string count. */
  lemma {:induction false} ValueLead(s: string)
    requires s != [] && DigitOf(s[0]) != 0
    ensures Pow10(|s| - 1) <= Value(s)
  {
    if |s| > 1 {
      ValueLead(s[..|s| - 1]);
    }
  }

  /** The canonical numeral: no leading zero, except for zero itself. */
  function Numeral(n: nat): (s: string)
    ensures s != [] && AllDigits(s)
  {
    if n < 10 then [DigitChar(n)] else Numeral(n / 10) + [DigitChar(n % 10)]
  }

  lemma {:induction false} NumeralValue(n: nat)
    ensures Value(Numeral(n)) == n
    ensures n > 0 ==> Numeral(n)[0] != '0'
  {
    if n >= 10 {
      NumeralValue(n / 10);
      ValueSnoc(Numeral(n / 10), DigitChar(n % 10));
    } else {
      assert [DigitChar(n)][..0] == [];
    }
  }

  /** Digits without a leading zero are the numeral of what they denote. */
  lemma {:induction false} CanonicalNumeral(s: string)
    requires s != [] && AllDigits(s) && s[0] != '0'
    ensures Numeral(Value(s)) == s
  {
    var front, last := s[..|s| - 1], DigitOf(s[|s| - 1]);
    assert s == front + [DigitChar(last)];
    if |s| > 1 {
      CanonicalNumeral(front);
      ValueLead(front);
    } else {
      assert Value(s) == last;
    }
  }

  lemma {:induction false} NumeralLength(n: nat, k: nat)
    requires k > 0 && n < Pow10(k)
    ensures |Numeral(n)| <= k
  {
    if n >= 10 {
      NumeralLength(n / 10, k - 1);
    }
  }

  /** A signed integer: its numeral behind an optional minus. */
  function IntText(v: int): string
  {
    if v < 0 then "-" + Numeral(-v) else Numeral(v)
  }

  function Reversed(s: string): (r: string)
    ensures |r| == |s|
  {
    if s == [] then [] else [s[|s| - 1]] + Reversed(s[..|s| - 1])
  }

  lemma {:induction false} ReversedAt(s: string, i: nat)
    requires i < |s|
    ensures Reversed(s)[i] == s[|s| - 1 - i]
  {
    if i > 0 {
      ReversedAt(s[..|s| - 1], i - 1);
    }
  }

  function Zeros(n: nat): (s: string)
    ensures |s| == n && AllDigits(s)
  {
    seq(n, _ => '0')
  }

  lemma {:induction false} ValueOfZeros(n: nat)
    ensures Value(Zeros(n)) == 0
  {
    if n > 0 {
      ValueOfZeros(n - 1);
      assert Zeros(n)[..n - 1] == Zeros(n - 1);
    }
  }
}
