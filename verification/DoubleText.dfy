/**
 Laying out the digits of a double as text (the formatting part of
 `grisu3_print_double`). The digits already stand in the buffer; they are moved
 in place to make room for a point, zeros or an exponent.
 */
module DoubleText {
  import opened Arith
  import opened Decimal

  /** The four layouts, as text. */
  function LayoutText(digits: string, dExp: int): string
    requires digits != []
  {
    var len := |digits|;
    if dExp < 0 && len + dExp > -3 && len <= -dExp then
      "0." + Zeros(-dExp - len) + digits
    else if dExp < 0 && len > 1 then
      var decimals := if -dExp <= len - 1 then -dExp else len - 1;
      var body := digits[..len - decimals] + "." + digits[len - decimals..];
      (if dExp + decimals != 0 then body + "e" + IntText(dExp + decimals) else body)
    else if dExp < 0 || dExp > 2 then
      digits + "e" + IntText(dExp)
    else
      digits + Zeros(dExp)
  }

  /** memmove within one buffer, overlapping or not. */
  method MemMove(a: array<char>, to: nat, from: nat, n: nat)
    requires to + n <= a.Length && from + n <= a.Length
    modifies a
    ensures a[to..to + n] == old(a[from..from + n])
    ensures forall i :: 0 <= i < a.Length && !(to <= i < to + n) ==> a[i] == old(a[i])
  {
    forall i | to <= i < to + n {
      a[i] := a[from + (i - to)];
    }
  }

  /** Turns len characters around, swapping from both ends. */
  method ReverseSpan(a: array<char>, str: nat, len: nat)
    requires str + len <= a.Length
    modifies a
    ensures a[str..str + len] == Reversed(old(a[str..str + len]))
    ensures forall k :: 0 <= k < a.Length && !(str <= k < str + len) ==> a[k] == old(a[k])
  {
    ghost var was := a[str..str + len];
    var i := 0;
    while i < len / 2
      invariant 0 <= i <= len / 2
      invariant forall k :: str <= k < str + i ==> a[k] == was[len - 1 - (k - str)]
      invariant forall k :: str + len - i <= k < str + len ==> a[k] == was[len - 1 - (k - str)]
      invariant forall k :: str + i <= k < str + len - i ==> a[k] == was[k - str]
      invariant forall k :: 0 <= k < a.Length && !(str <= k < str + len) ==> a[k] == old(a[k])
    {
      var ch := a[str + i];
      a[str + i] := a[str + len - 1 - i];
      a[str + len - 1 - i] := ch;
      i := i + 1;
    }
    forall k | 0 <= k < len ensures a[str..str + len][k] == Reversed(was)[k] {
      ReversedAt(was, k);
      assert a[str + k] == was[len - 1 - k];
    }
  }

  /** The digits of a number, last to first, then turned around. */
  method WriteNumeral(val: nat, a: array<char>, str: nat) returns (s: nat)
    requires str + |Numeral(val)| < a.Length
    modifies a
    ensures s == str + |Numeral(val)| && a[str..s] == Numeral(val) && a[s] == '\0'
    ensures forall i :: 0 <= i < a.Length && !(str <= i <= s) ==> a[i] == old(a[i])
  {
    hide Numeral, Reversed;
    var v := val;
    s := str;
    assert Reversed(a[str..s]) == [] && Numeral(val) + [] == Numeral(val);
    while true
      invariant 0 <= v && str <= s && s - str + |Numeral(v)| == |Numeral(val)|
      invariant Numeral(val) == Numeral(v) + Reversed(a[str..s])
      invariant forall i :: 0 <= i < a.Length && !(str <= i < s) ==> a[i] == old(a[i])
      decreases v
    {
      var ni := v / 10;
      var digit := v - ni * 10;
      ghost var before := a[str..s];
      a[s] := DigitChar(digit);
      s := s + 1;
      WrittenOneMore(a[str..s], before, v);
      if ni == 0 {
        break;
      }
      v := ni;
    }
    a[s] := '\0';
    ReverseSpan(a, str, s - str);
  }

  /** Writes a signed integer and its terminator. */
  method IToStr(val: int, a: array<char>, at: nat) returns (n: nat)
    requires -TWO31 < val < TWO31 && at + |IntText(val)| < a.Length
    modifies a
    ensures n == |IntText(val)| && a[at..at + n] == IntText(val)
    ensures a[at + n] == '\0'
    ensures forall i :: 0 <= i < a.Length && !(at <= i <= at + n) ==> a[i] == old(a[i])
  {
    hide Numeral;
    var str, v := at, val;
    if val < 0 {
      a[str] := '-';
      str := str + 1;
      v := -val;
    }
    var s := WriteNumeral(v, a, str);
    n := s - at;
    assert val < 0 ==> a[at..s] == [a[at]] + a[str..s];
  }

  lemma WrittenOneMore(after: string, before: string, v: nat)
    requires after == before + [DigitChar(v % 10)]
    ensures Reversed(after) == [DigitChar(v % 10)] + Reversed(before)
    ensures |Reversed(after)| == |after| && |Numeral(v)| >= 1
    ensures v >= 10 ==> |Numeral(v / 10)| + 1 == |Numeral(v)|
    ensures v >= 10 ==> Numeral(v) + Reversed(before) == Numeral(v / 10) + Reversed(after)
    ensures v < 10 ==> Numeral(v) + Reversed(before) == Reversed(after)
  {
    assert after[..|after| - 1] == before;
    if v >= 10 {
      assert Numeral(v / 10) + [DigitChar(v % 10)] + Reversed(before)
          == Numeral(v / 10) + ([DigitChar(v % 10)] + Reversed(before));
    }
  }

  lemma IntTextLength(v: int)
    requires -1000 < v < 1000
    ensures |IntText(v)| <= 4 && (v >= 0 ==> |IntText(v)| <= 3)
  {
    assert Pow10(3) == 1000;
    NumeralLength(if v < 0 then -v else v, 3);
  }

  /** Sign and terminator included, every layout of a double fits in 25 characters. */
  lemma LayoutFits(digits: string, dExp: int)
    requires 1 <= |digits| <= 17 && -1000 < dExp < 1000
    ensures |LayoutText(digits, dExp)| <= 23
  {
    var len := |digits|;
    var decimals := if -dExp <= len - 1 then -dExp else len - 1;
    if dExp < 0 && len > 1 {
      IntTextLength(dExp + decimals);
    }
    IntTextLength(dExp);
  }

  /** No exponent and no point. */
  predicate IsPlain(s: string) { forall i :: 0 <= i < |s| ==> s[i] != 'e' && s[i] != '.' }

  lemma DigitsArePlain(s: string)
    requires AllDigits(s)
    ensures IsPlain(s) && IsPlain(Zeros(|s|)) && IsPlain("-" + s)
  {
  }

  lemma PlainText(s: string)
    requires IsPlain(s)
    ensures 'e' !in s && '.' !in s
  {
  }

  lemma PointInFront(z: string)
    requires IsPlain(z)
    ensures '.' in "0." + z && 'e' !in "0." + z
  {
    assert ("0." + z)[1] == '.';
  }

  lemma OnlyExponent(d: string, n: string)
    requires IsPlain(d) && IsPlain(n)
    ensures 'e' in d + "e" + n && '.' !in d + "e" + n
  {
    assert (d + "e" + n)[|d|] == 'e';
  }

  lemma IntTextIsPlain(v: int)
    ensures IsPlain(IntText(v))
  {
    DigitsArePlain(Numeral(if v < 0 then -v else v));
  }

  lemma PointInside(a: string, b: string, e: int)
    requires IsPlain(a) && IsPlain(b)
    ensures var body := a + "." + b;
      && '.' in body && 'e' !in body && '.' in body + "e" + IntText(e) && 'e' in body + "e" + IntText(e)
  {
    hide IntText;
    var body := a + "." + b;
    assert body[|a|] == '.';
    assert (body + "e" + IntText(e))[|a|] == '.' && (body + "e" + IntText(e))[|body|] == 'e';
  }

  /**
   Which notation is chosen: an exponent is written for more than two zeros
   behind the digits and for three places or more of zeros in front of them; a
   point for every fraction, unless one digit and an exponent do.
   */
  lemma NotationIff(digits: string, dExp: int)
    requires digits != [] && AllDigits(digits)
    ensures var text, exponent := LayoutText(digits, dExp), dExp > 2 || |digits| + dExp <= -3;
      && ('e' in text <==> exponent)
      && ('.' in text <==> dExp < 0 && (|digits| > 1 || !exponent))
  {
    hide IsPlain, AllDigits, IntText, Zeros;
    var len := |digits|;
    if dExp < 0 && len + dExp > -3 && len <= -dExp {
      ZerosThenDigits(digits, -dExp - len);
      PointInFront(Zeros(-dExp - len) + digits);
      assert LayoutText(digits, dExp) == "0." + (Zeros(-dExp - len) + digits);
    } else if dExp < 0 && len > 1 {
      var decimals := if -dExp <= len - 1 then -dExp else len - 1;
      PartsArePlain(digits, len - decimals);
      PointInside(digits[..len - decimals], digits[len - decimals..], dExp + decimals);
    } else if dExp < 0 || dExp > 2 {
      PartsArePlain(digits, len);
      assert digits[..len] == digits;
      IntTextIsPlain(dExp);
      OnlyExponent(digits, IntText(dExp));
    } else {
      ZerosThenDigits(digits, dExp);
      PlainText(digits + Zeros(dExp));
    }
  }

  lemma PartsArePlain(digits: string, k: nat)
    requires AllDigits(digits) && k <= |digits|
    ensures IsPlain(digits[..k]) && IsPlain(digits[k..])
  {
  }

  lemma ZerosThenDigits(digits: string, n: nat)
    requires AllDigits(digits)
    ensures IsPlain(Zeros(n) + digits) && IsPlain(digits + Zeros(n))
  {
  }

  /**
   And how it is written: with an exponent, one digit stands in front of the
   point, if there is a fraction at all; without one, no zero more than is needed.
   */
  lemma ShapeOfLayout(digits: string, dExp: int)
    requires digits != []
    ensures var text, n := LayoutText(digits, dExp), |digits|;
      if dExp > 2 || (n == 1 && dExp <= -4) then text == digits + "e" + IntText(dExp)
      else if n + dExp <= -3 then text == digits[..1] + "." + digits[1..] + "e" + IntText(n - 1 + dExp)
      else |text| == if dExp >= 0 then n + dExp else if n + dExp > 0 then n + 1 else 2 - dExp
  {
    hide IntText;
  }

  /** Zero prefix: the digits move right behind "0." and zeros. */
  method LayZeroPrefix(dst: array<char>, s2: nat, len: nat, dExp: int) returns (end: nat)
    requires 1 <= len <= -dExp && s2 + 2 - dExp <= dst.Length
    modifies dst
    ensures end == s2 + 2 - dExp && dst[s2..end] == "0." + Zeros(-dExp - len) + old(dst[s2..s2 + len])
    ensures forall k :: 0 <= k < dst.Length && !(s2 <= k < end) ==> dst[k] == old(dst[k])
  {
    var shift := 2 - dExp - len;
    MemMove(dst, s2 + shift, s2, len);
    ghost var moved := dst[..];
    dst[s2] := '0';
    dst[s2 + 1] := '.';
    var i := 2;
    while i < shift
      invariant 2 <= i <= shift
      invariant dst[s2] == '0' && dst[s2 + 1] == '.'
      invariant forall k :: s2 + 2 <= k < s2 + i ==> dst[k] == '0'
      invariant forall k :: 0 <= k < dst.Length && !(s2 <= k < s2 + i) ==> dst[k] == moved[k]
    {
      dst[s2 + i] := '0';
      i := i + 1;
    }
    end := s2 + len + i;
    ZeroPrefixText(dst[..], moved, s2, shift, end);
    assert moved[s2 + shift..end] == old(dst[s2..s2 + len]);
  }

  lemma ZeroPrefixText(s: string, moved: string, s2: nat, shift: nat, end: nat)
    requires |s| == |moved| && 2 <= shift && s2 + shift <= end <= |s|
    requires s[s2] == '0' && s[s2 + 1] == '.'
    requires forall k :: s2 + 2 <= k < s2 + shift ==> s[k] == '0'
    requires forall k :: s2 + shift <= k < end ==> s[k] == moved[k]
    ensures s[s2..end] == "0." + Zeros(shift - 2) + moved[s2 + shift..end]
  {
    assert s[s2..s2 + 2] == "0.";
    assert s[s2 + 2..s2 + shift] == Zeros(shift - 2);
    assert s[s2 + shift..end] == moved[s2 + shift..end];
    ThreeParts(s, s2, s2 + 2, s2 + shift, end);
  }

  lemma ThreeParts(s: string, a: nat, b: nat, c: nat, d: nat)
    requires a <= b <= c <= d <= |s|
    ensures s[a..d] == s[a..b] + s[b..c] + s[c..d]
  {
  }

  /** Decimal point: the last decimals move right by one. */
  method LayPoint(dst: array<char>, s2: nat, len: nat, decimals: nat) returns (end: nat)
    requires 1 <= decimals < len && s2 + len < dst.Length
    modifies dst
    ensures end == s2 + len + 1
    ensures var digits := old(dst[s2..s2 + len]);
      dst[s2..end] == digits[..len - decimals] + "." + digits[len - decimals..]
    ensures forall k :: 0 <= k < dst.Length && !(s2 <= k < end) ==> dst[k] == old(dst[k])
  {
    ghost var was := dst[..];
    var i := 0;
    while i < decimals
      invariant 0 <= i <= decimals
      invariant forall k :: s2 + len - i < k <= s2 + len ==> dst[k] == was[k - 1]
      invariant forall k :: 0 <= k < dst.Length && !(s2 + len - i < k <= s2 + len) ==> dst[k] == was[k]
    {
      dst[s2 + len - i] := dst[s2 + len - i - 1];
      i := i + 1;
    }
    dst[s2 + len - decimals] := '.';
    end := s2 + len + 1;
    PointText(dst[..], was, s2, s2 + len - decimals, end);
  }

  lemma PointText(s: string, was: string, s2: nat, point: nat, end: nat)
    requires |s| == |was| && s2 <= point < end <= |s|
    requires s[point] == '.'
    requires forall k :: s2 <= k < point ==> s[k] == was[k]
    requires forall k :: point < k < end ==> s[k] == was[k - 1]
    ensures s[s2..end] == was[s2..end - 1][..point - s2] + "." + was[s2..end - 1][point - s2..]
  {
    var digits := was[s2..end - 1];
    assert s[s2..point] == digits[..point - s2];
    assert s[point + 1..end] == digits[point - s2..];
    ThreeParts(s, s2, point, point + 1, end);
  }

  /** Scientific notation: 'e' and the exponent. */
  method LayExponent(dst: array<char>, s2: nat, at: nat, dExp: int) returns (end: nat)
    requires -1000 < dExp < 1000 && s2 <= at && at + 5 < dst.Length
    modifies dst
    ensures end == at + 1 + |IntText(dExp)| <= at + 5
    ensures dst[s2..end] == old(dst[s2..at]) + "e" + IntText(dExp)
    ensures forall k :: 0 <= k < s2 ==> dst[k] == old(dst[k])
  {
    hide IntText;
    IntTextLength(dExp);
    dst[at] := 'e';
    var n := IToStr(dExp, dst, at + 1);
    end := at + 1 + n;
    assert dst[s2..end] == dst[s2..at] + [dst[at]] + dst[at + 1..end];
  }

  /** Zeros instead of an exponent. */
  method LayZeros(dst: array<char>, s2: nat, at: nat, dExp: nat) returns (end: nat)
    requires s2 <= at && at + dExp <= dst.Length
    modifies dst
    ensures end == at + dExp && dst[s2..end] == old(dst[s2..at]) + Zeros(dExp)
    ensures forall k :: 0 <= k < s2 ==> dst[k] == old(dst[k])
  {
    ghost var digits := dst[s2..at];
    var d := dExp;
    end := at;
    while d > 0
      invariant 0 <= d <= dExp && end == at + (dExp - d)
      invariant dst[s2..end] == digits + Zeros(dExp - d)
      invariant forall k :: 0 <= k < s2 ==> dst[k] == old(dst[k])
    {
      d := d - 1;
      ghost var before := dst[s2..end];
      dst[end] := '0';
      end := end + 1;
      assert dst[s2..end] == before + ['0'];
    }
  }

  /** The layouts one by one, as the branches of the formatter build them. */
  lemma LayoutByCase(digits: string, dExp: int, decimals: int)
    requires digits != []
    requires decimals == if -dExp <= (if 1 >= |digits| - 1 then 1 else |digits| - 1) then -dExp
                         else if 1 >= |digits| - 1 then 1 else |digits| - 1
    ensures var len, text := |digits|, LayoutText(digits, dExp);
      if dExp < 0 && len + dExp > -3 && len <= -dExp then text == "0." + Zeros(-dExp - len) + digits
      else if dExp < 0 && len > 1 then
        1 <= decimals < len
        && var body := digits[..len - decimals] + "." + digits[len - decimals..];
           text == (if dExp + decimals != 0 then body + "e" + IntText(dExp + decimals) else body)
      else if dExp < 0 || dExp > 2 then text == digits + "e" + IntText(dExp)
      else if dExp > 0 then text == digits + Zeros(dExp)
      else text == digits
  {
  }

  method Terminate(dst: array<char>, s2: nat, end: nat)
    requires s2 <= end < dst.Length
    modifies dst
    ensures dst[s2..end] == old(dst[s2..end]) && dst[end] == '\0'
    ensures forall k :: 0 <= k < dst.Length && k != end ==> dst[k] == old(dst[k])
  {
    ghost var text := dst[s2..end];
    dst[end] := '\0';
    assert dst[s2..end] == text;
  }

  /** The layout part of `grisu3_print_double`: the digits stand at s2, the text replaces them. */
  method Layout(dst: array<char>, s2: nat, len: nat, dExp: int) returns (end: nat)
    requires 1 <= len <= 17 && -1000 < dExp < 1000 && s2 <= 1 && 30 <= dst.Length
    modifies dst
    ensures s2 + len <= dst.Length && end < dst.Length
    ensures s2 <= end && dst[s2..end] == LayoutText(old(dst[s2..s2 + len]), dExp) && dst[end] == '\0'
    ensures forall k :: 0 <= k < s2 ==> dst[k] == old(dst[k])
  {
    hide IntText, LayoutText, Zeros;
    ghost var digits := dst[s2..s2 + len];
    var decimals := if -dExp <= (if 1 >= len - 1 then 1 else len - 1) then -dExp
                    else if 1 >= len - 1 then 1 else len - 1;
    LayoutByCase(digits, dExp, decimals);
    end := s2 + len;
    if dExp < 0 && len + dExp > -3 && len <= -dExp {
      end := LayZeroPrefix(dst, s2, len, dExp);
      assert dst[s2..end] == LayoutText(digits, dExp);
    } else if dExp < 0 && len > 1 {
      end := LayPoint(dst, s2, len, decimals);
      if dExp + decimals != 0 {
        end := LayExponent(dst, s2, end, dExp + decimals);
      }
      assert dst[s2..end] == LayoutText(digits, dExp);
    } else if dExp < 0 || dExp > 2 {
      end := LayExponent(dst, s2, end, dExp);
      assert dst[s2..end] == LayoutText(digits, dExp);
    } else if dExp > 0 {
      end := LayZeros(dst, s2, end, dExp);
      assert dst[s2..end] == LayoutText(digits, dExp);
    }
    Terminate(dst, s2, end);
  }
}
