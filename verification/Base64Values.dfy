/**
 What base64 text means, apart from the code that reads it: the characters of
 the alphabet are digits, and the digits and the bytes write the same number,
 in base 64 and in base 256. Every status of the decoder is decided here by how
 many digits the input holds and by the last of them.
 */
module Base64Values {
  import opened Arith
  import opened Base64
  import opened Base64Laws

  // ----- Digits ----------------------------------------------------------------------------

  /** The digits from position at on, up to padding, to a character outside the alphabet or to the end. */
  function Values(url: bool, skip: bool, s: seq<Byte>, at: nat): (v: seq<Byte>)
    requires at <= |s|
    ensures |v| <= |s| - at && forall i :: 0 <= i < |v| ==> v[i] < 64
    decreases |s| - at
  {
    if at == |s| then []
    else
      var c := Class(url, skip, s[at]);
      if c < INVALID then [c] + Values(url, skip, s, at + 1)
      else if c == IGNORED then Values(url, skip, s, at + 1)
      else []
  }

  /** The last group is none, or makes whole bytes and leaves no bit over that is set. */
  predicate Clean(v: seq<Byte>) {
    match |v| % 4
    case 0 => true
    case 1 => false
    case 2 => v[|v| - 1] & 15 == 0
    case _ => v[|v| - 1] & 3 == 0
  }

  /** The bytes that digits make. */
  function Bytes(v: seq<Byte>): nat {
    |v| / 4 * 3 + if Clean(v) && |v| % 4 > 0 then |v| % 4 - 1 else 0
  }

  /** The digits that n bytes come from. */
  function DigitsFor(n: nat): nat { n / 3 * 4 + TailLength(n) }

  /** The number that digits of the given width in bits write. */
  function Number(width: nat, s: seq<Byte>): nat {
    if s == [] then 0 else s[0] as nat * Pow2(width * (|s| - 1)) + Number(width, s[1..])
  }

  // ----- Groups of digits --------------------------------------------------------------------

  /** A group holds the next four digits, or all that are left. */
  lemma {:induction false} CollectTakes(url: bool, skip: bool, s: seq<Byte>, at: nat, hold: seq<Byte>)
    requires at <= |s| && IsHold(hold)
    ensures var g, v := Collect(url, skip, s, at, hold), Values(url, skip, s, at);
      hold + v == g.hold + if g.Whole? then Values(url, skip, s, g.next) else []
    decreases |s| - at
  {
    hide Class, PadEnd, Collect, Values;
    if |hold| == 4 || at == |s| {
      CollectStops(url, skip, s, at, hold);
      NoDigits(url, skip, s, at, hold);
    } else {
      var c := Class(url, skip, s[at]);
      OneCharacter(url, skip, s, at, hold, c);
      NextDigit(url, skip, s, at, c);
      if c < INVALID {
        CollectTakes(url, skip, s, at + 1, hold + [c]);
        Regroup3(hold, [c], Values(url, skip, s, at + 1));
      } else if c == IGNORED {
        CollectTakes(url, skip, s, at + 1, hold);
      } else {
        assert hold + [] == hold;
      }
    }
  }

  lemma NoDigits(url: bool, skip: bool, s: seq<Byte>, at: nat, hold: seq<Byte>)
    requires at <= |s|
    ensures at == |s| ==> hold + Values(url, skip, s, at) == hold
    ensures hold + [] == hold
  {
  }

  lemma NextDigit(url: bool, skip: bool, s: seq<Byte>, at: nat, c: Byte)
    requires at < |s| && c == Class(url, skip, s[at])
    ensures Values(url, skip, s, at)
      == if c < INVALID then [c] + Values(url, skip, s, at + 1)
         else if c == IGNORED then Values(url, skip, s, at + 1)
         else []
  {
    hide Class;
  }

  /** Four digits in front change neither the last group nor whether it is clean. */
  lemma FourMore(hold: seq<Byte>, v: seq<Byte>)
    requires |hold| == 4
    ensures |hold + v| / 4 == |v| / 4 + 1 && |hold + v| % 4 == |v| % 4
    ensures Clean(hold + v) == Clean(v) && Bytes(hold + v) == Bytes(v) + 3
  {
  }

  lemma SpareBits(h: Byte)
    ensures (h << 4 == 0 <==> h & 15 == 0) && (h << 6 == 0 <==> h & 3 == 0)
  {
  }

  // ----- What each status means -----------------------------------------------------------------

  /** Status, length and place of a result, by the digits of its input alone. */
  ghost predicate Decides(v: seq<Byte>, limit: nat, r: Result) {
    && (r.status == EMORE <==> limit % 3 != 0 && limit < Bytes(v))
    && (r.status == ETAIL <==> limit > |v| / 4 * 3 && |v| % 4 == 1)
    && (r.status == EDIRTY <==> limit > |v| / 4 * 3 && |v| % 4 >= 2 && !Clean(v))
    && r.status in {EOK, EMORE, ETAIL, EDIRTY}
    && |r.bytes| == if limit < Bytes(v) then limit / 3 * 3 else Bytes(v)
  }

  lemma TailDecides(hold: seq<Byte>, at: nat, next: nat, limit: nat)
    requires |hold| < 4 && 0 < limit
    ensures Decides(hold, limit, DecodeTail(hold, at, next, limit))
  {
    hide Byte0, Byte1;
    if |hold| >= 2 {
      SpareBits(hold[|hold| - 1]);
    }
  }

  lemma TripleDecides(hold: seq<Byte>, v: seq<Byte>, limit: nat, r: Result)
    requires |hold| == 4 && 3 <= limit && Decides(v, limit - 3, r)
    ensures Decides(hold + v, limit, Prefixed(Triple(hold), r))
  {
    hide Byte0, Byte1, Byte2, Clean, Bytes;
    FourMore(hold, v);
    assert (limit - 3) % 3 == limit % 3 && (limit - 3) / 3 == limit / 3 - 1;
  }

  lemma NoRoomDecides(v: seq<Byte>, at: nat)
    ensures Decides(v, 0, Result(EOK, [], at))
  {
  }

  lemma LittleRoomDecides(hold: seq<Byte>, v: seq<Byte>, limit: nat, at: nat)
    requires |hold| == 4 && 0 < limit < 3
    ensures Decides(hold + v, limit, Result(EMORE, [], at))
  {
    FourMore(hold, v);
  }

  lemma {:induction false} EveryStatus(url: bool, skip: bool, s: seq<Byte>, at: nat, limit: nat)
    requires at <= |s|
    ensures Decides(Values(url, skip, s, at), limit, Decoded(url, skip, s, at, limit))
    decreases |s| - at
  {
    hide Collect, Decoded, DecodeTail, Triple, Decides, Values, Prefixed;
    var v := Values(url, skip, s, at);
    if limit == 0 {
      NoRoom(url, skip, s, at);
      NoRoomDecides(v, at);
    } else {
      var g := Collect(url, skip, s, at, []);
      Step(url, skip, s, at, limit);
      CollectTakes(url, skip, s, at, []);
      assert [] + v == v;
      if g.Cut? {
        assert g.hold + [] == g.hold;
        TailDecides(g.hold, at, g.next, limit);
      } else if limit < 3 {
        LittleRoomDecides(g.hold, Values(url, skip, s, g.next), limit, at);
      } else {
        EveryStatus(url, skip, s, g.next, limit - 3);
        TripleDecides(g.hold, Values(url, skip, s, g.next), limit, Decoded(url, skip, s, g.next, limit - 3));
      }
    }
  }

  /** Digits never make more bytes than the size function says. */
  lemma BytesFit(url: bool, skip: bool, s: seq<Byte>, at: nat)
    requires at <= |s|
    ensures Bytes(Values(url, skip, s, at)) <= DecodedSize(|s| - at)
    ensures |Values(url, skip, s, at)| / 4 * 3 <= DecodedSize(|s| - at)
  {
    hide Clean;
  }

  /**
   With room to spare a tail of one digit is an error, as is one of two or three
   digits whose spare bits are not zero; everything else is accepted.
   */
  lemma FailsIff(url: bool, skip: bool, s: seq<Byte>, limit: nat)
    requires limit > DecodedSize(|s|)
    ensures var v, r := Values(url, skip, s, 0), Decoded(url, skip, s, 0, limit);
      && (r.status == ETAIL <==> |v| % 4 == 1)
      && (r.status == EDIRTY <==>
            || (|v| % 4 == 2 && v[|v| - 1] & 15 != 0)
            || (|v| % 4 == 3 && v[|v| - 1] & 3 != 0))
      && r.status != EMORE
  {
    EveryStatus(url, skip, s, 0, limit);
    BytesFit(url, skip, s, 0);
  }

  /** EMORE is true of its name: more room gives more bytes, and a caller who drains and resumes ends. */
  lemma MoreMeansMore(url: bool, skip: bool, s: seq<Byte>, limit: nat, room: nat)
    requires Decoded(url, skip, s, 0, limit).status == EMORE && room > DecodedSize(|s|)
    ensures limit <= DecodedSize(|s|) && limit < |Decoded(url, skip, s, 0, room).bytes|
  {
    EveryStatus(url, skip, s, 0, limit);
    EveryStatus(url, skip, s, 0, room);
    BytesFit(url, skip, s, 0);
  }

  // ----- The same number ------------------------------------------------------------------------

  lemma {:induction false} NumberAppends(width: nat, a: seq<Byte>, b: seq<Byte>)
    ensures Number(width, a + b) == Number(width, a) * Pow2(width * |b|) + Number(width, b)
    decreases |a|
  {
    if a == [] {
      assert a + b == b;
    } else {
      NumberAppends(width, a[1..], b);
      assert (a + b)[1..] == a[1..] + b;
      hide Pow2;
      Widths(width, |a| - 1, |b|);
      var p, q := Pow2(width * (|a| - 1)), Pow2(width * |b|);
      Pow2Adds(width * (|a| - 1), width * |b|);
      FirstDigit(a[0] as nat, p, q, Number(width, a[1..]), p * q, Number(width, a));
    }
  }

  lemma Widths(width: nat, n: nat, k: nat)
    ensures width * (n + k) == width * n + width * k
  {
  }

  lemma FirstDigit(d: int, p: int, q: int, x: int, pq: int, n: int)
    requires pq == p * q && n == d * p + x
    ensures d * pq + x * q == n * q
  {
    MulAssoc(d, p, q);
  }

  /** Without a bit in common, or is plus. */
  lemma OrIsPlus(a: Byte, b: Byte)
    requires a & b == 0
    ensures (a | b) as nat == a as nat + b as nat
  {
  }

  lemma Shifts(h: Byte)
    requires h < 64
    ensures (h << 2) as nat == h as nat * 4 && (h >> 4) as nat == h as nat / 16
    ensures (h << 4) as nat == h as nat % 16 * 16 && (h >> 2) as nat == h as nat / 4
    ensures (h << 6) as nat == h as nat % 4 * 64
  {
  }

  lemma NothingInCommon(h: Byte, k: Byte)
    requires h < 64 && k < 64
    ensures (h << 2) & (k >> 4) == 0 && (h << 4) & (k >> 2) == 0 && (h << 6) & k == 0
  {
  }

  lemma NumberOfBytes(h: Byte, k: Byte)
    requires h < 64 && k < 64
    ensures Byte0(h, k) as nat == h as nat * 4 + k as nat / 16
    ensures Byte1(h, k) as nat == h as nat % 16 * 16 + k as nat / 4
    ensures Byte2(h, k) as nat == h as nat % 4 * 64 + k as nat
  {
    Shifts(h);
    Shifts(k);
    NothingInCommon(h, k);
    OrIsPlus(h << 2, k >> 4);
    OrIsPlus(h << 4, k >> 2);
    OrIsPlus(h << 6, k);
  }

  lemma NumberOfSpare(h: Byte)
    ensures (h & 15 == 0 <==> h as nat % 16 == 0) && (h & 3 == 0 <==> h as nat % 4 == 0)
  {
  }

  lemma NumberOfOne(width: nat, x: seq<Byte>)
    requires |x| == 1
    ensures Number(width, x) == x[0] as nat
  {
    assert Pow2(width * 0) == 1;
  }

  lemma NumberOfTwo(width: nat, x: seq<Byte>)
    requires |x| == 2
    ensures Number(width, x) == x[0] as nat * Pow2(width) + x[1] as nat
  {
    NumberOfOne(width, x[1..]);
    assert width * 1 == width;
  }

  lemma NumberOfThree(width: nat, x: seq<Byte>)
    requires |x| == 3
    ensures Number(width, x) == x[0] as nat * Pow2(width * 2) + x[1] as nat * Pow2(width) + x[2] as nat
  {
    NumberOfTwo(width, x[1..]);
  }

  lemma NumberOfFour(width: nat, x: seq<Byte>)
    requires |x| == 4
    ensures Number(width, x)
      == x[0] as nat * Pow2(width * 3) + x[1] as nat * Pow2(width * 2) + x[2] as nat * Pow2(width) + x[3] as nat
  {
    NumberOfThree(width, x[1..]);
  }

  lemma SmallPowers()
    ensures Pow2(2) == 4 && Pow2(4) == 16 && Pow2(6) == 64 && Pow2(8) == 256
    ensures Pow2(12) == 4096 && Pow2(16) == 65536 && Pow2(18) == 262144
  {
    assert Pow2(4) == 16;
    Pow2Adds(4, 4);
    Pow2Adds(8, 4);
    Pow2Adds(8, 8);
    Pow2Adds(16, 2);
    Pow2Adds(4, 2);
  }

  /** Four digits write the number that three bytes write. */
  lemma GroupNumber(hold: seq<Byte>)
    requires IsHold(hold) && |hold| == 4
    ensures Number(6, hold) == Number(8, Triple(hold))
  {
    hide Byte0, Byte1, Byte2, Number, Pow2;
    SmallPowers();
    NumberOfFour(6, hold);
    NumberOfThree(8, Triple(hold));
    GroupValues(hold[0], hold[1], hold[2], hold[3]);
    Scales(hold[0] as nat, hold[1] as nat, hold[2] as nat, Pow2(18), Pow2(12), Pow2(6));
    Scales(Byte0(hold[0], hold[1]) as nat, Byte1(hold[1], hold[2]) as nat, 0, Pow2(16), Pow2(8), 1);
  }

  /** Powers of two by their values. */
  lemma Scales(a: nat, b: nat, c: nat, p: nat, q: nat, r: nat)
    ensures p == 262144 && q == 4096 && r == 64 ==> a * p + b * q + c * r == a * 262144 + b * 4096 + c * 64
    ensures p == 65536 && q == 256 ==> a * p + b * q == a * 65536 + b * 256
  {
  }

  lemma GroupValues(h: Byte, k: Byte, l: Byte, m: Byte)
    requires h < 64 && k < 64 && l < 64 && m < 64
    ensures h as nat * 262144 + k as nat * 4096 + l as nat * 64 + m as nat
         == Byte0(h, k) as nat * 65536 + Byte1(k, l) as nat * 256 + Byte2(l, m) as nat
  {
    hide Byte0, Byte1, Byte2;
    NumberOfBytes(h, k);
    NumberOfBytes(k, l);
    NumberOfBytes(l, m);
    FourSum(h as nat, k as nat, l as nat, m as nat);
  }

  lemma FourSum(a: nat, b: nat, c: nat, d: nat)
    ensures a * 262144 + b * 4096 + c * 64 + d
         == (a * 4 + b / 16) * 65536 + (b % 16 * 16 + c / 4) * 256 + (c % 4 * 64 + d)
  {
  }

  /** The first digits write what the bytes write, followed by as many zero bits as fill the last digit. */
  ghost predicate SameNumber(v: seq<Byte>, b: seq<Byte>) {
    var n, m := |b|, DigitsFor(|b|);
    m <= |v| && 6 * m >= 8 * n && Number(6, v[..m]) == Number(8, b) * Pow2(6 * m - 8 * n)
  }

  lemma NothingIsSame(v: seq<Byte>)
    ensures SameNumber(v, [])
  {
  }

  lemma SmallNumbers(a: Byte, b: Byte, c: Byte)
    ensures Number(6, [a, b]) == a as nat * 64 + b as nat && Number(8, [a, b]) == a as nat * 256 + b as nat
    ensures Number(6, [a, b, c]) == a as nat * 4096 + b as nat * 64 + c as nat && Number(8, [a]) == a as nat
  {
    hide Number, Pow2;
    SmallPowers();
    NumberOfOne(8, [a]);
    NumberOfTwo(6, [a, b]);
    NumberOfTwo(8, [a, b]);
    NumberOfThree(6, [a, b, c]);
  }

  lemma TailIsSame(hold: seq<Byte>, b: seq<Byte>, scale: nat)
    requires (|hold| == 2 && |b| == 1 && scale == 16) || (|hold| == 3 && |b| == 2 && scale == 4)
    requires Number(6, hold) == Number(8, b) * scale
    ensures SameNumber(hold, b)
  {
    hide Number, Pow2;
    SmallPowers();
    assert hold[..|hold|] == hold;
  }

  lemma TwoDigits(hold: seq<Byte>)
    requires |hold| == 2 && IsHold(hold) && hold[1] << 4 == 0
    ensures SameNumber(hold, [Byte0(hold[0], hold[1])])
  {
    hide Byte0, Number, SameNumber;
    var b := Byte0(hold[0], hold[1]);
    assert hold == [hold[0], hold[1]];
    TwoValues(hold[0], hold[1]);
    SmallNumbers(hold[0], hold[1], 0);
    SmallNumbers(b, 0, 0);
    TailIsSame(hold, [b], 16);
  }

  lemma TwoValues(h: Byte, k: Byte)
    requires h < 64 && k < 64 && k << 4 == 0
    ensures h as nat * 64 + k as nat == Byte0(h, k) as nat * 16
  {
    hide Byte0;
    SpareBits(k);
    NumberOfSpare(k);
    NumberOfBytes(h, k);
    TwoSum(h as nat, k as nat);
  }

  lemma TwoSum(a: nat, b: nat)
    requires b % 16 == 0
    ensures a * 64 + b == (a * 4 + b / 16) * 16
  {
  }

  lemma ThreeDigits(hold: seq<Byte>)
    requires |hold| == 3 && IsHold(hold) && hold[2] << 6 == 0
    ensures SameNumber(hold, [Byte0(hold[0], hold[1]), Byte1(hold[1], hold[2])])
  {
    hide Byte0, Byte1, Number, SameNumber;
    var b, c := Byte0(hold[0], hold[1]), Byte1(hold[1], hold[2]);
    assert hold == [hold[0], hold[1], hold[2]];
    ThreeValues(hold[0], hold[1], hold[2]);
    SmallNumbers(hold[0], hold[1], hold[2]);
    SmallNumbers(b, c, 0);
    TailIsSame(hold, [b, c], 4);
  }

  lemma ThreeValues(h: Byte, k: Byte, l: Byte)
    requires h < 64 && k < 64 && l < 64 && l << 6 == 0
    ensures h as nat * 4096 + k as nat * 64 + l as nat == (Byte0(h, k) as nat * 256 + Byte1(k, l) as nat) * 4
  {
    hide Byte0, Byte1;
    SpareBits(l);
    NumberOfSpare(l);
    NumberOfBytes(h, k);
    NumberOfBytes(k, l);
    ThreeSum(h as nat, k as nat, l as nat);
  }

  lemma ThreeSum(a: nat, b: nat, c: nat)
    requires c % 4 == 0
    ensures a * 4096 + b * 64 + c == ((a * 4 + b / 16) * 256 + (b % 16 * 16 + c / 4)) * 4
  {
  }

  lemma TailNumber(hold: seq<Byte>, at: nat, next: nat, limit: nat)
    requires |hold| < 4 && IsHold(hold)
    ensures SameNumber(hold, DecodeTail(hold, at, next, limit).bytes)
  {
    hide Byte0, Byte1, SameNumber;
    NothingIsSame(hold);
    if |hold| == 2 && hold[1] << 4 == 0 {
      TwoDigits(hold);
    } else if |hold| == 3 && hold[2] << 6 == 0 {
      ThreeDigits(hold);
    }
  }

  lemma TripleNumber(hold: seq<Byte>, v: seq<Byte>, b: seq<Byte>)
    requires IsHold(hold) && |hold| == 4 && SameNumber(v, b)
    ensures SameNumber(hold + v, Triple(hold) + b)
  {
    hide Triple, Number, Pow2;
    var t, n, m := Triple(hold), |b|, DigitsFor(|b|);
    assert DigitsFor(n + 3) == m + 4 && |t + b| == n + 3;
    assert (hold + v)[..m + 4] == hold + v[..m];
    GroupNumber(hold);
    NumberAppends(6, hold, v[..m]);
    NumberAppends(8, t, b);
    Pow2Adds(8 * n, 6 * m - 8 * n);
    Carried(Number(8, t), Pow2(8 * n), Pow2(6 * m - 8 * n), Pow2(6 * m), Number(8, b), Number(6, v[..m]),
            Number(8, t + b));
  }

  lemma Carried(q: int, p: int, e: int, pe: int, b: int, v: int, n: int)
    requires pe == p * e && v == b * e && n == q * p + b
    ensures q * pe + v == n * e
  {
    MulAssoc(q, p, e);
  }

  /** What is decoded, whatever the limit and however it ends, is the number that the digits write. */
  lemma {:induction false} DecodesTheNumber(url: bool, skip: bool, s: seq<Byte>, at: nat, limit: nat)
    requires at <= |s|
    ensures SameNumber(Values(url, skip, s, at), Decoded(url, skip, s, at, limit).bytes)
    decreases |s| - at
  {
    hide Collect, Decoded, DecodeTail, Triple, Values, SameNumber;
    NothingIsSame(Values(url, skip, s, at));
    if limit == 0 {
      NoRoom(url, skip, s, at);
    } else {
      var g := Collect(url, skip, s, at, []);
      Step(url, skip, s, at, limit);
      Taken(url, skip, s, at, g);
      if g.Cut? {
        TailNumber(g.hold, at, g.next, limit);
      } else if limit >= 3 {
        DecodesTheNumber(url, skip, s, g.next, limit - 3);
        TripleNumber(g.hold, Values(url, skip, s, g.next), Decoded(url, skip, s, g.next, limit - 3).bytes);
      }
    }
  }

  lemma Taken(url: bool, skip: bool, s: seq<Byte>, at: nat, g: Group)
    requires at <= |s| && g == Collect(url, skip, s, at, [])
    ensures Values(url, skip, s, at) == if g.Whole? then g.hold + Values(url, skip, s, g.next) else g.hold
  {
    hide Collect, Values;
    CollectTakes(url, skip, s, at, []);
    assert [] + Values(url, skip, s, at) == Values(url, skip, s, at);
    assert g.hold + [] == g.hold;
  }

  /** Where decoding stops early or fails, the digits from there on are those not decoded. */
  ghost predicate LeavesOff(v: seq<Byte>, rest: seq<Byte>, limit: nat, r: Result) {
    r.status != EOK || MayBeMore(r, limit) ==> |r.bytes| / 3 * 4 <= |v| && rest == v[|r.bytes| / 3 * 4..]
  }

  lemma {:induction false} StopsBetweenGroups(url: bool, skip: bool, s: seq<Byte>, at: nat, limit: nat)
    requires at <= |s|
    ensures var r := Decoded(url, skip, s, at, limit);
      LeavesOff(Values(url, skip, s, at), Values(url, skip, s, r.used), limit, r)
    decreases |s| - at
  {
    hide Collect, Decoded, DecodeTail, Triple, Values, LeavesOff;
    LeavesAll(Values(url, skip, s, at), limit, at);
    if limit == 0 {
      NoRoom(url, skip, s, at);
    } else {
      var g := Collect(url, skip, s, at, []);
      Step(url, skip, s, at, limit);
      Taken(url, skip, s, at, g);
      if g.Cut? {
        LeavesTail(g.hold, at, g.next, limit, Values(url, skip, s, g.next));
      } else if limit >= 3 {
        var r := Decoded(url, skip, s, g.next, limit - 3);
        StopsBetweenGroups(url, skip, s, g.next, limit - 3);
        LeavesFourMore(g.hold, Values(url, skip, s, g.next), Values(url, skip, s, r.used), limit, r);
      }
    }
  }

  lemma LeavesAll(v: seq<Byte>, limit: nat, at: nat)
    ensures LeavesOff(v, v, limit, Result(EMORE, [], at)) && LeavesOff(v, v, limit, Result(EOK, [], at))
  {
  }

  lemma LeavesTail(hold: seq<Byte>, at: nat, next: nat, limit: nat, after: seq<Byte>)
    requires |hold| < 4 && 0 < limit && at <= next
    ensures var r := DecodeTail(hold, at, next, limit);
      && r.used == (if r.status == EOK then next else at)
      && LeavesOff(hold, if r.status == EOK then after else hold, limit, r)
  {
    hide Byte0, Byte1;
  }

  lemma LeavesFourMore(hold: seq<Byte>, v: seq<Byte>, rest: seq<Byte>, limit: nat, r: Result)
    requires |hold| == 4 && 3 <= limit && LeavesOff(v, rest, limit - 3, r)
    ensures LeavesOff(hold + v, rest, limit, Prefixed(Triple(hold), r))
  {
    hide Triple, MayBeMore;
    TripleMore(Triple(hold), r, limit);
  }

  // ----- The two alphabets -------------------------------------------------------------------------

  const UPPER: string := "ABCDEFGHIJKLMNOPQRSTUVWXYZ"
  const LOWER: string := "abcdefghijklmnopqrstuvwxyz"
  const DIGITS: string := "0123456789"

  function Alphabet(url: bool): (a: string)
    ensures |a| == 64
  {
    UPPER + LOWER + DIGITS + if url then "-_" else "+/"
  }

  lemma UpperLetter(i: nat)
    requires i < 26
    ensures UPPER[i] as int == 65 + i
  {
    match i
    case 0 => case 1 => case 2 => case 3 => case 4 => case 5 => case 6 => case 7 => case 8 => case 9 =>
    case 10 => case 11 => case 12 => case 13 => case 14 => case 15 => case 16 => case 17 => case 18 =>
    case 19 => case 20 => case 21 => case 22 => case 23 => case 24 => case 25 =>
  }

  lemma LowerLetter(i: nat)
    requires i < 26
    ensures LOWER[i] as int == 97 + i
  {
    match i
    case 0 => case 1 => case 2 => case 3 => case 4 => case 5 => case 6 => case 7 => case 8 => case 9 =>
    case 10 => case 11 => case 12 => case 13 => case 14 => case 15 => case 16 => case 17 => case 18 =>
    case 19 => case 20 => case 21 => case 22 => case 23 => case 24 => case 25 =>
  }

  lemma DigitLetter(i: nat)
    requires i < 10
    ensures DIGITS[i] as int == 48 + i
  {
    match i
    case 0 => case 1 => case 2 => case 3 => case 4 => case 5 => case 6 => case 7 => case 8 => case 9 =>
  }

  /** The symbols are the letters of RFC 4648, tables 1 and 2, in their order. */
  lemma SymbolIsLetter(url: bool, v: Byte)
    requires v < 64
    ensures Symbol(url, v) as int == Alphabet(url)[v as nat] as int
  {
    SymbolNumber(url, v);
    if v < 26 {
      UpperLetter(v as nat);
    } else if v < 52 {
      LowerLetter(v as nat - 26);
    } else if v < 62 {
      DigitLetter(v as nat - 52);
    }
  }

  lemma SymbolNumber(url: bool, v: Byte)
    requires v < 64
    ensures Symbol(url, v) as int == var i := v as int;
      if i < 26 then i + 65
      else if i < 52 then i + 71
      else if i < 62 then i - 4
      else if i == 62 then if url then 45 else 43
      else if url then 95 else 47
  {
  }

  /** The decoder reads a character as a digit, as padding, as a space to skip, or not at all. */
  lemma ClassMeans(url: bool, skip: bool, c: Byte)
    ensures Class(url, skip, c) < INVALID <==> exists v: Byte :: v < 64 && Symbol(url, v) == c
    ensures Class(url, skip, c) == PADDING <==> c as int == '=' as int
    ensures Class(url, skip, c) == IGNORED <==> skip && c as int in {' ' as int, '\r' as int, '\n' as int}
  {
    if Class(url, skip, c) < INVALID {
      ClassSymbol(url, skip, c);
    }
    forall v: Byte | v < 64 && Symbol(url, v) == c
      ensures Class(url, skip, c) == v
    {
      SymbolClass(url, skip, v);
    }
  }

  // ----- What an encoding is --------------------------------------------------------------------------

  /** From position at on, s reads the letters of the digits v. */
  ghost predicate Spells(url: bool, s: seq<Byte>, at: nat, v: seq<Byte>)
    requires forall i :: 0 <= i < |v| ==> v[i] < 64
  {
    at + |v| <= |s| && forall i :: 0 <= i < |v| ==> s[at + i] as int == Alphabet(url)[v[i] as nat] as int
  }

  lemma {:induction false} DigitsSpell(url: bool, s: seq<Byte>, at: nat)
    requires at <= |s|
    ensures Spells(url, s, at, Values(url, false, s, at))
    decreases |s| - at
  {
    hide Class, Alphabet, Values;
    NoDigits(url, false, s, at, []);
    assert [] + Values(url, false, s, at) == Values(url, false, s, at);
    if at < |s| {
      var c := Class(url, false, s[at]);
      NextDigit(url, false, s, at, c);
      NotIgnored(url, s[at]);
      if c < INVALID {
        DigitsSpell(url, s, at + 1);
        ClassSymbol(url, false, s[at]);
        SymbolIsLetter(url, c);
      }
    }
  }

  lemma CleanDigits(v: seq<Byte>)
    requires Clean(v)
    ensures |v| == DigitsFor(Bytes(v))
  {
  }

  /**
   An encoding spells the bytes' number in base 64, most significant digit first,
   in the letters of the alphabet; padding, if asked for, fills the last four.
   */
  lemma EncodingSpellsTheNumber(url: bool, pad: bool, x: seq<Byte>)
    ensures var e := Encoded(url, pad, x);
      var v := Values(url, false, e, 0);
      && |v| == DigitsFor(|x|) && SameNumber(v, x) && Spells(url, e, 0, v)
      && (forall i :: |v| <= i < |e| ==> e[i] as int == '=' as int)
      && (if pad then |e| % 4 == 0 && |e| < |v| + 4 else |e| == |v|)
  {
    hide Encoded, SameNumber, Values, Spells, Pads, Length, DigitsFor, PadCount;
    var e := Encoded(url, pad, x);
    EncodingHasDigits(url, pad, x, e);
    DigitsSpell(url, e, 0);
    PaddedIsUnpadded(url, x);
    EncodedLength(url, false, x);
    EncodedLength(url, pad, x);
    PaddedLength(|x|);
    OnlyPads(Encoded(url, false, x), if pad then PadCount(|x|) else 0, e);
  }

  lemma PaddedLength(n: nat)
    ensures Length(n, false) == DigitsFor(n)
    ensures Length(n, true) % 4 == 0 && Length(n, true) < DigitsFor(n) + 4
  {
  }

  lemma EncodingHasDigits(url: bool, pad: bool, x: seq<Byte>, e: seq<Byte>)
    requires e == Encoded(url, pad, x)
    ensures |Values(url, false, e, 0)| == DigitsFor(|x|) && SameNumber(Values(url, false, e, 0), x)
  {
    hide Encoded, Decoded, Clean, SameNumber, Values, Bytes, Decides, DigitsFor;
    var v := Values(url, false, e, 0);
    var limit := |x| + |v| + 1;
    RoundTrip(url, pad, false, x, [], limit);
    assert e + [] == e;
    EveryStatus(url, false, e, 0, limit);
    EnoughForDigits(v, limit, Decoded(url, false, e, 0, limit));
    CleanDigits(v);
    DecodesTheNumber(url, false, e, 0, limit);
  }

  lemma OnlyPads(u: seq<Byte>, n: nat, e: seq<Byte>)
    requires e == u + Pads(n) || (n == 0 && e == u)
    ensures forall i :: |u| <= i < |e| ==> e[i] as int == '=' as int
  {
    assert EQUALS as int == '=' as int;
  }

  lemma EnoughForDigits(v: seq<Byte>, limit: nat, r: Result)
    requires Decides(v, limit, r) && r.status == EOK && limit > |v| && limit > |r.bytes|
    ensures Clean(v) && Bytes(v) == |r.bytes|
  {
  }

  /** The size function is exact for what was encoded without padding. */
  lemma DecodedSizeIsExact(url: bool, x: seq<Byte>)
    ensures DecodedSize(|Encoded(url, false, x)|) == |x|
  {
    EncodedLength(url, false, x);
  }
}
