/**
 `base64_encode` and `base64_decode` of pbase64.h as they fill a destination
 buffer, proved to compute what Base64 specifies. Pointers into source and
 destination are offsets; an optional length pointer is a `Size`.
 */
module Base64Buffers {
  import opened Arith
  import opened Base64
  import opened Base64Laws
  import Base64Values

  /** An optional length argument, passed by pointer. */
  datatype Size = Null | Size(n: nat)

  const SKIPSPACE: bv32 := 32
  const PAD_FLAG: bv32 := 128
  const MODIFIERS: bv32 := 224

  /** The alphabet a mode selects: 0 is the standard one, 1 the URL safe one. */
  function Base(mode: bv32): bv32 { mode & !MODIFIERS }

  predicate KnownMode(mode: bv32) { Base(mode) == 0 || Base(mode) == 1 }

  predicate IsUrl(mode: bv32) { Base(mode) == 1 }

  predicate Padded(mode: bv32) { mode & PAD_FLAG != 0 }

  predicate Skips(mode: bv32) { mode & SKIPSPACE != 0 }

  /** Mode 0 is the standard alphabet and mode 1 the URL safe one, neither padding nor skipping spaces. */
  lemma PlainModes()
    ensures KnownMode(0) && !IsUrl(0) && !Skips(0) && !Padded(0)
    ensures KnownMode(1) && IsUrl(1) && !Skips(1) && !Padded(1)
  {
  }

  /** To either of them 32 adds skipping spaces, and 128 adds padding. */
  lemma SkipFlag(mode: bv32)
    ensures Base(mode | 32) == Base(mode) && Skips(mode | 32) && (Padded(mode | 32) <==> Padded(mode))
  {
  }

  lemma PadFlag(mode: bv32)
    ensures Base(mode | 128) == Base(mode) && Padded(mode | 128) && (Skips(mode | 128) <==> Skips(mode))
  {
  }

  /** No other number is a mode. */
  lemma ModesAreThese(mode: bv32)
    ensures KnownMode(mode) <==> mode < 256 && mode & 31 < 2
  {
  }

  lemma Extend(now: seq<Byte>, before: seq<Byte>, part: seq<Byte>)
    requires |now| == |before| + |part| && now[..|before|] == before && now[|before|..] == part
    ensures now == before + part
  {
  }

  // ----- The encoder -----------------------------------------------------------------------

  /** Encodes four destination bytes from three source bytes. */
  method PutQuad(dst: array<Byte>, d: nat, url: bool, a: Byte, b: Byte, c: Byte)
    requires d + 4 <= dst.Length
    modifies dst
    ensures dst[..d + 4] == old(dst[..d]) + Quad(url, a, b, c)
    ensures forall i :: d + 4 <= i < dst.Length ==> dst[i] == old(dst[i])
  {
    hide Symbol, Sextet0, Sextet1, Sextet2, Sextet3;
    dst[d] := Symbol(url, Sextet0(a));
    dst[d + 1] := Symbol(url, Sextet1(a, b));
    dst[d + 2] := Symbol(url, Sextet2(b, c));
    dst[d + 3] := Symbol(url, Sextet3(c));
  }

  /** The symbols of the last one or two source bytes, if any. */
  method PutSymbols(dst: array<Byte>, from: nat, url: bool, x: seq<Byte>) returns (d: nat)
    requires |x| < 3 && from + |TailSymbols(url, x)| <= dst.Length
    modifies dst
    ensures d == from + |TailSymbols(url, x)| && dst[..d] == old(dst[..from]) + TailSymbols(url, x)
    ensures forall i :: d <= i < dst.Length ==> dst[i] == old(dst[i])
  {
    hide Symbol, Sextet0, Sextet1, Sextet2;
    d := from;
    if |x| == 2 {
      dst[d] := Symbol(url, Sextet0(x[0]));
      dst[d + 1] := Symbol(url, Sextet1(x[0], x[1]));
      dst[d + 2] := Symbol(url, Sextet2(x[1], 0));
      d := d + 3;
    } else if |x| == 1 {
      dst[d] := Symbol(url, Sextet0(x[0]));
      dst[d + 1] := Symbol(url, Sextet1(x[0], 0));
      d := d + 2;
    }
    Extend(dst[..d], old(dst[..from]), TailSymbols(url, x));
  }

  /** The end of an encoding: symbols, then padding if asked for. */
  method PutTail(dst: array<Byte>, from: nat, url: bool, pad: bool, x: seq<Byte>) returns (d: nat)
    requires |x| < 3 && from + |Encoded(url, pad, x)| <= dst.Length
    modifies dst
    ensures d <= dst.Length && dst[..d] == old(dst[..from]) + Encoded(url, pad, x)
    ensures forall i :: d <= i < dst.Length ==> dst[i] == old(dst[i])
  {
    hide TailSymbols;
    d := PutSymbols(dst, from, url, x);
    ghost var symbols := dst[..d];
    if pad && |x| == 2 {
      dst[d] := EQUALS;
      d := d + 1;
    } else if pad && |x| == 1 {
      dst[d] := EQUALS;
      dst[d + 1] := EQUALS;
      d := d + 2;
    }
    Extend(dst[..d], symbols, if pad then Pads(PadCount(|x|)) else []);
  }

  /** `base64_encode`: the status, the output length and the input length consumed. */
  method Encode(dst: array<Byte>, src: seq<Byte>, srcLen: Size, mode: bv32)
      returns (status: Status, dstLen: nat, used: nat)
    requires srcLen.Size? ==> srcLen.n == |src|
    requires srcLen.Size? && KnownMode(mode) ==> dst.Length >= |Encoded(IsUrl(mode), Padded(mode), src)|
    modifies dst
    ensures srcLen.Null? ==> (status, dstLen, used) == (EARGS, 0, 0)
    ensures srcLen.Size? && !KnownMode(mode) ==> (status, dstLen, used) == (EMODE, 0, 0)
    ensures srcLen.Size? && KnownMode(mode) ==>
      && status == EOK && used == |src|
      && dstLen <= dst.Length && dst[..dstLen] == Encoded(IsUrl(mode), Padded(mode), src)
    ensures forall i :: dstLen <= i < dst.Length ==> dst[i] == old(dst[i])
  {
    hide Encoded, Quad, Base;
    if srcLen.Null? {
      return EARGS, 0, 0;
    }
    if !KnownMode(mode) {
      return EMODE, 0, 0;
    }
    var url, pad := IsUrl(mode), Padded(mode);
    var len, d, at := srcLen.n, 0, 0;
    assert src[0..] == src;
    while len >= 3
      invariant at + len == |src| && d <= dst.Length
      invariant Encoded(url, pad, src) == dst[..d] + Encoded(url, pad, src[at..])
      invariant forall i :: d <= i < dst.Length ==> dst[i] == old(dst[i])
      decreases len
    {
      EncodedStep(url, pad, src[at..]);
      assert src[at..][3..] == src[at + 3..];
      PutQuad(dst, d, url, src[at], src[at + 1], src[at + 2]);
      len := len - 3;
      d := d + 4;
      at := at + 3;
    }
    d := PutTail(dst, d, url, pad, src[at..]);
    return EOK, d, |src|;
  }

  // ----- The decoder -----------------------------------------------------------------------

  /** The input that matters: the length given, or all of a terminated source. */
  function Input(src: seq<Byte>, total: nat): seq<Byte> {
    if total <= |src| then src[..total] else src
  }

  /** Behind a padding character that is the i-th of its group: whatever is looked at is there. */
  predicate PadsInside(url: bool, skip: bool, s: seq<Byte>, at: nat, i: nat)
    decreases |s| - at
  {
    i >= 8 || (at < |s| && (Class(url, skip, s[at]) in {PADDING, IGNORED} ==> PadsInside(url, skip, s, at + 1, i + 1)))
  }

  /** With n values held and room for limit bytes: every character that the decoder reads is there. */
  predicate ReadsInside(url: bool, skip: bool, s: seq<Byte>, at: nat, n: nat, limit: nat)
    requires n <= 4
    decreases |s| - at, n
  {
    if limit == 0 then true
    else if n == 4 then limit < 3 || ReadsInside(url, skip, s, at, 0, limit - 3)
    else
      && at < |s|
      && var c := Class(url, skip, s[at]);
      && (c < INVALID ==> ReadsInside(url, skip, s, at + 1, n + 1, limit))
      && (c == IGNORED ==> ReadsInside(url, skip, s, at + 1, n, limit))
      && (c == PADDING ==> PadsInside(url, skip, s, at + 1, n + 1))
  }

  /** Either the given length lies within the source, or the decoder stops by itself in time. */
  predicate Readable(url: bool, skip: bool, src: seq<Byte>, total: nat, at: nat, n: nat, limit: nat)
    requires n <= 4
  {
    total <= |src| || ReadsInside(url, skip, src, at, n, limit)
  }

  /** Padding, and ignored characters within it, up to the eighth character of the group. */
  method PassPadding(url: bool, skip: bool, src: seq<Byte>, base: nat, len: nat, from: nat) returns (i: nat)
    requires from <= len && from <= 4 && base + from <= |Input(src, base + len)|
    requires base + len <= |src| || PadsInside(url, skip, src, base + from, from)
    ensures from <= i <= len
    ensures base + i == PadEnd(url, skip, Input(src, base + len), base + from, from)
  {
    hide Class;
    ghost var s := Input(src, base + len);
    i := from;
    while i < len && i < 8
      invariant from <= i <= 8 && i <= len && base + i <= |s|
      invariant base + len <= |src| || PadsInside(url, skip, src, base + i, i)
      invariant PadEnd(url, skip, s, base + from, from) == PadEnd(url, skip, s, base + i, i)
      decreases 8 - i
    {
      if Class(url, skip, src[base + i]) != PADDING && Class(url, skip, src[base + i]) != IGNORED {
        break;
      }
      i := i + 1;
    }
  }

  /** The index goes below zero and back. */
  lemma StepsBack(i: nat)
    requires i < TWO64
    ensures U64(U64(i - 1) + 1) == i
  {
  }

  /** Between two characters of a group: i values are held, the next one is read at base + i. */
  ghost predicate InGroup(url: bool, skip: bool, src: seq<Byte>, total: nat, limit: nat, from: nat,
                          base: nat, len: nat, i: nat, held: seq<Byte>)
  {
    && base + len == total < TWO64 && limit > 0
    && i <= 4 && i <= len && base + i <= |Input(src, total)| && Readable(url, skip, src, total, base + i, i, limit)
    && from <= |Input(src, total)| && |held| == i && IsHold(held)
    && Collect(url, skip, Input(src, total), from, []) == Collect(url, skip, Input(src, total), base + i, held)
  }

  lemma GroupEnds(url: bool, skip: bool, src: seq<Byte>, total: nat, limit: nat, from: nat,
                  base: nat, len: nat, i: nat, held: seq<Byte>)
    requires InGroup(url, skip, src, total, limit, from, base, len, i, held)
    ensures i == 4 ==> Collect(url, skip, Input(src, total), from, []) == Whole(held, base + 4)
    ensures i < 4 && len == i ==> Collect(url, skip, Input(src, total), from, []) == Cut(held, total)
    ensures i < 4 && len != i ==> base + i < |src| && base + i < |Input(src, total)| && i < len
  {
    hide Class;
  }

  lemma GroupGoesOn(url: bool, skip: bool, src: seq<Byte>, total: nat, limit: nat, from: nat,
                    base: nat, len: nat, i: nat, held: seq<Byte>, c: Byte)
    requires InGroup(url, skip, src, total, limit, from, base, len, i, held)
    requires i < 4 && i < len && base + i < |src| && base + i < |Input(src, total)|
    requires c == Class(url, skip, src[base + i])
    ensures c < INVALID ==> InGroup(url, skip, src, total, limit, from, base, len, i + 1, held + [c])
    ensures c == IGNORED ==> InGroup(url, skip, src, total, limit, from, base + 1, len - 1, i, held)
    ensures c == PADDING ==>
      && (total <= |src| || PadsInside(url, skip, src, base + i + 1, i + 1))
      && Collect(url, skip, Input(src, total), from, [])
         == Cut(held, PadEnd(url, skip, Input(src, total), base + i + 1, i + 1))
    ensures c == INVALID ==> Collect(url, skip, Input(src, total), from, []) == Cut(held, base + i)
    ensures c <= PADDING
  {
    hide Class, Collect, PadEnd;
    assert Input(src, total)[base + i] == src[base + i];
    OneCharacter(url, skip, Input(src, total), base + i, held, c);
  }

  /** Reads one group: its values, and the source pointer and length left behind it. */
  method ReadGroup(url: bool, skip: bool, src: seq<Byte>, from: nat, left: nat, hold: array<Byte>, ghost limit: nat)
      returns (whole: bool, k: nat, base: nat, len: nat)
    requires hold.Length == 4 && from + left < TWO64 && limit > 0
    requires from <= |Input(src, from + left)| && Readable(url, skip, src, from + left, from, 0, limit)
    modifies hold
    ensures whole ==> k == 4 && base + len == from + left && 4 <= len
    ensures whole ==> limit < 3 || Readable(url, skip, src, from + left, base + 4, 0, limit - 3)
    ensures !whole ==> k < 4 && len <= from + left
    ensures var s := Input(src, from + left);
      Collect(url, skip, s, from, [])
        == if whole then Whole(hold[..], base + 4) else Cut(hold[..k], from + left - len)
  {
    hide Class, Collect, PadEnd, U64, InGroup, Input, Readable;
    ghost var total := from + left;
    base, len := from, left;
    var i: nat := 0;
    StartGroup(url, skip, src, total, limit, from, left, hold[..0]);
    while i < 4
      invariant i <= 4 && InGroup(url, skip, src, total, limit, from, base, len, i, hold[..i])
      invariant base + len == total
      decreases 4 + total - base - i
    {
      ghost var before := hold[..i];
      GroupEnds(url, skip, src, total, limit, from, base, len, i, before);
      if len == i {
        return false, i, base, len - i;
      }
      hold[i] := Class(url, skip, src[base + i]);
      assert hold[..i] == before && hold[..i + 1] == before + [hold[i]];
      GroupGoesOn(url, skip, src, total, limit, from, base, len, i, before, hold[i]);
      if hold[i] >= INVALID {
        if hold[i] == IGNORED {
          base := base + 1;
          len := len - 1;
          StepsBack(i);
          i := U64(i - 1);
          i := U64(i + 1);
          continue;
        }
        k := i;
        if hold[i] == PADDING {
          i := PassPadding(url, skip, src, base, len, i + 1);
        }
        len := len - i;
        return false, k, base, len;
      }
      i := i + 1;
    }
    assert hold[..4] == hold[..];
    GroupEnds(url, skip, src, total, limit, from, base, len, 4, hold[..]);
    WholeIsInside(url, skip, src, total, limit, from, base, len, hold[..]);
    return true, 4, base, len;
  }

  lemma StartGroup(url: bool, skip: bool, src: seq<Byte>, total: nat, limit: nat, from: nat, left: nat, held: seq<Byte>)
    requires from <= |Input(src, total)| && Readable(url, skip, src, total, from, 0, limit) && limit > 0
    requires from + left == total < TWO64 && held == []
    ensures InGroup(url, skip, src, total, limit, from, from, left, 0, held)
  {
    hide Class, Collect;
  }

  lemma WholeIsInside(url: bool, skip: bool, src: seq<Byte>, total: nat, limit: nat, from: nat,
                      base: nat, len: nat, held: seq<Byte>)
    requires InGroup(url, skip, src, total, limit, from, base, len, 4, held)
    ensures 4 <= len && (limit < 3 || Readable(url, skip, src, total, base + 4, 0, limit - 3))
  {
    hide Class, Collect;
  }

  /** The values of a last, partial group. */
  method PutBytes(dst: array<Byte>, d: nat, hold: array<Byte>, k: nat, limit: nat, ghost at: nat, ghost next: nat)
      returns (status: Status, n: nat)
    requires hold.Length == 4 && k < 4 && dst != hold
    requires d + |DecodeTail(hold[..k], at, next, limit).bytes| <= dst.Length
    modifies dst
    ensures d + n <= dst.Length
    ensures var r := DecodeTail(hold[..k], at, next, limit);
      status == r.status && dst[..d + n] == old(dst[..d]) + r.bytes && r.used == if status == EOK then next else at
    ensures forall i :: d + n <= i < dst.Length ==> dst[i] == old(dst[i])
  {
    hide Byte0, Byte1;
    match k {
      case 0 => return EOK, 0;
      case 2 =>
        if hold[1] << 4 != 0 {
          return EDIRTY, 0;
        }
        if limit < 1 {
          return EMORE, 0;
        }
        dst[d] := Byte0(hold[0], hold[1]);
        return EOK, 1;
      case 3 =>
        if hold[2] << 6 != 0 {
          return EDIRTY, 0;
        }
        if limit < 2 {
          return EMORE, 0;
        }
        dst[d] := Byte0(hold[0], hold[1]);
        dst[d + 1] := Byte1(hold[1], hold[2]);
        return EOK, 2;
      case _ => return ETAIL, 0;
    }
  }

  function Limit(dstLen: Size): nat {
    if dstLen.Size? && dstLen.n > 0 then dstLen.n else UNLIMITED
  }

  function Total(srcLen: Size): nat {
    if srcLen.Size? then srcLen.n else TWO64 - 1
  }

  /** An output length of zero limits nothing, as none does; and no limit is above what any input can yield. */
  lemma NoLimit(url: bool, skip: bool, s: seq<Byte>, n: nat)
    requires DecodedSize(|s|) < 0xFFFF_FFFF_FFFF_FFFF
    ensures Limit(Null) == Limit(Size(0)) && (n > 0 ==> Limit(Size(n)) == n)
    ensures Decoded(url, skip, s, 0, Limit(Size(0))).status != EMORE
    ensures Total(Null) == 0xFFFF_FFFF_FFFF_FFFF && Total(Size(n)) == n
  {
    Base64Values.FailsIff(url, skip, s, Limit(Size(0)));
  }

  /** A whole group makes three bytes. */
  method PutTriple(dst: array<Byte>, d: nat, hold: array<Byte>)
    requires hold.Length == 4 && d + 3 <= dst.Length && dst != hold
    modifies dst
    ensures dst[..d + 3] == old(dst[..d]) + Triple(hold[..])
    ensures forall i :: d + 3 <= i < dst.Length ==> dst[i] == old(dst[i])
  {
    hide Byte0, Byte1, Byte2;
    dst[d] := Byte0(hold[0], hold[1]);
    dst[d + 1] := Byte1(hold[1], hold[2]);
    dst[d + 2] := Byte2(hold[2], hold[3]);
  }

  /** Between two groups: what is written and what is still to be decoded make up the whole result. */
  ghost predicate Halfway(url: bool, skip: bool, s: seq<Byte>, all: Result, capacity: nat, written: seq<Byte>,
                          at: nat, limit: nat)
  {
    && at <= |s| && |all.bytes| <= capacity
    && all == Prefixed(written, Decoded(url, skip, s, at, limit))
  }

  lemma HalfwayStarts(url: bool, skip: bool, s: seq<Byte>, capacity: nat, limit: nat, written: seq<Byte>)
    requires capacity >= DecodedSize(|s|) || capacity >= limit
    requires written == []
    ensures Halfway(url, skip, s, Decoded(url, skip, s, 0, limit), capacity, written, 0, limit)
  {
    hide Decoded;
    DecodedFits(url, skip, s, 0, limit);
    PrefixNothing(Decoded(url, skip, s, 0, limit));
  }

  lemma HalfwayGoesOn(url: bool, skip: bool, s: seq<Byte>, all: Result, capacity: nat, written: seq<Byte>,
                      at: nat, limit: nat)
    requires Halfway(url, skip, s, all, capacity, written, at, limit) && limit > 0
    ensures at <= |s|
    ensures var g := Collect(url, skip, s, at, []);
      match g
      case Cut(hold, next) =>
        var r := DecodeTail(hold, at, next, limit);
        |written + r.bytes| <= capacity && all == Prefixed(written, r)
      case Whole(hold, next) =>
        if limit < 3 then all == Result(EMORE, written, at)
        else |written| + 3 <= capacity
             && Halfway(url, skip, s, all, capacity, written + Triple(hold), next, limit - 3)
  {
    hide Decoded, Collect, DecodeTail, Triple;
    Step(url, skip, s, at, limit);
    var g := Collect(url, skip, s, at, []);
    if g.Whole? && limit >= 3 {
      PrefixTwice(written, Triple(g.hold), Decoded(url, skip, s, g.next, limit - 3));
    }
  }

  lemma HalfwayEnds(url: bool, skip: bool, s: seq<Byte>, all: Result, capacity: nat, written: seq<Byte>, at: nat)
    requires Halfway(url, skip, s, all, capacity, written, at, 0)
    ensures all == Result(EOK, written, at)
  {
  }

  /** `base64_decode`: the status, the output length and the input length parsed. */
  method Decode(dst: array<Byte>, src: seq<Byte>, dstLen: Size, srcLen: Size, mode: bv32)
      returns (status: Status, outLen: nat, used: nat)
    requires Total(srcLen) < TWO64 && Limit(dstLen) < TWO64
    requires KnownMode(mode) ==> Readable(IsUrl(mode), Skips(mode), src, Total(srcLen), 0, 0, Limit(dstLen))
    requires KnownMode(mode) ==>
      dst.Length >= DecodedSize(|Input(src, Total(srcLen))|) || dst.Length >= Limit(dstLen)
    modifies dst
    ensures !KnownMode(mode) ==> (status, outLen, used) == (EMODE, 0, 0)
    ensures KnownMode(mode) ==> outLen <= dst.Length
    ensures KnownMode(mode) ==>
      Result(status, dst[..outLen], used)
        == Decoded(IsUrl(mode), Skips(mode), Input(src, Total(srcLen)), 0, Limit(dstLen))
    ensures forall i :: outLen <= i < dst.Length ==> dst[i] == old(dst[i])
  {
    hide Collect, Decoded, DecodeTail, Base, Triple, Class, Halfway, Input, DecodedSize, Readable,
         IsUrl, Skips, KnownMode;
    if !KnownMode(mode) {
      return EMODE, 0, 0;
    }
    var url, skip, total := IsUrl(mode), Skips(mode), Total(srcLen);
    var base: nat, len: nat, limit: nat, d: nat := 0, total, Limit(dstLen), 0;
    ghost var s := Input(src, total);
    ghost var all := Decoded(url, skip, s, 0, limit);
    HalfwayStarts(url, skip, s, dst.Length, limit, dst[..0]);
    var mark := len;
    var hold := new Byte[4];
    while limit > 0
      invariant base + len == total && mark == len && d <= dst.Length
      invariant Readable(url, skip, src, total, base, 0, limit)
      invariant Halfway(url, skip, s, all, dst.Length, dst[..d], base, limit)
      invariant forall i :: d <= i < dst.Length ==> dst[i] == old(dst[i])
      decreases limit
    {
      ghost var at := base;
      HalfwayGoesOn(url, skip, s, all, dst.Length, dst[..d], base, limit);
      var whole, k;
      whole, k, base, len := ReadGroup(url, skip, src, base, len, hold, limit);
      if !whole {
        var n;
        status, n := PutBytes(dst, d, hold, k, limit, at, total - len);
        if status == EOK {
          mark := len;
        }
        return status, d + n, total - mark;
      }
      if limit < 3 {
        return EMORE, d, total - mark;
      }
      PutTriple(dst, d, hold);
      d := d + 3;
      base := base + 4;
      limit := limit - 3;
      len := len - 4;
      mark := len;
    }
    HalfwayEnds(url, skip, s, all, dst.Length, dst[..d], base);
    return EOK, d, total - mark;
  }

  // ----- A source without a length -----------------------------------------------------------------

  lemma {:induction false} PadsMeetTerminator(url: bool, skip: bool, s: seq<Byte>, at: nat, i: nat, e: nat)
    requires at <= e < |s| && Class(url, skip, s[e]) == INVALID
    ensures PadsInside(url, skip, s, at, i)
    decreases e - at
  {
    if at < e {
      PadsMeetTerminator(url, skip, s, at + 1, i + 1, e);
    }
  }

  /** A character outside the alphabet ends it, wherever it stands. */
  lemma {:induction false} TerminatorEnds(url: bool, skip: bool, s: seq<Byte>, at: nat, n: nat, limit: nat, e: nat)
    requires at <= e < |s| && n <= 4 && Class(url, skip, s[e]) == INVALID
    ensures ReadsInside(url, skip, s, at, n, limit)
    decreases e - at, n
  {
    hide Class;
    if n == 4 && limit >= 3 {
      TerminatorEnds(url, skip, s, at, 0, limit - 3, e);
    } else if at < e {
      PadsMeetTerminator(url, skip, s, at + 1, n + 1, e);
      if n < 4 {
        TerminatorEnds(url, skip, s, at + 1, n + 1, limit, e);
        TerminatorEnds(url, skip, s, at + 1, n, limit, e);
      }
    }
  }

  lemma {:induction false} OnlyPads(url: bool, skip: bool, s: seq<Byte>, at: nat, i: nat)
    requires at <= |s| && i <= 8 && forall k :: at <= k < |s| ==> s[k] == EQUALS
    ensures PadsInside(url, skip, s, at, i) <==> i + (|s| - at) >= 8
    decreases |s| - at
  {
    if at < |s| && i < 8 {
      OnlyPads(url, skip, s, at + 1, i + 1);
    }
  }

  /** The decoder from position at on, in symbols up to position b and padding behind them. */
  lemma {:induction false} SymbolsThenPads(url: bool, skip: bool, s: seq<Byte>, at: nat, n: nat, limit: nat, b: nat)
    requires at <= b <= |s| && n <= 4 && limit >= |s| - at + n + 3
    requires forall k :: at <= k < b ==> Class(url, skip, s[k]) < INVALID
    requires forall k :: b <= k < |s| ==> s[k] == EQUALS
    ensures ReadsInside(url, skip, s, at, n, limit) <==> b < |s| && (n + (b - at)) % 4 + (|s| - b) >= 8
    decreases |s| - at, n
  {
    if n == 4 {
      SymbolsThenPads(url, skip, s, at, 0, limit - 3, b);
    } else if at < b {
      SymbolsThenPads(url, skip, s, at + 1, n + 1, limit, b);
    } else if at < |s| {
      OnlyPads(url, skip, s, at + 1, n + 1);
    }
  }

  /**
   Padding alone ends a source without a length only if it fills up the eighth
   place of its group: otherwise, a single padding character included, the
   decoder looks at the character behind the source.
   */
  lemma PaddingEndsIff(url: bool, skip: bool, s: seq<Byte>, b: nat)
    requires b <= |s| && |s| + 3 <= UNLIMITED
    requires forall k :: 0 <= k < b ==> Class(url, skip, s[k]) < INVALID
    requires forall k :: b <= k < |s| ==> s[k] == EQUALS
    ensures ReadsInside(url, skip, s, 0, 0, UNLIMITED) <==> b < |s| && b % 4 + (|s| - b) >= 8
  {
    SymbolsThenPads(url, skip, s, 0, 0, UNLIMITED, b);
  }
}
