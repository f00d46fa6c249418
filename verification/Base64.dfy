/**
 The base64 codec of pbase64.h: sections 3.5, 4 and 5 of RFC 4648. Bytes are
 8-bit vectors, so that shifts drop bits as the assignments to `uint8_t` do.
 Both functions are given here as specifications on sequences; the methods
 that fill a destination buffer are proved against them in Base64Buffers.
 */
module Base64 {
  import opened Arith

  type Byte = bv8

  datatype Status = EOK | EMORE | EARGS | EMODE | ETAIL | EDIRTY

  const INVALID: Byte := 64
  const IGNORED: Byte := 65
  const PADDING: Byte := 66
  const EQUALS: Byte := 61

  // ----- Alphabets -------------------------------------------------------------------

  /** The symbol of a 6-bit value. */
  function Symbol(url: bool, v: Byte): Byte
    requires v < 64
  {
    if v < 26 then v + 65
    else if v < 52 then v + 71
    else if v < 62 then v - 4
    else if v == 62 then if url then 45 else 43
    else if url then 95 else 47
  }

  /** The decoding tables: a 6-bit value, or INVALID, IGNORED or PADDING. */
  function Class(url: bool, skip: bool, c: Byte): Byte
  {
    if 65 <= c <= 90 then c - 65
    else if 97 <= c <= 122 then c - 71
    else if 48 <= c <= 57 then c + 4
    else if c == (if url then 45 else 43) then 62
    else if c == (if url then 95 else 47) then 63
    else if c == EQUALS then PADDING
    else if skip && (c == 10 || c == 13 || c == 32) then IGNORED
    else INVALID
  }

  /** The two tables are inverse on symbols. */
  lemma SymbolClass(url: bool, skip: bool, v: Byte)
    requires v < 64
    ensures Class(url, skip, Symbol(url, v)) == v
  {
  }

  lemma ClassSymbol(url: bool, skip: bool, c: Byte)
    requires Class(url, skip, c) < 64
    ensures Symbol(url, Class(url, skip, c)) == c
  {
  }

  // ----- Bits ------------------------------------------------------------------------

  function Sextet0(a: Byte): (v: Byte)
    ensures v < 64
  {
    a >> 2
  }

  function Sextet1(a: Byte, b: Byte): (v: Byte)
    ensures v < 64
  {
    ((a << 4) & 0x30) | (b >> 4)
  }

  function Sextet2(b: Byte, c: Byte): (v: Byte)
    ensures v < 64
  {
    ((b << 2) & 0x3c) | (c >> 6)
  }

  function Sextet3(c: Byte): (v: Byte)
    ensures v < 64
  {
    c & 0x3f
  }

  function Byte0(h0: Byte, h1: Byte): Byte { (h0 << 2) | (h1 >> 4) }

  function Byte1(h1: Byte, h2: Byte): Byte { (h1 << 4) | (h2 >> 2) }

  function Byte2(h2: Byte, h3: Byte): Byte { (h2 << 6) | h3 }

  lemma BitsOut(a: Byte, b: Byte, c: Byte)
    ensures Byte0(Sextet0(a), Sextet1(a, b)) == a
    ensures Byte1(Sextet1(a, b), Sextet2(b, c)) == b
    ensures Byte2(Sextet2(b, c), Sextet3(c)) == c
    ensures Sextet1(a, 0) << 4 == 0 && Sextet2(b, 0) << 6 == 0
  {
  }

  lemma BitsIn(h0: Byte, h1: Byte, h2: Byte, h3: Byte)
    requires h0 < 64 && h1 < 64 && h2 < 64 && h3 < 64
    ensures Sextet0(Byte0(h0, h1)) == h0 && Sextet1(Byte0(h0, h1), Byte1(h1, h2)) == h1
    ensures Sextet2(Byte1(h1, h2), Byte2(h2, h3)) == h2 && Sextet3(Byte2(h2, h3)) == h3
    ensures h1 << 4 == 0 ==> Sextet1(Byte0(h0, h1), 0) == h1
    ensures h2 << 6 == 0 ==> Sextet2(Byte1(h1, h2), 0) == h2
  {
  }

  // ----- Encoding ----------------------------------------------------------------------

  function Pads(n: nat): (s: seq<Byte>)
    ensures |s| == n
  {
    seq(n, _ => EQUALS)
  }

  function Quad(url: bool, a: Byte, b: Byte, c: Byte): seq<Byte> {
    [Symbol(url, Sextet0(a)), Symbol(url, Sextet1(a, b)), Symbol(url, Sextet2(b, c)), Symbol(url, Sextet3(c))]
  }

  /** The encoding of one or two last bytes, without padding. */
  function TailSymbols(url: bool, x: seq<Byte>): seq<Byte>
    requires |x| < 3
  {
    if |x| == 2 then
      [Symbol(url, Sextet0(x[0])), Symbol(url, Sextet1(x[0], x[1])), Symbol(url, Sextet2(x[1], 0))]
    else if |x| == 1 then
      [Symbol(url, Sextet0(x[0])), Symbol(url, Sextet1(x[0], 0))]
    else
      []
  }

  function PadCount(n: nat): nat { (3 - n % 3) % 3 }

  function Encoded(url: bool, pad: bool, x: seq<Byte>): seq<Byte>
  {
    if |x| >= 3 then Quad(url, x[0], x[1], x[2]) + Encoded(url, pad, x[3..])
    else TailSymbols(url, x) + if pad then Pads(PadCount(|x|)) else []
  }

  // ----- Decoding ----------------------------------------------------------------------

  /** Four 6-bit values, or fewer because the input ends there; next is what has been read. */
  datatype Group =
    | Whole(hold: seq<Byte>, next: nat)
    | Cut(hold: seq<Byte>, next: nat)

  predicate IsHold(hold: seq<Byte>) {
    |hold| <= 4 && forall j :: 0 <= j < |hold| ==> hold[j] < 64
  }

  /** Padding is consumed up to the eighth character of a group. */
  function PadEnd(url: bool, skip: bool, s: seq<Byte>, at: nat, i: nat): (e: nat)
    requires at <= |s|
    ensures at <= e <= |s|
    decreases |s| - at
  {
    if at < |s| && i < 8 && Class(url, skip, s[at]) in {PADDING, IGNORED}
    then PadEnd(url, skip, s, at + 1, i + 1)
    else at
  }

  /** Reads one group of the input, from position at on. */
  function Collect(url: bool, skip: bool, s: seq<Byte>, at: nat, hold: seq<Byte>): (g: Group)
    requires at <= |s| && IsHold(hold)
    ensures at <= g.next <= |s| && IsHold(g.hold)
    ensures g.Whole? ==> |g.hold| == 4 && at + (4 - |hold|) <= g.next
    ensures g.Cut? ==> |g.hold| < 4
    ensures hold <= g.hold
    decreases |s| - at
  {
    if |hold| == 4 then Whole(hold, at)
    else if at == |s| then Cut(hold, at)
    else
      var c := Class(url, skip, s[at]);
      if c < INVALID then Collect(url, skip, s, at + 1, hold + [c])
      else if c == IGNORED then Collect(url, skip, s, at + 1, hold)
      else if c == PADDING then Cut(hold, PadEnd(url, skip, s, at + 1, |hold| + 1))
      else Cut(hold, at)
  }

  /** Status, output, and how much of the input is reported as parsed. */
  datatype Result = Result(status: Status, bytes: seq<Byte>, used: nat)

  function Triple(hold: seq<Byte>): (b: seq<Byte>)
    requires |hold| == 4
    ensures |b| == 3
  {
    [Byte0(hold[0], hold[1]), Byte1(hold[1], hold[2]), Byte2(hold[2], hold[3])]
  }

  /** A last group of fewer than four values. */
  function DecodeTail(hold: seq<Byte>, at: nat, next: nat, limit: nat): Result
    requires |hold| < 4
  {
    if |hold| == 0 then Result(EOK, [], next)
    else if |hold| == 1 then Result(ETAIL, [], at)
    else if |hold| == 2 then
      if hold[1] << 4 != 0 then Result(EDIRTY, [], at)
      else if limit < 1 then Result(EMORE, [], at)
      else Result(EOK, [Byte0(hold[0], hold[1])], next)
    else
      if hold[2] << 6 != 0 then Result(EDIRTY, [], at)
      else if limit < 2 then Result(EMORE, [], at)
      else Result(EOK, [Byte0(hold[0], hold[1]), Byte1(hold[1], hold[2])], next)
  }

  /** Decodes from position at on, writing at most limit bytes. */
  function Decoded(url: bool, skip: bool, s: seq<Byte>, at: nat, limit: nat): (r: Result)
    requires at <= |s|
    ensures at <= r.used <= |s| && |r.bytes| <= limit && r.status in {EOK, EMORE, ETAIL, EDIRTY}
    decreases |s| - at
  {
    if limit == 0 then Result(EOK, [], at)
    else
      match Collect(url, skip, s, at, [])
      case Cut(hold, next) => DecodeTail(hold, at, next, limit)
      case Whole(hold, next) =>
        if limit < 3 then Result(EMORE, [], at)
        else Prefixed(Triple(hold), Decoded(url, skip, s, next, limit - 3))
  }

  function Prefixed(b: seq<Byte>, r: Result): Result {
    r.(bytes := b + r.bytes)
  }

  // ----- Sizes -------------------------------------------------------------------------

  /** `base64_encoded_size`, with the wrap-around of its `size_t` arithmetic. */
  function EncodedSize(len: nat, pad: bool): nat {
    var n := U64(U64(len * 4) / 3 + 3) / 4 * 4;
    if pad then n
    else if len % 3 == 2 then U64(n - 1)
    else if len % 3 == 1 then U64(n - 2)
    else n
  }

  /** `base64_decoded_size`. */
  function DecodedSize(len: nat): nat {
    var n := len / 4 * 3;
    if len % 4 == 3 then n + 2 else if len % 4 == 2 then n + 1 else n
  }
}
