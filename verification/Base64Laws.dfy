/**
 What the base64 codec promises: decoding undoes encoding, only canonical
 text is accepted, decoding can stop and resume at any block, and skipping
 spaces is the same as removing them first.
 */
module Base64Laws {
  import opened Arith
  import opened Base64

  // ----- Text at a position --------------------------------------------------------------

  /** From position at on, s reads part. */
  predicate At(s: seq<Byte>, at: nat, part: seq<Byte>) {
    at + |part| <= |s| && s[at..at + |part|] == part
  }

  lemma AtConcat(s: seq<Byte>, at: nat, a: seq<Byte>, b: seq<Byte>)
    ensures At(s, at, a + b) <==> At(s, at, a) && At(s, at + |a|, b)
  {
    if At(s, at, a + b) {
      var m := s[at..at + |a + b|];
      assert s[at..at + |a|] == m[..|a|] && s[at + |a|..at + |a| + |b|] == m[|a|..];
    }
    if At(s, at, a) && At(s, at + |a|, b) {
      assert s[at..at + |a + b|] == s[at..at + |a|] + s[at + |a|..at + |a| + |b|];
    }
  }

  lemma AtIndex(s: seq<Byte>, at: nat, part: seq<Byte>, i: nat)
    requires At(s, at, part) && i < |part|
    ensures at + i < |s| && s[at + i] == part[i]
  {
    assert s[at..at + |part|][i] == part[i];
  }

  lemma AtPads(s: seq<Byte>, at: nat, j: nat)
    requires j > 0
    ensures At(s, at, Pads(j)) <==> at < |s| && s[at] == EQUALS && At(s, at + 1, Pads(j - 1))
  {
    AtConcat(s, at, [EQUALS], Pads(j - 1));
    assert [EQUALS] + Pads(j - 1) == Pads(j);
    if At(s, at, [EQUALS]) {
      AtIndex(s, at, [EQUALS], 0);
    }
  }

  // ----- Reading groups ----------------------------------------------------------------

  lemma CollectStep(url: bool, skip: bool, s: seq<Byte>, at: nat, hold: seq<Byte>, v: Byte)
    requires at < |s| && IsHold(hold) && |hold| < 4 && Class(url, skip, s[at]) == v < INVALID
    ensures IsHold(hold + [v])
    ensures Collect(url, skip, s, at, hold) == Collect(url, skip, s, at + 1, hold + [v])
  {
    hide Class;
    var c := Class(url, skip, s[at]);
    assert IsHold(hold + [v]) && c == v;
    assert !(|hold| == 4) && !(at == |s|);
    assert Collect(url, skip, s, at, hold) == Collect(url, skip, s, at + 1, hold + [c]);
  }

  /** One character of a group, by its class. */
  lemma OneCharacter(url: bool, skip: bool, s: seq<Byte>, at: nat, hold: seq<Byte>, c: Byte)
    requires at < |s| && IsHold(hold) && |hold| < 4 && c == Class(url, skip, s[at])
    ensures c < INVALID ==>
      IsHold(hold + [c]) && Collect(url, skip, s, at, hold) == Collect(url, skip, s, at + 1, hold + [c])
    ensures c == IGNORED ==> Collect(url, skip, s, at, hold) == Collect(url, skip, s, at + 1, hold)
    ensures c == PADDING ==>
      Collect(url, skip, s, at, hold) == Cut(hold, PadEnd(url, skip, s, at + 1, |hold| + 1))
    ensures c == INVALID ==> Collect(url, skip, s, at, hold) == Cut(hold, at)
    ensures c <= PADDING
  {
    if c < INVALID {
      hide Class;
      CollectStep(url, skip, s, at, hold, c);
    }
  }

  lemma CollectSymbol(url: bool, skip: bool, s: seq<Byte>, at: nat, hold: seq<Byte>, next: seq<Byte>,
                      part: seq<Byte>, v: Byte)
    requires |hold| <= at && At(s, at - |hold|, part) && |hold| < |part|
    requires v < 64 && part[|hold|] == Symbol(url, v) && next == hold + [v]
    requires IsHold(hold) && |hold| < 4
    ensures at < |s| && IsHold(next)
    ensures Collect(url, skip, s, at, hold) == Collect(url, skip, s, at + 1, next)
  {
    hide Class, Symbol, Collect;
    AtIndex(s, at - |hold|, part, |hold|);
    SymbolClass(url, skip, v);
    CollectStep(url, skip, s, at, hold, v);
  }

  lemma CollectQuad(url: bool, skip: bool, s: seq<Byte>, at: nat, a: Byte, b: Byte, c: Byte)
    requires At(s, at, Quad(url, a, b, c))
    ensures at + 4 <= |s|
    ensures Collect(url, skip, s, at, []) == Whole([Sextet0(a), Sextet1(a, b), Sextet2(b, c), Sextet3(c)], at + 4)
  {
    hide Class, Symbol, Collect, Sextet0, Sextet1, Sextet2, Sextet3, At;
    var q := Quad(url, a, b, c);
    var h1 := [Sextet0(a)];
    var h2 := [Sextet0(a), Sextet1(a, b)];
    var h3 := [Sextet0(a), Sextet1(a, b), Sextet2(b, c)];
    var h4 := [Sextet0(a), Sextet1(a, b), Sextet2(b, c), Sextet3(c)];
    CollectSymbol(url, skip, s, at, [], h1, q, Sextet0(a));
    CollectSymbol(url, skip, s, at + 1, h1, h2, q, Sextet1(a, b));
    CollectSymbol(url, skip, s, at + 2, h2, h3, q, Sextet2(b, c));
    CollectSymbol(url, skip, s, at + 3, h3, h4, q, Sextet3(c));
    CollectFull(url, skip, s, at + 4, h4);
  }

  lemma CollectFull(url: bool, skip: bool, s: seq<Byte>, at: nat, hold: seq<Byte>)
    requires at <= |s| && IsHold(hold) && |hold| == 4
    ensures Collect(url, skip, s, at, hold) == Whole(hold, at)
  {
  }

  /** The input ends, or a symbol follows that belongs to nothing. */
  predicate Stops(url: bool, skip: bool, s: seq<Byte>, at: nat) {
    at < |s| ==> Class(url, skip, s[at]) == INVALID
  }

  lemma {:induction false} PadsRead(url: bool, skip: bool, s: seq<Byte>, at: nat, j: nat, i: nat)
    requires at <= |s| && At(s, at, Pads(j)) && i + j <= 8 && Stops(url, skip, s, at + j)
    ensures PadEnd(url, skip, s, at, i) == at + j
    decreases j
  {
    if j > 0 {
      AtPads(s, at, j);
      PadsRead(url, skip, s, at + 1, j - 1, i + 1);
    }
  }

  /** Padding behind a group, or nothing. */
  lemma CollectPads(url: bool, skip: bool, s: seq<Byte>, at: nat, hold: seq<Byte>, j: nat)
    requires at <= |s| && At(s, at, Pads(j)) && IsHold(hold) && |hold| < 4 && |hold| + j <= 8
    requires Stops(url, skip, s, at + j)
    ensures Collect(url, skip, s, at, hold) == Cut(hold, at + j)
  {
    if j > 0 {
      AtPads(s, at, j);
      PadsRead(url, skip, s, at + 1, j - 1, |hold| + 1);
    }
  }

  /** The 6-bit values in the last group of an encoding. */
  function TailLength(n: nat): (k: nat)
    ensures k < 4
  {
    if n % 3 == 0 then 0 else n % 3 + 1
  }

  function TailHold(x: seq<Byte>): (hold: seq<Byte>)
    requires |x| < 3
    ensures |hold| == TailLength(|x|) && IsHold(hold)
  {
    if |x| == 2 then [Sextet0(x[0]), Sextet1(x[0], x[1]), Sextet2(x[1], 0)]
    else if |x| == 1 then [Sextet0(x[0]), Sextet1(x[0], 0)]
    else []
  }

  lemma CollectTwo(url: bool, skip: bool, s: seq<Byte>, at: nat, x: seq<Byte>)
    requires |x| == 1 && At(s, at, TailSymbols(url, x))
    ensures at + 2 <= |s| && Collect(url, skip, s, at, []) == Collect(url, skip, s, at + 2, TailHold(x))
  {
    hide Class, Symbol, Collect, Sextet0, Sextet1, Sextet2, At;
    var q := TailSymbols(url, x);
    CollectSymbol(url, skip, s, at, [], [Sextet0(x[0])], q, Sextet0(x[0]));
    CollectSymbol(url, skip, s, at + 1, [Sextet0(x[0])], TailHold(x), q, Sextet1(x[0], 0));
  }

  lemma CollectThree(url: bool, skip: bool, s: seq<Byte>, at: nat, x: seq<Byte>)
    requires |x| == 2 && At(s, at, TailSymbols(url, x))
    ensures at + 3 <= |s| && Collect(url, skip, s, at, []) == Collect(url, skip, s, at + 3, TailHold(x))
  {
    hide Class, Symbol, Collect, Sextet0, Sextet1, Sextet2, At;
    var q := TailSymbols(url, x);
    var h2 := [Sextet0(x[0]), Sextet1(x[0], x[1])];
    CollectSymbol(url, skip, s, at, [], [Sextet0(x[0])], q, Sextet0(x[0]));
    CollectSymbol(url, skip, s, at + 1, [Sextet0(x[0])], h2, q, Sextet1(x[0], x[1]));
    CollectSymbol(url, skip, s, at + 2, h2, TailHold(x), q, Sextet2(x[1], 0));
  }

  lemma CollectTail(url: bool, skip: bool, s: seq<Byte>, at: nat, x: seq<Byte>, j: nat)
    requires |x| < 3 && j <= 8 - TailLength(|x|) && At(s, at, TailSymbols(url, x))
    requires At(s, at + TailLength(|x|), Pads(j)) && Stops(url, skip, s, at + TailLength(|x|) + j)
    ensures at <= |s| && Collect(url, skip, s, at, []) == Cut(TailHold(x), at + TailLength(|x|) + j)
  {
    hide Class, Collect, PadEnd, At, Stops, TailSymbols, Sextet0, Sextet1, Sextet2;
    AtEnds(s, at, TailSymbols(url, x));
    if |x| == 1 {
      CollectTwo(url, skip, s, at, x);
    } else if |x| == 2 {
      CollectThree(url, skip, s, at, x);
    }
    CollectPads(url, skip, s, at + TailLength(|x|), TailHold(x), j);
  }

  lemma AtEnds(s: seq<Byte>, at: nat, part: seq<Byte>)
    requires At(s, at, part)
    ensures at + |part| <= |s|
  {
  }

  // ----- Decoding undoes encoding --------------------------------------------------------

  /** From position at on, s holds the encoding of x, then j padding characters, then nothing that goes on. */
  predicate Holds(url: bool, skip: bool, s: seq<Byte>, at: nat, x: seq<Byte>, j: nat) {
    var n := |Encoded(url, false, x)|;
    && At(s, at, Encoded(url, false, x)) && At(s, at + n, Pads(j))
    && j <= 8 - TailLength(|x|) && Stops(url, skip, s, at + n + j)
  }

  lemma EncodedStep(url: bool, pad: bool, x: seq<Byte>)
    requires |x| >= 3
    ensures |Quad(url, x[0], x[1], x[2])| == 4
    ensures Encoded(url, pad, x) == Quad(url, x[0], x[1], x[2]) + Encoded(url, pad, x[3..])
    ensures TailLength(|x|) == TailLength(|x[3..]|)
  {
  }

  lemma EncodedEnd(url: bool, x: seq<Byte>)
    requires |x| < 3
    ensures Encoded(url, false, x) == TailSymbols(url, x) && |TailSymbols(url, x)| == TailLength(|x|)
  {
  }

  lemma HoldsRest(url: bool, skip: bool, s: seq<Byte>, at: nat, x: seq<Byte>, j: nat)
    requires Holds(url, skip, s, at, x, j) && |x| >= 3
    ensures Holds(url, skip, s, at + 4, x[3..], j)
    ensures At(s, at, Quad(url, x[0], x[1], x[2]))
    ensures |Encoded(url, false, x)| == 4 + |Encoded(url, false, x[3..])|
  {
    hide Quad, Encoded, At, Stops, TailLength;
    EncodedStep(url, false, x);
    AtConcat(s, at, Quad(url, x[0], x[1], x[2]), Encoded(url, false, x[3..]));
  }

  lemma {:induction false} DecodesText(url: bool, skip: bool, s: seq<Byte>, at: nat, x: seq<Byte>, j: nat, limit: nat)
    requires Holds(url, skip, s, at, x, j)
    requires limit > |x| || (limit == |x| && (|x| % 3 != 0 || j == 0))
    ensures at <= |s|
    ensures Decoded(url, skip, s, at, limit) == Result(EOK, x, at + |Encoded(url, false, x)| + j)
    decreases |x|
  {
    hide Collect, Quad, Encoded, TailSymbols, At, Stops, Holds, Symbol, DecodeTail;
    if |x| >= 3 {
      HoldsRest(url, skip, s, at, x, j);
      CollectQuad(url, skip, s, at, x[0], x[1], x[2]);
      DecodesText(url, skip, s, at + 4, x[3..], j, limit - 3);
      TripleOfQuad(x);
    } else {
      HoldsTail(url, skip, s, at, x, j);
      if limit > 0 {
        CollectTail(url, skip, s, at, x, j);
        BytesOfTail(x, at, at + TailLength(|x|) + j, limit);
      }
    }
  }

  lemma HoldsTail(url: bool, skip: bool, s: seq<Byte>, at: nat, x: seq<Byte>, j: nat)
    requires Holds(url, skip, s, at, x, j) && |x| < 3
    ensures At(s, at, TailSymbols(url, x)) && At(s, at + TailLength(|x|), Pads(j)) && at <= |s|
    ensures j <= 8 - TailLength(|x|) && Stops(url, skip, s, at + TailLength(|x|) + j)
    ensures |Encoded(url, false, x)| == TailLength(|x|)
  {
    hide TailSymbols, TailLength, Stops, Encoded;
    EncodedEnd(url, x);
  }

  lemma TripleOfQuad(x: seq<Byte>)
    requires |x| >= 3
    ensures Triple([Sextet0(x[0]), Sextet1(x[0], x[1]), Sextet2(x[1], x[2]), Sextet3(x[2])]) + x[3..] == x
  {
    hide Byte0, Byte1, Byte2, Sextet0, Sextet1, Sextet2, Sextet3;
    BitsOut(x[0], x[1], x[2]);
  }

  lemma BytesOfTail(x: seq<Byte>, at: nat, next: nat, limit: nat)
    requires |x| < 3 && |x| <= limit
    ensures DecodeTail(TailHold(x), at, next, limit) == Result(EOK, x, next)
  {
    hide Byte0, Byte1, Sextet0, Sextet1, Sextet2;
    if |x| == 1 {
      BitsOut(x[0], 0, 0);
    } else if |x| == 2 {
      BitsOut(x[0], x[1], 0);
    }
  }

  lemma {:induction false} PaddedIsUnpadded(url: bool, x: seq<Byte>)
    ensures Encoded(url, true, x) == Encoded(url, false, x) + Pads(PadCount(|x|))
    ensures PadCount(|x|) <= 2 && (|x| % 3 == 0 ==> PadCount(|x|) == 0)
  {
    hide Quad, Pads, TailSymbols;
    if |x| >= 3 {
      hide Encoded;
      PaddedIsUnpadded(url, x[3..]);
      EncodedStep(url, true, x);
      EncodedStep(url, false, x);
      assert PadCount(|x|) == PadCount(|x[3..]|);
      Regroup3(Quad(url, x[0], x[1], x[2]), Encoded(url, false, x[3..]), Pads(PadCount(|x|)));
    } else {
      assert Encoded(url, false, x) == TailSymbols(url, x) + [];
    }
  }

  lemma Regroup3(a: seq<Byte>, b: seq<Byte>, c: seq<Byte>)
    ensures a + (b + c) == a + b + c
  {
  }

  /**
   Round trip: in either alphabet, padded or not, whether spaces are skipped or
   not, decoding an encoding gives the bytes back and consumes all of it, from
   any buffer that has room for them.
   */
  lemma RoundTrip(url: bool, pad: bool, skip: bool, x: seq<Byte>, rest: seq<Byte>, limit: nat)
    requires limit >= |x| && (rest == [] || Class(url, skip, rest[0]) == INVALID)
    ensures var text := Encoded(url, pad, x);
      Decoded(url, skip, text + rest, 0, limit) == Result(EOK, x, |text|)
  {
    hide Encoded, Class;
    var j := if pad then PadCount(|x|) else 0;
    PaddedIsUnpadded(url, x);
    var e := Encoded(url, false, x);
    assert Encoded(url, pad, x) == e + Pads(j);
    var s := e + Pads(j) + rest;
    assert s[..|e|] == e && s[|e|..|e| + j] == Pads(j);
    DecodesText(url, skip, s, 0, x, j, limit);
  }

  // ----- Only canonical text is accepted ---------------------------------------------------

  function Symbols(url: bool, hold: seq<Byte>): (q: seq<Byte>)
    requires IsHold(hold)
    ensures |q| == |hold|
  {
    seq(|hold|, i requires 0 <= i < |hold| => Symbol(url, hold[i]))
  }

  lemma {:induction false} PadEndIsPads(url: bool, s: seq<Byte>, at: nat, i: nat)
    requires at <= |s| && i <= 8
    ensures var e := PadEnd(url, false, s, at, i); e - at <= 8 - i && At(s, at, Pads(e - at))
    decreases |s| - at
  {
    if at < |s| && i < 8 && Class(url, false, s[at]) in {PADDING, IGNORED} {
      PadEndIsPads(url, s, at + 1, i + 1);
      AtPads(s, at, PadEnd(url, false, s, at, i) - at);
    }
  }

  /** What a group has read: the symbols of the values it added, and padding. */
  ghost predicate ReadExactly(url: bool, s: seq<Byte>, at: nat, added: seq<Byte>, g: Group)
    requires IsHold(added)
  {
    var n := at + |added|;
    && n <= g.next && At(s, at, Symbols(url, added))
    && (if g.Whole? then g.next == n else g.next - n <= 8 - |g.hold| && At(s, n, Pads(g.next - n)))
  }

  lemma {:induction false} CollectIsExact(url: bool, s: seq<Byte>, at: nat, hold: seq<Byte>, added: seq<Byte>)
    requires at <= |s| && IsHold(hold) && IsHold(added) && Collect(url, false, s, at, hold).hold == hold + added
    ensures ReadExactly(url, s, at, added, Collect(url, false, s, at, hold))
    decreases |s| - at
  {
    hide At, PadEnd, Collect, Class, Pads, Symbols;
    if |hold| < 4 && at < |s| && Class(url, false, s[at]) < INVALID {
      var c := Class(url, false, s[at]);
      OneCharacter(url, false, s, at, hold, c);
      Peel(hold, c, added);
      CollectIsExact(url, s, at + 1, hold + [c], added[1..]);
      ClassSymbol(url, false, s[at]);
      AtSymbols(url, s, at, added);
    } else {
      hide ReadExactly;
      ExactStop(url, s, at, hold, added);
      ExactEnd(url, s, at, hold);
    }
  }

  lemma ExactStop(url: bool, s: seq<Byte>, at: nat, hold: seq<Byte>, added: seq<Byte>)
    requires at <= |s| && IsHold(hold) && Collect(url, false, s, at, hold).hold == hold + added
    requires |hold| == 4 || at == |s| || Class(url, false, s[at]) >= INVALID
    ensures added == []
  {
    hide PadEnd;
    if |hold| < 4 && at < |s| {
      NotIgnored(url, s[at]);
    }
    assert hold + added == hold;
  }

  /** Nothing more is read, but perhaps padding. */
  lemma ExactEnd(url: bool, s: seq<Byte>, at: nat, hold: seq<Byte>)
    requires at <= |s| && IsHold(hold)
    requires |hold| == 4 || at == |s| || Class(url, false, s[at]) >= INVALID
    ensures ReadExactly(url, s, at, [], Collect(url, false, s, at, hold))
  {
    hide At, PadEnd, Symbols, Class, Collect, Pads, ReadExactly;
    AtNothing(s, at);
    var g := Collect(url, false, s, at, hold);
    if |hold| == 4 || at == |s| {
      CollectStops(url, false, s, at, hold);
    } else {
      var c := Class(url, false, s[at]);
      OneCharacter(url, false, s, at, hold, c);
      NotIgnored(url, s[at]);
      if c == PADDING {
        PadEndIsPads(url, s, at + 1, |hold| + 1);
        AtPads(s, at, g.next - at);
      }
    }
    NothingRead(url, s, at, g);
  }

  lemma NothingRead(url: bool, s: seq<Byte>, at: nat, g: Group)
    requires at <= g.next && IsHold([]) && At(s, at, [])
    requires if g.Whole? then g.next == at else g.next - at <= 8 - |g.hold| && At(s, at, Pads(g.next - at))
    ensures ReadExactly(url, s, at, [], g)
  {
    hide At, Pads, Symbols;
    NoSymbols(url);
  }

  lemma CollectStops(url: bool, skip: bool, s: seq<Byte>, at: nat, hold: seq<Byte>)
    requires at <= |s| && IsHold(hold) && (|hold| == 4 || at == |s|)
    ensures Collect(url, skip, s, at, hold) == if |hold| == 4 then Whole(hold, at) else Cut(hold, at)
  {
  }

  lemma NotIgnored(url: bool, c: Byte)
    ensures Class(url, false, c) != IGNORED && Class(url, false, c) <= PADDING
    ensures Class(url, false, c) == PADDING ==> c == EQUALS
  {
  }

  lemma NoSymbols(url: bool)
    ensures Symbols(url, []) == []
  {
  }

  lemma Peel(hold: seq<Byte>, c: Byte, added: seq<Byte>)
    requires hold + [c] <= hold + added
    ensures added != [] && added[0] == c && hold + added == (hold + [c]) + added[1..]
  {
    assert (hold + added)[|hold|] == c;
    assert added == [c] + added[1..];
  }

  lemma AtNothing(s: seq<Byte>, at: nat)
    requires at <= |s|
    ensures At(s, at, []) && At(s, at, Pads(0))
  {
  }

  lemma AtSymbols(url: bool, s: seq<Byte>, at: nat, added: seq<Byte>)
    requires IsHold(added) && added != [] && at < |s| && s[at] == Symbol(url, added[0])
    requires IsHold(added[1..]) && At(s, at + 1, Symbols(url, added[1..]))
    ensures At(s, at, Symbols(url, added))
  {
    assert At(s, at, [s[at]]);
    AtConcat(s, at, [s[at]], Symbols(url, added[1..]));
    assert [s[at]] + Symbols(url, added[1..]) == Symbols(url, added);
  }

  /** Text the decoder takes whole: an unpadded encoding, then at most as much padding as fits. */
  ghost predicate Canonical(url: bool, s: seq<Byte>, at: nat, end: nat, x: seq<Byte>) {
    var n := at + |Encoded(url, false, x)|;
    n <= end <= n + 8 - TailLength(|x|) && At(s, at, Encoded(url, false, x)) && At(s, n, Pads(end - n))
  }

  /** What is accepted from position at on is the encoding of the output, and padding. */
  lemma {:induction false} AcceptsOnlyEncodings(url: bool, s: seq<Byte>, at: nat, limit: nat)
    requires at <= |s|
    ensures var r := Decoded(url, false, s, at, limit);
      r.status == EOK && |r.bytes| < limit ==> Canonical(url, s, at, r.used, r.bytes)
    decreases |s| - at
  {
    hide At, Encoded, DecodeTail, Collect, TailLength, Canonical;
    var r := Decoded(url, false, s, at, limit);
    if r.status == EOK && |r.bytes| < limit {
      var g := Collect(url, false, s, at, []);
      assert g.hold == [] + g.hold;
      CollectIsExact(url, s, at, [], g.hold);
      if g.Whole? {
        AcceptsOnlyEncodings(url, s, g.next, limit - 3);
        PrependQuad(url, s, at, r.used, g.hold, Decoded(url, false, s, g.next, limit - 3).bytes);
      } else {
        AcceptTail(url, s, at, g, limit);
      }
    }
  }

  lemma PrependQuad(url: bool, s: seq<Byte>, at: nat, end: nat, hold: seq<Byte>, x: seq<Byte>)
    requires IsHold(hold) && |hold| == 4 && At(s, at, Symbols(url, hold)) && Canonical(url, s, at + 4, end, x)
    ensures Canonical(url, s, at, end, Triple(hold) + x)
  {
    hide At, Encoded, Quad, Symbols, Byte0, Byte1, Byte2;
    var y := Triple(hold) + x;
    QuadOfTriple(url, hold);
    EncodedStep(url, false, y);
    assert y[3..] == x && y[0] == Triple(hold)[0] && y[1] == Triple(hold)[1] && y[2] == Triple(hold)[2];
    AtConcat(s, at, Symbols(url, hold), Encoded(url, false, x));
  }

  lemma QuadOfTriple(url: bool, hold: seq<Byte>)
    requires IsHold(hold) && |hold| == 4
    ensures var b := Triple(hold); Quad(url, b[0], b[1], b[2]) == Symbols(url, hold)
  {
    hide Symbol, Byte0, Byte1, Byte2, Sextet0, Sextet1, Sextet2, Sextet3;
    BitsIn(hold[0], hold[1], hold[2], hold[3]);
  }

  lemma AcceptTail(url: bool, s: seq<Byte>, at: nat, g: Group, limit: nat)
    requires g.Cut? && IsHold(g.hold) && |g.hold| < 4 && ReadExactly(url, s, at, g.hold, g)
    requires DecodeTail(g.hold, at, g.next, limit).status == EOK
    ensures var r := DecodeTail(g.hold, at, g.next, limit); Canonical(url, s, at, r.used, r.bytes)
  {
    hide At, Encoded, TailLength, Symbols;
    TailOfHold(url, g.hold, at, g.next, limit);
  }

  lemma TailOfHold(url: bool, hold: seq<Byte>, at: nat, next: nat, limit: nat)
    requires IsHold(hold) && |hold| < 4 && DecodeTail(hold, at, next, limit).status == EOK
    ensures var r := DecodeTail(hold, at, next, limit);
      r.used == next && |hold| == TailLength(|r.bytes|) && Encoded(url, false, r.bytes) == Symbols(url, hold)
  {
    hide Symbol, Byte0, Byte1, Sextet0, Sextet1, Sextet2;
    if |hold| == 2 {
      BitsIn(hold[0], hold[1], 0, 0);
    } else if |hold| == 3 {
      BitsIn(hold[0], hold[1], hold[2], 0);
    }
  }

  /**
   Canonicity, both ways: with room to spare and no spaces skipped, an input is
   consumed whole without error exactly when it is the unpadded encoding of the
   output followed by padding that fits. So no two outputs share an input.
   */
  lemma AcceptedIffCanonical(url: bool, s: seq<Byte>, x: seq<Byte>, limit: nat)
    requires limit > |x|
    ensures Decoded(url, false, s, 0, limit) == Result(EOK, x, |s|) <==> Canonical(url, s, 0, |s|, x)
  {
    hide Encoded, TailLength, At;
    if Canonical(url, s, 0, |s|, x) {
      DecodesText(url, false, s, 0, x, |s| - |Encoded(url, false, x)|, limit);
    }
    if Decoded(url, false, s, 0, limit) == Result(EOK, x, |s|) {
      AcceptsOnlyEncodings(url, s, 0, limit);
    }
  }

  // ----- Sizes ---------------------------------------------------------------------------------

  function Length(n: nat, pad: bool): nat {
    if pad then (n + 2) / 3 * 4 else n / 3 * 4 + TailLength(n)
  }

  lemma {:induction false} EncodedLength(url: bool, pad: bool, x: seq<Byte>)
    ensures |Encoded(url, pad, x)| == Length(|x|, pad)
  {
    hide Quad, TailSymbols;
    if |x| >= 3 {
      EncodedStep(url, pad, x);
      EncodedLength(url, pad, x[3..]);
    } else {
      EncodedEnd(url, x);
    }
  }

  /** The size function is right for lengths below 2^62, and for no other. */
  lemma EncodedSizeIsExact(url: bool, pad: bool, x: seq<Byte>)
    requires |x| < TWO64
    ensures |Encoded(url, pad, x)| == EncodedSize(|x|, pad) <==> |x| < TWO62
  {
    hide Encoded;
    EncodedLength(url, pad, x);
    SizeArithmetic(|x|, pad);
  }

  lemma SizeArithmetic(n: nat, pad: bool)
    requires n < TWO64
    ensures Length(n, pad) == EncodedSize(n, pad) <==> n < TWO62
  {
    hide U64;
    var q, k := n / 3, n % 3;
    RoundedUp(n, q, k);
    if n < TWO62 {
      Word(n * 4);
      Word(n * 4 / 3 + 3);
      if !pad && k > 0 {
        Word(EncodedSize(n, true) - (3 - k));
      }
    } else {
      WrappedSize(n, q, k);
      Word(U64(n * 4) / 3 + 3);
      if !pad && k > 0 {
        if U64(n * 4) / 3 + 3 >= 4 {
          Word(EncodedSize(n, true) - (3 - k));
        } else {
          WrappedToNothing(n);
        }
      }
    }
  }

  lemma RoundedUp(n: nat, q: nat, k: nat)
    requires n == 3 * q + k && k < 3
    ensures (n * 4 / 3 + 3) / 4 == q + (if k > 0 then 1 else 0) == (n + 2) / 3
  {
    assert n * 4 / 3 == 4 * q + k * 4 / 3;
  }

  lemma WrappedSize(n: nat, q: nat, k: nat)
    requires TWO62 <= n < TWO64 && n == 3 * q + k && k < 3
    ensures U64(n * 4) / 3 + 3 + 4 < 4 * q
    ensures U64(n * 4) / 3 + 3 < TWO64
  {
    var w := n * 4 / TWO64;
    assert 1 <= w <= 3;
    assert U64(n * 4) == n * 4 - w * TWO64;
  }

  /** Where the padded size wraps to zero, taking the padding off wraps it back to the top. */
  lemma WrappedToNothing(n: nat)
    requires TWO62 <= n < TWO64 && U64(n * 4) / 3 + 3 < 4
    ensures n == TWO62 || n == TWO63 || n == 3 * TWO62
    ensures U64(-1) == TWO64 - 1 && U64(-2) == TWO64 - 2
  {
    var w := n * 4 / TWO64;
    assert 1 <= w <= 3;
    assert n * 4 == w * TWO64 + U64(n * 4);
  }

  /** No input yields more than the size function says. */
  lemma {:induction false} DecodedFits(url: bool, skip: bool, s: seq<Byte>, at: nat, limit: nat)
    requires at <= |s|
    ensures |Decoded(url, skip, s, at, limit).bytes| <= DecodedSize(|s| - at)
    decreases |s| - at
  {
    hide Collect, Decoded, Triple;
    if limit == 0 {
      NoRoom(url, skip, s, at);
    } else {
      var g := Collect(url, skip, s, at, []);
      Step(url, skip, s, at, limit);
      CollectSpends(url, skip, s, at, []);
      if g.Whole? && limit >= 3 {
        DecodedFits(url, skip, s, g.next, limit - 3);
      }
    }
  }

  /** Every value of a group costs a character. */
  lemma {:induction false} CollectSpends(url: bool, skip: bool, s: seq<Byte>, at: nat, hold: seq<Byte>)
    requires at <= |s| && IsHold(hold)
    ensures |Collect(url, skip, s, at, hold).hold| - |hold| <= |s| - at
    decreases |s| - at
  {
    hide Class, PadEnd;
    if |hold| < 4 && at < |s| {
      var c := Class(url, skip, s[at]);
      if c < INVALID {
        CollectSpends(url, skip, s, at + 1, hold + [c]);
      } else if c == IGNORED {
        CollectSpends(url, skip, s, at + 1, hold);
      }
    }
  }

  /** One step of the decoder. */
  lemma Step(url: bool, skip: bool, s: seq<Byte>, at: nat, limit: nat)
    requires at <= |s| && limit > 0
    ensures var g, r := Collect(url, skip, s, at, []), Decoded(url, skip, s, at, limit);
      match g
      case Cut(hold, next) => r == DecodeTail(hold, at, next, limit)
      case Whole(hold, next) =>
        at + 4 <= next && r == if limit < 3 then Result(EMORE, [], at)
                               else Prefixed(Triple(hold), Decoded(url, skip, s, next, limit - 3))
  {
  }

  lemma NoRoom(url: bool, skip: bool, s: seq<Byte>, at: nat)
    requires at <= |s|
    ensures Decoded(url, skip, s, at, 0) == Result(EOK, [], at)
  {
  }

  /** A tail either fits, or leaves everything to a larger buffer. */
  lemma TailResumes(hold: seq<Byte>, at: nat, next: nat, limit: nat, room: nat)
    requires |hold| < 4 && 0 < limit <= room && at <= next
    ensures var r := DecodeTail(hold, at, next, limit);
      if MayBeMore(r, limit) then r == Result(EMORE, [], at) else r == DecodeTail(hold, at, next, room)
    ensures |DecodeTail(hold, at, next, limit).bytes| <= 2
  {
    hide Byte0, Byte1;
  }

  // ----- Stopping and resuming -------------------------------------------------------------------

  /** Out of room, or full to the last byte of a block: there may be more. */
  predicate MayBeMore(r: Result, limit: nat) {
    r.status == EMORE || (r.status == EOK && |r.bytes| == limit && limit % 3 == 0)
  }

  /**
   With less room, decoding gives the same result; or it stops at the end of a
   block, and decoding the rest from there gives what was missing.
   */
  lemma {:induction false} Resumes(url: bool, skip: bool, s: seq<Byte>, at: nat, limit: nat, room: nat)
    requires at <= |s| && limit <= room
    ensures var r, all := Decoded(url, skip, s, at, limit), Decoded(url, skip, s, at, room);
      if MayBeMore(r, limit) then
        |r.bytes| % 3 == 0 && all == Prefixed(r.bytes, Decoded(url, skip, s, r.used, room - |r.bytes|))
      else all == r
    decreases |s| - at
  {
    hide Collect, Decoded, DecodeTail, Triple;
    if limit == 0 {
      NoRoom(url, skip, s, at);
      PrefixNothing(Decoded(url, skip, s, at, room));
    } else {
      var g := Collect(url, skip, s, at, []);
      Step(url, skip, s, at, limit);
      Step(url, skip, s, at, room);
      PrefixNothing(Decoded(url, skip, s, at, room));
      if g.Cut? {
        TailResumes(g.hold, at, g.next, limit, room);
      } else if limit >= 3 {
        Resumes(url, skip, s, g.next, limit - 3, room - 3);
        var r, all := Decoded(url, skip, s, g.next, limit - 3), Decoded(url, skip, s, g.next, room - 3);
        TripleMore(Triple(g.hold), r, limit);
        AfterTriple(Triple(g.hold), r, all, Decoded(url, skip, s, r.used, room - 3 - |r.bytes|), limit);
      }
    }
  }

  /** A group more in front of a result. */
  lemma TripleMore(triple: seq<Byte>, r: Result, limit: nat)
    requires |triple| == 3 <= limit
    ensures var more := Prefixed(triple, r);
      && more.used == r.used && |more.bytes| == |r.bytes| + 3
      && (MayBeMore(more, limit) <==> MayBeMore(r, limit - 3))
  {
  }

  lemma AfterTriple(triple: seq<Byte>, r: Result, all: Result, rest: Result, limit: nat)
    requires |triple| == 3 <= limit
    requires if MayBeMore(r, limit - 3) then |r.bytes| % 3 == 0 && all == Prefixed(r.bytes, rest) else all == r
    ensures var r', all' := Prefixed(triple, r), Prefixed(triple, all);
      if MayBeMore(r', limit) then |r'.bytes| % 3 == 0 && all' == Prefixed(r'.bytes, rest) else all' == r'
  {
    hide MayBeMore;
    TripleMore(triple, r, limit);
    PrefixTwice(triple, r.bytes, rest);
  }

  lemma PrefixNothing(r: Result)
    ensures Prefixed([], r) == r
  {
    assert [] + r.bytes == r.bytes;
  }

  lemma PrefixTwice(a: seq<Byte>, b: seq<Byte>, r: Result)
    ensures Prefixed(a, Prefixed(b, r)) == Prefixed(a + b, r)
  {
    assert a + (b + r.bytes) == a + b + r.bytes;
  }

  /** A limit above the decoded size is no limit. */
  lemma {:induction false} EnoughRoom(url: bool, skip: bool, s: seq<Byte>, at: nat, limit: nat, room: nat)
    requires at <= |s| && DecodedSize(|s| - at) < limit && DecodedSize(|s| - at) < room
    ensures Decoded(url, skip, s, at, limit) == Decoded(url, skip, s, at, room)
    decreases |s| - at
  {
    hide Collect, Byte0, Byte1, Byte2;
    var g := Collect(url, skip, s, at, []);
    CollectSpends(url, skip, s, at, []);
    if g.Whole? {
      EnoughRoom(url, skip, s, g.next, limit - 3, room - 3);
    }
  }

  /** SIZE_MAX, the limit when no output length is given. */
  const UNLIMITED: nat := TWO64 - 1

  /** Decoding into buffers of the given sizes, one after the other, and then without a limit. */
  function Drained(url: bool, skip: bool, s: seq<Byte>, at: nat, limits: seq<nat>): Result
    requires at <= |s|
    decreases |limits|
  {
    if limits == [] then Decoded(url, skip, s, at, UNLIMITED)
    else
      var r := Decoded(url, skip, s, at, limits[0]);
      if MayBeMore(r, limits[0]) then Prefixed(r.bytes, Drained(url, skip, s, r.used, limits[1..])) else r
  }

  /** Whatever the sizes of the buffers, the pieces make up one unlimited result. */
  lemma {:induction false} DrainedIsWhole(url: bool, skip: bool, s: seq<Byte>, at: nat, limits: seq<nat>)
    requires at <= |s| < UNLIMITED && forall i :: 0 <= i < |limits| ==> limits[i] <= UNLIMITED
    ensures Drained(url, skip, s, at, limits) == Decoded(url, skip, s, at, UNLIMITED)
    decreases |limits|
  {
    hide Decoded;
    if limits != [] {
      var r := Decoded(url, skip, s, at, limits[0]);
      Resumes(url, skip, s, at, limits[0], UNLIMITED);
      if MayBeMore(r, limits[0]) {
        DrainedIsWhole(url, skip, s, r.used, limits[1..]);
        BlocksSpend(url, skip, s, at, limits[0]);
        EnoughRoom(url, skip, s, r.used, UNLIMITED - |r.bytes|, UNLIMITED);
      }
    }
  }

  /** Stopping at the end of a block, the output has cost four characters for three bytes. */
  predicate Spends(r: Result, at: nat, limit: nat) {
    MayBeMore(r, limit) ==> r.used - at >= |r.bytes| / 3 * 4 && |r.bytes| % 3 == 0
  }

  lemma TripleSpends(triple: seq<Byte>, r: Result, at: nat, next: nat, limit: nat)
    requires |triple| == 3 <= limit && at + 4 <= next && Spends(r, next, limit - 3)
    ensures Spends(Prefixed(triple, r), at, limit)
  {
    hide MayBeMore;
    TripleMore(triple, r, limit);
  }

  lemma {:induction false} BlocksSpend(url: bool, skip: bool, s: seq<Byte>, at: nat, limit: nat)
    requires at <= |s|
    ensures Spends(Decoded(url, skip, s, at, limit), at, limit)
    decreases |s| - at
  {
    hide Collect, Decoded, DecodeTail, Triple;
    if limit == 0 {
      NoRoom(url, skip, s, at);
    } else {
      var g := Collect(url, skip, s, at, []);
      Step(url, skip, s, at, limit);
      if g.Cut? {
        TailResumes(g.hold, at, g.next, limit, limit);
      } else if limit >= 3 {
        hide MayBeMore, Spends;
        BlocksSpend(url, skip, s, g.next, limit - 3);
        TripleSpends(Triple(g.hold), Decoded(url, skip, s, g.next, limit - 3), at, g.next, limit);
      }
    }
  }

  /**
   Whatever the input, with less room than its bytes need: the whole blocks that
   fit, and EMORE - unless they fill the buffer exactly, which is reported like
   the end.
   */
  lemma {:induction false} DecodesPart(url: bool, skip: bool, s: seq<Byte>, at: nat, limit: nat, room: nat)
    requires at <= |s| && limit <= room && limit < |Decoded(url, skip, s, at, room).bytes|
    ensures var r, all := Decoded(url, skip, s, at, limit), Decoded(url, skip, s, at, room);
      r.status == (if limit % 3 == 0 then EOK else EMORE) && r.bytes == all.bytes[..limit / 3 * 3]
    decreases |s| - at
  {
    hide Collect, Decoded, DecodeTail, Triple;
    if limit == 0 {
      NoRoom(url, skip, s, at);
    } else {
      var g := Collect(url, skip, s, at, []);
      Step(url, skip, s, at, limit);
      Step(url, skip, s, at, room);
      if g.Cut? {
        TailNeeds(g.hold, at, g.next, limit, room);
      } else if limit >= 3 {
        var rest := Decoded(url, skip, s, g.next, room - 3).bytes;
        TripleThenRest(Triple(g.hold), rest, limit);
        DecodesPart(url, skip, s, g.next, limit - 3, room - 3);
      }
    }
  }

  lemma TripleThenRest(triple: seq<Byte>, rest: seq<Byte>, limit: nat)
    requires |triple| == 3 <= limit < |triple + rest|
    ensures limit - 3 < |rest| && triple + rest[..(limit - 3) / 3 * 3] == (triple + rest)[..limit / 3 * 3]
  {
  }

  lemma TailNeeds(hold: seq<Byte>, at: nat, next: nat, limit: nat, room: nat)
    requires |hold| < 4 && 0 < limit && at <= next && limit < |DecodeTail(hold, at, next, room).bytes|
    ensures limit == 1 && DecodeTail(hold, at, next, limit) == Result(EMORE, [], at)
  {
    hide Byte0, Byte1;
  }

  /** Of the encoding of x, with or without padding, that is a number of whole groups consumed. */
  lemma {:induction false} CanonicalPart(url: bool, skip: bool, s: seq<Byte>, at: nat, x: seq<Byte>, j: nat, limit: nat)
    requires Holds(url, skip, s, at, x, j) && limit < |x|
    ensures at <= |s|
    ensures Decoded(url, skip, s, at, limit)
      == Result(if limit % 3 == 0 then EOK else EMORE, x[..limit / 3 * 3], at + limit / 3 * 4)
    decreases |x|
  {
    hide Collect, Quad, Encoded, TailSymbols, At, Stops, Holds, Symbol, Decoded, DecodeTail, Triple,
         Sextet0, Sextet1, Sextet2, Sextet3, TailHold;
    if |x| >= 3 {
      HoldsRest(url, skip, s, at, x, j);
      CollectQuad(url, skip, s, at, x[0], x[1], x[2]);
    } else {
      HoldsTail(url, skip, s, at, x, j);
      CollectTail(url, skip, s, at, x, j);
    }
    if limit == 0 {
      NoRoom(url, skip, s, at);
    } else {
      Step(url, skip, s, at, limit);
      if |x| < 3 {
        ShortTail(x, at, at + TailLength(|x|) + j);
      } else if limit >= 3 {
        CanonicalPart(url, skip, s, at + 4, x[3..], j, limit - 3);
        TripleOfQuad(x);
        PartOfTriple(x, limit);
      }
    }
  }

  /** Two bytes do not fit where one does. */
  lemma ShortTail(x: seq<Byte>, at: nat, next: nat)
    requires |x| == 2 && at <= next
    ensures DecodeTail(TailHold(x), at, next, 1) == Result(EMORE, [], at)
  {
    hide Byte0, Byte1;
    BitsOut(x[0], x[1], 0);
  }

  lemma PartOfTriple(x: seq<Byte>, limit: nat)
    requires 3 <= limit < |x|
    ensures x[..3] + x[3..][..(limit - 3) / 3 * 3] == x[..limit / 3 * 3]
  {
  }

  // ----- A suffix of the input -------------------------------------------------------------------

  lemma {:induction false} PadEndShifts(url: bool, skip: bool, s: seq<Byte>, d: nat, at: nat, i: nat)
    requires d + at <= |s|
    ensures PadEnd(url, skip, s, d + at, i) == d + PadEnd(url, skip, s[d..], at, i)
    decreases |s| - at
  {
    hide Class;
    if d + at < |s| && i < 8 && Class(url, skip, s[d + at]) in {PADDING, IGNORED} {
      PadEndShifts(url, skip, s, d, at + 1, i + 1);
    }
  }

  lemma {:induction false} CollectShifts(url: bool, skip: bool, s: seq<Byte>, d: nat, at: nat, hold: seq<Byte>)
    requires d + at <= |s| && IsHold(hold)
    ensures var g, h := Collect(url, skip, s[d..], at, hold), Collect(url, skip, s, d + at, hold);
      h.hold == g.hold && h.Whole? == g.Whole? && h.next == d + g.next
    decreases |s| - at
  {
    hide Class, PadEnd, Collect;
    if |hold| == 4 || d + at == |s| {
      CollectStops(url, skip, s[d..], at, hold);
      CollectStops(url, skip, s, d + at, hold);
    } else {
      var c := Class(url, skip, s[d + at]);
      assert s[d..][at] == s[d + at];
      OneCharacter(url, skip, s[d..], at, hold, c);
      OneCharacter(url, skip, s, d + at, hold, c);
      if c < INVALID {
        CollectShifts(url, skip, s, d, at + 1, hold + [c]);
      } else if c == IGNORED {
        CollectShifts(url, skip, s, d, at + 1, hold);
      } else if c == PADDING {
        PadEndShifts(url, skip, s, d, at + 1, |hold| + 1);
      }
    }
  }

  /** Resuming with a pointer to the rest is resuming at that position. */
  lemma {:induction false} SuffixDecodes(url: bool, skip: bool, s: seq<Byte>, d: nat, at: nat, limit: nat)
    requires d + at <= |s|
    ensures var r := Decoded(url, skip, s[d..], at, limit);
      Decoded(url, skip, s, d + at, limit) == Result(r.status, r.bytes, d + r.used)
    decreases |s| - at
  {
    hide Collect, Decoded, Byte0, Byte1, Triple;
    if limit == 0 {
      NoRoom(url, skip, s, d + at);
      NoRoom(url, skip, s[d..], at);
    } else {
      var g := Collect(url, skip, s[d..], at, []);
      CollectShifts(url, skip, s, d, at, []);
      Step(url, skip, s, d + at, limit);
      Step(url, skip, s[d..], at, limit);
      if g.Whole? && limit >= 3 {
        SuffixDecodes(url, skip, s, d, g.next, limit - 3);
      }
    }
  }

  // ----- Skipping spaces -----------------------------------------------------------------------

  predicate IsSpace(c: Byte) { c == 10 || c == 13 || c == 32 }

  /** The input from position at on, without its spaces. */
  function Unspaced(s: seq<Byte>, at: nat): seq<Byte>
    requires at <= |s|
    decreases |s| - at
  {
    if at == |s| then []
    else if IsSpace(s[at]) then Unspaced(s, at + 1)
    else [s[at]] + Unspaced(s, at + 1)
  }

  lemma SkipClass(url: bool, c: Byte)
    ensures Class(url, true, c) == IGNORED <==> IsSpace(c)
    ensures !IsSpace(c) ==> Class(url, true, c) == Class(url, false, c)
    ensures Class(url, false, c) != IGNORED
  {
  }

  lemma {:induction false} CollectUnspaced(url: bool, s: seq<Byte>, at: nat, t: seq<Byte>, to: nat, hold: seq<Byte>)
    requires at <= |s| && to <= |t| && t[to..] == Unspaced(s, at) && IsHold(hold)
    ensures var g, h := Collect(url, true, s, at, hold), Collect(url, false, t, to, hold);
      && g.hold == h.hold && g.Whole? == h.Whole?
      && (g.Whole? ==> t[h.next..] == Unspaced(s, g.next))
    decreases |s| - at
  {
    hide Class, PadEnd;
    if |hold| < 4 && at < |s| {
      var c := s[at];
      SkipClass(url, c);
      if IsSpace(c) {
        CollectUnspaced(url, s, at + 1, t, to, hold);
      } else {
        NextUnspaced(s, at, t, to);
        if Class(url, true, c) < INVALID {
          CollectUnspaced(url, s, at + 1, t, to + 1, hold + [Class(url, true, c)]);
        }
      }
    }
  }

  lemma NextUnspaced(s: seq<Byte>, at: nat, t: seq<Byte>, to: nat)
    requires at < |s| && to <= |t| && t[to..] == Unspaced(s, at) && !IsSpace(s[at])
    ensures to < |t| && t[to] == s[at] && t[to + 1..] == Unspaced(s, at + 1)
  {
    assert t[to..][0] == s[at];
    assert t[to + 1..] == t[to..][1..];
  }

  /**
   Skipping spaces gives the status and the bytes that the same input without
   its spaces gives, wherever the spaces stand; and where it stops early, the
   rest is the same too.
   */
  lemma {:induction false} SkippingIsRemoving(url: bool, s: seq<Byte>, at: nat, t: seq<Byte>, to: nat, limit: nat)
    requires at <= |s| && to <= |t| && t[to..] == Unspaced(s, at)
    ensures var r, q := Decoded(url, true, s, at, limit), Decoded(url, false, t, to, limit);
      && r.status == q.status && r.bytes == q.bytes
      && (r.status != EOK || MayBeMore(r, limit) ==> t[q.used..] == Unspaced(s, r.used))
    decreases |s| - at
  {
    hide Collect, Decoded, DecodeTail, Triple, Unspaced;
    if limit == 0 {
      NoRoom(url, true, s, at);
      NoRoom(url, false, t, to);
    } else {
      var g, h := Collect(url, true, s, at, []), Collect(url, false, t, to, []);
      Step(url, true, s, at, limit);
      Step(url, false, t, to, limit);
      CollectUnspaced(url, s, at, t, to, []);
      if g.Cut? {
        TailMoves(g.hold, at, g.next, to, h.next, limit);
      } else if limit >= 3 {
        SkippingIsRemoving(url, s, g.next, t, h.next, limit - 3);
      }
    }
  }

  /** A tail decodes the same wherever it stands. */
  lemma TailMoves(hold: seq<Byte>, at: nat, next: nat, to: nat, end: nat, limit: nat)
    requires |hold| < 4 && limit > 0
    ensures var r, q := DecodeTail(hold, at, next, limit), DecodeTail(hold, to, end, limit);
      && r.status == q.status && r.bytes == q.bytes
      && (r.status != EOK || MayBeMore(r, limit) ==> r.used == at && q.used == to)
  {
    hide Byte0, Byte1;
  }
}
