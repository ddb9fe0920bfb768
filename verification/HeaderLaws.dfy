/** zmdm.c: every header is read back as it was written, in whatever mode the receiver was. */
module HeaderLaws {
  import opened Bytes
  import opened Quoting
  import opened Omen
  import opened Headers
  import Numbers

  // ---------- Hexadecimal ----------

  /** The nibbles of bytes, high one first. */
  function NibblePair(b: bv8): (n: seq<bv8>)
    ensures |n| == 2
  {
    [b >> 4, b & 0x0f]
  }

  function Nibbles(w: seq<bv8>): (n: seq<bv8>)
    ensures |n| == 2 * |w|
    decreases w
  {
    if w == [] then [] else NibblePair(w[0]) + Nibbles(w[1..])
  }

  lemma NibbleIsUndone(n: bv8)
    ensures Nibble(NibbleByte(n)) == n & 0x0f != 0xff
    ensures 0x30 <= NibbleByte(n) <= 0x39 || 0x61 <= NibbleByte(n) <= 0x66
  {}

  lemma HighNibble(b: bv8)
    ensures (b >> 4) & 0x0f == b >> 4 && ((b >> 4) << 4) | (b & 0x0f) == b
  {}

  lemma LettersAreFast(r: RxMode, c: bv8)
    requires 0x21 <= c <= 0x79
    ensures !NeedsSlowPath(r, c)
  {}

  lemma JoinedOne(b: bv8, more: seq<bv8>)
    requires |more| % 2 == 0
    ensures Joined(NibblePair(b) + more) == [b] + Joined(more)
  {
    HighNibble(b);
    assert (NibblePair(b) + more)[2..] == more;
  }

  lemma {:induction false} JoinedNibbles(w: seq<bv8>)
    ensures Joined(Nibbles(w)) == w
    decreases w
  {
    hide Joined, NibblePair;
    if w == [] {
      JoinedNone();
    } else {
      JoinedOne(w[0], Nibbles(w[1..]));
      JoinedNibbles(w[1..]);
    }
  }

  lemma JoinedNone()
    ensures Joined([]) == []
  {}

  lemma NibbleOffLine(r: RxMode, n: bv8, count: nat, rest: Input, cancels: nat)
    ensures TakeNibbles(r, count + 1, Octet(NibbleByte(n), rest), cancels)
         == var more := TakeNibbles(r, count, rest, 0); more.(bytes := [n & 0x0f] + more.bytes)
  {
    hide Next, Nibble, NibbleByte, NeedsSlowPath;
    NibbleIsUndone(n);
    LettersAreFast(r, NibbleByte(n));
    NextPlain(r, NibbleByte(n), rest, cancels);
  }

  lemma PairOffLine(r: RxMode, b: bv8, count: nat, rest: Input, cancels: nat)
    ensures TakeNibbles(r, count + 2, Feed(HexByte(b), rest), cancels)
         == var more := TakeNibbles(r, count, rest, 0); more.(bytes := NibblePair(b) + more.bytes)
  {
    hide NibbleByte, TakeNibbles;
    FeedTwo(NibbleByte(b >> 4), NibbleByte(b), rest);
    HighNibble(b);
    NibbleOffLine(r, b >> 4, count + 1, Octet(NibbleByte(b), rest), cancels);
    NibbleOffLine(r, b, count, rest, 0);
    var more := TakeNibbles(r, count, rest, 0).bytes;
    assert [b >> 4] + ([b & 0x0f] + more) == [b >> 4, b & 0x0f] + more;
  }

  lemma {:induction false} NibblesRoundTrip(r: RxMode, w: seq<bv8>, rest: Input, cancels: nat)
    ensures TakeNibbles(r, 2 * |w|, Feed(HexBytes(w), rest), cancels)
         == Taken(OK, Nibbles(w), rest, if w == [] then cancels else 0)
    decreases w
  {
    hide HexByte, NibblePair, TakeNibbles;
    if w == [] {
      NoNibbles(r, rest, cancels);
    } else {
      FeedConcat(HexByte(w[0]), HexBytes(w[1..]), rest);
      PairOffLine(r, w[0], 2 * |w[1..]|, Feed(HexBytes(w[1..]), rest), cancels);
      NibblesRoundTrip(r, w[1..], rest, 0);
    }
  }

  lemma NoNibbles(r: RxMode, rest: Input, cancels: nat)
    ensures TakeNibbles(r, 0, rest, cancels) == Taken(OK, [], rest, cancels)
  {}

  lemma HexTaken(r: RxMode, w: seq<bv8>, rest: Input, cancels: nat)
    ensures TakeHex(r, |w|, Feed(HexBytes(w), rest), cancels) == Taken(OK, w, rest, if w == [] then cancels else 0)
  {
    hide TakeNibbles, HexBytes;
    NibblesRoundTrip(r, w, rest, cancels);
    JoinedNibbles(w);
  }

  lemma {:induction false} HexConcat(a: seq<bv8>, b: seq<bv8>)
    ensures HexBytes(a + b) == HexBytes(a) + HexBytes(b)
    decreases a
  {
    hide HexByte;
    if a == [] {
      assert a + b == b;
    } else {
      assert (a + b)[1..] == a[1..] + b;
      HexConcat(a[1..], b);
    }
  }

  lemma LineEnd(r: RxMode, rest: Input, cancels: nat)
    ensures EndOfLine(r, Feed([CR, LF], rest), cancels) == Taken(OK, [], rest, 0)
  {
    FeedTwo(CR, LF, rest);
  }

  lemma HexBodyRoundTrip(r: RxMode, h: seq<bv8>, rest: Input, cancels: nat)
    ensures ReadHex(r, |h|, Feed(HexBytes(h + Bytes16(Sum16(h))) + [CR, LF], rest), cancels) == Body(OK, h, r, rest, 0)
  {
    hide TakeHex, HexBytes, Sum16, EndOfLine, Word16, Bytes16;
    var sum := Bytes16(Sum16(h));
    var after := Feed([CR, LF], rest);
    HexConcat(h, sum);
    FeedConcat(HexBytes(h) + HexBytes(sum), [CR, LF], rest);
    FeedConcat(HexBytes(h), HexBytes(sum), after);
    HexTaken(r, h, Feed(HexBytes(sum), after), cancels);
    HexTaken(r, sum, after, if h == [] then cancels else 0);
    WordOfBytes16(Sum16(h));
    LineEnd(r, rest, 0);
  }

  lemma CountFits(h: seq<bv8>)
    requires IsHeader(h)
    ensures ParameterCount(h) as nat == |h| - 1 && OmenCountByte(h) as nat == |h| + 0x21
  {
    Numbers.NatOfByte(|h| - 1);
    Numbers.NatOfByte(|h| + 0x21);
  }

  lemma HexVariableRoundTrip(r: RxMode, h: seq<bv8>, rest: Input, cancels: nat)
    requires IsHeader(h)
    ensures ReadVariable(r, ZVHEX, Feed(HexBytes([ParameterCount(h)] + h + Bytes16(Sum16(h))) + [CR, LF], rest),
                         cancels)
         == Body(OK, h, r, rest, 0)
  {
    hide TakeHex, HexBytes, Sum16, Bytes16, ReadHex, ParameterCount;
    var n := [ParameterCount(h)];
    var coded := HexBytes(h + Bytes16(Sum16(h))) + [CR, LF];
    assert n + h + Bytes16(Sum16(h)) == n + (h + Bytes16(Sum16(h)));
    HexConcat(n, h + Bytes16(Sum16(h)));
    assert HexBytes(n) + HexBytes(h + Bytes16(Sum16(h))) + [CR, LF] == HexBytes(n) + coded;
    FeedConcat(HexBytes(n), coded, rest);
    HexTaken(r, n, Feed(coded, rest), cancels);
    CountFits(h);
    HexBodyRoundTrip(r, h, rest, 0);
  }

  // ---------- Quoted headers ----------

  /** The first of two quoted pieces. */
  lemma TakeFirst(m: TxMode, r: RxMode, previous: bv8, a: seq<bv8>, b: seq<bv8>, rest: Input, cancels: nat)
    requires Understands(r, m) && Settled(r, cancels) && a != []
    ensures Take(r, |a|, INVALID_HEADER, Feed(Escape(m, previous, a + b), rest), cancels)
         == Taken(OK, a, Feed(Escape(m, LastSent(previous, Escape(m, previous, a)), b), rest), 0)
  {
    hide Take, Escape, Understands;
    EscapeConcat(m, previous, a, b);
    var first := Escape(m, previous, a);
    FeedConcat(first, Escape(m, LastSent(previous, first), b), rest);
    TakeRoundTrip(m, r, previous, a, INVALID_HEADER, Feed(Escape(m, LastSent(previous, first), b), rest), cancels);
  }

  function CheckSum(fcs32: bool, h: seq<bv8>): (w: seq<bv8>)
    ensures |w| == if fcs32 then 4 else 2
  {
    if fcs32 then Bytes32(Sum32(h)) else Bytes16(Sum16(h))
  }

  lemma BinaryRoundTrip(m: TxMode, r: RxMode, fcs32: bool, previous: bv8, h: seq<bv8>, rest: Input, cancels: nat)
    requires Understands(r, m) && Settled(r, cancels) && h != []
    ensures ReadBinary(r, fcs32, |h|, Feed(Escape(m, previous, h + CheckSum(fcs32, h)), rest), cancels)
         == Body(OK, h, r, rest, 0)
  {
    hide Take, Escape, Understands, Sum32, Sum16, Word32, Word16, Bytes32, Bytes16;
    var sum := CheckSum(fcs32, h);
    TakeFirst(m, r, previous, h, sum, rest, cancels);
    TakeRoundTrip(m, r, LastSent(previous, Escape(m, previous, h)), sum, INVALID_HEADER, rest, 0);
    WordOfBytes32(Sum32(h));
    WordOfBytes16(Sum16(h));
  }

  lemma BinaryVariableRoundTrip(m: TxMode, r: RxMode, style: bv8, previous: bv8, h: seq<bv8>, rest: Input, cancels: nat)
    requires Understands(r, m) && Settled(r, cancels) && IsHeader(h) && style != ZVHEX
    ensures ReadVariable(r, style, Feed(Escape(m, previous, [ParameterCount(h)] + h + CheckSum(style != ZVBIN, h)),
                                        rest), cancels)
         == Body(OK, h, r, rest, 0)
  {
    hide Take, Escape, Understands, CheckSum, ReadBinary, ParameterCount, LastSent;
    var n := [ParameterCount(h)];
    assert n + h + CheckSum(style != ZVBIN, h) == n + (h + CheckSum(style != ZVBIN, h));
    TakeFirst(m, r, previous, n, h + CheckSum(style != ZVBIN, h), rest, cancels);
    CountFits(h);
    BinaryRoundTrip(m, r, style != ZVBIN, LastSent(previous, Escape(m, previous, n)), h, rest, 0);
  }

  lemma MobyRoundTrip(m: TxMode, r: RxMode, previous: bv8, h: seq<bv8>, rest: Input, cancels: nat)
    requires Understands(r, m) && Settled(r, cancels) && IsHeader(h)
    ensures ReadMoby(r, Feed(Escape(m, previous, [ParameterCount(h)] + h + Bytes32(SumOmen(h))), rest), cancels)
         == Body(OK, h, RxMode(r.moby, true, Plain, Escape8None, r.escctl), rest, 0)
  {
    hide Take, Escape, Understands, SumOmen, Word32, Bytes32, ParameterCount, LastSent;
    var n, sum := [ParameterCount(h)], Bytes32(SumOmen(h));
    assert n + h + sum == n + (h + sum);
    TakeFirst(m, r, previous, n, h + sum, rest, cancels);
    CountFits(h);
    var second := LastSent(previous, Escape(m, previous, n));
    TakeFirst(m, r, second, h, sum, rest, 0);
    TakeRoundTrip(m, r, LastSent(second, Escape(m, second, h)), sum, INVALID_HEADER, rest, 0);
    WordOfBytes32(SumOmen(h));
  }

  // ---------- Seven-bit headers ----------

  /** One byte off a line without noise. */
  lemma OmenByteOffLine(escctl: bool, r: RxMode, c: bv8, rest: Input, cancels: nat)
    requires !r.moby && (r.escctl ==> escctl) && cancels < 4
    ensures OmenNext(r, BARE, Feed(OmenByte(escctl, c), rest), cancels) == Scan(Byte(c), rest, 0)
  {
    hide OmenByte, OmenNext, Decode, Strip;
    var w := OmenByte(escctl, c);
    OmenByteClean(escctl, c);
    StripClean(w);
    OmenByteDecodes(escctl, r, c, []);
    assert w + [] == w;
    var v1, v2 := Denoise(r, BARE, w, rest, cancels);
    assert forall i :: 0 <= i < |v2| ==> v2[i] == w[|v1| + i];
    StripClean(v2);
  }

  lemma {:induction false} OmenTaken(escctl: bool, r: RxMode, w: seq<bv8>, rest: Input, cancels: nat)
    requires !r.moby && (r.escctl ==> escctl) && cancels < 4
    ensures TakeOmen(r, |w|, Feed(OmenBytes(escctl, w), rest), cancels)
         == Taken(OK, w, rest, if w == [] then cancels else 0)
    decreases w
  {
    hide OmenByte, OmenNext;
    if w != [] {
      var tail := OmenBytes(escctl, w[1..]);
      FeedConcat(OmenByte(escctl, w[0]), tail, rest);
      OmenByteOffLine(escctl, r, w[0], Feed(tail, rest), cancels);
      OmenTaken(escctl, r, w[1..], rest, 0);
      assert w == [w[0]] + w[1..];
    }
  }

  lemma OmenCountOffLine(r: RxMode, h: seq<bv8>, rest: Input, cancels: nat)
    requires IsHeader(h)
    ensures var c := OmenCountByte(h);
            && OmenCount(r, Octet(c, rest), cancels) == Scan(Byte(c), rest, 0)
            && c & 0x7f == c && 0x26 <= c <= 0x32
  {
    CountFits(h);
    Numbers.OrderOfBytes(0x26, OmenCountByte(h));
    Numbers.OrderOfBytes(OmenCountByte(h), 0x32);
    CountIsPlain(r, OmenCountByte(h), rest, cancels);
  }

  lemma CountIsPlain(r: RxMode, c: bv8, rest: Input, cancels: nat)
    requires 0x26 <= c <= 0x32
    ensures OmenCount(r, Octet(c, rest), cancels) == Scan(Byte(c), rest, 0) && c & 0x7f == c
  {
    assert c & 0x7f == c && !IsFlowControl(c);
  }

  lemma OmenBodyRoundTrip(escctl: bool, r: RxMode, encoding: Encoding, h: seq<bv8>, rest: Input, cancels: nat)
    requires !r.moby && (r.escctl ==> escctl) && cancels < 4 && IsHeader(h)
    ensures ReadOmen(r, encoding, Feed([OmenCountByte(h)] + OmenBytes(escctl, h + Bytes32(SumOmen(h))), rest), cancels)
         == Body(OK, h, RxMode(false, true, encoding, Escape8Omen, r.escctl), rest, 0)
  {
    hide OmenBytes, TakeOmen, SumOmen, Word32, Bytes32, OmenCount, OmenCountByte;
    var c, sum := OmenCountByte(h), Bytes32(SumOmen(h));
    var all := [c] + OmenBytes(escctl, h + sum);
    assert all[1..] == OmenBytes(escctl, h + sum);
    CountFits(h);
    OmenCountOffLine(r, h, Feed(OmenBytes(escctl, h + sum), rest), cancels);
    OmenConcat(escctl, h, sum);
    FeedConcat(OmenBytes(escctl, h), OmenBytes(escctl, sum), rest);
    OmenTaken(escctl, r, h, Feed(OmenBytes(escctl, sum), rest), 0);
    OmenTaken(escctl, r, sum, rest, 0);
    WordOfBytes32(SumOmen(h));
  }

  // ---------- Whole headers ----------

  /** The style byte of a header. */
  function StyleByte(f: Flags, h: seq<bv8>): (style: bv8)
    ensures IsStyle(style) && 0x31 <= style <= 0x63
  {
    match StyleOf(f)
    case Hex => if |h| == HDRLEN then ZHEX else ZVHEX
    case Bin16 => if |h| == HDRLEN then ZBIN else ZVBIN
    case Bin32 => if |h| == HDRLEN then ZBIN32 else ZVBIN32
    case Moby => ZBINM32
    case OmenRle => ZBINR32ESC8
    case OmenPack => ZBINP7
  }

  /** What follows the style byte. */
  function Coded(f: Flags, h: seq<bv8>): seq<bv8>
    requires IsHeader(h)
  {
    var style := StyleByte(f, h);
    match StyleOf(f)
    case Hex => HexBytes(Length(h) + h + Bytes16(Sum16(h))) + [CR, LF]
    case Bin16 => Escape(PlainMode(f), style, Length(h) + h + Bytes16(Sum16(h)))
    case Bin32 => Escape(PlainMode(f), style, Length(h) + h + Bytes32(Sum32(h)))
    case Moby => Escape(MobyMode(f), style, [ParameterCount(h)] + h + Bytes32(SumOmen(h)))
    case OmenRle => [OmenCountByte(h)] + OmenBytes(f.escctl, h + Bytes32(SumOmen(h)))
    case OmenPack => [OmenCountByte(h)] + OmenBytes(f.escctl, h + Bytes32(SumOmen(h)))
  }

  function Pads(f: Flags): nat {
    if f.esc8 || f.moby then 1 else 2
  }

  lemma HeaderParts(f: Flags, h: seq<bv8>)
    requires IsHeader(h)
    ensures HeaderBody(f, h) == Front(Pads(f), StyleByte(f, h)) + Coded(f, h)
  {
    hide HexBytes, Escape, OmenBytes, Bytes16, Bytes32, Sum16, Sum32, SumOmen, Length, ParameterCount, OmenCountByte;
  }

  /** The receive modes behind a header: they depend on how it was sent, and on nothing older that the
      decoding of its data depends on. */
  function ModeAfter(f: Flags, r: RxMode): RxMode {
    match StyleOf(f)
    case Hex => RxMode(false, false, Plain, r.escape8, r.escctl)
    case Bin16 => RxMode(false, false, Plain, r.escape8, r.escctl)
    case Bin32 => RxMode(false, true, Plain, r.escape8, r.escctl)
    case Moby => RxMode(true, true, Plain, Escape8None, r.escctl)
    case OmenRle => RxMode(false, true, Rle, Escape8Omen, r.escctl)
    case OmenPack => RxMode(false, true, Pack7, Escape8Omen, r.escctl)
  }

  lemma LengthNone(h: seq<bv8>, sum: seq<bv8>)
    requires IsHeader(h)
    ensures Length(h) + h + sum == if |h| == HDRLEN then h + sum else [ParameterCount(h)] + h + sum
  {
    assert [] + h == h;
  }

  lemma HexCase(f: Flags, r: RxMode, h: seq<bv8>, rest: Input)
    requires IsHeader(h) && StyleOf(f).Hex?
    ensures ReadBody(r, StyleByte(f, h), Feed(Coded(f, h), rest), 0) == Body(OK, h, ModeAfter(f, r), rest, 0)
  {
    hide HexBytes, Bytes16, Sum16, Length, ParameterCount, ReadHex, ReadVariable;
    LengthNone(h, Bytes16(Sum16(h)));
    if |h| == HDRLEN {
      HexBodyRoundTrip(r.(moby := false), h, rest, 0);
    } else {
      HexVariableRoundTrip(r.(moby := false), h, rest, 0);
    }
  }

  lemma BinaryCase(f: Flags, r: RxMode, h: seq<bv8>, rest: Input)
    requires IsHeader(h) && (StyleOf(f).Bin16? || StyleOf(f).Bin32?) && (r.escctl ==> f.escctl)
    ensures ReadBody(r, StyleByte(f, h), Feed(Coded(f, h), rest), 0) == Body(OK, h, ModeAfter(f, r), rest, 0)
  {
    hide Escape, Bytes16, Sum16, Bytes32, Sum32, Length, ParameterCount, ReadBinary, ReadVariable;
    var fcs32, style := StyleOf(f).Bin32?, StyleByte(f, h);
    LengthNone(h, CheckSum(fcs32, h));
    if |h| == HDRLEN {
      BinaryRoundTrip(PlainMode(f), r.(moby := false), fcs32, style, h, rest, 0);
    } else {
      BinaryVariableRoundTrip(PlainMode(f), r.(moby := false), style, style, h, rest, 0);
    }
  }

  /** The body of every style is read back. */
  lemma BodyRoundTrip(f: Flags, r: RxMode, h: seq<bv8>, rest: Input)
    requires IsHeader(h) && (r.escctl ==> f.escctl)
    ensures ReadBody(r, StyleByte(f, h), Feed(Coded(f, h), rest), 0) == Body(OK, h, ModeAfter(f, r), rest, 0)
  {
    hide Escape, Bytes32, SumOmen, ParameterCount, ReadMoby, ReadOmen, OmenCountByte, OmenBytes;
    match StyleOf(f)
    case Hex => HexCase(f, r, h, rest);
    case Bin16 => BinaryCase(f, r, h, rest);
    case Bin32 => BinaryCase(f, r, h, rest);
    case Moby => MobyRoundTrip(MobyMode(f), r.(moby := true), ZBINM32, h, rest, 0);
    case OmenRle => OmenBodyRoundTrip(f.escctl, r.(moby := false), Rle, h, rest, 0);
    case OmenPack => OmenBodyRoundTrip(f.escctl, r.(moby := false), Pack7, h, rest, 0);
  }

  /** The headers that announce run-length coded data are read like those with a CRC-32, and select that coding. */
  lemma RleHeaderRoundTrip(m: TxMode, r: RxMode, previous: bv8, h: seq<bv8>, rest: Input)
    requires IsHeader(h) && !m.moby && (r.escctl ==> m.escctl)
    ensures var style := if |h| == HDRLEN then ZBINR32 else ZVBINR32;
            ReadBody(r, style, Feed(Escape(m, previous, Length(h) + h + Bytes32(Sum32(h))), rest), 0)
              == Body(OK, h, RxMode(false, true, Rle, r.escape8, r.escctl), rest, 0)
  {
    hide Escape, Bytes32, Sum32, Length, ParameterCount, ReadBinary, ReadVariable;
    LengthNone(h, CheckSum(true, h));
    if |h| == HDRLEN {
      BinaryRoundTrip(m, r.(moby := false), true, previous, h, rest, 0);
    } else {
      BinaryVariableRoundTrip(m, r.(moby := false), ZVBINR32, previous, h, rest, 0);
    }
  }

  lemma StyleIsPlain(r: RxMode, style: bv8)
    requires 0x31 <= style <= 0x63
    ensures !NeedsSlowPath(r, style) && style & 0x7f == style
  {}

  /** The front of a header, behind its first ZPAD. */
  lemma OpenFront(r: RxMode, pads: nat, style: bv8, rest: Input)
    requires 1 <= pads <= 2 && 0x31 <= style <= 0x63
    ensures Open(r, Feed(Front(pads, style)[1..], rest), 0) == Opening(Byte(style), rest, 0)
    ensures Front(pads, style)[0] == ZPAD
  {
    hide Next;
    StyleIsPlain(r, style);
    NextPlain(r, style, rest, if r.moby then 0 else 1);
    FeedTwo(ZDLE, style, rest);
    if pads == 1 {
      assert Front(pads, style)[1..] == [ZDLE, style];
    } else {
      assert Front(pads, style)[1..] == [ZPAD] + [ZDLE, style];
      FeedConcat([ZPAD], [ZDLE, style], rest);
      assert Feed([ZPAD], Feed([ZDLE, style], rest)) == Octet(ZPAD, Feed([ZDLE, style], rest));
    }
  }

  lemma PadEndsProbe(p: Probe)
    requires p.index < |PROBE|
    ensures ProbeStep(p, ZPAD) == Probe(0, p.passed)
  {}

  lemma FindAtPad(r: RxMode, report: bool, p: Probe, input: Input, cancels: nat)
    requires p.index < |PROBE|
    requires Open(r, input, 0).Opening? && Open(r, input, 0).symbol.Byte?
    requires var o := Open(r, input, 0); o.symbol.b & 0x7f == o.symbol.b && IsStyle(o.symbol.b)
    requires var o := Open(r, input, 0); ReadBody(r, o.symbol.b, o.rest, o.cancels).code == OK
    ensures var o := Open(r, input, 0);
            var b := ReadBody(r, o.symbol.b, o.rest, o.cancels);
            FindHeader(r, report, p, Octet(ZPAD, input), cancels)
              == Found(OK, b.header, b.mode, p.passed, b.rest, b.cancels)
  {
    hide ReadBody, Open, IsStyle;
    PadEndsProbe(p);
  }

  /** Every header of every style and length is read back as it was written, whatever modes the receiver
      was in, and its modes then fit the data that follow. */
  lemma HeaderRoundTrip(f: Flags, r: RxMode, report: bool, p: Probe, h: seq<bv8>, rest: Input, cancels: nat)
    requires IsHeader(h) && (r.escctl ==> f.escctl) && p.index < |PROBE|
    ensures FindHeader(r, report, p, Feed(HeaderWire(f, h), rest), cancels)
         == Found(OK, h, ModeAfter(f, r), p.passed, Feed(HeaderTrailer(f, h), rest), 0)
  {
    hide FindHeader, ReadBody, Open, Coded, HeaderBody, StyleByte, HeaderTrailer, IsStyle;
    var style, after := StyleByte(f, h), Feed(HeaderTrailer(f, h), rest);
    var front := Front(Pads(f), style);
    HeaderParts(f, h);
    FeedConcat(front + Coded(f, h), HeaderTrailer(f, h), rest);
    FeedConcat(front, Coded(f, h), after);
    OpenFront(r, Pads(f), style, Feed(Coded(f, h), after));
    StyleIsPlain(r, style);
    BodyRoundTrip(f, r, h, after);
    FindAtPad(r, report, p, Feed(front[1..], Feed(Coded(f, h), after)), cancels);
  }

  /** Bytes that open no header go by. */
  lemma SkipByte(r: RxMode, report: bool, p: Probe, c: bv8, rest: Input, cancels: nat)
    requires p.index < |PROBE| && c & 0x7f != ZPAD && c != CAN
    ensures FindHeader(r, report, p, Octet(c, rest), cancels) == FindHeader(r, report, ProbeStep(p, c), rest, 0)
  {
    hide ReadBody, Open, IsStyle;
  }

  /** A header behind the probe string is read with the probe passed, in every mode. */
  lemma ProbeIsSeen(r: RxMode, report: bool, p: Probe, rest: Input, cancels: nat)
    requires p.index == 0
    ensures FindHeader(r, report, p, Feed(PROBE, rest), cancels) == FindHeader(r, report, Probe(0, true), rest, 0)
  {
    hide FindHeader;
    assert PROBE == [0x23] + [0xc1] + [0xd4] + [0x93] + [0x11];
    FeedConcat([0x23] + [0xc1] + [0xd4] + [0x93], [0x11], rest);
    FeedConcat([0x23] + [0xc1] + [0xd4], [0x93], Feed([0x11], rest));
    FeedConcat([0x23] + [0xc1], [0xd4], Feed([0x93], Feed([0x11], rest)));
    FeedConcat([0x23], [0xc1], Feed([0xd4], Feed([0x93], Feed([0x11], rest))));
    FeedOne(0x11, rest);
    FeedOne(0x93, Feed([0x11], rest));
    FeedOne(0xd4, Feed([0x93], Feed([0x11], rest)));
    FeedOne(0xc1, Feed([0xd4], Feed([0x93], Feed([0x11], rest))));
    FeedOne(0x23, Feed([0xc1], Feed([0xd4], Feed([0x93], Feed([0x11], rest)))));
    SkipByte(r, report, p, 0x23, Feed([0xc1], Feed([0xd4], Feed([0x93], Feed([0x11], rest)))), cancels);
    SkipByte(r, report, Probe(1, p.passed), 0xc1, Feed([0xd4], Feed([0x93], Feed([0x11], rest))), 0);
    SkipByte(r, report, Probe(2, p.passed), 0xd4, Feed([0x93], Feed([0x11], rest)), 0);
    SkipByte(r, report, Probe(3, p.passed), 0x93, Feed([0x11], rest), 0);
    SkipByte(r, report, Probe(4, p.passed), 0x11, rest, 0);
  }

  lemma FeedOne(c: bv8, rest: Input)
    ensures Feed([c], rest) == Octet(c, rest)
  {
    assert Feed([c][1..], rest) == rest;
  }

  // ---------- Transparency ----------

  lemma FrontTransparent(previous: bv8, pads: nat, style: bv8)
    requires 0x31 <= style <= 0x63
    ensures CancelSafe(Front(pads, style)) && Transparent(previous, Front(pads, style))
    ensures LastSent(previous, Front(pads, style)) == style
  {
    StyleIsPlain(RxMode(false, false, Plain, Escape8None, false), style);
    StyleIsQuiet(style);
  }

  lemma StyleIsQuiet(c: bv8)
    requires 0x21 <= c <= 0x79
    ensures !IsNetworkControl(c) && !IsReturn(c) && c != CAN && c & 0x7f == c
  {}

  lemma QuietTransparent(previous: bv8, w: seq<bv8>)
    requires forall i :: 0 <= i < |w| ==> 0x21 <= w[i] <= 0x79
    ensures CancelSafe(w) && Transparent(previous, w)
  {
    forall i | 0 <= i < |w|
      ensures !IsNetworkControl(w[i]) && !IsReturn(w[i]) && w[i] != CAN
    {
      StyleIsQuiet(w[i]);
    }
  }

  lemma {:induction false} HexQuiet(w: seq<bv8>)
    ensures forall i :: 0 <= i < |HexBytes(w)| ==> 0x30 <= HexBytes(w)[i] <= 0x66 && HexBytes(w)[i] != 0x40
    decreases w
  {
    hide NibbleByte;
    if w != [] {
      NibbleIsUndone(w[0] >> 4);
      NibbleIsUndone(w[0]);
      HexQuiet(w[1..]);
    }
  }

  lemma LineEndTransparent(previous: bv8)
    requires previous != 0x40
    ensures CancelSafe([CR, LF]) && Transparent(previous, [CR, LF])
  {
    assert [CR, LF][..1] == [CR] && [CR, LF][..0] == [];
  }

  lemma HexTransparent(previous: bv8, w: seq<bv8>)
    requires w != []
    ensures CancelSafe(HexBytes(w) + [CR, LF]) && Transparent(previous, HexBytes(w) + [CR, LF])
  {
    hide HexBytes;
    HexQuiet(w);
    var x := HexBytes(w);
    QuietTransparent(previous, x);
    StyleIsQuiet(x[|x| - 1]);
    LineEndTransparent(LastSent(previous, x));
    CancelSafeConcat(x, [CR, LF]);
    TransparentConcat(previous, x, [CR, LF]);
  }

  lemma CodedTransparent(f: Flags, h: seq<bv8>)
    requires IsHeader(h)
    ensures CancelSafe(Coded(f, h))
    ensures StyleOf(f).Hex? || StyleOf(f).Bin16? || StyleOf(f).Bin32? ==> Transparent(StyleByte(f, h), Coded(f, h))
  {
    hide HexBytes, Escape, OmenBytes, Bytes16, Bytes32, Sum16, Sum32, SumOmen, Length, ParameterCount, OmenCountByte,
      CancelSafe, Transparent;
    var style := StyleByte(f, h);
    match StyleOf(f) {
      case Hex =>
        HexTransparent(style, Length(h) + h + Bytes16(Sum16(h)));
      case Bin16 =>
        EscapeTransparent(PlainMode(f), style, Length(h) + h + Bytes16(Sum16(h)));
      case Bin32 =>
        EscapeTransparent(PlainMode(f), style, Length(h) + h + Bytes32(Sum32(h)));
      case Moby =>
        EscapeTransparent(MobyMode(f), style, [ParameterCount(h)] + h + Bytes32(SumOmen(h)));
      case OmenRle =>
        OmenCodedSafe(f.escctl, h);
      case OmenPack =>
        OmenCodedSafe(f.escctl, h);
    }
  }

  lemma OmenCodedSafe(escctl: bool, h: seq<bv8>)
    requires IsHeader(h)
    ensures CancelSafe([OmenCountByte(h)] + OmenBytes(escctl, h + Bytes32(SumOmen(h))))
  {
    hide OmenBytes, Bytes32, SumOmen, OmenCountByte, OmenCount;
    OmenBytesClean(escctl, h + Bytes32(SumOmen(h)));
    OmenCountOffLine(RxMode(false, false, Plain, Escape8None, false), h, Silence, 0);
    StyleIsQuiet(OmenCountByte(h));
    CancelSafeConcat([OmenCountByte(h)], OmenBytes(escctl, h + Bytes32(SumOmen(h))));
  }

  /** No header puts two CANs together; an ordinary header is transparent but for the XON of a hex one. */
  lemma HeaderTransparent(f: Flags, previous: bv8, h: seq<bv8>)
    requires IsHeader(h)
    ensures CancelSafe(HeaderWire(f, h))
    ensures StyleOf(f).Hex? || StyleOf(f).Bin16? || StyleOf(f).Bin32? ==> Transparent(previous, HeaderBody(f, h))
  {
    hide Coded, HeaderBody, StyleByte, CancelSafe, Transparent, Front;
    HeaderParts(f, h);
    var style := StyleByte(f, h);
    var front := Front(Pads(f), style);
    FrontTransparent(previous, Pads(f), style);
    CodedTransparent(f, h);
    CancelSafeConcat(front, Coded(f, h));
    TrailerSafe(f, h);
    CancelSafeConcat(HeaderBody(f, h), HeaderTrailer(f, h));
    if StyleOf(f).Hex? || StyleOf(f).Bin16? || StyleOf(f).Bin32? {
      TransparentConcat(previous, front, Coded(f, h));
    }
  }

  lemma TrailerSafe(f: Flags, h: seq<bv8>)
    requires IsHeader(h)
    ensures CancelSafe(HeaderTrailer(f, h))
  {}
}
