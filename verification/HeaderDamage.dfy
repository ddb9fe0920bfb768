/** zmdm.c: what rx_header_raw makes of headers that were damaged on the line.  A header whose check does not
    hold is passed over, and the next one is read as it was sent; or it is reported, and the next one is still
    on the line. */
module HeaderDamage {
  import opened Bytes
  import opened Quoting
  import opened Omen
  import opened Headers
  import opened HeaderLaws
  import Crc
  import Crc16

  // ---------- Headers with another check ----------

  /** The check of a header, as its style sends it. */
  function Check(f: Flags, h: seq<bv8>): (k: seq<bv8>)
    ensures |k| == CheckLength(f)
  {
    match StyleOf(f)
    case Hex => Bytes16(Sum16(h))
    case Bin16 => Bytes16(Sum16(h))
    case Bin32 => Bytes32(Sum32(h))
    case Moby => Bytes32(SumOmen(h))
    case OmenRle => Bytes32(SumOmen(h))
    case OmenPack => Bytes32(SumOmen(h))
  }

  function CheckLength(f: Flags): nat {
    if StyleOf(f).Hex? || StyleOf(f).Bin16? then 2 else 4
  }

  /** What follows the style byte of a header of this length, whatever its bytes and its check have become. */
  function CodedAs(f: Flags, h: seq<bv8>, k: seq<bv8>): seq<bv8>
    requires IsHeader(h)
  {
    var style := StyleByte(f, h);
    match StyleOf(f)
    case Hex => HexBytes(Length(h) + h + k) + [CR, LF]
    case Bin16 => Escape(PlainMode(f), style, Length(h) + h + k)
    case Bin32 => Escape(PlainMode(f), style, Length(h) + h + k)
    case Moby => Escape(MobyMode(f), style, [ParameterCount(h)] + h + k)
    case OmenRle => [OmenCountByte(h)] + OmenBytes(f.escctl, h + k)
    case OmenPack => [OmenCountByte(h)] + OmenBytes(f.escctl, h + k)
  }

  /** The whole of it. */
  function WireAs(f: Flags, h: seq<bv8>, k: seq<bv8>): seq<bv8>
    requires IsHeader(h)
  {
    Front(Pads(f), StyleByte(f, h)) + CodedAs(f, h, k)
  }

  /** With its own check, it is the header as it is sent. */
  lemma WithItsCheck(f: Flags, h: seq<bv8>)
    requires IsHeader(h)
    ensures WireAs(f, h, Check(f, h)) == HeaderBody(f, h)
  {
    hide HexBytes, Escape, OmenBytes, Bytes16, Bytes32, Sum16, Sum32, SumOmen, Length, ParameterCount, OmenCountByte,
      HeaderBody, Front;
    HeaderParts(f, h);
  }

  lemma BytesOfWord16(k: seq<bv8>)
    requires |k| == 2
    ensures Bytes16(Word16(k)) == k
  {
    HalvesOfWord(k[0], k[1]);
  }

  lemma HalvesOfWord(a: bv8, b: bv8)
    ensures ((((a as bv16) << 8) | (b as bv16)) >> 8) as bv8 == a
    ensures ((((a as bv16) << 8) | (b as bv16)) & 0xff) as bv8 == b
  {}

  lemma BytesOfWord32(k: seq<bv8>)
    requires |k| == 4
    ensures Bytes32(Word32(k)) == k
  {
    PartsOfWord(k[0] as bv32, k[1] as bv32, k[2] as bv32, k[3] as bv32);
  }

  lemma PartsOfWord(a: bv32, b: bv32, c: bv32, d: bv32)
    requires a <= 0xff && b <= 0xff && c <= 0xff && d <= 0xff
    ensures var w := a | (b << 8) | (c << 16) | (d << 24);
            w & 0xff == a && (w >> 8) & 0xff == b && (w >> 16) & 0xff == c && w >> 24 == d
  {}

  // ---------- Their bodies are refused ----------

  lemma HexDamaged(r: RxMode, h: seq<bv8>, k: seq<bv8>, rest: Input, cancels: nat)
    requires |k| == 2 && k != Bytes16(Sum16(h))
    ensures ReadHex(r, |h|, Feed(HexBytes(h + k) + [CR, LF], rest), cancels)
         == Body(INVALID_HEADER, [], r, Feed([CR, LF], rest), 0)
  {
    hide TakeHex, HexBytes, Sum16, EndOfLine, Word16, Bytes16;
    var after := Feed([CR, LF], rest);
    HexConcat(h, k);
    FeedConcat(HexBytes(h) + HexBytes(k), [CR, LF], rest);
    FeedConcat(HexBytes(h), HexBytes(k), after);
    HexTaken(r, h, Feed(HexBytes(k), after), cancels);
    HexTaken(r, k, after, if h == [] then cancels else 0);
    BytesOfWord16(k);
  }

  lemma HexVariableDamaged(r: RxMode, h: seq<bv8>, k: seq<bv8>, rest: Input, cancels: nat)
    requires IsHeader(h) && |k| == 2 && k != Bytes16(Sum16(h))
    ensures ReadVariable(r, ZVHEX, Feed(HexBytes([ParameterCount(h)] + h + k) + [CR, LF], rest), cancels)
         == Body(INVALID_HEADER, [], r, Feed([CR, LF], rest), 0)
  {
    hide TakeHex, HexBytes, Sum16, Bytes16, ReadHex, ParameterCount;
    var n := [ParameterCount(h)];
    var coded := HexBytes(h + k) + [CR, LF];
    assert n + h + k == n + (h + k);
    HexConcat(n, h + k);
    assert HexBytes(n) + HexBytes(h + k) + [CR, LF] == HexBytes(n) + coded;
    FeedConcat(HexBytes(n), coded, rest);
    HexTaken(r, n, Feed(coded, rest), cancels);
    CountFits(h);
    HexDamaged(r, h, k, rest, 0);
  }

  lemma BinaryDamaged(m: TxMode, r: RxMode, fcs32: bool, previous: bv8, h: seq<bv8>, k: seq<bv8>, rest: Input,
                      cancels: nat)
    requires Understands(r, m) && Settled(r, cancels) && h != []
    requires |k| == |CheckSum(fcs32, h)| && k != CheckSum(fcs32, h)
    ensures ReadBinary(r, fcs32, |h|, Feed(Escape(m, previous, h + k), rest), cancels)
         == Body(INVALID_HEADER, [], r, rest, 0)
  {
    hide Take, Escape, Understands, Sum32, Sum16, Word32, Word16, Bytes32, Bytes16;
    TakeFirst(m, r, previous, h, k, rest, cancels);
    TakeRoundTrip(m, r, LastSent(previous, Escape(m, previous, h)), k, INVALID_HEADER, rest, 0);
    if fcs32 {
      BytesOfWord32(k);
    } else {
      BytesOfWord16(k);
    }
  }

  lemma BinaryVariableDamaged(m: TxMode, r: RxMode, style: bv8, previous: bv8, h: seq<bv8>, k: seq<bv8>, rest: Input,
                              cancels: nat)
    requires Understands(r, m) && Settled(r, cancels) && IsHeader(h) && style != ZVHEX
    requires |k| == |CheckSum(style != ZVBIN, h)| && k != CheckSum(style != ZVBIN, h)
    ensures ReadVariable(r, style, Feed(Escape(m, previous, [ParameterCount(h)] + h + k), rest), cancels)
         == Body(INVALID_HEADER, [], r, rest, 0)
  {
    hide Take, Escape, Understands, CheckSum, ReadBinary, ParameterCount, LastSent;
    var n := [ParameterCount(h)];
    assert n + h + k == n + (h + k);
    TakeFirst(m, r, previous, n, h + k, rest, cancels);
    CountFits(h);
    BinaryDamaged(m, r, style != ZVBIN, LastSent(previous, Escape(m, previous, n)), h, k, rest, 0);
  }

  lemma MobyDamaged(m: TxMode, r: RxMode, previous: bv8, h: seq<bv8>, k: seq<bv8>, rest: Input, cancels: nat)
    requires Understands(r, m) && Settled(r, cancels) && IsHeader(h) && |k| == 4 && k != Bytes32(SumOmen(h))
    ensures ReadMoby(r, Feed(Escape(m, previous, [ParameterCount(h)] + h + k), rest), cancels)
         == Body(INVALID_HEADER, [], r, rest, 0)
  {
    hide Take, Escape, Understands, SumOmen, Word32, Bytes32, ParameterCount, LastSent;
    var n := [ParameterCount(h)];
    assert n + h + k == n + (h + k);
    TakeFirst(m, r, previous, n, h + k, rest, cancels);
    CountFits(h);
    var second := LastSent(previous, Escape(m, previous, n));
    TakeFirst(m, r, second, h, k, rest, 0);
    TakeRoundTrip(m, r, LastSent(second, Escape(m, second, h)), k, INVALID_HEADER, rest, 0);
    BytesOfWord32(k);
  }

  lemma OmenDamaged(escctl: bool, r: RxMode, encoding: Encoding, h: seq<bv8>, k: seq<bv8>, rest: Input, cancels: nat)
    requires !r.moby && (r.escctl ==> escctl) && cancels < 4 && IsHeader(h) && |k| == 4 && k != Bytes32(SumOmen(h))
    ensures ReadOmen(r, encoding, Feed([OmenCountByte(h)] + OmenBytes(escctl, h + k), rest), cancels)
         == Body(INVALID_HEADER, [], r, rest, 0)
  {
    hide OmenBytes, TakeOmen, SumOmen, Word32, Bytes32, OmenCount, OmenCountByte;
    var c := OmenCountByte(h);
    var all := [c] + OmenBytes(escctl, h + k);
    assert all[1..] == OmenBytes(escctl, h + k);
    CountFits(h);
    OmenCountOffLine(r, h, Feed(OmenBytes(escctl, h + k), rest), cancels);
    OmenConcat(escctl, h, k);
    FeedConcat(OmenBytes(escctl, h), OmenBytes(escctl, k), rest);
    OmenTaken(escctl, r, h, Feed(OmenBytes(escctl, k), rest), 0);
    OmenTaken(escctl, r, k, rest, 0);
    BytesOfWord32(k);
  }

  /** The modes behind a header that was refused: only the transparency may have changed, and for ordinary
      styles the decoding of data. */
  function ModeBehind(f: Flags, r: RxMode): RxMode {
    if f.esc8 then r.(moby := false)
    else if StyleOf(f).Moby? then r.(moby := true)
    else ModeAfter(f, r)
  }

  /** What the reader leaves of such a header. */
  function Leftover(f: Flags): seq<bv8> {
    if StyleOf(f).Hex? then [CR, LF] else []
  }

  lemma HexCaseDamaged(f: Flags, r: RxMode, h: seq<bv8>, k: seq<bv8>, rest: Input)
    requires IsHeader(h) && StyleOf(f).Hex? && |k| == 2 && k != Check(f, h)
    ensures ReadBody(r, StyleByte(f, h), Feed(CodedAs(f, h, k), rest), 0)
         == Body(INVALID_HEADER, [], ModeBehind(f, r), Feed([CR, LF], rest), 0)
  {
    hide HexBytes, Bytes16, Sum16, Length, ParameterCount, ReadHex, ReadVariable;
    LengthNone(h, k);
    if |h| == HDRLEN {
      HexDamaged(r.(moby := false), h, k, rest, 0);
    } else {
      HexVariableDamaged(r.(moby := false), h, k, rest, 0);
    }
  }

  lemma BinaryCaseDamaged(f: Flags, r: RxMode, h: seq<bv8>, k: seq<bv8>, rest: Input)
    requires IsHeader(h) && (StyleOf(f).Bin16? || StyleOf(f).Bin32?) && (r.escctl ==> f.escctl)
    requires |k| == CheckLength(f) && k != Check(f, h)
    ensures ReadBody(r, StyleByte(f, h), Feed(CodedAs(f, h, k), rest), 0)
         == Body(INVALID_HEADER, [], ModeBehind(f, r), rest, 0)
  {
    hide Escape, Bytes16, Sum16, Bytes32, Sum32, Length, ParameterCount, ReadBinary, ReadVariable;
    var fcs32, style := StyleOf(f).Bin32?, StyleByte(f, h);
    LengthNone(h, k);
    if |h| == HDRLEN {
      BinaryDamaged(PlainMode(f), r.(moby := false), fcs32, style, h, k, rest, 0);
    } else {
      BinaryVariableDamaged(PlainMode(f), r.(moby := false), style, style, h, k, rest, 0);
    }
  }

  /** The body of every style is refused if its check does not hold, and no more of the line is used up. */
  lemma DamagedBody(f: Flags, r: RxMode, h: seq<bv8>, k: seq<bv8>, rest: Input)
    requires IsHeader(h) && (r.escctl ==> f.escctl) && |k| == CheckLength(f) && k != Check(f, h)
    ensures ReadBody(r, StyleByte(f, h), Feed(CodedAs(f, h, k), rest), 0)
         == Body(INVALID_HEADER, [], ModeBehind(f, r), Feed(Leftover(f), rest), 0)
  {
    hide Escape, Bytes32, SumOmen, ParameterCount, ReadMoby, ReadOmen, OmenCountByte, OmenBytes;
    match StyleOf(f)
    case Hex => HexCaseDamaged(f, r, h, k, rest);
    case Bin16 => BinaryCaseDamaged(f, r, h, k, rest);
    case Bin32 => BinaryCaseDamaged(f, r, h, k, rest);
    case Moby => MobyDamaged(MobyMode(f), r.(moby := true), ZBINM32, h, k, rest, 0);
    case OmenRle => OmenDamaged(f.escctl, r.(moby := false), Rle, h, k, rest, 0);
    case OmenPack => OmenDamaged(f.escctl, r.(moby := false), Pack7, h, k, rest, 0);
  }

  // ---------- The search goes on ----------

  /** A header whose body is refused. */
  lemma FindRefused(r: RxMode, report: bool, p: Probe, pads: nat, style: bv8, input: Input, cancels: nat)
    requires p.index < |PROBE| && 1 <= pads <= 2 && 0x31 <= style <= 0x63 && IsStyle(style)
    requires ReadBody(r, style, input, 0).code == INVALID_HEADER
    ensures var b := ReadBody(r, style, input, 0);
            FindHeader(r, report, p, Feed(Front(pads, style), input), cancels)
              == if report then Found(INVALID_HEADER, [], b.mode, false, b.rest, b.cancels)
                 else FindHeader(b.mode, false, Probe(0, p.passed), b.rest, b.cancels)
  {
    hide ReadBody, Open, IsStyle;
    OpenFront(r, pads, style, input);
    StyleIsPlain(r, style);
    PadEndsProbe(p);
  }

  /** Bytes that neither open a header nor count for an abort, nor belong to the probe. */
  predicate IsIdle(c: bv8) {
    c & 0x7f != ZPAD && c != CAN && c != PROBE[0]
  }

  /** They go by. */
  lemma {:induction false} IdleGoesBy(r: RxMode, report: bool, passed: bool, w: seq<bv8>, rest: Input)
    requires forall i :: 0 <= i < |w| ==> IsIdle(w[i])
    ensures FindHeader(r, report, Probe(0, passed), Feed(w, rest), 0)
              == FindHeader(r, report, Probe(0, passed), rest, 0)
    decreases w
  {
    hide FindHeader;
    if w != [] {
      SkipByte(r, report, Probe(0, passed), w[0], Feed(w[1..], rest), 0);
      IdleGoesBy(r, report, passed, w[1..], rest);
    }
  }

  predicate AllIdle(w: seq<bv8>) {
    forall i :: 0 <= i < |w| ==> IsIdle(w[i])
  }

  /** A header of any style whose body is refused, and some idle bytes, and behind them a header of any style as
      it was sent: the first is passed over and the second is read; or the first is reported, and only idle
      bytes have been left in front of the second. */
  lemma RefusedThenGood(f: Flags, style: bv8, coded: seq<bv8>, left: seq<bv8>, tail: seq<bv8>, g: Flags,
                        next: seq<bv8>, r: RxMode, p: Probe, rest: Input, cancels: nat)
    requires IsStyle(style) && 0x31 <= style <= 0x63 && AllIdle(left) && AllIdle(tail) && IsHeader(next)
    requires (r.escctl ==> g.escctl) && p.index < |PROBE|
    requires var after := Feed(tail, Feed(HeaderWire(g, next), rest));
             ReadBody(r, style, Feed(coded, after), 0)
               == Body(INVALID_HEADER, [], ModeBehind(f, r), Feed(left, after), 0)
    ensures var line := Feed(Front(Pads(f), style) + coded + tail, Feed(HeaderWire(g, next), rest));
            && FindHeader(r, false, p, line, cancels)
               == Found(OK, next, ModeAfter(g, r), p.passed, Feed(HeaderTrailer(g, next), rest), 0)
            && FindHeader(r, true, p, line, cancels)
               == Found(INVALID_HEADER, [], ModeBehind(f, r), false,
                        Feed(left + tail, Feed(HeaderWire(g, next), rest)), 0)
  {
    hide FindHeader, ReadBody, HeaderWire, HeaderTrailer, IsIdle, IsStyle;
    var good := Feed(HeaderWire(g, next), rest);
    var after := Feed(tail, good);
    var front := Front(Pads(f), style);
    FeedConcat(front + coded, tail, good);
    FeedConcat(front, coded, after);
    FindRefused(r, false, p, Pads(f), style, Feed(coded, after), cancels);
    FindRefused(r, true, p, Pads(f), style, Feed(coded, after), cancels);
    FeedConcat(left, tail, good);
    IdleGoesBy(ModeBehind(f, r), false, p.passed, left, after);
    IdleGoesBy(ModeBehind(f, r), false, p.passed, tail, good);
    HeaderRoundTrip(g, ModeBehind(f, r), false, Probe(0, p.passed), next, rest, 0);
  }

  /** So it is with a header whose check does not hold: whatever its bytes and its check have become. */
  lemma DamagedHeaderIsPassedOver(f: Flags, h: seq<bv8>, k: seq<bv8>, tail: seq<bv8>, g: Flags, next: seq<bv8>,
                                  r: RxMode, p: Probe, rest: Input, cancels: nat)
    requires IsHeader(h) && |k| == CheckLength(f) && k != Check(f, h) && AllIdle(tail) && IsHeader(next)
    requires (r.escctl ==> f.escctl && g.escctl) && p.index < |PROBE|
    ensures var line := Feed(WireAs(f, h, k) + tail, Feed(HeaderWire(g, next), rest));
            && FindHeader(r, false, p, line, cancels)
               == Found(OK, next, ModeAfter(g, r), p.passed, Feed(HeaderTrailer(g, next), rest), 0)
            && FindHeader(r, true, p, line, cancels)
               == Found(INVALID_HEADER, [], ModeBehind(f, r), false,
                        Feed(Leftover(f) + tail, Feed(HeaderWire(g, next), rest)), 0)
  {
    hide FindHeader, ReadBody, CodedAs, HeaderWire, HeaderTrailer, Check, CheckLength, IsIdle, StyleByte, IsStyle,
      ModeBehind;
    LineEndIsIdle();
    DamagedBody(f, r, h, k, Feed(tail, Feed(HeaderWire(g, next), rest)));
    RefusedThenGood(f, StyleByte(f, h), CodedAs(f, h, k), Leftover(f), tail, g, next, r, p, rest, cancels);
  }

  lemma LineEndIsIdle()
    ensures AllIdle([CR, LF]) && AllIdle([XON])
  {}

  /** A header as it was sent but for a burst inside it: it is passed over. */
  lemma BurstIsPassedOver(f: Flags, front: seq<bv8>, u: seq<bv8>, v: seq<bv8>, back: seq<bv8>, tail: seq<bv8>, g: Flags,
                          next: seq<bv8>, r: RxMode, p: Probe, rest: Input, cancels: nat)
    requires |u| == |v| <= CheckLength(f) && u != v && IsHeader(front + u + back)
    requires AllIdle(tail) && IsHeader(next) && (r.escctl ==> f.escctl && g.escctl) && p.index < |PROBE|
    ensures var k := Check(f, front + u + back);
            FindHeader(r, false, p, Feed(WireAs(f, front + v + back, k) + tail, Feed(HeaderWire(g, next), rest)),
                       cancels)
              == Found(OK, next, ModeAfter(g, r), p.passed, Feed(HeaderTrailer(g, next), rest), 0)
  {
    hide FindHeader, WireAs, HeaderWire, HeaderTrailer, Check, CheckLength, AllIdle, ModeAfter;
    BurstBreaksCheck(f, front, u, v, back);
    DamagedHeaderIsPassedOver(f, front + v + back, Check(f, front + u + back), tail, g, next, r, p, rest, cancels);
  }

  /** Behind a ZPAD there is no header. */
  lemma FindSpurious(r: RxMode, report: bool, p: Probe, input: Input, cancels: nat)
    requires p.index < |PROBE| && Open(r, input, 0).Spurious?
    ensures var o := Open(r, input, 0);
            FindHeader(r, report, p, Octet(ZPAD, input), cancels)
              == FindHeader(r, report, Probe(0, p.passed), o.rest, o.cancels)
  {
    hide ReadBody, Open, IsStyle;
    PadEndsProbe(p);
  }

  lemma OpenSpurious(r: RxMode, pads: nat, c: bv8, rest: Input)
    requires 1 <= pads <= 2 && c & 0x7f != ZDLE && (pads == 1 ==> c & 0x7f != ZPAD)
    ensures Open(r, Feed(Padding(pads)[1..] + [c], rest), 0) == Spurious(rest, 0)
  {
    hide Next;
    NoCancel(c);
    if pads == 1 {
      assert Padding(1)[1..] + [c] == [c];
      FeedOne(c, rest);
    } else {
      assert Padding(2)[1..] + [c] == [ZPAD, c];
      FeedTwo(ZPAD, c, rest);
    }
  }

  /** A ZPAD, or two, with something else than a header behind: it is passed over, reported or not. */
  lemma SpuriousPadIsPassedOver(pads: nat, c: bv8, g: Flags, next: seq<bv8>, r: RxMode, report: bool, p: Probe,
                                rest: Input, cancels: nat)
    requires 1 <= pads <= 2 && c & 0x7f != ZDLE && (pads == 1 ==> c & 0x7f != ZPAD)
    requires IsHeader(next) && (r.escctl ==> g.escctl) && p.index < |PROBE|
    ensures FindHeader(r, report, p, Feed(Padding(pads) + [c], Feed(HeaderWire(g, next), rest)), cancels)
         == Found(OK, next, ModeAfter(g, r), p.passed, Feed(HeaderTrailer(g, next), rest), 0)
  {
    hide FindHeader, Open, HeaderWire, HeaderTrailer, ModeAfter;
    var after := Feed(HeaderWire(g, next), rest);
    var behind := Padding(pads)[1..] + [c];
    OpenSpurious(r, pads, c, after);
    assert Padding(pads) + [c] == [ZPAD] + behind;
    FeedConcat([ZPAD], behind, after);
    FeedOne(ZPAD, Feed(behind, after));
    FindSpurious(r, report, p, Feed(behind, after), cancels);
    HeaderRoundTrip(g, r, report, Probe(0, p.passed), next, rest, 0);
  }

  function Padding(pads: nat): seq<bv8> {
    if pads == 1 then [ZPAD] else [ZPAD, ZPAD]
  }

  lemma NoCancel(c: bv8)
    ensures c & 0x7f != ZDLE ==> c != CAN
    ensures ZPAD & 0x7f == ZPAD && ZPAD != CAN && ZPAD != ZDLE
  {}

  /** A style byte that stands for no header is passed over, or reported, with the next header still there. */
  lemma UnknownStyleIsPassedOver(pads: nat, style: bv8, g: Flags, next: seq<bv8>, r: RxMode, p: Probe, rest: Input,
                                 cancels: nat)
    requires 1 <= pads <= 2 && !IsStyle(style & 0x7f) && !NeedsSlowPath(r, style)
    requires IsHeader(next) && (r.escctl ==> g.escctl) && p.index < |PROBE|
    ensures var line := Feed(Padding(pads) + [ZDLE, style], Feed(HeaderWire(g, next), rest));
            && FindHeader(r, false, p, line, cancels)
               == Found(OK, next, ModeAfter(g, r), p.passed, Feed(HeaderTrailer(g, next), rest), 0)
            && FindHeader(r, true, p, line, cancels)
               == Found(INVALID_HEADER, [], r, false, Feed(HeaderWire(g, next), rest), 0)
  {
    hide FindHeader, Open, HeaderWire, HeaderTrailer, IsStyle, ModeAfter, NeedsSlowPath;
    var after := Feed(HeaderWire(g, next), rest);
    var behind := Padding(pads)[1..] + [ZDLE, style];
    OpenAnyStyle(r, pads, style, after);
    assert Padding(pads) + [ZDLE, style] == [ZPAD] + behind;
    FeedConcat([ZPAD], behind, after);
    FeedOne(ZPAD, Feed(behind, after));
    FindUnknown(r, false, p, Feed(behind, after), cancels);
    FindUnknown(r, true, p, Feed(behind, after), cancels);
    HeaderRoundTrip(g, r, false, Probe(0, p.passed), next, rest, 0);
  }

  /** Behind a ZPAD there is a style that stands for no header. */
  lemma FindUnknown(r: RxMode, report: bool, p: Probe, input: Input, cancels: nat)
    requires p.index < |PROBE| && Open(r, input, 0).Opening? && Open(r, input, 0).symbol.Byte?
    requires !IsStyle(Open(r, input, 0).symbol.b & 0x7f)
    ensures var o := Open(r, input, 0);
            FindHeader(r, report, p, Octet(ZPAD, input), cancels)
              == if report then Found(INVALID_HEADER, [], r, false, o.rest, o.cancels)
                 else FindHeader(r, report, Probe(0, p.passed), o.rest, o.cancels)
  {
    hide ReadBody, Open, IsStyle;
    PadEndsProbe(p);
  }

  lemma OpenAnyStyle(r: RxMode, pads: nat, style: bv8, rest: Input)
    requires 1 <= pads <= 2 && !NeedsSlowPath(r, style)
    ensures Open(r, Feed(Padding(pads)[1..] + [ZDLE, style], rest), 0) == Opening(Byte(style), rest, 0)
  {
    hide Next;
    NextPlain(r, style, rest, if r.moby then 0 else 1);
    FeedTwo(ZDLE, style, rest);
    if pads == 1 {
      assert Padding(1)[1..] + [ZDLE, style] == [ZDLE, style];
    } else {
      assert Padding(2)[1..] + [ZDLE, style] == [ZPAD] + [ZDLE, style];
      FeedConcat([ZPAD], [ZDLE, style], rest);
      FeedOne(ZPAD, Feed([ZDLE, style], rest));
    }
  }

  /** Five CANs in a row end the search, but not under MobyTurbo. */
  lemma FiveCancelsEndTheSearch(r: RxMode, report: bool, p: Probe, rest: Input)
    requires !r.moby && p.index < |PROBE|
    ensures FindHeader(r, report, p, Feed([CAN, CAN, CAN, CAN, CAN], rest), 0)
         == Found(CANCELLED, [], r, false, rest, 5)
  {
    hide ReadBody, Open, IsStyle, FindHeader;
    var w := [CAN, CAN, CAN, CAN, CAN];
    FiveOctets(rest);
    CancelCounts(r, report, p, Octet(CAN, Octet(CAN, Octet(CAN, Octet(CAN, rest)))), 0);
    var q := ProbeStep(p, CAN);
    CancelCounts(r, report, q, Octet(CAN, Octet(CAN, Octet(CAN, rest))), 1);
    CancelCounts(r, report, ProbeStep(q, CAN), Octet(CAN, Octet(CAN, rest)), 2);
    CancelCounts(r, report, ProbeStep(ProbeStep(q, CAN), CAN), Octet(CAN, rest), 3);
    CancelCounts(r, report, ProbeStep(ProbeStep(ProbeStep(q, CAN), CAN), CAN), rest, 4);
  }

  lemma CancelCounts(r: RxMode, report: bool, p: Probe, rest: Input, cancels: nat)
    requires !r.moby && p.index < |PROBE|
    ensures FindHeader(r, report, p, Octet(CAN, rest), cancels)
         == if cancels == 4 then Found(CANCELLED, [], r, false, rest, 5)
            else FindHeader(r, report, ProbeStep(p, CAN), rest, cancels + 1)
  {
    hide ReadBody, Open, IsStyle;
  }

  lemma FiveOctets(rest: Input)
    ensures Feed([CAN, CAN, CAN, CAN, CAN], rest)
         == Octet(CAN, Octet(CAN, Octet(CAN, Octet(CAN, Octet(CAN, rest)))))
  {
    assert [CAN, CAN, CAN, CAN, CAN] == [CAN] + [CAN, CAN] + [CAN, CAN];
    FeedConcat([CAN] + [CAN, CAN], [CAN, CAN], rest);
    FeedConcat([CAN], [CAN, CAN], Feed([CAN, CAN], rest));
    FeedTwo(CAN, CAN, rest);
    FeedTwo(CAN, CAN, Feed([CAN, CAN], rest));
    FeedOne(CAN, Feed([CAN, CAN], Feed([CAN, CAN], rest)));
  }

  // ---------- Hex digits ----------

  /** A character that the reader of hex digits takes for one. */
  predicate IsDigit(r: RxMode, c: bv8) {
    Nibble(c) != 0xff && !NeedsSlowPath(r, c)
  }

  predicate AllDigits(r: RxMode, x: seq<bv8>) {
    forall i :: 0 <= i < |x| ==> IsDigit(r, x[i])
  }

  /** The values of hex digits, parity or not. */
  function Values(x: seq<bv8>): (v: seq<bv8>)
    ensures |v| == |x|
  {
    seq(|x|, i requires 0 <= i < |x| => Nibble(x[i]))
  }

  /** The bytes that digits stand for. */
  function Decoded(x: seq<bv8>): (w: seq<bv8>)
    requires |x| % 2 == 0
    ensures 2 * |w| == |x|
  {
    Joined(Values(x))
  }

  lemma {:induction false} JoinedAt(v: seq<bv8>, j: nat)
    requires |v| % 2 == 0 && 2 * j < |v|
    ensures Joined(v)[j] == (v[2 * j] << 4) | v[2 * j + 1]
    decreases v
  {
    if j > 0 {
      JoinedAt(v[2..], j - 1);
    }
  }

  lemma DigitOffLine(r: RxMode, c: bv8, count: nat, rest: Input, cancels: nat)
    requires !NeedsSlowPath(r, c)
    ensures TakeNibbles(r, count + 1, Octet(c, rest), cancels)
         == if Nibble(c) == 0xff then Taken(INVALID_HEADER, [], rest, 0)
            else var more := TakeNibbles(r, count, rest, 0); more.(bytes := [Nibble(c)] + more.bytes)
  {
    hide Next, Nibble, NeedsSlowPath;
    NextPlain(r, c, rest, cancels);
  }

  lemma {:induction false} DigitsOffLine(r: RxMode, x: seq<bv8>, rest: Input, cancels: nat)
    requires AllDigits(r, x)
    ensures TakeNibbles(r, |x|, Feed(x, rest), cancels) == Taken(OK, Values(x), rest, if x == [] then cancels else 0)
    decreases x
  {
    hide TakeNibbles, Nibble, NeedsSlowPath;
    if x == [] {
      NoNibbles(r, rest, cancels);
    } else {
      DigitOffLine(r, x[0], |x[1..]|, Feed(x[1..], rest), cancels);
      DigitsOffLine(r, x[1..], rest, 0);
      assert Values(x) == [Nibble(x[0])] + Values(x[1..]);
    }
  }

  /** Where digits end, what asked for more of them stops. */
  lemma {:induction false} DigitsStop(r: RxMode, x: seq<bv8>, c: bv8, count: nat, rest: Input, cancels: nat)
    requires AllDigits(r, x) && |x| < count && !NeedsSlowPath(r, c) && Nibble(c) == 0xff
    ensures var k := TakeNibbles(r, count, Feed(x, Octet(c, rest)), cancels);
            k.code == INVALID_HEADER && k.rest == rest && k.cancels == 0
    decreases x
  {
    hide TakeNibbles, Nibble, NeedsSlowPath;
    if x == [] {
      DigitOffLine(r, c, count - 1, rest, cancels);
    } else {
      DigitOffLine(r, x[0], count - 1, Feed(x[1..], Octet(c, rest)), cancels);
      DigitsStop(r, x[1..], c, count - 1, rest, 0);
    }
  }

  lemma HexStops(r: RxMode, n: nat, x: seq<bv8>, c: bv8, rest: Input, cancels: nat)
    requires AllDigits(r, x) && |x| < 2 * n + 4 && !NeedsSlowPath(r, c) && Nibble(c) == 0xff
    ensures ReadHex(r, n, Feed(x, Octet(c, rest)), cancels) == Body(INVALID_HEADER, [], r, rest, 0)
  {
    hide TakeNibbles, Joined, Sum16, Word16, Nibble, NeedsSlowPath, EndOfLine, IsDigit, TakeHex, ReadHex;
    if |x| < 2 * n {
      HexFieldStops(r, n, x, c, rest, cancels);
      ReadHexStops(r, n, Feed(x, Octet(c, rest)), cancels);
    } else {
      var a, b := x[..2 * n], x[2 * n..];
      assert x == a + b;
      FeedConcat(a, b, Octet(c, rest));
      HexFieldRead(r, a, Feed(b, Octet(c, rest)), cancels);
      HexFieldStops(r, 2, b, c, rest, if a == [] then cancels else 0);
      ReadHexStops(r, n, Feed(x, Octet(c, rest)), cancels);
    }
  }

  /** A field that stops is the end of the header. */
  lemma ReadHexStops(r: RxMode, n: nat, input: Input, cancels: nat)
    ensures var h := TakeHex(r, n, input, cancels);
            var k := if h.code < OK then h else TakeHex(r, 2, h.rest, h.cancels);
            k.code < OK ==> ReadHex(r, n, input, cancels) == Body(k.code, [], r, k.rest, k.cancels)
  {
    hide TakeHex, Word16, Sum16, EndOfLine;
  }

  lemma HexFieldStops(r: RxMode, n: nat, x: seq<bv8>, c: bv8, rest: Input, cancels: nat)
    requires AllDigits(r, x) && |x| < 2 * n && !NeedsSlowPath(r, c) && Nibble(c) == 0xff
    ensures TakeHex(r, n, Feed(x, Octet(c, rest)), cancels) == Taken(INVALID_HEADER, [], rest, 0)
  {
    hide TakeNibbles, Joined, Nibble, NeedsSlowPath, IsDigit;
    DigitsStop(r, x, c, 2 * n, rest, cancels);
  }

  lemma HexFieldRead(r: RxMode, x: seq<bv8>, rest: Input, cancels: nat)
    requires AllDigits(r, x) && |x| % 2 == 0
    ensures TakeHex(r, |x| / 2, Feed(x, rest), cancels) == Taken(OK, Decoded(x), rest, if x == [] then cancels else 0)
  {
    hide TakeNibbles, Joined, Nibble, NeedsSlowPath, IsDigit;
    DigitsOffLine(r, x, rest, cancels);
  }

  /** A hex header of the standard length, or the part of any behind its length, in digits that do not carry the
      check of what they stand for. */
  lemma HexRefused(r: RxMode, n: nat, x: seq<bv8>, rest: Input, cancels: nat)
    requires AllDigits(r, x) && |x| == 2 * n + 4 && Decoded(x[2 * n..]) != Bytes16(Sum16(Decoded(x[..2 * n])))
    ensures ReadHex(r, n, Feed(x, rest), cancels) == Body(INVALID_HEADER, [], r, rest, 0)
  {
    hide TakeHex, TakeNibbles, Joined, Sum16, Word16, Bytes16, Nibble, NeedsSlowPath, EndOfLine, IsDigit;
    var a, b := x[..2 * n], x[2 * n..];
    assert x == a + b;
    FeedConcat(a, b, rest);
    HexFieldRead(r, a, Feed(b, rest), cancels);
    HexFieldRead(r, b, rest, if a == [] then cancels else 0);
    BytesOfWord16(Decoded(b));
  }

  lemma {:induction false} HexAt(w: seq<bv8>, j: nat)
    requires j < |w|
    ensures HexBytes(w)[2 * j] == NibbleByte(w[j] >> 4) && HexBytes(w)[2 * j + 1] == NibbleByte(w[j])
    decreases w
  {
    hide NibbleByte;
    if j > 0 {
      HexAt(w[1..], j - 1);
    }
  }

  lemma NibblePairIs(b: bv8)
    ensures (Nibble(NibbleByte(b >> 4)) << 4) | Nibble(NibbleByte(b)) == b
  {
    NibbleIsUndone(b >> 4);
    NibbleIsUndone(b);
    HighNibble(b);
  }

  lemma OtherNibble(a: bv8, b: bv8, c: bv8)
    requires a <= 0x0f && b <= 0x0f && c <= 0x0f && a != c
    ensures (a << 4) | b != (c << 4) | b && (b << 4) | a != (b << 4) | c
  {}

  lemma DigitsOf(r: RxMode, w: seq<bv8>)
    ensures AllDigits(r, HexBytes(w)) && Decoded(HexBytes(w)) == w && AllIdle(HexBytes(w))
  {
    hide Joined, NibbleByte, Nibble, NeedsSlowPath, HexBytes, IsIdle;
    var x := HexBytes(w);
    HexQuiet(w);
    forall i | 0 <= i < |x|
      ensures IsDigit(r, x[i]) && IsIdle(x[i])
    {
      HexAt(w, i / 2);
      NibbleIsUndone(w[i / 2] >> 4);
      NibbleIsUndone(w[i / 2]);
      LettersAreFast(r, x[i]);
      QuietIsIdle(x[i]);
    }
    forall j | 0 <= j < |w|
      ensures Decoded(x)[j] == w[j]
    {
      JoinedAt(Values(x), j);
      HexAt(w, j);
      NibblePairIs(w[j]);
    }
  }

  lemma QuietIsIdle(c: bv8)
    requires 0x30 <= c <= 0x66 && c != 0x40
    ensures IsIdle(c)
  {}

  /** The end of a line, of any parity, with or without CR. */
  predicate IsLineEnd(e: seq<bv8>) {
    (|e| == 1 && e[0] & 0x7f == LF) || (|e| == 2 && e[0] & 0x7f == CR && e[1] & 0x7f == LF)
  }

  lemma AnyLineEnd(r: RxMode, e: seq<bv8>, rest: Input, cancels: nat)
    requires IsLineEnd(e)
    ensures EndOfLine(r, Feed(e, rest), cancels) == Taken(OK, [], rest, 0)
  {
    LineEndBytes(e[0]);
    if |e| == 1 {
      FeedOne(e[0], rest);
      assert e == [e[0]];
    } else {
      LineEndBytes(e[1]);
      FeedTwo(e[0], e[1], rest);
      assert e == [e[0], e[1]];
    }
  }

  lemma LineEndBytes(c: bv8)
    ensures c & 0x7f == LF || c & 0x7f == CR ==> c != CAN && !IsFlowControl(c)
  {}

  /** The parity of hex digits does not matter, nor how their line ends. */
  lemma HexOfAnyParity(r: RxMode, h: seq<bv8>, x: seq<bv8>, e: seq<bv8>, rest: Input, cancels: nat)
    requires AllDigits(r, x) && Values(x) == Values(HexBytes(h + Bytes16(Sum16(h)))) && IsLineEnd(e)
    ensures ReadHex(r, |h|, Feed(x + e, rest), cancels) == Body(OK, h, r, rest, 0)
  {
    hide TakeHex, TakeNibbles, Joined, Sum16, Word16, Bytes16, Nibble, NeedsSlowPath, EndOfLine, IsDigit, HexBytes;
    var n, w := |h|, h + Bytes16(Sum16(h));
    DigitsOf(r, w);
    var a, b := x[..2 * n], x[2 * n..];
    DecodedSplits(x, 2 * n);
    assert Decoded(x) == w;
    assert x + e == a + (b + e);
    FeedConcat(a, b + e, rest);
    FeedConcat(b, e, rest);
    HexFieldRead(r, a, Feed(b, Feed(e, rest)), cancels);
    HexFieldRead(r, b, Feed(e, rest), if a == [] then cancels else 0);
    WordOfBytes16(Sum16(h));
    AnyLineEnd(r, e, rest, 0);
  }

  /** One digit changed: one byte changed. */
  lemma DigitChanges(r: RxMode, w: seq<bv8>, i: nat, c: bv8)
    requires i < 2 * |w| && IsDigit(r, c) && Nibble(c) != Nibble(HexBytes(w)[i])
    ensures var x := HexBytes(w)[i := c];
            AllDigits(r, x) && Decoded(x)[i / 2] != w[i / 2] && Decoded(x) == w[i / 2 := Decoded(x)[i / 2]]
  {
    hide Joined, Nibble, NeedsSlowPath, HexBytes, IsIdle, IsDigit;
    var x, y := HexBytes(w), HexBytes(w)[i := c];
    var m := i / 2;
    DigitsOf(r, w);
    forall j | 0 <= j < |w|
      ensures j != m ==> Decoded(y)[j] == w[j]
    {
      JoinedAt(Values(x), j);
      JoinedAt(Values(y), j);
    }
    OtherDigit(r, x, i, c);
    assert Decoded(y) == w[m := Decoded(y)[m]];
  }

  lemma OtherDigit(r: RxMode, x: seq<bv8>, i: nat, c: bv8)
    requires AllDigits(r, x) && |x| % 2 == 0 && i < |x| && IsDigit(r, c) && Nibble(c) != Nibble(x[i])
    ensures Decoded(x[i := c])[i / 2] != Decoded(x)[i / 2]
  {
    hide Joined, Nibble, NeedsSlowPath;
    var m := i / 2;
    JoinedAt(Values(x), m);
    JoinedAt(Values(x[i := c]), m);
    assert IsDigit(r, x[2 * m]) && IsDigit(r, x[2 * m + 1]);
    OtherNibble(Nibble(x[i]), Nibble(x[if i == 2 * m then i + 1 else 2 * m]), Nibble(c));
  }

  /** The bytes of a hex header on the line, up to the end of its line. */
  function HexText(h: seq<bv8>): seq<bv8>
    requires IsHeader(h)
  {
    HexBytes(Length(h) + h + Bytes16(Sum16(h)))
  }

  /** What is left when one of them has become another: nothing, or what stands behind it if that is no digit. */
  function LeftBehind(x: seq<bv8>, i: nat, c: bv8): seq<bv8>
    requires i < |x|
  {
    if Nibble(c) == 0xff then x[i + 1..] + [CR, LF] else [CR, LF]
  }

  /** A hex header of the standard length with one digit changed is refused. */
  lemma HexDigitRefused(r: RxMode, h: seq<bv8>, i: nat, c: bv8, rest: Input, cancels: nat)
    requires i < 2 * |h| + 4 && !NeedsSlowPath(r, c)
    requires Nibble(c) != Nibble(HexBytes(h + Bytes16(Sum16(h)))[i])
    ensures var x := HexBytes(h + Bytes16(Sum16(h)));
            ReadHex(r, |h|, Feed(x[i := c] + [CR, LF], rest), cancels)
              == Body(INVALID_HEADER, [], r, Feed(LeftBehind(x, i, c), rest), 0)
  {
    hide HexBytes, Sum16, Bytes16, Nibble, NeedsSlowPath, ReadHex, Joined, IsDigit;
    var w := h + Bytes16(Sum16(h));
    var x := HexBytes(w);
    var y := x[i := c];
    DigitsOf(r, w);
    if Nibble(c) == 0xff {
      var behind := x[i + 1..] + [CR, LF];
      assert y + [CR, LF] == x[..i] + ([c] + behind);
      FeedConcat(x[..i], [c] + behind, rest);
      assert ([c] + behind)[1..] == behind;
      HexStops(r, |h|, x[..i], c, Feed(behind, rest), cancels);
    } else {
      assert IsDigit(r, c) by {
        DigitIs(r, c);
      }
      DigitChanges(r, w, i, c);
      var b := Decoded(y)[i / 2];
      FeedConcat(y, [CR, LF], rest);
      DecodedSplits(y, 2 * |h|);
      OneByteBreaksSum(h, i / 2, b);
      HexRefused(r, |h|, y, Feed([CR, LF], rest), cancels);
    }
  }

  lemma DigitIs(r: RxMode, c: bv8)
    requires Nibble(c) != 0xff && !NeedsSlowPath(r, c)
    ensures IsDigit(r, c)
  {}

  lemma DecodedSplits(y: seq<bv8>, n: nat)
    requires n <= |y| && |y| % 2 == 0 && n % 2 == 0
    ensures Decoded(y[..n]) == Decoded(y)[..n / 2] && Decoded(y[n..]) == Decoded(y)[n / 2..]
  {
    hide Joined, Nibble;
    forall j | 0 <= j < |y| / 2
      ensures Decoded(y)[j] == if 2 * j < n then Decoded(y[..n])[j] else Decoded(y[n..])[j - n / 2]
    {
      JoinedAt(Values(y), j);
      if 2 * j < n {
        JoinedAt(Values(y[..n]), j);
      } else {
        JoinedAt(Values(y[n..]), j - n / 2);
      }
    }
  }

  /** One byte changed, in the header or in its check. */
  lemma OneByteBreaksSum(h: seq<bv8>, m: nat, b: bv8)
    requires m < |h| + 2 && b != (h + Bytes16(Sum16(h)))[m]
    ensures var w := (h + Bytes16(Sum16(h)))[m := b];
            w[|h|..] != Bytes16(Sum16(w[..|h|]))
  {
    hide Sum16, Bytes16;
    var w := (h + Bytes16(Sum16(h)))[m := b];
    if m < |h| {
      assert w[|h|..] == Bytes16(Sum16(h));
      assert h == h[..m] + [h[m]] + h[m + 1..] && w[..|h|] == h[..m] + [b] + h[m + 1..];
      BurstChangesSum16(h[..m], [h[m]], [b], h[m + 1..]);
      WordOfBytes16(Sum16(h));
      WordOfBytes16(Sum16(w[..|h|]));
    } else {
      assert w[..|h|] == h;
      assert w[|h|..][m - |h|] == b;
    }
  }

  lemma {:induction false} LengthDigits(r: RxMode, h: seq<bv8>, more: seq<bv8>, rest: Input)
    requires IsHeader(h)
    ensures ReadLength(r, true, Feed(HexBytes([ParameterCount(h)]) + more, rest), 0)
         == Taken(OK, [ParameterCount(h)], Feed(more, rest), 0)
  {
    hide TakeHex, HexBytes, ParameterCount;
    FeedConcat(HexBytes([ParameterCount(h)]), more, rest);
    HexTaken(r, [ParameterCount(h)], Feed(more, rest), 0);
    CountFits(h);
  }

  /** Any hex header with one of its characters changed into one that has another value, or none; but of the two
      digits of its length, which no check covers, only into one that has none. */
  lemma HexCharacterRefused(f: Flags, r: RxMode, h: seq<bv8>, i: nat, c: bv8, rest: Input)
    requires IsHeader(h) && StyleOf(f).Hex? && i < |HexText(h)| && !NeedsSlowPath(r.(moby := false), c)
    requires Nibble(c) != Nibble(HexText(h)[i]) && (i < 2 * |Length(h)| ==> Nibble(c) == 0xff)
    ensures ReadBody(r, StyleByte(f, h), Feed(HexText(h)[i := c] + [CR, LF], rest), 0)
         == Body(INVALID_HEADER, [], ModeBehind(f, r), Feed(LeftBehind(HexText(h), i, c), rest), 0)
  {
    hide HexBytes, Bytes16, Sum16, ParameterCount, ReadHex, ReadVariable, NeedsSlowPath, Nibble, LeftBehind, Length;
    var q := r.(moby := false);
    LengthNone(h, Bytes16(Sum16(h)));
    LengthOf(h);
    if |h| == HDRLEN {
      HexDigitRefused(q, h, i, c, rest, 0);
    } else {
      VariableDigitRefused(q, h, i, c, rest);
    }
  }

  lemma LengthOf(h: seq<bv8>)
    requires IsHeader(h)
    ensures |Length(h)| == if |h| == HDRLEN then 0 else 1
  {}

  lemma VariableDigitRefused(r: RxMode, h: seq<bv8>, i: nat, c: bv8, rest: Input)
    requires IsHeader(h) && !NeedsSlowPath(r, c)
    requires var x := HexBytes([ParameterCount(h)] + h + Bytes16(Sum16(h)));
             i < |x| && Nibble(c) != Nibble(x[i]) && (i < 2 ==> Nibble(c) == 0xff)
    ensures var x := HexBytes([ParameterCount(h)] + h + Bytes16(Sum16(h)));
            ReadVariable(r, ZVHEX, Feed(x[i := c] + [CR, LF], rest), 0)
              == Body(INVALID_HEADER, [], r, Feed(LeftBehind(x, i, c), rest), 0)
  {
    hide HexBytes, Bytes16, Sum16, ParameterCount, ReadHex, ReadLength, NeedsSlowPath, Nibble;
    var k, n := Bytes16(Sum16(h)), [ParameterCount(h)];
    var body := HexBytes(h + k);
    assert n + h + k == n + (h + k);
    HexConcat(n, h + k);
    var x := HexBytes(n) + body;
    if i < 2 {
      LengthStops(r, x, i, c, rest, n + (h + k));
    } else {
      var after := body[i - 2 := c] + [CR, LF];
      assert x[i := c] + [CR, LF] == HexBytes(n) + after;
      LengthDigits(r, h, after, rest);
      CountFits(h);
      HexDigitRefused(r, h, i - 2, c, rest, 0);
      assert x[i + 1..] == body[i - 1..];
    }
  }

  lemma LengthStops(r: RxMode, x: seq<bv8>, i: nat, c: bv8, rest: Input, w: seq<bv8>)
    requires x == HexBytes(w) && i < 2 <= |x| && !NeedsSlowPath(r, c) && Nibble(c) == 0xff
    ensures ReadLength(r, true, Feed(x[i := c] + [CR, LF], rest), 0)
         == Taken(INVALID_HEADER, [], Feed(x[i + 1..] + [CR, LF], rest), 0)
  {
    hide HexBytes, Nibble, NeedsSlowPath, TakeNibbles, Joined, IsDigit;
    DigitsOf(r, w);
    var behind := x[i + 1..] + [CR, LF];
    assert x[i := c] + [CR, LF] == x[..i] + ([c] + behind);
    FeedConcat(x[..i], [c] + behind, rest);
    assert ([c] + behind)[1..] == behind;
    DigitsStop(r, x[..i], c, 2, Feed(behind, rest), 0);
  }

  /** So a hex header with one such change is passed over, or reported, with the next header still there. */
  lemma ChangedDigitIsPassedOver(f: Flags, h: seq<bv8>, i: nat, c: bv8, tail: seq<bv8>, g: Flags, next: seq<bv8>,
                                 r: RxMode, p: Probe, rest: Input, cancels: nat)
    requires IsHeader(h) && StyleOf(f).Hex? && i < |HexText(h)| && !NeedsSlowPath(r.(moby := false), c)
    requires Nibble(c) != Nibble(HexText(h)[i]) && (i < 2 * |Length(h)| ==> Nibble(c) == 0xff)
    requires AllIdle(tail) && IsHeader(next) && (r.escctl ==> g.escctl) && p.index < |PROBE|
    ensures var line := Feed(Front(2, StyleByte(f, h)) + (HexText(h)[i := c] + [CR, LF]) + tail,
                             Feed(HeaderWire(g, next), rest));
            && FindHeader(r, false, p, line, cancels)
               == Found(OK, next, ModeAfter(g, r), p.passed, Feed(HeaderTrailer(g, next), rest), 0)
            && FindHeader(r, true, p, line, cancels)
               == Found(INVALID_HEADER, [], ModeAfter(f, r), false,
                        Feed(LeftBehind(HexText(h), i, c) + tail, Feed(HeaderWire(g, next), rest)), 0)
  {
    hide FindHeader, ReadBody, HeaderWire, HeaderTrailer, HexBytes, IsIdle, IsStyle, Nibble, NeedsSlowPath, Sum16,
      Bytes16;
    var x := HexText(h);
    HexCharacterRefused(f, r, h, i, c, Feed(tail, Feed(HeaderWire(g, next), rest)));
    DigitsOf(r, Length(h) + h + Bytes16(Sum16(h)));
    LineEndIsIdle();
    HexIsOrdinary(f);
    RefusedThenGood(f, StyleByte(f, h), x[i := c] + [CR, LF], LeftBehind(x, i, c), tail, g, next, r, p, rest, cancels);
  }

  lemma HexIsOrdinary(f: Flags)
    requires StyleOf(f).Hex?
    ensures Pads(f) == 2 && !f.esc8 && !f.moby
  {}

  // ---------- What the checks detect ----------

  /** A burst inside the header, up to four bytes long under a CRC-32 and up to two under a CRC-16, or any change
      of the check itself: the check does not hold any more. */
  lemma BurstBreaksCheck(f: Flags, front: seq<bv8>, u: seq<bv8>, v: seq<bv8>, back: seq<bv8>)
    requires |u| == |v| <= CheckLength(f) && u != v
    ensures Check(f, front + u + back) != Check(f, front + v + back)
  {
    hide Bytes16, Bytes32, Sum16, Sum32, SumOmen;
    var h, h' := front + u + back, front + v + back;
    WordOfBytes16(Sum16(h));
    WordOfBytes16(Sum16(h'));
    WordOfBytes32(Sum32(h));
    WordOfBytes32(Sum32(h'));
    WordOfBytes32(SumOmen(h));
    WordOfBytes32(SumOmen(h'));
    if CheckLength(f) == 2 {
      BurstChangesSum16(front, u, v, back);
    } else {
      BurstChangesSum32(front, u, v, back);
      BurstChangesSumOmen(front, u, v, back);
    }
  }

  lemma BurstChangesSum16(front: seq<bv8>, u: seq<bv8>, v: seq<bv8>, back: seq<bv8>)
    requires |u| == |v| <= 2 && u != v
    ensures Sum16(front + u + back) != Sum16(front + v + back)
  {
    hide Crc16.Fold16, Crc16.Byte16;
    Crc16.BurstChanges16(0, front, u, v, back);
    var a, b := Crc16.Fold16(0, front + u + back), Crc16.Fold16(0, front + v + back);
    if Crc16.Byte16(Crc16.Byte16(a, 0), 0) == Crc16.Byte16(Crc16.Byte16(b, 0), 0) {
      Crc16.ByteUpdateIsInjective(Crc16.Byte16(a, 0), Crc16.Byte16(b, 0), 0);
      Crc16.ByteUpdateIsInjective(a, b, 0);
    }
  }

  lemma BurstChangesSum32(front: seq<bv8>, u: seq<bv8>, v: seq<bv8>, back: seq<bv8>)
    requires |u| == |v| <= 4 && u != v
    ensures Sum32(front + u + back) != Sum32(front + v + back)
  {
    hide Crc.Fold32;
    Crc.BurstChanges32(0xffffffff, front, u, v, back);
    NotIsInjective(Crc.Fold32(0xffffffff, front + u + back), Crc.Fold32(0xffffffff, front + v + back));
  }

  lemma BurstChangesSumOmen(front: seq<bv8>, u: seq<bv8>, v: seq<bv8>, back: seq<bv8>)
    requires |u| == |v| <= 4 && u != v
    ensures SumOmen(front + u + back) != SumOmen(front + v + back)
  {
    hide Crc.Fold32;
    var h, h' := front + u + back, front + v + back;
    Crc.FoldConcat(0xffffffff, h, OMEN_SUFFIX);
    Crc.FoldConcat(0xffffffff, h', OMEN_SUFFIX);
    assert h + OMEN_SUFFIX == front + u + (back + OMEN_SUFFIX) && h' + OMEN_SUFFIX == front + v + (back + OMEN_SUFFIX);
    Crc.BurstChanges32(0xffffffff, front, u, v, back + OMEN_SUFFIX);
    NotIsInjective(Crc.Fold32(0xffffffff, h + OMEN_SUFFIX), Crc.Fold32(0xffffffff, h' + OMEN_SUFFIX));
  }

  lemma NotIsInjective(a: bv32, b: bv32)
    requires a != b
    ensures !a != !b
  {}
}
