/** zmdm.c: the headers of every style, written and read, as functions on bytes. */
module Headers {
  import opened Bytes
  import opened Quoting
  import opened Omen
  import Crc
  import Crc16

  // ---------- The sender's flags ----------

  /** can_fcs_32, want_fcs_32, escape_all_control_characters, escape_8th_bit, escape_iac, use_pack7 and
      use_mobyturbo. */
  datatype Flags = Flags(canFcs32: bool, wantFcs32: bool, escctl: bool, esc8: bool, iac: bool, pack7: bool, moby: bool)

  datatype Style = Hex | Bin16 | Bin32 | Moby | OmenRle | OmenPack

  /** tx_header_length's choice. */
  function StyleOf(f: Flags): Style {
    if f.esc8 then (if f.pack7 then OmenPack else OmenRle)
    else if f.moby then Moby
    else if f.canFcs32 && f.wantFcs32 then Bin32
    else if f.canFcs32 then Bin16
    else Hex
  }

  predicate IsHeader(h: seq<bv8>) {
    HDRLEN <= |h| <= ZMAXHLEN + 1
  }

  /** zmodem_set_header_position on a header of type t, with what follows the position. */
  function PositionHeader(t: bv8, position: bv32, more: seq<bv8>): seq<bv8> {
    [t] + Bytes32(position) + more
  }

  /** zmodem_header_position */
  function HeaderPosition(h: seq<bv8>): bv32
    requires |h| >= HDRLEN
  {
    Word32(h[1..HDRLEN])
  }

  /** A position is read from a header as it was set, whatever stands behind it. */
  lemma PositionRoundTrip(t: bv8, position: bv32, more: seq<bv8>)
    ensures HeaderPosition(PositionHeader(t, position, more)) == position
    ensures PositionHeader(t, position, more)[0] == t
  {
    hide Bytes32, Word32;
    assert PositionHeader(t, position, more)[1..HDRLEN] == Bytes32(position);
    WordOfBytes32(position);
  }

  // ---------- Frame checks ----------

  function Latin(s: string): (w: seq<bv8>)
    ensures |w| == |s|
  {
    seq(|s|, i requires 0 <= i < |s| => (s[i] as int % 256) as bv8)
  }

  /** The byte string behind the header in the frame check of Omen's headers. */
  const OMEN_SUFFIX: seq<bv8> := Latin("Copyright 1989 Omen Technology INC All Rights Reserved")

  function Sum16(h: seq<bv8>): bv16 {
    Crc16.Byte16(Crc16.Byte16(Crc16.Fold16(0, h), 0), 0)
  }

  function Sum32(h: seq<bv8>): bv32 {
    !Crc.Fold32(0xffffffff, h)
  }

  function SumOmen(h: seq<bv8>): bv32 {
    !Crc.Fold32(Crc.Fold32(0xffffffff, h), OMEN_SUFFIX)
  }

  // ---------- Writing ----------

  function ParameterCount(h: seq<bv8>): (n: bv8)
    requires IsHeader(h)
  {
    (|h| - 1) as bv8
  }

  /** tx_nibble */
  function NibbleByte(n: bv8): bv8 {
    var low := n & 0x0f;
    if low < 10 then low + 0x30 else low + 0x57
  }

  /** tx_hex */
  function HexByte(b: bv8): seq<bv8> {
    [NibbleByte(b >> 4), NibbleByte(b)]
  }

  function HexBytes(w: seq<bv8>): (x: seq<bv8>)
    ensures |x| == 2 * |w|
    decreases w
  {
    if w == [] then [] else HexByte(w[0]) + HexBytes(w[1..])
  }

  /** XON behind a hex header, unless it is a ZACK or ZFIN. */
  function HexTrailer(h: seq<bv8>): seq<bv8>
    requires h != []
  {
    if h[0] != ZACK && h[0] != ZFIN then [XON] else []
  }

  function Front(pads: nat, style: bv8): seq<bv8> {
    if pads == 1 then [ZPAD, ZDLE, style] else [ZPAD, ZPAD, ZDLE, style]
  }

  /** The length, in a header that does not have the standard one. */
  function Length(h: seq<bv8>): seq<bv8>
    requires IsHeader(h)
  {
    if |h| == HDRLEN then [] else [ParameterCount(h)]
  }

  /** tx_hex_header_length, in front of the trailing XON. */
  function HexHeader(h: seq<bv8>): seq<bv8>
    requires IsHeader(h)
  {
    Front(2, if |h| == HDRLEN then ZHEX else ZVHEX) + HexBytes(Length(h) + h + Bytes16(Sum16(h))) + [CR, LF]
  }

  function PlainMode(f: Flags): TxMode {
    TxMode(false, f.escctl, f.iac)
  }

  function MobyMode(f: Flags): TxMode {
    TxMode(true, f.escctl, f.iac)
  }

  /** tx_bin16_header */
  function Bin16Header(f: Flags, h: seq<bv8>): seq<bv8>
    requires IsHeader(h)
  {
    var style := if |h| == HDRLEN then ZBIN else ZVBIN;
    Front(2, style) + Escape(PlainMode(f), style, Length(h) + h + Bytes16(Sum16(h)))
  }

  /** tx_bin32_header */
  function Bin32Header(f: Flags, h: seq<bv8>): seq<bv8>
    requires IsHeader(h)
  {
    var style := if |h| == HDRLEN then ZBIN32 else ZVBIN32;
    Front(2, style) + Escape(PlainMode(f), style, Length(h) + h + Bytes32(Sum32(h)))
  }

  /** tx_mobyturbo_header */
  function MobyHeader(f: Flags, h: seq<bv8>): seq<bv8>
    requires IsHeader(h)
  {
    Front(1, ZBINM32) + Escape(MobyMode(f), ZBINM32, [ParameterCount(h)] + h + Bytes32(SumOmen(h)))
  }

  /** The count of an Omen header: 0x22 stands for none. */
  function OmenCountByte(h: seq<bv8>): bv8
    requires IsHeader(h)
  {
    (0x22 + |h| - 1) as bv8
  }

  /** tx_omen_header */
  function OmenHeader(f: Flags, h: seq<bv8>): seq<bv8>
    requires IsHeader(h)
  {
    Front(1, if f.pack7 then ZBINP7 else ZBINR32ESC8) + [OmenCountByte(h)]
    + OmenBytes(f.escctl, h + Bytes32(SumOmen(h)))
  }

  /** tx_header_length, in front of the XON of a hex header. */
  function HeaderBody(f: Flags, h: seq<bv8>): seq<bv8>
    requires IsHeader(h)
  {
    match StyleOf(f)
    case Hex => HexHeader(h)
    case Bin16 => Bin16Header(f, h)
    case Bin32 => Bin32Header(f, h)
    case Moby => MobyHeader(f, h)
    case OmenRle => OmenHeader(f, h)
    case OmenPack => OmenHeader(f, h)
  }

  function HeaderTrailer(f: Flags, h: seq<bv8>): seq<bv8>
    requires IsHeader(h)
  {
    if StyleOf(f).Hex? then HexTrailer(h) else []
  }

  function HeaderWire(f: Flags, h: seq<bv8>): seq<bv8>
    requires IsHeader(h)
  {
    HeaderBody(f, h) + HeaderTrailer(f, h)
  }

  // ---------- Reading the bodies ----------

  /** A header read, or the code of what was wrong with it; and the receive modes left behind. */
  datatype Body = Body(code: int, header: seq<bv8>, mode: RxMode, rest: Input, cancels: nat)

  /** rx_bin16_header and rx_bin32_header */
  function ReadBinary(r: RxMode, fcs32: bool, count: nat, input: Input, cancels: nat): Body {
    var h := Take(r, count, INVALID_HEADER, input, cancels);
    if h.code < OK then Body(h.code, [], r, h.rest, h.cancels)
    else
      var k := Take(r, if fcs32 then 4 else 2, INVALID_HEADER, h.rest, h.cancels);
      if k.code < OK then Body(k.code, [], r, k.rest, k.cancels)
      else if (if fcs32 then Word32(k.bytes) == Sum32(h.bytes) else Word16(k.bytes) == Sum16(h.bytes)) then
        Body(OK, h.bytes, r, k.rest, k.cancels)
      else Body(INVALID_HEADER, [], r, k.rest, k.cancels)
  }

  /** rx_nibble's reading of a character; anything but a digit or a lower-case letter up to f is none. */
  function Nibble(b: bv8): (n: bv8)
    ensures n <= 0x0f || n == 0xff
  {
    var c := b & 0x7f;
    if 0x61 <= c <= 0x66 then c - 0x57
    else if 0x30 <= c <= 0x39 then c - 0x30
    else 0xff
  }

  /** rx_nibble, n times over. */
  function TakeNibbles(r: RxMode, n: nat, input: Input, cancels: nat): (k: Taken)
    ensures k.code <= OK
    ensures k.code == OK ==> |k.bytes| == n
    decreases n
  {
    if n == 0 then Taken(OK, [], input, cancels)
    else
      var s := Next(r, Fresh, input, cancels);
      match s.symbol
      case Fail(code) => Taken(code, [], s.rest, s.cancels)
      case End(_) => Taken(INVALID_HEADER, [], s.rest, s.cancels)
      case Byte(b) =>
        if Nibble(b) == 0xff then Taken(INVALID_HEADER, [], s.rest, s.cancels)
        else
          var more := TakeNibbles(r, n - 1, s.rest, s.cancels);
          more.(bytes := [Nibble(b)] + more.bytes)
  }

  /** Pairs of nibbles, high one first. */
  function Joined(nibbles: seq<bv8>): (w: seq<bv8>)
    requires |nibbles| % 2 == 0
    ensures 2 * |w| == |nibbles|
    decreases nibbles
  {
    if nibbles == [] then [] else [(nibbles[0] << 4) | nibbles[1]] + Joined(nibbles[2..])
  }

  /** rx_hex, n times over. */
  function TakeHex(r: RxMode, n: nat, input: Input, cancels: nat): (k: Taken)
    ensures k.code <= OK && (k.code < OK ==> k.bytes == [])
    ensures k.code == OK ==> |k.bytes| == n
  {
    var k := TakeNibbles(r, 2 * n, input, cancels);
    if k.code == OK then k.(bytes := Joined(k.bytes)) else k.(bytes := [])
  }

  /** rx_hex_terminator_byte */
  function LineByte(r: RxMode, input: Input, cancels: nat): (s: Scan)
    ensures !s.symbol.End?
    decreases input
  {
    var raw := Raw(r, input, cancels);
    if raw.symbol.Byte? && IsFlowControl(raw.symbol.b) then LineByte(r, raw.rest, raw.cancels) else raw
  }

  /** The end of line behind a hex header: LF, or CR LF. */
  function EndOfLine(r: RxMode, input: Input, cancels: nat): (k: Taken)
    ensures k.code <= OK
  {
    var a := LineByte(r, input, cancels);
    if !a.symbol.Byte? then Taken(a.symbol.code, [], a.rest, a.cancels)
    else
      var b := if a.symbol.b & 0x7f == CR then LineByte(r, a.rest, a.cancels) else a;
      if !b.symbol.Byte? then Taken(b.symbol.code, [], b.rest, b.cancels)
      else Taken(if b.symbol.b & 0x7f == LF then OK else INVALID_HEADER, [], b.rest, b.cancels)
  }

  /** rx_hex_header */
  function ReadHex(r: RxMode, count: nat, input: Input, cancels: nat): Body {
    var h := TakeHex(r, count, input, cancels);
    if h.code < OK then Body(h.code, [], r, h.rest, h.cancels)
    else
      var k := TakeHex(r, 2, h.rest, h.cancels);
      if k.code < OK then Body(k.code, [], r, k.rest, k.cancels)
      else if Word16(k.bytes) != Sum16(h.bytes) then Body(INVALID_HEADER, [], r, k.rest, k.cancels)
      else
        var e := EndOfLine(r, k.rest, k.cancels);
        Body(e.code, if e.code == OK then h.bytes else [], r, e.rest, e.cancels)
  }

  /** rx_variable_length: the number of bytes to come, if it is allowed. */
  function ReadLength(r: RxMode, hex: bool, input: Input, cancels: nat): (k: Taken)
    ensures k.code <= OK
    ensures k.code == OK ==> |k.bytes| == 1 && 4 <= k.bytes[0] as nat <= ZMAXHLEN
  {
    var k := if hex then TakeHex(r, 1, input, cancels) else Take(r, 1, INVALID_HEADER, input, cancels);
    if k.code == OK && !(4 <= k.bytes[0] as nat <= ZMAXHLEN) then k.(code := INVALID_HEADER) else k
  }

  /** rx_omen_byte_cursor, n times over. */
  function TakeOmen(r: RxMode, n: nat, input: Input, cancels: nat): (k: Taken)
    ensures k.code <= OK
    ensures k.code == OK ==> |k.bytes| == n
    decreases n
  {
    if n == 0 then Taken(OK, [], input, cancels)
    else
      var s := OmenNext(r, BARE, input, cancels);
      match s.symbol
      case Fail(code) => Taken(code, [], s.rest, s.cancels)
      case End(_) => Taken(INVALID_HEADER, [], s.rest, s.cancels)
      case Byte(b) =>
        var more := TakeOmen(r, n - 1, s.rest, s.cancels);
        more.(bytes := [b] + more.bytes)
  }

  /** An Omen header behind its count. */
  function OmenBehindCount(r: RxMode, encoding: Encoding, count: nat, input: Input, cancels: nat): Body {
    var h := TakeOmen(r, count, input, cancels);
    if h.code < OK then Body(h.code, [], r, h.rest, h.cancels)
    else
      var k := TakeOmen(r, 4, h.rest, h.cancels);
      if k.code < OK then Body(k.code, [], r, k.rest, k.cancels)
      else if Word32(k.bytes) != SumOmen(h.bytes) then Body(INVALID_HEADER, [], r, k.rest, k.cancels)
      else Body(OK, h.bytes, RxMode(r.moby, true, encoding, Escape8Omen, r.escctl), k.rest, k.cancels)
  }

  /** rx_omen_header */
  function ReadOmen(r: RxMode, encoding: Encoding, input: Input, cancels: nat): Body {
    var c := OmenCount(r, input, cancels);
    if !c.symbol.Byte? then Body(c.symbol.code, [], r, c.rest, c.cancels)
    else
      var n := (c.symbol.b & 0x7f) as nat;
      if n < 0x22 || n - 0x22 > ZMAXHLEN then Body(INVALID_HEADER, [], r, c.rest, c.cancels)
      else OmenBehindCount(r, encoding, n - 0x21, c.rest, c.cancels)
  }

  /** The count of an Omen header, behind flow control. */
  function OmenCount(r: RxMode, input: Input, cancels: nat): (s: Scan)
    ensures !s.symbol.End?
    decreases input
  {
    var raw := Raw(r, input, cancels);
    if raw.symbol.Byte? && IsFlowControl(raw.symbol.b & 0x7f) then OmenCount(r, raw.rest, raw.cancels) else raw
  }

  /** A MobyTurbo header behind its count. */
  function MobyBehindCount(r: RxMode, count: nat, input: Input, cancels: nat): Body {
    var h := Take(r, count, INVALID_HEADER, input, cancels);
    if h.code < OK then Body(h.code, [], r, h.rest, h.cancels)
    else
      var k := Take(r, 4, INVALID_HEADER, h.rest, h.cancels);
      if k.code < OK then Body(k.code, [], r, k.rest, k.cancels)
      else if Word32(k.bytes) != SumOmen(h.bytes) then Body(INVALID_HEADER, [], r, k.rest, k.cancels)
      else Body(OK, h.bytes, RxMode(r.moby, true, Plain, Escape8None, r.escctl), k.rest, k.cancels)
  }

  /** rx_mobyturbo_header, in MobyTurbo transparency already. */
  function ReadMoby(r: RxMode, input: Input, cancels: nat): Body {
    var n := ReadLength(r, false, input, cancels);
    if n.code < OK then Body(n.code, [], r, n.rest, n.cancels)
    else MobyBehindCount(r, n.bytes[0] as nat + 1, n.rest, n.cancels)
  }

  function Selecting(b: Body, fcs32: bool, encoding: Encoding): Body {
    b.(mode := b.mode.(fcs32 := fcs32, encoding := encoding))
  }

  /** A header with its length in front. */
  function ReadVariable(r: RxMode, style: bv8, input: Input, cancels: nat): Body {
    var n := ReadLength(r, style == ZVHEX, input, cancels);
    if n.code < OK then Body(n.code, [], r, n.rest, n.cancels)
    else if style == ZVHEX then ReadHex(r, n.bytes[0] as nat + 1, n.rest, n.cancels)
    else ReadBinary(r, style != ZVBIN, n.bytes[0] as nat + 1, n.rest, n.cancels)
  }

  predicate IsStyle(style: bv8) {
    style in {ZBIN, ZHEX, ZBIN32, ZBINR32, ZVBIN, ZVHEX, ZVBIN32, ZVBINR32, ZBINR32ESC8, ZBINP7, ZBINM32}
  }

  /** The switch of rx_header_raw: the body of a header of some style, and the modes it selects. */
  function ReadBody(before: RxMode, style: bv8, input: Input, cancels: nat): Body
    requires IsStyle(style)
  {
    var r := before.(moby := false);
    if style == ZBINR32ESC8 then ReadOmen(r, Rle, input, cancels)
    else if style == ZBINP7 then ReadOmen(r, Pack7, input, cancels)
    else if style == ZBINM32 then ReadMoby(before.(moby := true), input, cancels)
    else if style == ZBIN then Selecting(ReadBinary(r, false, HDRLEN, input, cancels), false, Plain)
    else if style == ZHEX then Selecting(ReadHex(r, HDRLEN, input, cancels), false, Plain)
    else if style == ZBIN32 then Selecting(ReadBinary(r, true, HDRLEN, input, cancels), true, Plain)
    else if style == ZBINR32 then Selecting(ReadBinary(r, true, HDRLEN, input, cancels), true, Rle)
    else if style == ZVBIN || style == ZVHEX then Selecting(ReadVariable(r, style, input, cancels), false, Plain)
    else Selecting(ReadVariable(r, style, input, cancels), true, if style == ZVBINR32 then Rle else Plain)
  }

  // ---------- Finding a header ----------

  /** The byte string that tests the line for MobyTurbo. */
  const PROBE: seq<bv8> := [0x23, 0xc1, 0xd4, 0x93, 0x11]

  /** How much of the probe has gone by, and whether all of it has. */
  datatype Probe = Probe(index: nat, passed: bool)

  function ProbeStep(p: Probe, c: bv8): (q: Probe)
    requires p.index < |PROBE|
    ensures q.index < |PROBE|
  {
    if c == PROBE[p.index] then
      if p.index + 1 == |PROBE| then Probe(0, true) else Probe(p.index + 1, p.passed)
    else Probe(if c == PROBE[0] then 1 else 0, p.passed)
  }

  /** The outcome of rx_header_raw. */
  datatype Found = Found(code: int, header: seq<bv8>, mode: RxMode, probe: bool, rest: Input, cancels: nat)

  /** From ZPAD to the style byte: none if what followed the ZPAD was no header, and a failure as it came. */
  datatype Opening = Opening(symbol: Symbol, rest: Input, cancels: nat) | Spurious(rest: Input, cancels: nat)

  function Open(r: RxMode, input: Input, cancels: nat): Opening {
    var a := Raw(r, input, cancels);
    if !a.symbol.Byte? then Opening(a.symbol, a.rest, a.cancels)
    else
      var b := if a.symbol.b & 0x7f == ZPAD then Raw(r, a.rest, a.cancels) else a;
      if !b.symbol.Byte? then Opening(b.symbol, b.rest, b.cancels)
      else if b.symbol.b & 0x7f != ZDLE then Spurious(b.rest, b.cancels)
      else
        var s := Next(r, Fresh, b.rest, b.cancels);
        Opening(s.symbol, s.rest, s.cancels)
  }

  /** A failure that ends the search for a header. */
  predicate Ends(code: int) {
    code == IO_ERROR || code == CANCELLED || code == TIMEOUT
  }

  /** rx_header_raw */
  function FindHeader(r: RxMode, report: bool, p: Probe, input: Input, cancels: nat): Found
    requires p.index < |PROBE|
    decreases input
  {
    var raw := Raw(r, input, cancels);
    if !raw.symbol.Byte? then Found(raw.symbol.code, [], r, false, raw.rest, raw.cancels)
    else
      var q := ProbeStep(p, raw.symbol.b);
      if raw.symbol.b & 0x7f != ZPAD then FindHeader(r, report, q, raw.rest, raw.cancels)
      else
        OpenConsumes(r, raw.rest, raw.cancels);
        var o := Open(r, raw.rest, raw.cancels);
        if o.Spurious? then FindHeader(r, report, q, o.rest, o.cancels)
        else if o.symbol.Fail? then Found(o.symbol.code, [], r, false, o.rest, o.cancels)
        else
          var style := if o.symbol.Byte? then o.symbol.b & 0x7f else 0;
          if !IsStyle(style) then
            if report then Found(INVALID_HEADER, [], r, false, o.rest, o.cancels)
            else FindHeader(r, report, q, o.rest, o.cancels)
          else
            BodyConsumes(r, style, o.rest, o.cancels);
            var b := ReadBody(r, style, o.rest, o.cancels);
            if Ends(b.code) then Found(b.code, [], b.mode, false, b.rest, b.cancels)
            else if b.code == OK then Found(OK, b.header, b.mode, q.passed, b.rest, b.cancels)
            else if report then Found(INVALID_HEADER, [], b.mode, false, b.rest, b.cancels)
            else FindHeader(b.mode, report, q, b.rest, b.cancels)
  }

  // ---------- Reading never gives input back ----------

  /** What is left is all there was, or less. */
  ghost predicate Within(rest: Input, input: Input) {
    rest == input || rest < input
  }

  lemma RawConsumes(r: RxMode, input: Input, cancels: nat)
    ensures Within(Raw(r, input, cancels).rest, input)
  {}

  lemma {:induction false} NextConsumes(r: RxMode, at: Stance, input: Input, cancels: nat)
    ensures Within(Next(r, at, input, cancels).rest, input)
    decreases input
  {
    RawConsumes(r, input, cancels);
    var raw := Raw(r, input, cancels);
    if raw.symbol.Byte? {
      NextConsumes(r, Quoted, raw.rest, raw.cancels);
      NextConsumes(r, Resync, raw.rest, raw.cancels);
    }
  }

  lemma {:induction false} OmenConsumes(r: RxMode, p: Posture, input: Input, cancels: nat)
    ensures Within(OmenNext(r, p, input, cancels).rest, input)
    decreases input
  {
    hide React;
    RawConsumes(r, input, cancels);
    var raw := Raw(r, input, cancels);
    if raw.symbol.Byte? && React(r, p, raw.symbol.b & 0x7f).Stay? {
      OmenConsumes(r, React(r, p, raw.symbol.b & 0x7f).p, raw.rest, raw.cancels);
    }
  }

  lemma {:induction false} TakeConsumes(r: RxMode, n: nat, invalid: ErrorCode, input: Input, cancels: nat)
    ensures Within(Take(r, n, invalid, input, cancels).rest, input)
    decreases n
  {
    hide Next;
    if n > 0 {
      NextConsumes(r, Fresh, input, cancels);
      var s := Next(r, Fresh, input, cancels);
      TakeConsumes(r, n - 1, invalid, s.rest, s.cancels);
    }
  }

  lemma {:induction false} NibblesConsume(r: RxMode, n: nat, input: Input, cancels: nat)
    ensures Within(TakeNibbles(r, n, input, cancels).rest, input)
    decreases n
  {
    hide Next, Nibble;
    if n > 0 {
      NextConsumes(r, Fresh, input, cancels);
      var s := Next(r, Fresh, input, cancels);
      NibblesConsume(r, n - 1, s.rest, s.cancels);
    }
  }

  lemma {:induction false} TakeOmenConsumes(r: RxMode, n: nat, input: Input, cancels: nat)
    ensures Within(TakeOmen(r, n, input, cancels).rest, input)
    decreases n
  {
    hide OmenNext;
    if n > 0 {
      OmenConsumes(r, BARE, input, cancels);
      var s := OmenNext(r, BARE, input, cancels);
      TakeOmenConsumes(r, n - 1, s.rest, s.cancels);
    }
  }

  lemma {:induction false} LineConsumes(r: RxMode, input: Input, cancels: nat)
    ensures Within(LineByte(r, input, cancels).rest, input) && Within(OmenCount(r, input, cancels).rest, input)
    decreases input
  {
    RawConsumes(r, input, cancels);
    var raw := Raw(r, input, cancels);
    if raw.symbol.Byte? {
      LineConsumes(r, raw.rest, raw.cancels);
    }
  }

  lemma OpenConsumes(r: RxMode, input: Input, cancels: nat)
    ensures Within(Open(r, input, cancels).rest, input)
  {
    hide Next;
    var a := Raw(r, input, cancels);
    RawConsumes(r, input, cancels);
    RawConsumes(r, a.rest, a.cancels);
    var b := if a.symbol.Byte? && a.symbol.b & 0x7f == ZPAD then Raw(r, a.rest, a.cancels) else a;
    NextConsumes(r, Fresh, b.rest, b.cancels);
  }

  lemma BinaryConsumes(r: RxMode, fcs32: bool, count: nat, input: Input, cancels: nat)
    ensures Within(ReadBinary(r, fcs32, count, input, cancels).rest, input)
  {
    hide Take, Word32, Word16, Sum32, Sum16;
    TakeConsumes(r, count, INVALID_HEADER, input, cancels);
    var h := Take(r, count, INVALID_HEADER, input, cancels);
    TakeConsumes(r, if fcs32 then 4 else 2, INVALID_HEADER, h.rest, h.cancels);
  }

  lemma LineEndConsumes(r: RxMode, input: Input, cancels: nat)
    ensures Within(EndOfLine(r, input, cancels).rest, input)
  {
    LineConsumes(r, input, cancels);
    var a := LineByte(r, input, cancels);
    LineConsumes(r, a.rest, a.cancels);
  }

  lemma HexConsumes(r: RxMode, count: nat, input: Input, cancels: nat)
    ensures Within(ReadHex(r, count, input, cancels).rest, input)
  {
    hide TakeNibbles, Joined, Word16, Sum16, EndOfLine;
    NibblesConsume(r, 2 * count, input, cancels);
    var h := TakeHex(r, count, input, cancels);
    NibblesConsume(r, 4, h.rest, h.cancels);
    var k := TakeHex(r, 2, h.rest, h.cancels);
    LineEndConsumes(r, k.rest, k.cancels);
  }

  lemma LengthConsumes(r: RxMode, hex: bool, input: Input, cancels: nat)
    ensures Within(ReadLength(r, hex, input, cancels).rest, input)
  {
    hide Take, TakeNibbles, Joined;
    NibblesConsume(r, 2, input, cancels);
    TakeConsumes(r, 1, INVALID_HEADER, input, cancels);
  }

  lemma OmenHeaderConsumes(r: RxMode, encoding: Encoding, input: Input, cancels: nat)
    ensures Within(ReadOmen(r, encoding, input, cancels).rest, input)
  {
    hide OmenBehindCount, OmenCount;
    LineConsumes(r, input, cancels);
    var c := OmenCount(r, input, cancels);
    if c.symbol.Byte? {
      var n := (c.symbol.b & 0x7f) as nat;
      if 0x22 <= n {
        OmenBodyConsumes(r, encoding, n - 0x21, c.rest, c.cancels);
      }
    }
  }

  lemma OmenBodyConsumes(r: RxMode, encoding: Encoding, n: nat, input: Input, cancels: nat)
    ensures Within(OmenBehindCount(r, encoding, n, input, cancels).rest, input)
  {
    hide TakeOmen, Word32, SumOmen;
    TakeOmenConsumes(r, n, input, cancels);
    var h := TakeOmen(r, n, input, cancels);
    TakeOmenConsumes(r, 4, h.rest, h.cancels);
  }

  lemma MobyBodyConsumes(r: RxMode, count: nat, input: Input, cancels: nat)
    ensures Within(MobyBehindCount(r, count, input, cancels).rest, input)
  {
    hide Take, Word32, SumOmen;
    TakeConsumes(r, count, INVALID_HEADER, input, cancels);
    var h := Take(r, count, INVALID_HEADER, input, cancels);
    TakeConsumes(r, 4, INVALID_HEADER, h.rest, h.cancels);
  }

  lemma MobyConsumes(r: RxMode, input: Input, cancels: nat)
    ensures Within(ReadMoby(r, input, cancels).rest, input)
  {
    hide MobyBehindCount, ReadLength;
    LengthConsumes(r, false, input, cancels);
    var n := ReadLength(r, false, input, cancels);
    if n.code == OK {
      MobyBodyConsumes(r, n.bytes[0] as nat + 1, n.rest, n.cancels);
    }
  }

  lemma VariableConsumes(r: RxMode, style: bv8, input: Input, cancels: nat)
    ensures Within(ReadVariable(r, style, input, cancels).rest, input)
  {
    hide ReadLength, ReadHex, ReadBinary;
    LengthConsumes(r, style == ZVHEX, input, cancels);
    var n := ReadLength(r, style == ZVHEX, input, cancels);
    if n.code == OK {
      HexConsumes(r, n.bytes[0] as nat + 1, n.rest, n.cancels);
      BinaryConsumes(r, style != ZVBIN, n.bytes[0] as nat + 1, n.rest, n.cancels);
    }
  }

  lemma BodyConsumes(before: RxMode, style: bv8, input: Input, cancels: nat)
    requires IsStyle(style)
    ensures Within(ReadBody(before, style, input, cancels).rest, input)
  {
    hide ReadOmen, ReadMoby, ReadBinary, ReadHex, ReadVariable;
    var r := before.(moby := false);
    OmenHeaderConsumes(r, Rle, input, cancels);
    OmenHeaderConsumes(r, Pack7, input, cancels);
    MobyConsumes(before.(moby := true), input, cancels);
    BinaryConsumes(r, false, HDRLEN, input, cancels);
    BinaryConsumes(r, true, HDRLEN, input, cancels);
    HexConsumes(r, HDRLEN, input, cancels);
    VariableConsumes(r, style, input, cancels);
  }
}
