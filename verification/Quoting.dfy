/** zmdm.c: ordinary and MobyTurbo quoting, both directions, as functions on bytes. */
module Quoting {
  import opened Bytes

  // ---------- Transmit classes ----------

  const TX_ESCAPE_ALWAYS: bv8 := 1
  const TX_ESCAPE_CONTROL: bv8 := 2
  const TX_ESCAPE_CR: bv8 := 4
  const TX_ESCAPE_8TH: bv8 := 8
  const TX_ESCAPE_IAC: bv8 := 16

  /** last_sent before anything was sent: C has -1 there, and 0xff is as far from a seven-bit byte. */
  const NOTHING_SENT: bv8 := 0xff

  /** The entry of tx_classes that initialize_tx_classes computes for a byte. */
  function TxClass(c: bv8): bv8 {
    (if c == ZDLE || c == 0x10 || c == 0x90 || c == XON || c == 0x91 || c == XOFF || c == 0x93 then TX_ESCAPE_ALWAYS
     else if c == CR || c == 0x8d then TX_ESCAPE_CONTROL | TX_ESCAPE_CR
     else if c & 0x60 == 0 then TX_ESCAPE_CONTROL
     else 0)
    | (if c & 0x80 != 0 then TX_ESCAPE_8TH else 0)
    | (if c == 0xff then TX_ESCAPE_IAC else 0)
  }

  /** The sender's flags that decide how a byte is quoted.  escape_8th_bit is not among them: with it set
      the sender never uses this quoting. */
  datatype TxMode = TxMode(moby: bool, escctl: bool, iac: bool)

  /** active_tx_classes and active_mobyturbo_classes */
  function ActiveClasses(m: TxMode): bv8 {
    (if m.moby then 0 else TX_ESCAPE_ALWAYS)
    | (if m.escctl then TX_ESCAPE_CONTROL else 0)
    | (if m.iac then TX_ESCAPE_IAC else 0)
  }

  /** tx_byte_needs_escape and mobyturbo_byte_needs_escape */
  predicate NeedsEscape(m: TxMode, c: bv8, previous: bv8) {
    var classes := TxClass(c);
    if m.moby then
      c == ZDLE || classes & ActiveClasses(m) != 0 || (m.escctl && previous == 0x40 && classes & TX_ESCAPE_CR != 0)
    else
      (classes & TX_ESCAPE_CR != 0 && previous == 0x40) || classes & ActiveClasses(m) != 0
  }

  /** buffer_tx and buffer_mobyturbo: what one byte becomes on the wire. */
  function EscapeByte(m: TxMode, previous: bv8, c: bv8): (w: seq<bv8>)
    ensures 1 <= |w| <= 2
  {
    if !NeedsEscape(m, c, previous) then [c]
    else if c == 0xff && (m.moby ==> m.iac) then [ZDLE, ZRUB1]
    else [ZDLE, c ^ 0x40]
  }

  /** The previous byte as the quoting rule sees it: seven bits of the last byte on the wire. */
  function LastSent(previous: bv8, w: seq<bv8>): bv8 {
    if w == [] then previous else w[|w| - 1] & 0x7f
  }

  lemma LastSentConcat(previous: bv8, a: seq<bv8>, b: seq<bv8>)
    ensures LastSent(previous, a + b) == LastSent(LastSent(previous, a), b)
  {}

  function Escape(m: TxMode, previous: bv8, data: seq<bv8>): seq<bv8>
    decreases data
  {
    if data == [] then []
    else
      var w := EscapeByte(m, previous, data[0]);
      w + Escape(m, LastSent(previous, w), data[1..])
  }

  lemma {:induction false} EscapeConcat(m: TxMode, previous: bv8, a: seq<bv8>, b: seq<bv8>)
    ensures Escape(m, previous, a + b)
         == Escape(m, previous, a) + Escape(m, LastSent(previous, Escape(m, previous, a)), b)
    decreases a
  {
    hide EscapeByte;
    if a == [] {
      assert a + b == b;
    } else {
      var w := EscapeByte(m, previous, a[0]);
      var tail := Escape(m, LastSent(previous, w), a[1..]);
      var more := Escape(m, LastSent(LastSent(previous, w), tail), b);
      assert (a + b)[1..] == a[1..] + b;
      EscapeConcat(m, LastSent(previous, w), a[1..], b);
      LastSentConcat(previous, w, tail);
      assert w + (tail + more) == (w + tail) + more;
    }
  }

  lemma EscapeSnoc(m: TxMode, previous: bv8, data: seq<bv8>, c: bv8)
    ensures Escape(m, previous, data + [c])
         == Escape(m, previous, data) + EscapeByte(m, LastSent(previous, Escape(m, previous, data)), c)
  {
    hide EscapeByte;
    EscapeConcat(m, previous, data, [c]);
    EscapeOne(m, LastSent(previous, Escape(m, previous, data)), c);
  }

  lemma EscapeOne(m: TxMode, previous: bv8, c: bv8)
    ensures Escape(m, previous, [c]) == EscapeByte(m, previous, c)
  {
    hide EscapeByte;
    var w := EscapeByte(m, previous, c);
    assert Escape(m, LastSent(previous, w), []) == [];
  }

  /** Quoting at most doubles a payload. */
  lemma {:induction false} EscapeLength(m: TxMode, previous: bv8, data: seq<bv8>)
    ensures |data| <= |Escape(m, previous, data)| <= 2 * |data|
    decreases data
  {
    hide EscapeByte;
    if data == [] {
    } else {
      var w := EscapeByte(m, previous, data[0]);
      EscapeLength(m, LastSent(previous, w), data[1..]);
    }
  }

  // ---------- Reading bytes ----------

  datatype Encoding = Plain | Rle | Pack7
  datatype Escape8 = Escape8None | Escape8Legacy | Escape8Omen

  /** The receive modes of struct zmodem: receive_mobyturbo, receive_32_bit_data, receive_encoded_data,
      receive_escape8_format and receive_escaped_control_characters. */
  datatype RxMode = RxMode(moby: bool, fcs32: bool, encoding: Encoding, escape8: Escape8, escctl: bool)

  /** The result of reading: a decoded byte, a data-subpacket terminator, or a negative code. */
  datatype Symbol = Byte(b: bv8) | End(t: bv8) | Fail(code: ErrorCode)

  /** A result, what is left of the input, and the run of CAN bytes that led up to it. */
  datatype Scan = Scan(symbol: Symbol, rest: Input, cancels: nat)

  /** rx_cursor_raw: the next byte of the line; five CAN bytes in a row end the session. */
  function Raw(r: RxMode, input: Input, cancels: nat): (s: Scan)
    ensures s.symbol.Byte? ==> s.rest < input
    ensures !s.symbol.End?
  {
    match input
    case Silence => Scan(Fail(TIMEOUT), Silence, cancels)
    case Fault(code, rest) => Scan(Fail(code), rest, cancels)
    case Octet(b, rest) =>
      if b == CAN && !r.moby then
        if cancels + 1 == 5 then Scan(Fail(CANCELLED), rest, 5) else Scan(Byte(b), rest, cancels + 1)
      else Scan(Byte(b), rest, 0)
  }

  predicate IsFlowControl(c: bv8) {
    c == 0x11 || c == 0x91 || c == 0x13 || c == 0x93
  }

  predicate IsUnescapedControl(r: RxMode, c: bv8) {
    r.escctl && c != ZDLE && c & 0x60 == 0
  }

  /** rx_needs_slow_path */
  predicate NeedsSlowPath(r: RxMode, c: bv8) {
    if r.moby then c == ZDLE else c == ZDLE || IsFlowControl(c) || IsUnescapedControl(r, c)
  }

  /** Where the byte decoder stands: at a byte boundary, at a byte boundary after an illegal sequence
      (where flow control is skipped in every mode), or after a ZDLE. */
  datatype Stance = Fresh | Resync | Quoted

  /** rx_cursor and rx_cursor_slow: the next decoded byte or terminator. */
  function Next(r: RxMode, at: Stance, input: Input, cancels: nat): (s: Scan)
    ensures !s.symbol.Fail? ==> s.rest < input
    decreases input
  {
    var raw := Raw(r, input, cancels);
    if raw.symbol.Fail? then raw
    else
      var c := raw.symbol.b;
      match at
      case Fresh =>
        if !NeedsSlowPath(r, c) then raw
        else if c == ZDLE then Next(r, Quoted, raw.rest, raw.cancels)
        else Next(r, Resync, raw.rest, raw.cancels)
      case Resync =>
        if IsFlowControl(c) || IsUnescapedControl(r, c) then Next(r, Resync, raw.rest, raw.cancels)
        else if c == ZDLE then Next(r, Quoted, raw.rest, raw.cancels)
        else raw
      case Quoted =>
        if r.escape8.Escape8Legacy? && c & 0x80 != 0 then Scan(Byte(c ^ 0x40), raw.rest, raw.cancels)
        else if NeedsSlowPath(r, c) then Next(r, Quoted, raw.rest, raw.cancels)
        else if IsTerminator(c) then Scan(End(c), raw.rest, raw.cancels)
        else if c == ZRUB0 then Scan(Byte(0x7f), raw.rest, raw.cancels)
        else if c == ZRUB1 then Scan(Byte(0xff), raw.rest, raw.cancels)
        else if c & 0x60 == 0x40 then Scan(Byte(c ^ 0x40), raw.rest, raw.cancels)
        else Next(r, Resync, raw.rest, raw.cancels)
  }

  /** Decoded bytes up to a terminator or a failure. */
  datatype Collected = Collected(data: seq<bv8>, result: Symbol, rest: Input, cancels: nat)

  function Collect(r: RxMode, input: Input, cancels: nat): (c: Collected)
    ensures !c.result.Byte?
    decreases input
  {
    var s := Next(r, Fresh, input, cancels);
    if s.symbol.Byte? then
      var more := Collect(r, s.rest, s.cancels);
      more.(data := [s.symbol.b] + more.data)
    else Collected([], s.symbol, s.rest, s.cancels)
  }

  /** A run of decoded bytes, or the code that stopped it: rx_byte over and over. */
  datatype Taken = Taken(code: int, bytes: seq<bv8>, rest: Input, cancels: nat)

  function Take(r: RxMode, n: nat, invalid: ErrorCode, input: Input, cancels: nat): (k: Taken)
    ensures k.code <= OK
    ensures k.code == OK ==> |k.bytes| == n
    decreases n
  {
    if n == 0 then Taken(OK, [], input, cancels)
    else
      var s := Next(r, Fresh, input, cancels);
      match s.symbol
      case Fail(code) => Taken(code, [], s.rest, s.cancels)
      case End(_) => Taken(invalid, [], s.rest, s.cancels)
      case Byte(b) =>
        var more := Take(r, n - 1, invalid, s.rest, s.cancels);
        more.(bytes := [b] + more.bytes)
  }

  // ---------- Quoting is undone ----------

  /** The receiver uses the sender's transparency, and drops unescaped controls only if they are escaped. */
  predicate Understands(r: RxMode, m: TxMode) {
    r.moby == m.moby && (!m.moby && r.escctl ==> m.escctl)
  }

  /** Fewer than four CANs in a row so far: one more starts a quoted pair, not an abort. */
  predicate Settled(r: RxMode, cancels: nat) {
    r.moby || cancels < 4
  }

  /** Only controls, and 0xff for IAC, are ever quoted. */
  lemma QuotedBytes(m: TxMode, c: bv8, previous: bv8)
    requires NeedsEscape(m, c, previous)
    ensures c & 0x60 == 0 || c == 0xff
    ensures c == 0xff ==> m.iac
  {}

  lemma PlainBytes(m: TxMode, r: RxMode, c: bv8, previous: bv8)
    requires !NeedsEscape(m, c, previous) && Understands(r, m)
    ensures !NeedsSlowPath(r, c) && c != ZDLE
  {}

  lemma QuotedPair(r: RxMode, c: bv8)
    requires c & 0x60 == 0
    ensures (c ^ 0x40) & 0x60 == 0x40 && (c ^ 0x40) ^ 0x40 == c && !IsTerminator(c ^ 0x40)
    ensures !NeedsSlowPath(r, c ^ 0x40) && c ^ 0x40 != ZRUB0 && c ^ 0x40 != ZRUB1 && c ^ 0x40 != CAN
  {}

  lemma NextPlain(r: RxMode, c: bv8, rest: Input, cancels: nat)
    requires !NeedsSlowPath(r, c)
    ensures Next(r, Fresh, Octet(c, rest), cancels) == Scan(Byte(c), rest, 0)
  {}

  lemma NextQuoted(r: RxMode, c: bv8, rest: Input, cancels: nat)
    requires Settled(r, cancels) && !NeedsSlowPath(r, c) && c != CAN
    ensures Next(r, Fresh, Octet(ZDLE, Octet(c, rest)), cancels)
              == Next(r, Quoted, Octet(c, rest), if r.moby then 0 else cancels + 1)
    ensures IsTerminator(c) ==> Next(r, Fresh, Octet(ZDLE, Octet(c, rest)), cancels) == Scan(End(c), rest, 0)
    ensures c == ZRUB1 ==> Next(r, Fresh, Octet(ZDLE, Octet(c, rest)), cancels) == Scan(Byte(0xff), rest, 0)
    ensures c & 0x60 == 0x40 ==> Next(r, Fresh, Octet(ZDLE, Octet(c, rest)), cancels) == Scan(Byte(c ^ 0x40), rest, 0)
  {}

  /** Reading what one byte became gives the byte back, and no run of CANs is left. */
  lemma ByteRoundTrip(m: TxMode, r: RxMode, previous: bv8, c: bv8, rest: Input, cancels: nat)
    requires Understands(r, m) && Settled(r, cancels)
    ensures Next(r, Fresh, Feed(EscapeByte(m, previous, c), rest), cancels) == Scan(Byte(c), rest, 0)
  {
    hide Next;
    var w := EscapeByte(m, previous, c);
    if NeedsEscape(m, c, previous) {
      QuotedBytes(m, c, previous);
      FeedTwo(ZDLE, w[1], rest);
      assert w == [ZDLE, w[1]];
      if c == 0xff {
        NextQuoted(r, ZRUB1, rest, cancels);
      } else {
        QuotedPair(r, c);
        NextQuoted(r, c ^ 0x40, rest, cancels);
      }
    } else {
      PlainBytes(m, r, c, previous);
      NextPlain(r, c, rest, cancels);
    }
  }

  // ---------- What else may stand on the line ----------

  /** Forms that are read though the sender does not use them: ZRUB0 stands for 0x7f, and any control may be
      quoted. */
  lemma RuboutIsRead(r: RxMode, rest: Input, cancels: nat)
    requires Settled(r, cancels)
    ensures Next(r, Fresh, Feed([ZDLE, ZRUB0], rest), cancels) == Scan(Byte(0x7f), rest, 0)
    ensures Next(r, Fresh, Feed([ZDLE, ZRUB1], rest), cancels) == Scan(Byte(0xff), rest, 0)
  {
    FeedTwo(ZDLE, ZRUB0, rest);
    FeedTwo(ZDLE, ZRUB1, rest);
  }

  lemma QuotedControlIsRead(r: RxMode, c: bv8, rest: Input, cancels: nat)
    requires Settled(r, cancels) && c & 0x60 == 0
    ensures Next(r, Fresh, Feed([ZDLE, c ^ 0x40], rest), cancels) == Scan(Byte(c), rest, 0)
  {
    hide Next;
    FeedTwo(ZDLE, c ^ 0x40, rest);
    QuotedPair(r, c);
    NextQuoted(r, c ^ 0x40, rest, cancels);
  }

  /** What stands for nothing behind ZDLE. */
  predicate Illegal(r: RxMode, c: bv8) {
    && !NeedsSlowPath(r, c) && c != ZDLE && !IsTerminator(c) && c != ZRUB0 && c != ZRUB1 && c & 0x60 != 0x40
    && !(r.escape8.Escape8Legacy? && c & 0x80 != 0)
  }

  /** What stands for itself, anywhere. */
  predicate IsData(r: RxMode, d: bv8) {
    d != ZDLE && !IsFlowControl(d) && !IsUnescapedControl(r, d)
  }

  /** A pair that stands for nothing is dropped. */
  lemma IllegalPairIsDropped(r: RxMode, c: bv8, d: bv8, rest: Input, cancels: nat)
    requires Settled(r, cancels) && Illegal(r, c) && IsData(r, d)
    ensures Next(r, Fresh, Octet(ZDLE, Octet(c, Octet(d, rest))), cancels) == Scan(Byte(d), rest, 0)
  {
    hide Next;
    StepQuote(r, Octet(c, Octet(d, rest)), cancels);
    StepIllegal(r, c, Octet(d, rest), if r.moby then 0 else cancels + 1);
    StepPlain(r, d, rest);
  }

  lemma StepQuote(r: RxMode, rest: Input, cancels: nat)
    requires Settled(r, cancels)
    ensures Next(r, Fresh, Octet(ZDLE, rest), cancels) == Next(r, Quoted, rest, if r.moby then 0 else cancels + 1)
    ensures Next(r, Resync, Octet(ZDLE, rest), cancels) == Next(r, Quoted, rest, if r.moby then 0 else cancels + 1)
  {}

  lemma StepIllegal(r: RxMode, c: bv8, rest: Input, cancels: nat)
    requires Illegal(r, c)
    ensures Next(r, Quoted, Octet(c, rest), cancels) == Next(r, Resync, rest, 0)
  {}

  lemma StepPlain(r: RxMode, d: bv8, rest: Input)
    requires IsData(r, d)
    ensures Next(r, Resync, Octet(d, rest), 0) == Scan(Byte(d), rest, 0)
  {}

  /** Flow control that is not of the data. */
  lemma StepFlow(r: RxMode, x: bv8, at: Stance, rest: Input, cancels: nat)
    requires IsFlowControl(x) && !r.moby && !(at.Quoted? && r.escape8.Escape8Legacy? && x & 0x80 != 0)
    ensures Next(r, at, Octet(x, rest), cancels) == Next(r, if at.Quoted? then Quoted else Resync, rest, 0)
  {
    assert x != CAN && x != ZDLE;
  }

  /** Behind flow control a byte is read as from a byte boundary. */
  lemma ByteBehindFlow(m: TxMode, r: RxMode, previous: bv8, c: bv8, rest: Input)
    requires Understands(r, m) && !r.moby
    ensures Next(r, Resync, Feed(EscapeByte(m, previous, c), rest), 0) == Scan(Byte(c), rest, 0)
  {
    hide Next;
    var w := EscapeByte(m, previous, c);
    ByteRoundTrip(m, r, previous, c, rest, 0);
    if NeedsEscape(m, c, previous) {
      FeedTwo(ZDLE, w[1], rest);
      assert w == [ZDLE, w[1]];
      StepQuote(r, Octet(w[1], rest), 0);
    } else {
      PlainBytes(m, r, c, previous);
      PlainIsNoFlow(r, c);
      StepPlain(r, c, rest);
    }
  }

  lemma PlainIsNoFlow(r: RxMode, c: bv8)
    requires !NeedsSlowPath(r, c) && !r.moby
    ensures IsData(r, c)
  {}

  lemma QuotedIsNoCancel(m: TxMode, previous: bv8, c: bv8)
    requires NeedsEscape(m, c, previous)
    ensures var w := EscapeByte(m, previous, c); |w| == 2 && w[0] == ZDLE && w[1] != CAN
  {
    QuotedBytes(m, c, previous);
    if c != 0xff {
      QuotedPair(RxMode(false, false, Plain, Escape8None, false), c);
    }
  }

  /** XON and XOFF of either parity in front of a byte, or inside its quoted pair, do not change it. */
  lemma FlowControlIsNoise(m: TxMode, r: RxMode, previous: bv8, c: bv8, x: bv8, i: nat, rest: Input, cancels: nat)
    requires Understands(r, m) && !r.moby && cancels < 4 && IsFlowControl(x) && !r.escape8.Escape8Legacy?
    requires i < |EscapeByte(m, previous, c)|
    ensures var w := EscapeByte(m, previous, c);
            Next(r, Fresh, Feed(w[..i] + [x] + w[i..], rest), cancels) == Scan(Byte(c), rest, 0)
  {
    hide Next, NeedsEscape, IsFlowControl, Understands;
    var w := EscapeByte(m, previous, c);
    if i == 0 {
      assert w[..0] + [x] + w[0..] == [x] + w && ([x] + w)[1..] == w;
      StepFlow(r, x, Fresh, Feed(w, rest), cancels);
      ByteBehindFlow(m, r, previous, c, rest);
    } else {
      assert NeedsEscape(m, c, previous);
      QuotedIsNoCancel(m, previous, c);
      var d := w[1];
      assert w == [ZDLE, d] && w[..1] + [x] + w[1..] == [ZDLE] + [x, d];
      FeedConcat([ZDLE], [x, d], rest);
      FeedTwo(x, d, rest);
      FeedTwo(ZDLE, d, rest);
      assert Feed([ZDLE], Octet(x, Octet(d, rest))) == Octet(ZDLE, Octet(x, Octet(d, rest)));
      StepQuote(r, Octet(x, Octet(d, rest)), cancels);
      StepFlow(r, x, Quoted, Octet(d, rest), cancels + 1);
      ByteRoundTrip(m, r, previous, c, rest, cancels);
      StepQuote(r, Octet(d, rest), cancels);
      QuotedAtOnce(r, d, rest, cancels + 1);
    }
  }

  lemma QuotedAtOnce(r: RxMode, d: bv8, rest: Input, cancels: nat)
    requires d != CAN
    ensures Next(r, Quoted, Octet(d, rest), cancels) == Next(r, Quoted, Octet(d, rest), 0)
  {}

  /** Five CANs in a row abort, wherever in the data they begin, but not under MobyTurbo. */
  lemma FiveCancelsAbort(r: RxMode, rest: Input)
    requires !r.moby
    ensures Next(r, Fresh, Octet(CAN, Octet(CAN, Octet(CAN, Octet(CAN, Octet(CAN, rest))))), 0)
         == Scan(Fail(CANCELLED), rest, 5)
  {
    hide Next;
    StepQuote(r, Octet(CAN, Octet(CAN, Octet(CAN, Octet(CAN, rest)))), 0);
    StepCancel(r, Octet(CAN, Octet(CAN, Octet(CAN, rest))), 1);
    StepCancel(r, Octet(CAN, Octet(CAN, rest)), 2);
    StepCancel(r, Octet(CAN, rest), 3);
    StepCancel(r, rest, 4);
  }

  lemma StepCancel(r: RxMode, rest: Input, cancels: nat)
    requires !r.moby
    ensures Next(r, Quoted, Octet(CAN, rest), cancels)
         == if cancels == 4 then Scan(Fail(CANCELLED), rest, 5) else Next(r, Quoted, rest, cancels + 1)
  {}

  // ---------- Payloads ----------

  /** A payload comes back whole from its quoted form. */
  lemma {:induction false} PayloadRoundTrip(m: TxMode, r: RxMode, previous: bv8, data: seq<bv8>, rest: Input,
                                            cancels: nat)
    requires Understands(r, m) && Settled(r, cancels)
    ensures var after := Collect(r, rest, if data == [] then cancels else 0);
            Collect(r, Feed(Escape(m, previous, data), rest), cancels) == after.(data := data + after.data)
    decreases data
  {
    hide Next, EscapeByte;
    if data == [] {
    } else {
      var w := EscapeByte(m, previous, data[0]);
      var tail := Escape(m, LastSent(previous, w), data[1..]);
      FeedConcat(w, tail, rest);
      ByteRoundTrip(m, r, previous, data[0], Feed(tail, rest), cancels);
      PayloadRoundTrip(m, r, LastSent(previous, w), data[1..], rest, 0);
      var after := Collect(r, rest, 0);
      assert [data[0]] + (data[1..] + after.data) == data + after.data;
    }
  }

  /** Frame checks and header bytes come back the same way. */
  lemma {:induction false} TakeRoundTrip(m: TxMode, r: RxMode, previous: bv8, data: seq<bv8>, invalid: ErrorCode,
                                         rest: Input, cancels: nat)
    requires Understands(r, m) && Settled(r, cancels)
    ensures Take(r, |data|, invalid, Feed(Escape(m, previous, data), rest), cancels)
         == Taken(OK, data, rest, if data == [] then cancels else 0)
    decreases data
  {
    hide Next, EscapeByte;
    if data == [] {
    } else {
      var w := EscapeByte(m, previous, data[0]);
      var tail := Escape(m, LastSent(previous, w), data[1..]);
      FeedConcat(w, tail, rest);
      ByteRoundTrip(m, r, previous, data[0], Feed(tail, rest), cancels);
      TakeRoundTrip(m, r, LastSent(previous, w), data[1..], invalid, rest, 0);
    }
  }

  // ---------- Transparency of the wire ----------

  /** No two CANs stand together, and none is left at the end for the next piece to complete. */
  ghost predicate CancelSafe(w: seq<bv8>) {
    (forall i :: 0 <= i < |w| - 1 ==> !(w[i] == CAN && w[i + 1] == CAN)) && (w != [] ==> w[|w| - 1] != CAN)
  }

  lemma CancelSafeConcat(a: seq<bv8>, b: seq<bv8>)
    requires CancelSafe(a) && CancelSafe(b)
    ensures CancelSafe(a + b)
  {}

  /** Some byte of w is the fifth CAN in a row. */
  predicate Aborts(r: RxMode, w: seq<bv8>, cancels: nat)
    decreases w
  {
    w != [] &&
    var s := Raw(r, Octet(w[0], Silence), cancels);
    s.symbol.Fail? || Aborts(r, w[1..], s.cancels)
  }

  /** A wire without two CANs together is never read as an abort, from any run of fewer than four CANs. */
  lemma {:induction false} CancelSafeNeverAborts(r: RxMode, w: seq<bv8>, cancels: nat)
    requires CancelSafe(w) && cancels < 4
    ensures !Aborts(r, w, cancels)
    decreases w
  {
    if w != [] {
      var s := Raw(r, Octet(w[0], Silence), cancels);
      var rest := w[1..];
      if s.cancels == 4 {
        assert rest != [] && rest[0] != CAN;
        CancelSafeNeverAborts(r, rest[1..], 0);
      } else {
        CancelSafeNeverAborts(r, rest, s.cancels);
      }
    }
  }

  /** The bytes a network may act on: DLE, XON and XOFF, either parity. */
  predicate IsNetworkControl(c: bv8) {
    c == 0x10 || c == 0x11 || c == 0x13 || c == 0x90 || c == 0x91 || c == 0x93
  }

  predicate IsReturn(c: bv8) {
    c & 0x7f == CR
  }

  /** No byte a network may act on, and no CR directly after '@', counting the byte before the piece. */
  ghost predicate Transparent(previous: bv8, w: seq<bv8>) {
    && (forall i :: 0 <= i < |w| ==> !IsNetworkControl(w[i]))
    && (forall i :: 0 <= i < |w| && IsReturn(w[i]) ==> LastSent(previous, w[..i]) != 0x40)
  }

  lemma TransparentConcat(previous: bv8, a: seq<bv8>, b: seq<bv8>)
    requires Transparent(previous, a) && Transparent(LastSent(previous, a), b)
    ensures Transparent(previous, a + b)
  {
    var w := a + b;
    forall i | 0 <= i < |w| && IsReturn(w[i])
      ensures LastSent(previous, w[..i]) != 0x40
    {
      if i < |a| {
        assert w[..i] == a[..i];
      } else {
        assert w[..i] == a + b[..i - |a|];
        assert LastSent(previous, w[..i]) == LastSent(LastSent(previous, a), b[..i - |a|]);
      }
    }
  }

  lemma ByteTransparent(m: TxMode, previous: bv8, c: bv8)
    ensures CancelSafe(EscapeByte(m, previous, c))
    ensures !m.moby ==> Transparent(previous, EscapeByte(m, previous, c))
  {
    var w := EscapeByte(m, previous, c);
    if NeedsEscape(m, c, previous) {
      QuotedBytes(m, c, previous);
      assert c & 0x60 == 0 ==> !IsNetworkControl(c ^ 0x40) && !IsReturn(c ^ 0x40) && c ^ 0x40 != CAN;
      assert w[1] == ZRUB1 || w[1] == c ^ 0x40;
      assert w[..0] == [];
    } else {
      assert w[..0] == [];
      assert !m.moby && IsReturn(c) ==> c == 0x0d || c == 0x8d;
    }
  }

  /** Whatever the payload and the byte before it, quoting keeps the wire transparent in ordinary mode,
      and in every mode never puts two CANs together. */
  lemma {:induction false} EscapeTransparent(m: TxMode, previous: bv8, data: seq<bv8>)
    ensures CancelSafe(Escape(m, previous, data))
    ensures !m.moby ==> Transparent(previous, Escape(m, previous, data))
    decreases data
  {
    hide EscapeByte;
    if data == [] {
    } else {
      var w := EscapeByte(m, previous, data[0]);
      var tail := Escape(m, LastSent(previous, w), data[1..]);
      ByteTransparent(m, previous, data[0]);
      EscapeTransparent(m, LastSent(previous, w), data[1..]);
      CancelSafeConcat(w, tail);
      if !m.moby {
        TransparentConcat(previous, w, tail);
      }
    }
  }
}
