/** zmdm.c: the run-length layer of Omen framing, as functions on symbols, and whole ESC8 packets. */
module Rle {
  import opened Bytes
  import opened Quoting
  import opened Subpackets
  import opened Omen
  import Crc
  import Numbers

  // ---------- Encoding ----------

  /** How many bytes at the front equal the first, at most 63. */
  function RunLength(data: seq<bv8>, limit: nat): (n: nat)
    requires data != [] && 1 <= limit
    ensures 1 <= n <= limit && n <= |data|
    ensures forall i :: 0 <= i < n ==> data[i] == data[0]
    ensures n == limit || n == |data| || data[n] != data[0]
    decreases limit
  {
    if limit == 1 || |data| == 1 || data[1] != data[0] then 1
    else 1 + RunLength(data[1..], limit - 1)
  }

  /** omen_rle_requires_marker */
  predicate RequiresMarker(run: nat, value: bv8) {
    run != 2 || value == ZRESC || value & 0x80 != 0
  }

  /** omen_rle_uses_space_run */
  predicate UsesSpaceRun(run: nat, value: bv8) {
    value == 0x20 && run <= 34
  }

  /** The symbols of one run, as tx_omen_data chooses them. */
  function Token(run: nat, value: bv8): seq<bv8>
    requires 1 <= run <= 63
  {
    if run == 1 then (if value == ZRESC then [ZRESC, 0x40] else [value])
    else if !RequiresMarker(run, value) then [value, value]
    else if UsesSpaceRun(run, value) then [ZRESC, (run + 0x1d) as bv8]
    else [ZRESC, (run + 0x40) as bv8, value]
  }

  function RleEncode(data: seq<bv8>): seq<bv8>
    decreases |data|
  {
    if data == [] then []
    else
      var run := RunLength(data, 63);
      Token(run, data[0]) + RleEncode(data[run..])
  }

  // ---------- Decoding ----------

  datatype CountKind = InvalidCount | LiteralCount | SpaceCount(spaces: nat) | ValueCount(run: nat)

  /** classify_omen_rle_count, with the run it stands for. */
  function ClassifyCount(c: bv8): CountKind {
    var n := c as nat;
    if n == 0x40 then LiteralCount
    else if 0x20 <= n <= 0x3f then SpaceCount(n - 0x1d)
    else if 0x42 <= n <= 0x7f then ValueCount(n - 0x40)
    else InvalidCount
  }

  datatype RleState = Normal | Count | Value(run: nat)

  function Repeat(c: bv8, n: nat): (s: seq<bv8>)
    ensures |s| == n && forall i :: 0 <= i < n ==> s[i] == c
  {
    seq(n, i => c)
  }

  /** What one symbol adds to the payload, and where it leaves the decoder; no state means that the symbol
      is not a count. */
  function Absorb(st: RleState, c: bv8): (seq<bv8>, RleState, bool) {
    match st
    case Normal => if c == ZRESC then ([], Count, true) else ([c], Normal, true)
    case Count =>
      (match ClassifyCount(c)
       case LiteralCount => ([ZRESC], Normal, true)
       case SpaceCount(n) => (Repeat(0x20, n), Normal, true)
       case ValueCount(n) => ([], Value(n), true)
       case InvalidCount => ([], Normal, false))
    case Value(run) => (Repeat(c, run), Normal, true)
  }

  /** The decoder on a list of symbols: the payload and where it stands at the end. */
  datatype Text = Text(data: seq<bv8>, state: RleState, valid: bool)

  function RleText(st: RleState, symbols: seq<bv8>): Text
    decreases symbols
  {
    if symbols == [] then Text([], st, true)
    else
      var (out, st', valid) := Absorb(st, symbols[0]);
      if !valid then Text([], st, false)
      else
        var more := RleText(st', symbols[1..]);
        more.(data := out + more.data)
  }

  /** rx_rle_cursor: seven-bit quoting in ESC8 mode, ordinary quoting otherwise. */
  function RleNext(r: RxMode, input: Input, cancels: nat): (s: Scan)
    ensures !s.symbol.Fail? ==> s.rest < input
  {
    if r.escape8.Escape8Omen? then OmenNext(r, BARE, input, cancels) else Next(r, Fresh, input, cancels)
  }

  /** The symbols read, the payload they stand for, and how the stream ended. */
  datatype Stream = Stream(symbols: seq<bv8>, data: seq<bv8>, result: Symbol, rest: Input, cancels: nat)

  function RleStream(r: RxMode, st: RleState, input: Input, cancels: nat): (d: Stream)
    ensures !d.result.Byte?
    decreases input
  {
    var s := RleNext(r, input, cancels);
    match s.symbol
    case Fail(_) => Stream([], [], s.symbol, s.rest, s.cancels)
    case End(_) => Stream([], [], if st.Normal? then s.symbol else Fail(INVALID_DATA), s.rest, s.cancels)
    case Byte(c) =>
      var (out, st', valid) := Absorb(st, c);
      if !valid then Stream([c], [], Fail(INVALID_DATA), s.rest, s.cancels)
      else
        var more := RleStream(r, st', s.rest, s.cancels);
        more.(symbols := [c] + more.symbols, data := out + more.data)
  }

  /** rx_rle_byte_cursor, n times over. */
  function RleTake(r: RxMode, n: nat, input: Input, cancels: nat): (k: Taken)
    ensures k.code <= OK
    ensures k.code == OK ==> |k.bytes| == n
    decreases n
  {
    if n == 0 then Taken(OK, [], input, cancels)
    else
      var s := RleNext(r, input, cancels);
      match s.symbol
      case Fail(code) => Taken(code, [], s.rest, s.cancels)
      case End(_) => Taken(INVALID_DATA, [], s.rest, s.cancels)
      case Byte(b) =>
        var more := RleTake(r, n - 1, s.rest, s.cancels);
        more.(bytes := [b] + more.bytes)
  }

  /** rx_rle_data: the frame check covers the symbols, the buffer takes the payload. */
  function ReceiveRle(r: RxMode, capacity: nat, input: Input, cancels: nat): Packet {
    var d := RleStream(r, Normal, input, cancels);
    var stored := Clip(d.data, Limit(capacity));
    match d.result
    case Fail(code) => Packet(Rejected(code), stored, d.rest, d.cancels)
    case End(t) =>
      var k := RleTake(r, 4, d.rest, d.cancels);
      if k.code < OK then Packet(Rejected(k.code), stored, k.rest, k.cancels)
      else if !CheckHolds(true, d.symbols, t, k.bytes) || |d.data| > Limit(capacity) then
        Packet(Rejected(INVALID_DATA), stored, k.rest, k.cancels)
      else Packet(Accepted(t), stored, k.rest, k.cancels)
  }

  // ---------- Run-length coding is undone ----------

  lemma CountOfRun(run: nat)
    requires 1 <= run <= 63
    ensures ((run + 0x40) as bv8) as nat == run + 0x40
    ensures run <= 34 ==> ((run + 0x1d) as bv8) as nat == run + 0x1d
  {
    Numbers.NatOfByte(run + 0x40);
    Numbers.NatOfByte(run + 0x1d);
  }

  lemma ClassifyRun(run: nat)
    requires 2 <= run <= 63
    ensures ClassifyCount((run + 0x40) as bv8) == ValueCount(run)
    ensures 3 <= run <= 34 ==> ClassifyCount((run + 0x1d) as bv8) == SpaceCount(run)
    ensures ClassifyCount(0x40) == LiteralCount
  {
    CountOfRun(run);
    assert (0x40 as bv8) as nat == 0x40;
  }

  lemma RepeatOne(c: bv8)
    ensures Repeat(c, 1) == [c] && Repeat(c, 2) == [c, c]
  {}

  /** One or two symbols by hand. */
  lemma TextOfOne(st: RleState, a: bv8, more: seq<bv8>)
    requires Absorb(st, a).2
    ensures RleText(st, [a] + more) == var m := RleText(Absorb(st, a).1, more); m.(data := Absorb(st, a).0 + m.data)
  {
    hide Absorb;
    assert ([a] + more)[1..] == more;
  }

  lemma TokenIsUndone(run: nat, value: bv8, more: seq<bv8>)
    requires 1 <= run <= 63
    ensures var m := RleText(Normal, more);
            RleText(Normal, Token(run, value) + more) == m.(data := Repeat(value, run) + m.data)
  {
    hide RleText, ClassifyCount;
    var m := RleText(Normal, more);
    RepeatOne(value);
    if run == 1 {
      if value == ZRESC {
        ClassifyRun(2);
        assert Token(run, value) + more == [ZRESC] + ([0x40] + more);
        TextOfOne(Count, 0x40, more);
        TextOfOne(Normal, ZRESC, [0x40] + more);
      } else {
        TextOfOne(Normal, value, more);
      }
    } else if !RequiresMarker(run, value) {
      assert Token(run, value) + more == [value] + ([value] + more);
      TextOfOne(Normal, value, more);
      TextOfOne(Normal, value, [value] + more);
      assert [value] + ([value] + m.data) == Repeat(value, run) + m.data;
    } else {
      ClassifyRun(run);
      if UsesSpaceRun(run, value) {
        var count := (run + 0x1d) as bv8;
        assert Token(run, value) + more == [ZRESC] + ([count] + more);
        TextOfOne(Count, count, more);
        TextOfOne(Normal, ZRESC, [count] + more);
      } else {
        var count := (run + 0x40) as bv8;
        assert Token(run, value) + more == [ZRESC] + ([count] + ([value] + more));
        TextOfOne(Value(run), value, more);
        TextOfOne(Count, count, [value] + more);
        TextOfOne(Normal, ZRESC, [count] + ([value] + more));
      }
    }
  }

  lemma RunIsPrefix(data: seq<bv8>, run: nat)
    requires data != [] && run <= |data| && forall i :: 0 <= i < run ==> data[i] == data[0]
    ensures Repeat(data[0], run) + data[run..] == data
  {}

  /** Every payload comes back from its tokens. */
  lemma {:induction false} RleRoundTrip(data: seq<bv8>)
    ensures RleText(Normal, RleEncode(data)) == Text(data, Normal, true)
    decreases |data|
  {
    hide Token, RunLength;
    if data == [] {
    } else {
      hide RleText;
      var run := RunLength(data, 63);
      TokenIsUndone(run, data[0], RleEncode(data[run..]));
      RleRoundTrip(data[run..]);
      RunIsPrefix(data, run);
    }
  }

  // ---------- Whole packets ----------

  /** Everything of an ESC8 packet but the trailing XON. */
  function OmenBody(escctl: bool, data: seq<bv8>, t: bv8): seq<bv8> {
    var symbols := RleEncode(data);
    OmenBytes(escctl, symbols) + [ZDLE, t] + OmenBytes(escctl, Bytes32(Check32(symbols, t)))
  }

  function OmenWire(escctl: bool, data: seq<bv8>, t: bv8): seq<bv8> {
    OmenBody(escctl, data, t) + Trailer(t)
  }

  /** The receiver decodes ESC8, and drops unescaped controls only if they are escaped. */
  predicate UnderstandsOmen(r: RxMode, escctl: bool) {
    !r.moby && r.escape8.Escape8Omen? && (r.escctl ==> escctl)
  }

  /** One symbol off a noisy line. */
  lemma NextSymbol(escctl: bool, r: RxMode, c: bv8, w: seq<bv8>, v: seq<bv8>, rest: Input, cancels: nat)
    returns (v1: seq<bv8>, v2: seq<bv8>)
    requires UnderstandsOmen(r, escctl) && cancels < 4 && Strip(v) == OmenByte(escctl, c) + w
    ensures Splits(v, v1, v2) && Strip(v2) == w
    ensures RleNext(r, Feed(v, rest), cancels) == Scan(Byte(c), Feed(v2, rest), 0)
  {
    hide OmenByte, OmenNext, Decode, Splits;
    OmenByteDecodes(escctl, r, c, w);
    v1, v2 := Denoise(r, BARE, v, rest, cancels);
  }

  lemma NextTerminator(escctl: bool, r: RxMode, t: bv8, w: seq<bv8>, v: seq<bv8>, rest: Input, cancels: nat)
    returns (v1: seq<bv8>, v2: seq<bv8>)
    requires UnderstandsOmen(r, escctl) && cancels < 4 && IsTerminator(t) && Strip(v) == [ZDLE, t] + w
    ensures Splits(v, v1, v2) && Strip(v2) == w
    ensures RleNext(r, Feed(v, rest), cancels) == Scan(End(t), Feed(v2, rest), 0)
  {
    hide OmenNext, Decode, Splits;
    TerminatorDecodes(r, t, w);
    v1, v2 := Denoise(r, BARE, v, rest, cancels);
  }

  /** The symbols of a packet and its terminator off a noisy line. */
  lemma {:induction false} StreamOfSymbols(escctl: bool, r: RxMode, st: RleState, symbols: seq<bv8>, t: bv8,
                                           w: seq<bv8>,
                                           v: seq<bv8>, rest: Input, cancels: nat)
    returns (v1: seq<bv8>, v2: seq<bv8>)
    requires UnderstandsOmen(r, escctl) && cancels < 4 && IsTerminator(t)
    requires Strip(v) == OmenBytes(escctl, symbols) + [ZDLE, t] + w
    requires RleText(st, symbols).valid && RleText(st, symbols).state == Normal
    ensures Splits(v, v1, v2) && Strip(v2) == w
    ensures RleStream(r, st, Feed(v, rest), cancels)
         == Stream(symbols, RleText(st, symbols).data, End(t), Feed(v2, rest), 0)
    decreases symbols
  {
    hide OmenByte, RleNext, Absorb, Splits, Strip, IsTerminator;
    if symbols == [] {
      assert OmenBytes(escctl, symbols) + [ZDLE, t] + w == [ZDLE, t] + w;
      v1, v2 := NextTerminator(escctl, r, t, w, v, rest, cancels);
    } else {
      var c := symbols[0];
      var tail := OmenBytes(escctl, symbols[1..]) + [ZDLE, t] + w;
      assert OmenBytes(escctl, symbols) + [ZDLE, t] + w == OmenByte(escctl, c) + tail;
      v1, v2 := NextSymbol(escctl, r, c, tail, v, rest, cancels);
      var v3, v4 := StreamOfSymbols(escctl, r, Absorb(st, c).1, symbols[1..], t, w, v2, rest, 0);
      SplitsTwice(v, v1, v2, v3, v4);
      v1, v2 := v1 + v3, v4;
      assert symbols == [c] + symbols[1..];
    }
  }

  /** Bytes read one by one off a noisy line. */
  lemma {:induction false} TakeOfBytes(escctl: bool, r: RxMode, bytes: seq<bv8>, w: seq<bv8>, v: seq<bv8>, rest: Input,
                                       cancels: nat)
    returns (v1: seq<bv8>, v2: seq<bv8>)
    requires UnderstandsOmen(r, escctl) && cancels < 4 && bytes != [] && Strip(v) == OmenBytes(escctl, bytes) + w
    ensures Splits(v, v1, v2) && Strip(v2) == w
    ensures RleTake(r, |bytes|, Feed(v, rest), cancels) == Taken(OK, bytes, Feed(v2, rest), 0)
    decreases bytes
  {
    hide OmenByte, RleNext, Splits, Strip;
    var tail := OmenBytes(escctl, bytes[1..]) + w;
    assert OmenBytes(escctl, bytes) + w == OmenByte(escctl, bytes[0]) + tail;
    v1, v2 := NextSymbol(escctl, r, bytes[0], tail, v, rest, cancels);
    assert bytes == [bytes[0]] + bytes[1..];
    if bytes[1..] == [] {
      assert tail == w;
    } else {
      var v3, v4 := TakeOfBytes(escctl, r, bytes[1..], w, v2, rest, 0);
      SplitsTwice(v, v1, v2, v3, v4);
      v1, v2 := v1 + v3, v4;
    }
  }

  lemma StripOfWire(escctl: bool, data: seq<bv8>, t: bv8)
    ensures Strip(OmenWire(escctl, data, t)) == Strip(OmenBody(escctl, data, t))
    ensures IsTerminator(t) ==> Strip(OmenBody(escctl, data, t)) == OmenBody(escctl, data, t)
  {
    hide Check32, RleEncode;
    var symbols := RleEncode(data);
    var check := Bytes32(Check32(symbols, t));
    StripConcat(OmenBody(escctl, data, t), Trailer(t));
    assert Strip(Trailer(t)) == [];
    if IsTerminator(t) {
      OmenBytesClean(escctl, symbols);
      OmenBytesClean(escctl, check);
      StripClean(OmenBody(escctl, data, t));
    }
  }

  /** An ESC8 packet comes back whole, for every payload that fits, with and without ESCCTL, even if the
      line sets or clears bit 7 of any byte and inserts XON and XOFF anywhere: v is any wire that strips to
      what was sent.  Only the flow control behind the packet is left. */
  lemma OmenRoundTrip(escctl: bool, r: RxMode, data: seq<bv8>, t: bv8, capacity: nat, v: seq<bv8>, rest: Input,
                      cancels: nat)
    requires UnderstandsOmen(r, escctl) && cancels < 4 && IsTerminator(t) && |data| <= Limit(capacity)
    requires Strip(v) == Strip(OmenWire(escctl, data, t))
    ensures ReceiveRle(r, capacity, Feed(v, rest), cancels) == Packet(Accepted(t), data, Feed(FlowTail(v), rest), 0)
  {
    hide RleEncode, RleStream, RleTake, Strip, CheckHolds, IsTerminator, OmenBytes, FlowTail, Check32;
    var symbols := RleEncode(data);
    var check := Bytes32(Check32(symbols, t));
    StripOfWire(escctl, data, t);
    RleRoundTrip(data);
    var v1, v2 := StreamOfSymbols(escctl, r, Normal, symbols, t, OmenBytes(escctl, check), v, rest, cancels);
    assert OmenBytes(escctl, check) + [] == OmenBytes(escctl, check);
    var v3, v4 := TakeOfBytes(escctl, r, check, [], v2, rest, 0);
    SplitsTwice(v, v1, v2, v3, v4);
    FlowTailOfSplit(v1 + v3, v4);
    CheckRoundTrip(true, symbols, t);
  }

  /** Whatever arrives: the buffer holds the first bytes of the decoded payload, and a packet is accepted
      exactly when its symbols ended between two tokens, the payload fitted, and the check was that of all
      the symbols. */
  lemma RleAcceptedExactly(r: RxMode, capacity: nat, input: Input, cancels: nat)
    ensures var p := ReceiveRle(r, capacity, input, cancels);
            var d := RleStream(r, Normal, input, cancels);
            && p.payload == Clip(d.data, Limit(capacity))
            && (p.outcome.Accepted? <==>
                  && d.result.End? && |d.data| <= Limit(capacity)
                  && var k := RleTake(r, 4, d.rest, d.cancels);
                     k.code == OK && CheckHolds(true, d.symbols, d.result.t, k.bytes))
            && (p.outcome.Accepted? ==> p.payload == d.data && p.outcome.t == d.result.t)
  {
    hide RleStream, RleTake, CheckHolds;
  }

  /** On the line itself, every byte sent is below 0x80, and only the final XON is flow control. */
  lemma OmenWireSevenBit(escctl: bool, data: seq<bv8>, t: bv8)
    requires IsTerminator(t)
    ensures Clean(OmenBody(escctl, data, t)) && CancelSafe(OmenWire(escctl, data, t))
    ensures FlowTail(OmenWire(escctl, data, t)) == Trailer(t)
  {
    hide RleEncode, Check32, OmenBytes;
    var symbols := RleEncode(data);
    var check := Bytes32(Check32(symbols, t));
    OmenBytesClean(escctl, symbols);
    OmenBytesClean(escctl, check);
    CancelSafeConcat(OmenBytes(escctl, symbols), [ZDLE, t]);
    CancelSafeConcat(OmenBytes(escctl, symbols) + [ZDLE, t], OmenBytes(escctl, check));
    CancelSafeConcat(OmenBody(escctl, data, t), Trailer(t));
    var body := OmenBody(escctl, data, t);
    assert body[|body| - 1] & 0x7f == body[|body| - 1] by { assert body[|body| - 1] < 0x80; }
    FlowTailOfSplit(body, Trailer(t));
  }
}
