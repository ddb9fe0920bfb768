/** zmdm.c: data subpackets with ordinary or MobyTurbo quoting, as functions on bytes.

    These are what TxData and the receive loops are proved to compute; the lemmas here say what that is
    worth: whole packets come back, oversized and damaged ones never do. */
module Subpackets {
  import opened Bytes
  import opened Quoting
  import opened Crc
  import opened Crc16

  /** The CRC-32 of a payload and its terminator, as it goes on the wire. */
  function Check32(data: seq<bv8>, t: bv8): bv32 {
    !Byte32(Fold32(0xffffffff, data), t)
  }

  /** The CRC-16 of a payload and its terminator, flushed with two zero bytes. */
  function Check16(data: seq<bv8>, t: bv8): bv16 {
    Byte16(Byte16(Byte16(Fold16(0, data), t), 0), 0)
  }

  /** The frame check bytes of a packet, before quoting. */
  function CheckBytes(fcs32: bool, data: seq<bv8>, t: bv8): (w: seq<bv8>)
    ensures |w| == if fcs32 then 4 else 2
  {
    if fcs32 then Bytes32(Check32(data, t)) else Bytes16(Check16(data, t))
  }

  /** XON follows a packet that waits for an answer. */
  function Trailer(t: bv8): seq<bv8> {
    if t == ZCRCW then [XON] else []
  }

  /** Everything of a packet but the trailing XON. */
  function PacketBody(m: TxMode, fcs32: bool, previous: bv8, data: seq<bv8>, t: bv8): seq<bv8> {
    Escape(m, previous, data) + [ZDLE, t] + Escape(m, t & 0x7f, CheckBytes(fcs32, data, t))
  }

  /** A data subpacket on the wire. */
  function PacketWire(m: TxMode, fcs32: bool, previous: bv8, data: seq<bv8>, t: bv8): seq<bv8> {
    PacketBody(m, fcs32, previous, data, t) + Trailer(t)
  }

  /** The result of receiving a packet. */
  datatype Outcome = Accepted(t: bv8) | Rejected(code: ErrorCode)
  datatype Packet = Packet(outcome: Outcome, payload: seq<bv8>, rest: Input, cancels: nat)

  function Limit(capacity: nat): nat {
    if capacity < ZMAXSPLEN then capacity else ZMAXSPLEN
  }

  function Clip(data: seq<bv8>, limit: nat): seq<bv8> {
    if |data| <= limit then data else data[..limit]
  }

  /** Whether the frame check read from the line is that of the whole decoded stream. */
  predicate CheckHolds(fcs32: bool, data: seq<bv8>, t: bv8, check: seq<bv8>)
    requires |check| == if fcs32 then 4 else 2
  {
    if fcs32 then Word32(check) == Check32(data, t) else Word16(check) == Check16(data, t)
  }

  /** rx_32_data and rx_16_data: collect, then read and compare the frame check.  A stream longer than the
      buffer is clipped in the buffer, checked as a whole, and never accepted. */
  function Receive(r: RxMode, fcs32: bool, capacity: nat, input: Input, cancels: nat): Packet {
    var c := Collect(r, input, cancels);
    var stored := Clip(c.data, Limit(capacity));
    match c.result
    case Fail(code) => Packet(Rejected(code), stored, c.rest, c.cancels)
    case End(t) =>
      var k := Take(r, if fcs32 then 4 else 2, INVALID_DATA, c.rest, c.cancels);
      if k.code < OK then Packet(Rejected(k.code), stored, k.rest, k.cancels)
      else if !CheckHolds(fcs32, c.data, t, k.bytes) || |c.data| > Limit(capacity) then
        Packet(Rejected(INVALID_DATA), stored, k.rest, k.cancels)
      else Packet(Accepted(t), stored, k.rest, k.cancels)
  }

  // ---------- Round trip ----------

  lemma CheckRoundTrip(fcs32: bool, data: seq<bv8>, t: bv8)
    ensures CheckHolds(fcs32, data, t, CheckBytes(fcs32, data, t))
  {
    hide Check32, Check16;
    WordOfBytes32(Check32(data, t));
    WordOfBytes16(Check16(data, t));
  }

  lemma TerminatorBytes(r: RxMode, t: bv8)
    requires IsTerminator(t)
    ensures !NeedsSlowPath(r, t) && t != CAN && t & 0x7f == t
  {}

  lemma CollectEnd(r: RxMode, t: bv8, rest: Input, cancels: nat)
    requires IsTerminator(t) && Settled(r, cancels)
    ensures Collect(r, Feed([ZDLE, t], rest), cancels) == Collected([], End(t), rest, 0)
  {
    hide Next;
    TerminatorBytes(r, t);
    NextQuoted(r, t, rest, cancels);
    FeedTwo(ZDLE, t, rest);
  }

  /** Every payload that fits is received as it was sent, with its terminator, from exactly the bytes
      it was sent as; only the XON after ZCRCW stays behind. */
  lemma PacketRoundTrip(m: TxMode, r: RxMode, fcs32: bool, previous: bv8, data: seq<bv8>, t: bv8,
                        capacity: nat, rest: Input, cancels: nat)
    requires Understands(r, m) && Settled(r, cancels) && IsTerminator(t) && |data| <= Limit(capacity)
    ensures Receive(r, fcs32, capacity, Feed(PacketWire(m, fcs32, previous, data, t), rest), cancels)
         == Packet(Accepted(t), data, Feed(Trailer(t), rest), 0)
  {
    hide Collect, Take, Escape, CheckBytes, CheckHolds, Understands, IsTerminator;
    var body := Escape(m, previous, data);
    var check := CheckBytes(fcs32, data, t);
    var coded := Escape(m, t & 0x7f, check);
    var after := Feed(Trailer(t), rest);
    FeedConcat(body + [ZDLE, t] + coded, Trailer(t), rest);
    FeedConcat(body + [ZDLE, t], coded, after);
    FeedConcat(body, [ZDLE, t], Feed(coded, after));
    PayloadRoundTrip(m, r, previous, data, Feed([ZDLE, t], Feed(coded, after)), cancels);
    CollectEnd(r, t, Feed(coded, after), if data == [] then cancels else 0);
    TakeRoundTrip(m, r, t & 0x7f, check, INVALID_DATA, after, 0);
    CheckRoundTrip(fcs32, data, t);
    assert data + [] == data;
  }

  // ---------- Oversized and damaged packets ----------

  /** Whatever arrives: the buffer holds the first bytes of the decoded stream, and a packet is accepted
      exactly when the stream ended properly, fitted, and carried the check of all of it. */
  lemma AcceptedExactly(r: RxMode, fcs32: bool, capacity: nat, input: Input, cancels: nat)
    ensures var p := Receive(r, fcs32, capacity, input, cancels);
            var c := Collect(r, input, cancels);
            && p.payload == Clip(c.data, Limit(capacity))
            && (p.outcome.Accepted? <==>
                  && c.result.End? && |c.data| <= Limit(capacity)
                  && var k := Take(r, if fcs32 then 4 else 2, INVALID_DATA, c.rest, c.cancels);
                     k.code == OK && CheckHolds(fcs32, c.data, c.result.t, k.bytes))
            && (p.outcome.Accepted? ==> p.payload == c.data && p.outcome.t == c.result.t)
  {
    hide Collect, Take, CheckHolds;
  }

  lemma Check32Bytes(data: seq<bv8>, t: bv8)
    ensures Check32(data, t) == !Fold32(0xffffffff, data + [t])
  {
    hide Byte32, Fold32;
    Crc.FoldSnoc(0xffffffff, data, t);
  }

  lemma NotIsInjective(a: bv32, b: bv32)
    requires !a == !b
    ensures a == b
  {}

  /** Streams of payload and terminator that differ only inside four consecutive bytes have different
      checks, so the check of one never admits the other. */
  lemma BurstRejected32(data: seq<bv8>, t: bv8, other: seq<bv8>, s: bv8, front: seq<bv8>, u: seq<bv8>, v: seq<bv8>,
                        back: seq<bv8>)
    requires data + [t] == front + u + back && other + [s] == front + v + back
    requires |u| == |v| <= 4 && u != v
    ensures !CheckHolds(true, other, s, CheckBytes(true, data, t))
  {
    hide Check32, Fold32, Byte32;
    WordOfBytes32(Check32(data, t));
    Check32Bytes(data, t);
    Check32Bytes(other, s);
    Crc.BurstChanges32(0xffffffff, front, u, v, back);
    if Check32(data, t) == Check32(other, s) {
      NotIsInjective(Fold32(0xffffffff, data + [t]), Fold32(0xffffffff, other + [s]));
      assert false;
    }
  }

  /** The same for two consecutive bytes and CRC-16. */
  lemma BurstRejected16(data: seq<bv8>, t: bv8, other: seq<bv8>, s: bv8, front: seq<bv8>, u: seq<bv8>, v: seq<bv8>,
                        back: seq<bv8>)
    requires data + [t] == front + u + back && other + [s] == front + v + back
    requires |u| == |v| <= 2 && u != v
    ensures !CheckHolds(false, other, s, CheckBytes(false, data, t))
  {
    hide Check16, Fold16, Byte16;
    WordOfBytes16(Check16(data, t));
    Check16Bytes(data, t);
    Check16Bytes(other, s);
    Crc16.BurstChanges16(0, front, u, v, back + [0, 0]);
    assert (front + u + back) + [0, 0] == front + u + (back + [0, 0]);
    assert (front + v + back) + [0, 0] == front + v + (back + [0, 0]);
  }

  lemma Check16Bytes(data: seq<bv8>, t: bv8)
    ensures Check16(data, t) == Fold16(0, data + [t] + [0, 0])
  {
    hide Byte16, Fold16;
    assert data + [t] + [0, 0] == ((data + [t]) + [0]) + [0];
    Crc16.FoldSnoc(0, data, t);
    Crc16.FoldSnoc(0, data + [t], 0);
    Crc16.FoldSnoc(0, data + [t] + [0], 0);
  }

  /** A packet that carries the check of a stream one burst away from what was decoded is rejected,
      whatever its length and the receiver's buffer. */
  lemma DamagedPacketRejected(r: RxMode, fcs32: bool, capacity: nat, input: Input, cancels: nat,
                              data: seq<bv8>, t: bv8, front: seq<bv8>, u: seq<bv8>, v: seq<bv8>, back: seq<bv8>)
    requires var c := Collect(r, input, cancels);
             && c.result.End? && c.data + [c.result.t] == front + v + back
             && Take(r, if fcs32 then 4 else 2, INVALID_DATA, c.rest, c.cancels).bytes == CheckBytes(fcs32, data, t)
    requires data + [t] == front + u + back && |u| == |v| <= (if fcs32 then 4 else 2) && u != v
    ensures Receive(r, fcs32, capacity, input, cancels).outcome.Rejected?
  {
    hide Collect, Take, CheckHolds, CheckBytes;
    var c := Collect(r, input, cancels);
    if fcs32 {
      BurstRejected32(data, t, c.data, c.result.t, front, u, v, back);
    } else {
      BurstRejected16(data, t, c.data, c.result.t, front, u, v, back);
    }
  }

  // ---------- Bounds and transparency ----------

  /** Ordinary and MobyTurbo packets need at most two wire bytes a payload byte and eleven more. */
  lemma PacketLength(m: TxMode, fcs32: bool, previous: bv8, data: seq<bv8>, t: bv8)
    ensures |PacketWire(m, fcs32, previous, data, t)| <= 2 * |data| + 11
  {
    hide Escape, CheckBytes;
    EscapeLength(m, previous, data);
    EscapeLength(m, t & 0x7f, CheckBytes(fcs32, data, t));
  }

  lemma TerminatorTransparent(previous: bv8, t: bv8)
    requires IsTerminator(t)
    ensures CancelSafe([ZDLE, t]) && Transparent(previous, [ZDLE, t])
  {}

  /** A packet is transparent but for the XON that ends a ZCRCW packet in ordinary mode, and in every mode
      it leaves no pair of CANs. */
  lemma PacketTransparent(m: TxMode, fcs32: bool, previous: bv8, data: seq<bv8>, t: bv8)
    requires IsTerminator(t)
    ensures CancelSafe(PacketWire(m, fcs32, previous, data, t))
    ensures !m.moby ==> Transparent(previous, PacketBody(m, fcs32, previous, data, t))
  {
    hide Escape, CheckBytes, IsTerminator;
    var body := Escape(m, previous, data);
    var check := Escape(m, t & 0x7f, CheckBytes(fcs32, data, t));
    EscapeTransparent(m, previous, data);
    EscapeTransparent(m, t & 0x7f, CheckBytes(fcs32, data, t));
    TerminatorTransparent(LastSent(previous, body), t);
    CancelSafeConcat(body, [ZDLE, t]);
    CancelSafeConcat(body + [ZDLE, t], check);
    CancelSafeConcat(body + [ZDLE, t] + check, Trailer(t));
    if !m.moby {
      TransparentConcat(previous, body, [ZDLE, t]);
      TransparentConcat(previous, body + [ZDLE, t], check);
    }
  }
}
