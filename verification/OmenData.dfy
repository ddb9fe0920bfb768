/** zmdm.c: ESC8 packets sent and received. */
module OmenData {
  import opened Bytes
  import opened Quoting
  import opened Subpackets
  import opened Omen
  import opened Rle
  import opened Link
  import Crc

  // ---------- Sending ----------

  /** Everything sent so far, with what is still in the wire buffer. */
  ghost function Out(z: Zmodem, used: nat): seq<bv8>
    requires used <= z.txDataWire.Length
    reads z, z.txDataWire
  {
    z.sent + z.txDataWire[..used]
  }

  /** flush_omen_tx_buffer */
  method FlushOmen(z: Zmodem, used: nat) returns (ok: bool, used': nat)
    requires z.Valid() && used <= z.txDataWire.Length
    modifies z`outputs, z`sent
    ensures used' <= used
    ensures ok ==> used' == 0 && Out(z, 0) == old(Out(z, used))
    ensures old(z.Healthy()) ==> ok && z.Healthy()
  {
    used' := used;
    if used == 0 {
      return true, used';
    }
    ok := IoWrite(z, z.txDataWire[..used]);
    if ok {
      used' := 0;
    }
  }

  /** One byte into a buffer that has room for it. */
  method Put(z: Zmodem, c: bv8, used: nat) returns (used': nat)
    requires z.Valid() && used < z.txDataWire.Length
    modifies z.txDataWire
    ensures used' == used + 1 && Out(z, used') == old(Out(z, used)) + [c] && z.txDataWire[used] == c
  {
    ghost var before := z.txDataWire[..used];
    z.txDataWire[used] := c;
    used' := used + 1;
    assert z.txDataWire[..used'] == before + [c];
  }

  /** buffer_omen_raw: the buffer is flushed when it is full, so no byte is ever lost or overwritten. */
  method BufferOmenRaw(z: Zmodem, c: bv8, used: nat) returns (ok: bool, used': nat, previous': bv8)
    requires z.Valid() && used <= z.txDataWire.Length
    modifies z`outputs, z`sent, z.txDataWire
    ensures used' <= z.txDataWire.Length
    ensures ok ==> Out(z, used') == old(Out(z, used)) + [c] && previous' == c & 0x7f
    ensures old(z.Healthy()) ==> ok && z.Healthy()
    ensures used < z.txDataWire.Length ==>
              ok && used' == used + 1 && z.sent == old(z.sent) && z.outputs == old(z.outputs)
  {
    ok, used', previous' := true, used, 0;
    if used == z.txDataWire.Length {
      ok, used' := FlushOmen(z, used);
      if !ok {
        return;
      }
    }
    used' := Put(z, c, used');
    previous' := c & 0x7f;
  }

  /** buffer_omen_byte: the one to three bytes of a symbol go into the buffer together. */
  method BufferOmenByte(z: Zmodem, c: bv8, used: nat) returns (ok: bool, used': nat, previous': bv8)
    requires z.Valid() && used <= z.txDataWire.Length
    modifies z`outputs, z`sent, z.txDataWire
    ensures used' <= z.txDataWire.Length
    ensures var w := OmenByte(z.escapeAllControlCharacters, c);
            ok ==> Out(z, used') == old(Out(z, used)) + w && previous' == w[|w| - 1] & 0x7f
    ensures old(z.Healthy()) ==> ok && z.Healthy()
  {
    hide OmenByte, Out;
    var encoded := OmenByte(z.escapeAllControlCharacters, c);
    var count := |encoded|;
    ok, used', previous' := true, used, 0;
    if z.txDataWire.Length - used < count {
      ok, used' := FlushOmen(z, used);
      if !ok {
        return;
      }
    }
    ghost var before := Out(z, used');
    used' := Put(z, encoded[0], used');
    if count > 1 {
      used' := Put(z, encoded[1], used');
      assert before + [encoded[0]] + [encoded[1]] == before + encoded[..2];
    }
    if count > 2 {
      used' := Put(z, encoded[2], used');
      assert before + encoded[..2] + [encoded[2]] == before + encoded;
    }
    previous' := z.txDataWire[used' - 1] & 0x7f;
    assert |encoded| == 1 ==> [encoded[0]] == encoded;
    assert |encoded| == 2 ==> encoded[..2] == encoded;
  }

  /** What has been put out for a list of symbols, and the running frame check. */
  ghost predicate Emitted(z: Zmodem, base: seq<bv8>, last: bv8, symbols: seq<bv8>, used: nat, previous: bv8, crc: bv32)
    reads z, z.txDataWire
  {
    && used <= z.txDataWire.Length
    && Out(z, used) == base + OmenBytes(z.escapeAllControlCharacters, symbols)
    && previous == LastSent(last, OmenBytes(z.escapeAllControlCharacters, symbols))
    && crc == Crc.Fold32(0xffffffff, symbols)
  }

  lemma LastOfOmen(escctl: bool, last: bv8, symbols: seq<bv8>, c: bv8)
    ensures var w := OmenByte(escctl, c);
            && OmenBytes(escctl, symbols + [c]) == OmenBytes(escctl, symbols) + w
            && LastSent(last, OmenBytes(escctl, symbols + [c])) == w[|w| - 1] & 0x7f
  {
    hide OmenByte, OmenBytes;
    OmenConcat(escctl, symbols, [c]);
    OmenOne(escctl, c);
  }

  /** buffer_omen_symbol */
  method BufferOmenSymbol(z: Zmodem, c: bv8, used: nat, previous: bv8, crc: bv32,
                          ghost base: seq<bv8>, ghost last: bv8, ghost symbols: seq<bv8>)
    returns (ok: bool, used': nat, previous': bv8, crc': bv32)
    requires z.Valid() && Emitted(z, base, last, symbols, used, previous, crc)
    modifies z`outputs, z`sent, z.txDataWire
    ensures ok ==> Emitted(z, base, last, symbols + [c], used', previous', crc')
    ensures old(z.Healthy()) ==> ok && z.Healthy()
  {
    hide OmenByte, OmenBytes, Crc.Byte32, Crc.Fold32, LastSent;
    var escctl := z.escapeAllControlCharacters;
    LastOfOmen(escctl, last, symbols, c);
    Crc.FoldSnoc(0xffffffff, symbols, c);
    crc' := Crc.Byte32(crc, c);
    ok, used', previous' := BufferOmenByte(z, c, used);
    assert base + OmenBytes(escctl, symbols) + OmenByte(escctl, c)
      == base + (OmenBytes(escctl, symbols) + OmenByte(escctl, c));
  }

  /** Symbols one after the other. */
  method BufferSymbols(z: Zmodem, more: seq<bv8>, used: nat, previous: bv8, crc: bv32,
                       ghost base: seq<bv8>, ghost last: bv8, ghost symbols: seq<bv8>)
    returns (ok: bool, used': nat, previous': bv8, crc': bv32)
    requires z.Valid() && Emitted(z, base, last, symbols, used, previous, crc) && 1 <= |more| <= 3
    modifies z`outputs, z`sent, z.txDataWire
    ensures ok ==> Emitted(z, base, last, symbols + more, used', previous', crc')
    ensures old(z.Healthy()) ==> ok && z.Healthy()
  {
    hide Emitted;
    ok, used', previous', crc' := BufferOmenSymbol(z, more[0], used, previous, crc, base, last, symbols);
    assert symbols + [more[0]] == symbols + more[..1];
    if !ok || |more| == 1 {
      assert more[..1] == more || |more| > 1;
      return;
    }
    ok, used', previous', crc' := BufferOmenSymbol(z, more[1], used', previous', crc', base, last, symbols + more[..1]);
    assert symbols + more[..1] + [more[1]] == symbols + more[..2];
    if !ok || |more| == 2 {
      assert more[..2] == more || |more| > 2;
      return;
    }
    ok, used', previous', crc' := BufferOmenSymbol(z, more[2], used', previous', crc', base, last, symbols + more[..2]);
    assert symbols + more[..2] + [more[2]] == symbols + more;
  }

  lemma RunIsUnique(data: seq<bv8>, n: nat)
    requires data != [] && 1 <= n <= 63 && n <= |data|
    requires forall i :: 0 <= i < n ==> data[i] == data[0]
    requires n == 63 || n == |data| || data[n] != data[0]
    ensures n == RunLength(data, 63)
  {
    hide RunLength;
    var m := RunLength(data, 63);
  }

  lemma EncodeStep(data: seq<bv8>, offset: nat, symbols: seq<bv8>, run: nat)
    requires offset < |data| && 1 <= run <= 63 && offset + run <= |data|
    requires symbols + RleEncode(data[offset..]) == RleEncode(data) && run == RunLength(data[offset..], 63)
    ensures symbols + Token(run, data[offset]) + RleEncode(data[offset + run..]) == RleEncode(data)
  {
    hide Token, RunLength;
    assert data[offset..][run..] == data[offset + run..];
    assert symbols + (Token(run, data[offset]) + RleEncode(data[offset + run..]))
        == symbols + Token(run, data[offset]) + RleEncode(data[offset + run..]);
  }

  /** The payload loop of tx_omen_data: the tokens of each run in turn. */
  method BufferRuns(z: Zmodem, p: array<bv8>, length: nat)
    returns (ok: bool, used: nat, previous: bv8, crc: bv32)
    requires z.Valid() && length <= p.Length && p != z.txDataWire
    modifies z`outputs, z`sent, z.txDataWire
    ensures ok ==> Emitted(z, old(z.sent), z.lastSent, RleEncode(old(p[..length])), used, previous, crc)
    ensures old(z.Healthy()) ==> ok && z.Healthy()
  {
    hide RleEncode, Token, RunLength, Emitted;
    ghost var base, last, data := z.sent, z.lastSent, p[..length];
    ghost var symbols: seq<bv8> := [];
    ok, used, previous, crc := true, 0, z.lastSent, 0xffffffff;
    NothingEmitted(z);
    assert data[0..] == data;
    assert [] + RleEncode(data) == RleEncode(data);
    var offset := 0;
    while offset < length
      invariant offset <= length && p[..length] == data
      invariant Emitted(z, base, last, symbols, used, previous, crc)
      invariant symbols + RleEncode(data[offset..]) == RleEncode(data)
      invariant old(z.Healthy()) ==> z.Healthy()
    {
      var value := p[offset];
      var run := 1;
      while run < 63
        invariant 1 <= run <= 63 && offset + run <= length
        invariant forall i :: offset <= i < offset + run ==> data[i] == value
      {
        if run >= length - offset {
          break;
        }
        if p[offset + run] != value {
          break;
        }
        assert data[offset + run] == p[offset + run];
        run := run + 1;
      }
      assert data[offset] == value;
      ghost var left := data[offset..];
      assert run < |left| ==> left[run] == data[offset + run] == p[offset + run];
      RunIsUnique(left, run);
      EncodeStep(data, offset, symbols, run);
      ok, used, previous, crc := BufferSymbols(z, TokenOf(run, value), used, previous, crc, base, last, symbols);
      if !ok {
        return;
      }
      symbols := symbols + Token(run, value);
      offset := offset + run;
      assert p[..length] == data;
    }
    NothingLeft(symbols, data, offset);
  }

  /** The token of a run, which has one to three symbols. */
  function TokenOf(run: nat, value: bv8): (s: seq<bv8>)
    requires 1 <= run <= 63
    ensures s == Token(run, value) && 1 <= |s| <= 3
  {
    Token(run, value)
  }

  lemma NothingEmitted(z: Zmodem)
    requires z.Valid()
    ensures Emitted(z, z.sent, z.lastSent, [], 0, z.lastSent, 0xffffffff)
  {
    hide Crc.Byte32;
    assert z.txDataWire[..0] == [];
    assert z.sent + [] == z.sent;
  }

  lemma NothingLeft(symbols: seq<bv8>, data: seq<bv8>, offset: nat)
    requires offset == |data| && symbols + RleEncode(data[offset..]) == RleEncode(data)
    ensures symbols == RleEncode(data)
  {
    assert RleEncode(data[offset..]) == [];
  }

  /** The four frame check bytes. */
  method BufferOmenCheck(z: Zmodem, crc: bv32, used: nat) returns (ok: bool, used': nat, previous': bv8)
    requires z.Valid() && used <= z.txDataWire.Length
    modifies z`outputs, z`sent, z.txDataWire
    ensures used' <= z.txDataWire.Length
    ensures var w := OmenBytes(z.escapeAllControlCharacters, Bytes32(crc));
            ok ==> |w| > 0 && Out(z, used') == old(Out(z, used)) + w && previous' == w[|w| - 1] & 0x7f
    ensures old(z.Healthy()) ==> ok && z.Healthy()
  {
    hide OmenByte, OmenBytes, Out, Bytes32;
    var bytes := Bytes32(crc);
    var escctl := z.escapeAllControlCharacters;
    ghost var before := Out(z, used);
    ok, used', previous' := true, used, 0;
    assert OmenBytes(escctl, []) == [] by { NoSymbols(escctl); }
    assert bytes[..0] == [];
    for offset := 0 to 4
      invariant used' <= z.txDataWire.Length && (old(z.Healthy()) ==> z.Healthy())
      invariant Out(z, used') == before + OmenBytes(escctl, bytes[..offset])
      invariant offset > 0 ==> var w := OmenBytes(escctl, bytes[..offset]); |w| > 0 && previous' == w[|w| - 1] & 0x7f
    {
      assert bytes[..offset + 1] == bytes[..offset] + [bytes[offset]];
      LastOfOmen(escctl, 0, bytes[..offset], bytes[offset]);
      ok, used', previous' := BufferOmenByte(z, bytes[offset], used');
      if !ok {
        return;
      }
      Associates(before, OmenBytes(escctl, bytes[..offset]), OmenByte(escctl, bytes[offset]));
    }
    assert bytes[..4] == bytes;
  }

  lemma NoSymbols(escctl: bool)
    ensures OmenBytes(escctl, []) == []
  {}

  /** The end of an ESC8 packet: terminator, frame check, and XON if an answer is expected. */
  function OmenEnd(escctl: bool, t: bv8, crc: bv32): seq<bv8> {
    [ZDLE] + [t] + OmenBytes(escctl, Bytes32(crc)) + Trailer(t)
  }

  method BufferOmenEnd(z: Zmodem, t: bv8, crc: bv32, used: nat) returns (ok: bool, used': nat, previous': bv8)
    requires z.Valid() && used <= z.txDataWire.Length
    modifies z`outputs, z`sent, z.txDataWire
    ensures used' <= z.txDataWire.Length
    ensures var w := OmenEnd(z.escapeAllControlCharacters, t, crc);
            ok ==> Out(z, used') == old(Out(z, used)) + w && previous' == w[|w| - 1] & 0x7f
    ensures old(z.Healthy()) ==> ok && z.Healthy()
  {
    hide OmenBytes, Out, Bytes32;
    ghost var before := Out(z, used);
    ok, used', previous' := BufferOmenRaw(z, ZDLE, used);
    if !ok {
      return;
    }
    ok, used', previous' := BufferOmenRaw(z, t, used');
    if !ok {
      return;
    }
    ok, used', previous' := BufferOmenCheck(z, crc, used');
    if !ok {
      return;
    }
    ghost var check := OmenBytes(z.escapeAllControlCharacters, Bytes32(crc));
    assert before + [ZDLE] + [t] + check == before + ([ZDLE] + [t] + check);
    if t == ZCRCW {
      ok, used', previous' := BufferOmenRaw(z, XON, used');
      assert before + ([ZDLE] + [t] + check) + [XON] == before + ([ZDLE] + [t] + check + [XON]);
    } else {
      assert [ZDLE] + [t] + check + [] == [ZDLE] + [t] + check;
    }
  }

  lemma WireParts(escctl: bool, data: seq<bv8>, t: bv8)
    ensures OmenWire(escctl, data, t)
              == OmenBytes(escctl, RleEncode(data)) + OmenEnd(escctl, t, Check32(RleEncode(data), t))
  {
    hide OmenBytes, RleEncode, Check32, Bytes32, Trailer;
    assert [ZDLE, t] == [ZDLE] + [t];
  }

  lemma LastOfEnd(last: bv8, front: seq<bv8>, end: seq<bv8>)
    requires end != []
    ensures LastSent(last, front + end) == end[|end| - 1] & 0x7f
  {}

  /** The packet is what has been put out so far, then its end. */
  lemma OmenPacketOut(base: seq<bv8>, escctl: bool, data: seq<bv8>, t: bv8, last: bv8)
    ensures var w := OmenWire(escctl, data, t);
            var end := OmenEnd(escctl, t, Check32(RleEncode(data), t));
            && base + OmenBytes(escctl, RleEncode(data)) + end == base + w
            && |end| > 0 && LastSent(last, w) == end[|end| - 1] & 0x7f
  {
    WireParts(escctl, data, t);
    hide OmenBytes, RleEncode, Check32, Bytes32, Trailer, OmenWire, LastSent;
    LastOfEnd(last, OmenBytes(escctl, RleEncode(data)), OmenEnd(escctl, t, Check32(RleEncode(data), t)));
  }

  /** The terminator goes through the register last, and the complement is sent. */
  method FinishCheck(crc: bv32, t: bv8, ghost symbols: seq<bv8>) returns (check: bv32)
    requires crc == Crc.Fold32(0xffffffff, symbols)
    ensures check == Check32(symbols, t)
  {
    hide Crc.Fold32, Crc.Byte32;
    check := !Crc.Byte32(crc, t);
  }

  /** The symbols of the payload, then the end, into the buffer. */
  method BufferOmenPacket(z: Zmodem, t: bv8, p: array<bv8>, length: nat) returns (ok: bool, used: nat, previous: bv8)
    requires z.Valid() && length <= p.Length && p != z.txDataWire
    modifies z`outputs, z`sent, z.txDataWire
    ensures used <= z.txDataWire.Length
    ensures var w := OmenWire(z.escapeAllControlCharacters, old(p[..length]), t);
            ok ==> Out(z, used) == old(z.sent) + w && previous == LastSent(z.lastSent, w)
    ensures old(z.Healthy()) ==> ok && z.Healthy()
  {
    hide RleEncode, OmenBytes, OmenWire, OmenEnd, Crc.Fold32, Crc.Byte32, LastSent, Out, Check32;
    ghost var escctl, base, data := z.escapeAllControlCharacters, z.sent, p[..length];
    OmenPacketOut(base, escctl, data, t, z.lastSent);
    var crc;
    ok, used, previous, crc := BufferRuns(z, p, length);
    if !ok {
      used := 0;
      return;
    }
    crc := FinishCheck(crc, t, RleEncode(data));
    ok, used, previous := BufferOmenEnd(z, t, crc, used);
  }

  /** tx_omen_data: the flushes concatenate to the packet, whatever its length on the wire. */
  method TxOmenData(z: Zmodem, t: bv8, p: array<bv8>, length: nat) returns (ok: bool)
    requires z.Valid() && length <= p.Length && length <= ZMAXSPLEN && p != z.txDataWire
    modifies z`outputs, z`sent, z`lastSent, z.txDataWire
    ensures var w := OmenWire(z.escapeAllControlCharacters, old(p[..length]), t);
            ok ==> z.sent == old(z.sent) + w && z.lastSent == LastSent(old(z.lastSent), w)
    ensures old(z.Healthy()) ==> ok && z.Healthy()
  {
    hide OmenWire, LastSent;
    var used, previous;
    ok, used, previous := BufferOmenPacket(z, t, p, length);
    if !ok {
      return;
    }
    ok, used := FlushOmen(z, used);
    if !ok {
      return;
    }
    NothingBuffered(z);
    z.lastSent := previous;
    ok := TxFlush(z);
  }

  lemma NothingBuffered(z: Zmodem)
    requires z.Valid()
    ensures Out(z, 0) == z.sent
  {
    assert z.txDataWire[..0] == [];
  }

  // ---------- Receiving ----------

  lemma OmenNextRaw(r: RxMode, p: Posture, input: Input, cancels: nat)
    ensures var raw := Raw(r, input, cancels);
            OmenNext(r, p, input, cancels) ==
            if raw.symbol.Fail? then raw
            else match React(r, p, raw.symbol.b & 0x7f)
              case Stay(p') => OmenNext(r, p', raw.rest, raw.cancels)
              case Emit(symbol) => Scan(symbol, raw.rest, raw.cancels)
              case Bad => Scan(Fail(INVALID_DATA), raw.rest, raw.cancels)
  {
    hide React, Raw;
  }

  lemma ReactBare(r: RxMode, high: bool, c: bv8)
    ensures React(r, Posture(high, false), c) ==
            if IsFlowControl(c) then Stay(Posture(high, false))
            else if c == SO then Stay(Posture(true, false))
            else if c == ZDLE then Stay(Posture(high, true))
            else if IsUnescapedControl(r, c) then Stay(Posture(high, false))
            else Emit(Byte(if high then c | 0x80 else c))
  {}

  /** The switch of rx_omen_cursor on the byte after ZDLE. */
  function PrivateByte(high: bool, c: bv8): Symbol {
    if IsTerminator(c) then End(c)
    else if c == ZRUB0 then Byte(if high then 0xff else 0x7f)
    else if c == ZRUB1 then Byte(0xff)
    else if c == 0x6e then Byte(if high then 0x8e else 0x0e)
    else if c == 0x6f then Byte(0x8e)
    else if c == 0x70 then Byte(0x90)
    else if c == 0x71 then Byte(0x91)
    else if c == 0x72 then Byte(0x93)
    else if c == 0x73 then Byte(0x80)
    else if c == 0x74 then Byte(0x98)
    else if c & 0x60 != 0x40 then Fail(INVALID_DATA)
    else Byte(if high then (c ^ 0x40) | 0x80 else c ^ 0x40)
  }

  lemma ReactQuoted(r: RxMode, high: bool, c: bv8)
    ensures React(r, Posture(high, true), c) ==
            if IsFlowControl(c) then Stay(Posture(high, true))
            else if PrivateByte(high, c).Fail? then Bad else Emit(PrivateByte(high, c))
    ensures PrivateByte(high, c).Fail? ==> PrivateByte(high, c).code == INVALID_DATA
  {}

  /** rx_omen_cursor */
  method RxOmenCursor(z: Zmodem, cursor: Cursor) returns (result: Symbol, next: Cursor)
    requires z.Valid() && z.Holds(cursor)
    modifies z`script, z`inputCount, z`inputIndex, z`cancelCount, z.inputBuffer
    ensures z.Valid() && z.Holds(next)
    ensures Scan(result, z.Ahead(next), next.cancels) == OmenNext(z.Mode(), BARE, old(z.Ahead(cursor)), cursor.cancels)
  {
    hide OmenNext, React, Raw, PrivateByte, IsUnescapedControl, IsFlowControl;
    var r := z.Mode();
    ghost var goal := OmenNext(r, BARE, z.Ahead(cursor), cursor.cancels);
    var high := false;
    next := cursor;
    while true
      invariant z.Valid() && z.Holds(next)
      invariant OmenNext(r, Posture(high, false), z.Ahead(next), next.cancels) == goal
      decreases z.Ahead(next)
    {
      OmenNextRaw(r, Posture(high, false), z.Ahead(next), next.cancels);
      result, next := RxCursorRaw(z, next);
      if !result.Byte? {
        return;
      }
      var c := result.b & 0x7f;
      ReactBare(r, high, c);
      if IsFlowControl(c) {
        continue;
      }
      if c == SO {
        high := true;
        continue;
      }
      if c != ZDLE {
        if IsUnescapedControl(r, c) {
          continue;
        }
        return Byte(if high then c | 0x80 else c), next;
      }
      var flow := true;
      while flow
        invariant z.Valid() && z.Holds(next)
        invariant flow ==> OmenNext(r, Posture(high, true), z.Ahead(next), next.cancels) == goal
        invariant !flow ==> !IsFlowControl(c) && goal == Scan(PrivateByte(high, c), z.Ahead(next), next.cancels)
        decreases z.Ahead(next), flow
      {
        OmenNextRaw(r, Posture(high, true), z.Ahead(next), next.cancels);
        result, next := RxCursorRaw(z, next);
        if !result.Byte? {
          return;
        }
        c := result.b & 0x7f;
        ReactQuoted(r, high, c);
        flow := IsFlowControl(c);
      }
      return PrivateByte(high, c), next;
    }
  }

  /** rx_rle_cursor */
  method RxRleCursor(z: Zmodem, cursor: Cursor) returns (result: Symbol, next: Cursor)
    requires z.Valid() && z.Holds(cursor)
    modifies z`script, z`inputCount, z`inputIndex, z`cancelCount, z.inputBuffer
    ensures z.Valid() && z.Holds(next)
    ensures Scan(result, z.Ahead(next), next.cancels) == RleNext(z.Mode(), old(z.Ahead(cursor)), cursor.cancels)
  {
    if z.receiveEscape8Format.Escape8Omen? {
      result, next := RxOmenCursor(z, cursor);
    } else {
      result, next := RxCursor(z, cursor);
    }
  }

  /** The packet buffer holds as much of the payload as fits. */
  ghost predicate Kept(p: array<bv8>, limit: nat, data: seq<bv8>, used: nat, overflow: bool)
    reads p
  {
    used <= limit <= p.Length && p[..used] == Clip(data, limit) && overflow == (|data| > limit)
  }

  /** One byte into the packet buffer, if it has room. */
  method KeepByte(p: array<bv8>, c: bv8, limit: nat, used: nat, overflow: bool, ghost data: seq<bv8>)
    returns (used': nat, overflow': bool)
    requires Kept(p, limit, data, used, overflow)
    modifies p
    ensures Kept(p, limit, data + [c], used', overflow')
  {
    used', overflow' := used, overflow;
    KeptMore(p, limit, data, c, used, overflow);
    if used < limit {
      ghost var kept := p[..used];
      p[used] := c;
      used' := used + 1;
      assert p[..used'] == kept + [c];
    } else {
      overflow' := true;
    }
  }

  /** Bytes of one value into the buffer, as far as it has room. */
  method PutRun(p: array<bv8>, c: bv8, count: nat, limit: nat, used: nat, overflow: bool, ghost data: seq<bv8>)
    returns (used': nat, overflow': bool)
    requires Kept(p, limit, data, used, overflow)
    modifies p
    ensures Kept(p, limit, data + Repeat(c, count), used', overflow')
  {
    hide Kept;
    used', overflow' := used, overflow;
    var run: nat := count;
    assert data + Repeat(c, 0) == data;
    while run > 0
      invariant run <= count
      invariant Kept(p, limit, data + Repeat(c, count - run), used', overflow')
    {
      assert data + Repeat(c, count - (run - 1)) == data + Repeat(c, count - run) + [c];
      used', overflow' := KeepByte(p, c, limit, used', overflow', data + Repeat(c, count - run));
      run := run - 1;
    }
    assert count - run == count;
  }

  lemma KeptMore(p: array<bv8>, limit: nat, data: seq<bv8>, c: bv8, used: nat, overflow: bool)
    requires Kept(p, limit, data, used, overflow)
    ensures used < limit ==> Clip(data + [c], limit) == p[..used] + [c] && |data + [c]| <= limit
    ensures used == limit ==> Clip(data + [c], limit) == p[..used] && |data + [c]| > limit
  {
    if used == limit {
      assert (data + [c])[..limit] == data[..limit];
    }
  }

  lemma RleStreamStep(r: RxMode, st: RleState, input: Input, cancels: nat)
    ensures var s := RleNext(r, input, cancels);
            RleStream(r, st, input, cancels) ==
            if s.symbol.Fail? then Stream([], [], s.symbol, s.rest, s.cancels)
            else if s.symbol.End? then
              Stream([], [], if st.Normal? then s.symbol else Fail(INVALID_DATA), s.rest, s.cancels)
            else
              var a := Absorb(st, s.symbol.b);
              if !a.2 then Stream([s.symbol.b], [], Fail(INVALID_DATA), s.rest, s.cancels)
              else
                var more := RleStream(r, a.1, s.rest, s.cancels);
                more.(symbols := [s.symbol.b] + more.symbols, data := a.0 + more.data)
  {
    hide RleNext, Absorb;
  }

  ghost predicate Preceded(whole: Stream, symbols: seq<bv8>, data: seq<bv8>, after: Stream) {
    whole == after.(symbols := symbols + after.symbols, data := data + after.data)
  }

  lemma PrecededMore(whole: Stream, symbols: seq<bv8>, data: seq<bv8>, c: bv8, out: seq<bv8>, after: Stream)
    requires Preceded(whole, symbols, data, after.(symbols := [c] + after.symbols, data := out + after.data))
    ensures Preceded(whole, symbols + [c], data + out, after)
  {
    assert symbols + ([c] + after.symbols) == symbols + [c] + after.symbols;
    assert data + (out + after.data) == data + out + after.data;
  }

  /** The symbol loop of rx_rle_data. */
  method RxRleStream(z: Zmodem, p: array<bv8>, limit: nat, first: Cursor)
    returns (result: Symbol, next: Cursor, used: nat, overflow: bool, crc: bv32)
    requires z.Valid() && z.Holds(first) && limit <= p.Length && p != z.inputBuffer
    modifies z`script, z`inputCount, z`inputIndex, z`cancelCount, z.inputBuffer, p
    ensures z.Valid() && z.Holds(next)
    ensures var d := RleStream(z.Mode(), Normal, old(z.Ahead(first)), first.cancels);
            && Scan(result, z.Ahead(next), next.cancels) == Scan(d.result, d.rest, d.cancels)
            && Kept(p, limit, d.data, used, overflow)
            && (result.End? ==> crc == Crc.Fold32(0xffffffff, d.symbols))
  {
    hide RleStream, RleNext, Absorb, Kept, Repeat, Crc.Byte32, Crc.Fold32;
    var r := z.Mode();
    ghost var whole := RleStream(r, Normal, z.Ahead(first), first.cancels);
    ghost var symbols: seq<bv8>, data: seq<bv8> := [], [];
    var state := Normal;
    next, used, overflow, crc := first, 0, false, 0xffffffff;
    Crc.FoldNothing(0xffffffff);
    assert [] + whole.symbols == whole.symbols && [] + whole.data == whole.data;
    NothingKept(p, limit);
    while true
      invariant z.Valid() && z.Holds(next)
      invariant Kept(p, limit, data, used, overflow)
      invariant crc == Crc.Fold32(0xffffffff, symbols)
      invariant Preceded(whole, symbols, data, RleStream(r, state, z.Ahead(next), next.cancels))
      decreases z.Ahead(next)
    {
      RleStreamStep(r, state, z.Ahead(next), next.cancels);
      result, next := RxRleCursor(z, next);
      if !result.Byte? {
        assert symbols + [] == symbols && data + [] == data;
        if result.End? && !state.Normal? {
          result := Fail(INVALID_DATA);
        }
        return;
      }
      var c := result.b;
      Crc.FoldSnoc(0xffffffff, symbols, c);
      crc := Crc.Byte32(crc, c);
      var out, state', valid := Absorb(state, c).0, Absorb(state, c).1, Absorb(state, c).2;
      if !valid {
        assert data + [] == data;
        return Fail(INVALID_DATA), next, used, overflow, crc;
      }
      PrecededMore(whole, symbols, data, c, out, RleStream(r, state', z.Ahead(next), next.cancels));
      used, overflow := Store(p, state, c, limit, used, overflow, data);
      symbols, data, state := symbols + [c], data + out, state';
    }
  }

  /** What the switch of rx_rle_data stores for one symbol. */
  method Store(p: array<bv8>, state: RleState, c: bv8, limit: nat, used: nat, overflow: bool, ghost data: seq<bv8>)
    returns (used': nat, overflow': bool)
    requires Kept(p, limit, data, used, overflow) && Absorb(state, c).2
    modifies p
    ensures Kept(p, limit, data + Absorb(state, c).0, used', overflow')
  {
    hide Kept, ClassifyCount, Repeat;
    used', overflow' := used, overflow;
    assert data + [] == data;
    match state {
      case Normal =>
        if c != ZRESC {
          RepeatOne(c);
          used', overflow' := PutRun(p, c, 1, limit, used, overflow, data);
        }
      case Count =>
        match ClassifyCount(c) {
          case LiteralCount =>
            RepeatOne(ZRESC);
            used', overflow' := PutRun(p, ZRESC, 1, limit, used, overflow, data);
          case SpaceCount(run) =>
            used', overflow' := PutRun(p, 0x20, run, limit, used, overflow, data);
          case ValueCount(_) =>
          case InvalidCount =>
        }
      case Value(run) =>
        used', overflow' := PutRun(p, c, run, limit, used, overflow, data);
    }
  }

  lemma NothingKept(p: array<bv8>, limit: nat)
    requires limit <= p.Length
    ensures Kept(p, limit, [], 0, false)
  {}

  /** rx_rle_byte_cursor, four times over. */
  method RxRleTake(z: Zmodem, n: nat, first: Cursor) returns (code: int, bytes: seq<bv8>, next: Cursor)
    requires z.Valid() && z.Holds(first)
    modifies z`script, z`inputCount, z`inputIndex, z`cancelCount, z.inputBuffer
    ensures z.Valid() && z.Holds(next)
    ensures Taken(code, bytes, z.Ahead(next), next.cancels) == RleTake(z.Mode(), n, old(z.Ahead(first)), first.cancels)
  {
    hide RleNext;
    var r := z.Mode();
    ghost var whole := RleTake(r, n, z.Ahead(first), first.cancels);
    bytes, next := [], first;
    var i := 0;
    assert whole.bytes == [] + whole.bytes;
    while i < n
      invariant i <= n && z.Valid() && z.Holds(next)
      invariant var after := RleTake(r, n - i, z.Ahead(next), next.cancels);
                whole == after.(bytes := bytes + after.bytes)
    {
      var c;
      c, next := RxRleCursor(z, next);
      match c {
        case Fail(e) =>
          assert bytes + [] == bytes;
          return e, bytes, next;
        case End(_) =>
          assert bytes + [] == bytes;
          return INVALID_DATA, bytes, next;
        case Byte(b) =>
          ghost var after := RleTake(r, n - i - 1, z.Ahead(next), next.cancels);
          assert bytes + ([b] + after.bytes) == (bytes + [b]) + after.bytes;
          bytes := bytes + [b];
          i := i + 1;
      }
    }
    assert bytes + [] == bytes;
    code := OK;
  }

  /** The end of rx_rle_data. */
  method RxRleVerdict(z: Zmodem, crc: bv32, t: bv8, overflow: bool, cursor: Cursor, ghost symbols: seq<bv8>)
    returns (outcome: Outcome)
    requires z.Valid() && z.Holds(cursor) && crc == Check32(symbols, t)
    modifies z`script, z`inputCount, z`inputIndex, z`cancelCount, z.inputBuffer
    ensures z.Valid()
    ensures var k := RleTake(z.Mode(), 4, old(z.Ahead(cursor)), cursor.cancels);
            && z.Pending() == k.rest && z.cancelCount == k.cancels
            && outcome == if k.code < OK then Rejected(k.code)
                          else if !CheckHolds(true, symbols, t, k.bytes) || overflow then Rejected(INVALID_DATA)
                          else Accepted(t)
  {
    hide RleTake, Word32, Check32;
    var code, check, after := RxRleTake(z, 4, cursor);
    StoreRxCursor(z, after);
    if code != OK {
      return Rejected(code);
    }
    if Word32(check) != crc {
      return Rejected(INVALID_DATA);
    }
    if overflow {
      return Rejected(INVALID_DATA);
    }
    outcome := Accepted(t);
  }

  /** rx_rle_data */
  method RxRleData(z: Zmodem, p: array<bv8>, capacity: nat) returns (outcome: Outcome, l: nat)
    requires z.Valid() && capacity <= p.Length && p != z.inputBuffer
    modifies z`script, z`inputCount, z`inputIndex, z`cancelCount, z.inputBuffer, p
    ensures z.Valid() && l <= p.Length
    ensures Packet(outcome, p[..l], z.Pending(), z.cancelCount)
         == ReceiveRle(z.Mode(), capacity, old(z.Pending()), old(z.cancelCount))
    ensures var data := RleStream(z.Mode(), Normal, old(z.Pending()), old(z.cancelCount)).data;
            && p[..l] == Clip(data, Limit(capacity))
            && (|data| > Limit(capacity) ==> outcome.Rejected?) && (outcome.Accepted? ==> p[..l] == data)
  {
    hide RleStream, RleTake, CheckHolds, Crc.Fold32, Check32, Kept, Clip;
    RleAcceptedExactly(z.Mode(), capacity, z.Pending(), z.cancelCount);
    var limit := if capacity < ZMAXSPLEN then capacity else ZMAXSPLEN;
    var cursor := LoadRxCursor(z);
    ghost var d := RleStream(z.Mode(), Normal, z.Pending(), z.cancelCount);
    var result, next, used, overflow, crc := RxRleStream(z, p, limit, cursor);
    KeptMeans(p, limit, d.data, used, overflow);
    l := used;
    if !result.End? {
      StoreRxCursor(z, next);
      return Rejected(result.code), l;
    }
    crc := FinishCheck(crc, result.t, d.symbols);
    ghost var stored := p[..l];
    outcome := RxRleVerdict(z, crc, result.t, overflow, next, d.symbols);
    assert p[..l] == stored;
  }

  lemma KeptMeans(p: array<bv8>, limit: nat, data: seq<bv8>, used: nat, overflow: bool)
    requires Kept(p, limit, data, used, overflow)
    ensures used <= p.Length && p[..used] == Clip(data, limit) && overflow == (|data| > limit)
  {}
}
