/** zmdm.c: sending data subpackets with ordinary and MobyTurbo quoting. */
module TxData {
  import opened Bytes
  import opened Quoting
  import opened Spans
  import opened Subpackets
  import opened Link
  import Crc
  import Crc16

  /** The quoting that the sender's flags select. */
  function SenderMode(z: Zmodem): TxMode
    reads z
  {
    TxMode(z.useMobyturbo, z.escapeAllControlCharacters, z.escapeIac)
  }

  /** Whether packets carry CRC-32. */
  predicate Wide(z: Zmodem)
    reads z
  {
    z.useMobyturbo || (z.wantFcs32 && z.canFcs32)
  }

  /** buffer_raw */
  method BufferRaw(z: Zmodem, c: bv8, used: nat) returns (used': nat, previous': bv8)
    requires z.Valid() && used < z.txDataWire.Length
    modifies z.txDataWire
    ensures used' == used + 1 && z.txDataWire[..used'] == old(z.txDataWire[..used]) + [c]
    ensures previous' == c & 0x7f
  {
    z.txDataWire[used] := c;
    used', previous' := used + 1, c & 0x7f;
  }

  /** buffer_tx */
  method BufferTx(z: Zmodem, c: bv8, used: nat, previous: bv8) returns (used': nat, previous': bv8)
    requires z.Valid() && used + 2 <= z.txDataWire.Length && !z.useMobyturbo
    modifies z.txDataWire
    ensures var w := EscapeByte(SenderMode(z), previous, c);
            && used' == used + |w| && z.txDataWire[..used'] == old(z.txDataWire[..used]) + w
            && previous' == LastSent(previous, w)
  {
    hide NeedsEscape;
    if NeedsEscape(SenderMode(z), c, previous) {
      used', previous' := BufferRaw(z, ZDLE, used);
      if c == 0xff {
        used', previous' := BufferRaw(z, ZRUB1, used');
      } else {
        used', previous' := BufferRaw(z, c ^ 0x40, used');
      }
    } else {
      used', previous' := BufferRaw(z, c, used);
    }
  }

  /** buffer_mobyturbo */
  method BufferMobyturbo(z: Zmodem, c: bv8, used: nat, previous: bv8) returns (used': nat, previous': bv8)
    requires z.Valid() && used + 2 <= z.txDataWire.Length && z.useMobyturbo
    modifies z.txDataWire
    ensures var w := EscapeByte(SenderMode(z), previous, c);
            && used' == used + |w| && z.txDataWire[..used'] == old(z.txDataWire[..used]) + w
            && previous' == LastSent(previous, w)
  {
    hide NeedsEscape;
    if NeedsEscape(SenderMode(z), c, previous) {
      used', previous' := BufferRaw(z, ZDLE, used);
      if z.escapeIac && c == 0xff {
        used', previous' := BufferRaw(z, ZRUB1, used');
      } else {
        used', previous' := BufferRaw(z, c ^ 0x40, used');
      }
    } else {
      used', previous' := BufferRaw(z, c, used);
    }
  }

  /** The payload loop of tx_data: MobyTurbo, the plain-span path, or byte by byte.  All three write the
      same bytes, those of the bytewise rule. */
  method BufferPayload(z: Zmodem, p: array<bv8>, l: nat) returns (used: nat, previous: bv8)
    requires z.Valid() && l <= p.Length && l <= ZMAXSPLEN && p != z.txDataWire
    modifies z.txDataWire
    ensures var w := Escape(SenderMode(z), z.lastSent, p[..l]);
            && used == |w| <= 2 * l && z.txDataWire[..used] == w && previous == LastSent(z.lastSent, w)
  {
    hide Escape, NeedsEscape;
    var m := SenderMode(z);
    var i := 0;
    used, previous := 0, z.lastSent;
    ghost var first := z.lastSent;
    EscapeNothing(m, first);
    assert p[..0] == [];
    if !z.useMobyturbo && ActiveClasses(m) == TX_ESCAPE_ALWAYS {
      OnlyDefault(m);
      while i < l
        invariant i <= l
        invariant Buffered(z, m, first, p[..i], used, previous)
      {
        EscapeLength(m, first, p[..i]);
        used, previous, i := BufferSpan(z, p, l, i, used, previous);
      }
    } else {
      while i < l
        invariant i <= l
        invariant Buffered(z, m, first, p[..i], used, previous)
      {
        EscapeLength(m, first, p[..i]);
        EscapeSnoc(m, first, p[..i], p[i]);
        assert p[..i + 1] == p[..i] + [p[i]];
        if z.useMobyturbo {
          used, previous := BufferMobyturbo(z, p[i], used, previous);
        } else {
          used, previous := BufferTx(z, p[i], used, previous);
        }
        LastSentConcat(first, Escape(m, first, p[..i]), EscapeByte(m, LastSent(first, Escape(m, first, p[..i])), p[i]));
        i := i + 1;
      }
    }
    assert p[..i] == p[..l];
    EscapeLength(m, first, p[..l]);
  }

  /** The wire buffer holds the quoted form of what has been taken so far. */
  ghost predicate Buffered(z: Zmodem, m: TxMode, first: bv8, data: seq<bv8>, used: nat, previous: bv8)
    reads z, z.txDataWire
  {
    var w := Escape(m, first, data);
    used == |w| <= z.txDataWire.Length && z.txDataWire[..used] == w && previous == LastSent(first, w)
  }

  lemma EscapeNothing(m: TxMode, previous: bv8)
    ensures Escape(m, previous, []) == [] && LastSent(previous, []) == previous
  {}

  lemma OnlyDefault(m: TxMode)
    requires !m.moby && ActiveClasses(m) == TX_ESCAPE_ALWAYS
    ensures m == DEFAULT
  {}

  /** A run of plain bytes, and then perhaps one quoted byte, behind a quoted payload. */
  lemma SpanStep(first: bv8, data: seq<bv8>, run: seq<bv8>)
    requires Escape(DEFAULT, LastSent(first, Escape(DEFAULT, first, data)), run) == run
    ensures var w := Escape(DEFAULT, first, data);
            && Escape(DEFAULT, first, data + run) == w + run
            && LastSent(first, w + run) == LastSent(LastSent(first, w), run)
  {
    hide Escape;
    EscapeConcat(DEFAULT, first, data, run);
    LastSentConcat(first, Escape(DEFAULT, first, data), run);
  }

  lemma QuoteStep(first: bv8, data: seq<bv8>, c: bv8)
    requires NeedsEscape(DEFAULT, c, LastSent(first, Escape(DEFAULT, first, data)))
    ensures var w := Escape(DEFAULT, first, data);
            && Escape(DEFAULT, first, data + [c]) == w + [ZDLE] + [c ^ 0x40]
            && LastSent(first, w + [ZDLE] + [c ^ 0x40]) == (c ^ 0x40) & 0x7f
  {
    hide Escape, NeedsEscape;
    var w := Escape(DEFAULT, first, data);
    PlainRule(c, LastSent(first, w));
    EscapeSnoc(DEFAULT, first, data, c);
    assert w + [ZDLE, c ^ 0x40] == w + [ZDLE] + [c ^ 0x40];
  }

  /** One round of the plain-span path: a run of bytes as they are, then one quoted byte. */
  method BufferSpan(z: Zmodem, p: array<bv8>, l: nat, i: nat, used: nat, previous: bv8)
    returns (used': nat, previous': bv8, i': nat)
    requires z.Valid() && i < l <= p.Length && p != z.txDataWire
    requires used <= 2 * i && l <= ZMAXSPLEN && Buffered(z, DEFAULT, z.lastSent, p[..i], used, previous)
    modifies z.txDataWire
    ensures i < i' <= l && Buffered(z, DEFAULT, z.lastSent, p[..i'], used', previous')
  {
    hide Escape, NeedsEscape, LastSent;
    ghost var first, before := z.lastSent, z.txDataWire[..used];
    ghost var payload := p[..l];
    var span, last := TxCopyPlainSpan(z.wordForm, z.txDataWire, used, p, i, l - i, previous);
    SpanStep(first, p[..i], p[i..i + span]);
    assert p[..i + span] == p[..i] + p[i..i + span];
    used', previous', i' := used + span, last, i + span;
    if i' < l {
      QuoteStep(first, p[..i'], p[i']);
      assert p[..i' + 1] == p[..i'] + [p[i']];
      used', previous' := BufferRaw(z, ZDLE, used');
      used', previous' := BufferRaw(z, p[i'] ^ 0x40, used');
      i' := i' + 1;
    }
    assert p[..l] == payload;
  }

  /** One byte in the quoting the flags select. */
  method BufferByte(z: Zmodem, c: bv8, used: nat, previous: bv8) returns (used': nat, previous': bv8)
    requires z.Valid() && used + 2 <= z.txDataWire.Length
    modifies z.txDataWire
    ensures var w := EscapeByte(SenderMode(z), previous, c);
            && used' == used + |w| && z.txDataWire[..used'] == old(z.txDataWire[..used]) + w
            && previous' == LastSent(previous, w)
  {
    if z.useMobyturbo {
      used', previous' := BufferMobyturbo(z, c, used, previous);
    } else {
      used', previous' := BufferTx(z, c, used, previous);
    }
  }

  /** Two bytes, one after the other. */
  lemma EscapePair(m: TxMode, previous: bv8, a: bv8, b: bv8)
    ensures var v := EscapeByte(m, previous, a);
            var w := EscapeByte(m, LastSent(previous, v), b);
            Escape(m, previous, [a, b]) == v + w && LastSent(LastSent(previous, v), w) == LastSent(previous, v + w)
  {
    hide EscapeByte;
    assert [a, b] == [a] + [b];
    EscapeOne(m, previous, a);
    EscapeSnoc(m, previous, [a], b);
    LastSentConcat(previous, EscapeByte(m, previous, a),
                   EscapeByte(m, LastSent(previous, EscapeByte(m, previous, a)), b));
  }

  method BufferPair(z: Zmodem, a: bv8, b: bv8, used: nat, previous: bv8) returns (used': nat, previous': bv8)
    requires z.Valid() && used + 4 <= z.txDataWire.Length
    modifies z.txDataWire
    ensures var w := Escape(SenderMode(z), previous, [a, b]);
            && used' == used + |w| <= used + 4 && z.txDataWire[..used'] == old(z.txDataWire[..used]) + w
            && previous' == LastSent(previous, w)
  {
    hide Escape, EscapeByte;
    EscapePair(SenderMode(z), previous, a, b);
    used', previous' := BufferByte(z, a, used, previous);
    used', previous' := BufferByte(z, b, used', previous');
  }

  /** The quoted frame check bytes behind what is buffered already. */
  method BufferCheck(z: Zmodem, check: seq<bv8>, used: nat, previous: bv8) returns (used': nat, previous': bv8)
    requires z.Valid() && (|check| == 2 || |check| == 4) && used + 2 * |check| <= z.txDataWire.Length
    modifies z.txDataWire
    ensures var w := Escape(SenderMode(z), previous, check);
            && used' == used + |w| <= used + 2 * |check| && z.txDataWire[..used'] == old(z.txDataWire[..used]) + w
            && previous' == LastSent(previous, w)
  {
    hide Escape;
    var m := SenderMode(z);
    used', previous' := BufferPair(z, check[0], check[1], used, previous);
    if |check| == 2 {
      assert check == [check[0], check[1]];
    } else {
      assert check == [check[0], check[1]] + [check[2], check[3]];
      EscapeConcat(m, previous, [check[0], check[1]], [check[2], check[3]]);
      ghost var v := Escape(m, previous, [check[0], check[1]]);
      LastSentConcat(previous, v, Escape(m, LastSent(previous, v), [check[2], check[3]]));
      used', previous' := BufferPair(z, check[2], check[3], used', previous');
    }
  }

  /** The frame check of the payload, computed as tx_data does. */
  method ComputeCheck(z: Zmodem, t: bv8, p: array<bv8>, l: nat) returns (check: seq<bv8>)
    requires l <= p.Length
    ensures check == CheckBytes(Wide(z), p[..l], t)
  {
    hide Crc.Fold32, Crc.Byte32, Crc16.Fold16, Crc16.Byte16, Bytes32, Bytes16;
    assert p[0..l] == p[..l];
    if Wide(z) {
      var crc := Crc.Update32(0xffffffff, p, 0, l);
      crc := !Crc.Byte32(crc, t);
      check := Bytes32(crc);
    } else {
      var crc := Crc16.BufferUpdate(0, p, 0, l);
      crc := Crc16.Byte16(crc, t);
      crc := Crc16.Byte16(crc, 0);
      crc := Crc16.Byte16(crc, 0);
      check := Bytes16(crc);
    }
  }

  lemma PacketParts(m: TxMode, fcs32: bool, previous: bv8, data: seq<bv8>, t: bv8)
    ensures var coded := Escape(m, t & 0x7f, CheckBytes(fcs32, data, t));
            var body := Escape(m, previous, data) + [ZDLE] + [t] + coded;
            && PacketWire(m, fcs32, previous, data, t) == (if t == ZCRCW then body + [XON] else body)
            && LastSent(previous, PacketWire(m, fcs32, previous, data, t))
              == (if t == ZCRCW then XON & 0x7f else LastSent(t & 0x7f, coded))
  {
    hide Escape, CheckBytes;
    var coded := Escape(m, t & 0x7f, CheckBytes(fcs32, data, t));
    var front := Escape(m, previous, data) + [ZDLE] + [t];
    assert Escape(m, previous, data) + [ZDLE, t] == front;
    LastSentConcat(previous, front, coded);
  }

  /** The quoted packet in the wire buffer. */
  method BufferPacket(z: Zmodem, t: bv8, p: array<bv8>, l: nat) returns (used: nat, previous: bv8)
    requires z.Valid() && l <= p.Length && l <= ZMAXSPLEN && p != z.txDataWire
    modifies z.txDataWire
    ensures var w := PacketWire(SenderMode(z), Wide(z), z.lastSent, p[..l], t);
            used == |w| <= z.txDataWire.Length && z.txDataWire[..used] == w && previous == LastSent(z.lastSent, w)
  {
    hide Escape, CheckBytes, PacketWire, LastSent;
    ghost var payload := p[..l];
    PacketParts(SenderMode(z), Wide(z), z.lastSent, payload, t);
    used, previous := BufferPayload(z, p, l);
    used, previous := BufferRaw(z, ZDLE, used);
    used, previous := BufferRaw(z, t, used);
    assert p[..l] == payload;
    var check := ComputeCheck(z, t, p, l);
    used, previous := BufferCheck(z, check, used, previous);
    if t == ZCRCW {
      used, previous := BufferRaw(z, XON, used);
    }
    assert p[..l] == payload;
  }

  /** tx_data where it does its own quoting: the whole packet goes out in one write, and the buffer of
      2 * ZMAXSPLEN + 11 bytes always holds it. */
  method TxQuotedData(z: Zmodem, t: bv8, p: array<bv8>, l: nat) returns (ok: bool)
    requires z.Valid() && l <= p.Length && l <= ZMAXSPLEN && p != z.txDataWire
    modifies z`outputs, z`sent, z`lastSent, z.txDataWire
    ensures var w := PacketWire(SenderMode(z), Wide(z), old(z.lastSent), old(p[..l]), t);
            ok ==> z.sent == old(z.sent) + w && z.lastSent == LastSent(old(z.lastSent), w)
    ensures old(z.Healthy()) ==> ok && z.Healthy()
  {
    hide PacketWire;
    ghost var payload := p[..l];
    var used, previous := BufferPacket(z, t, p, l);
    assert p[..l] == payload;
    ok := IoWrite(z, z.txDataWire[..used]);
    if !ok {
      return;
    }
    z.lastSent := previous;
    ok := TxFlush(z);
  }
}
