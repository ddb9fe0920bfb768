/** zmdm.c: sending headers, a byte at a time, and tx_data's choice of encoder. */
module TxHeaders {
  import opened Bytes
  import opened Quoting
  import opened Subpackets
  import opened Omen
  import opened Headers
  import opened Frames
  import opened Link
  import opened TxData
  import OmenData
  import Pack7Data
  import Crc
  import Crc16

  /** The flags of the sender. */
  function FlagsOf(z: Zmodem): Flags
    reads z
  {
    Flags(z.canFcs32, z.wantFcs32, z.escapeAllControlCharacters, z.escape8thBit, z.escapeIac, z.usePack7,
          z.useMobyturbo)
  }

  /** The line as a writer sees it: w has gone out behind what was sent before. */
  twostate predicate Wrote(z: Zmodem, w: seq<bv8>)
    reads z
  {
    z.sent == old(z.sent) + w && z.lastSent == LastSent(old(z.lastSent), w)
  }

  lemma WroteMore(base: seq<bv8>, last: bv8, a: seq<bv8>, b: seq<bv8>)
    ensures base + a + b == base + (a + b) && LastSent(LastSent(last, a), b) == LastSent(last, a + b)
  {}

  /** tx_raw */
  method TxRaw(z: Zmodem, c: bv8) returns (ok: bool)
    modifies z`outputs, z`sent, z`lastSent
    ensures ok ==> Wrote(z, [c])
    ensures old(z.Healthy()) ==> ok && z.Healthy()
  {
    ok := IoWrite(z, [c]);
    if ok {
      z.lastSent := c & 0x7f;
    }
  }

  /** Some bytes as they are. */
  method TxRaws(z: Zmodem, w: seq<bv8>) returns (ok: bool)
    modifies z`outputs, z`sent, z`lastSent
    ensures ok ==> Wrote(z, w)
    ensures old(z.Healthy()) ==> ok && z.Healthy()
  {
    hide LastSent;
    ok := true;
    ghost var base, last := z.sent, z.lastSent;
    assert w[..0] == [] && base + [] == base;
    NothingSent(last);
    for i := 0 to |w|
      invariant ok && z.sent == base + w[..i] && z.lastSent == LastSent(last, w[..i])
      invariant old(z.Healthy()) ==> z.Healthy()
    {
      ok := TxRaw(z, w[i]);
      if !ok {
        return;
      }
      assert w[..i + 1] == w[..i] + [w[i]];
      WroteMore(base, last, w[..i], [w[i]]);
    }
    assert w[..|w|] == w;
  }

  lemma NothingSent(last: bv8)
    ensures LastSent(last, []) == last
  {}

  /** tx_esc */
  method TxEsc(z: Zmodem, c: bv8) returns (ok: bool)
    modifies z`outputs, z`sent, z`lastSent
    ensures ok ==> Wrote(z, [ZDLE, c ^ 0x40])
    ensures old(z.Healthy()) ==> ok && z.Healthy()
  {
    ok := TxRaws(z, [ZDLE, c ^ 0x40]);
  }

  /** tx and tx_mobyturbo_byte: the quoted byte. */
  method TxQuotedByte(z: Zmodem, moby: bool, c: bv8) returns (ok: bool)
    modifies z`outputs, z`sent, z`lastSent
    ensures ok ==> Wrote(z, EscapeByte(TxMode(moby, z.escapeAllControlCharacters, z.escapeIac), old(z.lastSent), c))
    ensures old(z.Healthy()) ==> ok && z.Healthy()
  {
    hide LastSent, NeedsEscape;
    var m := TxMode(moby, z.escapeAllControlCharacters, z.escapeIac);
    if NeedsEscape(m, c, z.lastSent) {
      QuotedBytes(m, c, z.lastSent);
      if c == 0xff {
        ok := TxRaws(z, [ZDLE, ZRUB1]);
      } else {
        ok := TxEsc(z, c);
      }
    } else {
      ok := TxRaw(z, c);
    }
  }

  /** Quoted bytes one by one, through the CRC-32 register. */
  method TxQuoted(z: Zmodem, moby: bool, w: seq<bv8>) returns (ok: bool, crc: bv32)
    modifies z`outputs, z`sent, z`lastSent
    ensures ok ==> Wrote(z, Escape(TxMode(moby, z.escapeAllControlCharacters, z.escapeIac), old(z.lastSent), w))
    ensures ok ==> crc == Crc.Fold32(0xffffffff, w)
    ensures old(z.Healthy()) ==> ok && z.Healthy()
  {
    hide LastSent, EscapeByte, Escape, Crc.Fold32, Crc.Byte32;
    var m := TxMode(moby, z.escapeAllControlCharacters, z.escapeIac);
    ok, crc := true, 0xffffffff;
    ghost var base, last := z.sent, z.lastSent;
    assert w[..0] == [] && base + [] == base;
    EscapeNothing(m, last);
    Crc.FoldNothing(0xffffffff);
    for i := 0 to |w|
      invariant ok && z.sent == base + Escape(m, last, w[..i]) && z.lastSent == LastSent(last, Escape(m, last, w[..i]))
      invariant crc == Crc.Fold32(0xffffffff, w[..i])
      invariant old(z.Healthy()) ==> z.Healthy()
    {
      assert w[..i + 1] == w[..i] + [w[i]];
      EscapeSnoc(m, last, w[..i], w[i]);
      WroteMore(base, last, Escape(m, last, w[..i]), EscapeByte(m, z.lastSent, w[i]));
      Crc.FoldSnoc(0xffffffff, w[..i], w[i]);
      crc := Crc.Byte32(crc, w[i]);
      ok := TxQuotedByte(z, moby, w[i]);
      if !ok {
        return;
      }
    }
    assert w[..|w|] == w;
  }

  /** tx_omen_byte */
  method TxOmenByte(z: Zmodem, c: bv8) returns (ok: bool)
    modifies z`outputs, z`sent, z`lastSent
    ensures ok ==> Wrote(z, OmenByte(z.escapeAllControlCharacters, c))
    ensures old(z.Healthy()) ==> ok && z.Healthy()
  {
    hide OmenByte, LastSent;
    ok := TxRaws(z, OmenByte(z.escapeAllControlCharacters, c));
  }

  /** Seven-bit bytes one by one, through the CRC-32 register. */
  method TxOmen(z: Zmodem, w: seq<bv8>) returns (ok: bool, crc: bv32)
    modifies z`outputs, z`sent, z`lastSent
    ensures ok ==> Wrote(z, OmenBytes(z.escapeAllControlCharacters, w)) && crc == Crc.Fold32(0xffffffff, w)
    ensures old(z.Healthy()) ==> ok && z.Healthy()
  {
    hide LastSent, OmenByte, OmenBytes, Crc.Fold32, Crc.Byte32;
    var escctl := z.escapeAllControlCharacters;
    ok, crc := true, 0xffffffff;
    ghost var base, last := z.sent, z.lastSent;
    assert w[..0] == [] && base + [] == base;
    OmenData.NoSymbols(escctl);
    NothingSent(last);
    Crc.FoldNothing(0xffffffff);
    for i := 0 to |w|
      invariant ok && z.sent == base + OmenBytes(escctl, w[..i])
                && z.lastSent == LastSent(last, OmenBytes(escctl, w[..i]))
      invariant crc == Crc.Fold32(0xffffffff, w[..i])
      invariant old(z.Healthy()) ==> z.Healthy()
    {
      assert w[..i + 1] == w[..i] + [w[i]];
      OmenConcat(escctl, w[..i], [w[i]]);
      OmenOne(escctl, w[i]);
      WroteMore(base, last, OmenBytes(escctl, w[..i]), OmenByte(escctl, w[i]));
      Crc.FoldSnoc(0xffffffff, w[..i], w[i]);
      crc := Crc.Byte32(crc, w[i]);
      ok := TxOmenByte(z, w[i]);
      if !ok {
        return;
      }
    }
    assert w[..|w|] == w;
  }

  /** tx_hex, over some bytes and through the CRC-16 register. */
  method TxHex(z: Zmodem, w: seq<bv8>) returns (ok: bool, crc: bv16)
    modifies z`outputs, z`sent, z`lastSent
    ensures ok ==> Wrote(z, HexBytes(w)) && crc == Crc16.Fold16(0, w)
    ensures old(z.Healthy()) ==> ok && z.Healthy()
  {
    hide LastSent, HexByte, HexBytes, Crc16.Fold16, Crc16.Byte16;
    ok, crc := true, 0;
    ghost var base, last := z.sent, z.lastSent;
    assert w[..0] == [] && base + [] == base;
    HexNothing();
    NothingSent(last);
    Crc16.FoldNothing(0);
    for i := 0 to |w|
      invariant ok && z.sent == base + HexBytes(w[..i]) && z.lastSent == LastSent(last, HexBytes(w[..i]))
      invariant crc == Crc16.Fold16(0, w[..i])
      invariant old(z.Healthy()) ==> z.Healthy()
    {
      assert w[..i + 1] == w[..i] + [w[i]];
      HexSnoc(w[..i], w[i]);
      WroteMore(base, last, HexBytes(w[..i]), HexByte(w[i]));
      Crc16.FoldSnoc(0, w[..i], w[i]);
      crc := Crc16.Byte16(crc, w[i]);
      ok := TxRaws(z, HexByte(w[i]));
      if !ok {
        return;
      }
    }
    assert w[..|w|] == w;
  }

  lemma HexNothing()
    ensures HexBytes([]) == []
  {}

  lemma HexSnoc(w: seq<bv8>, c: bv8)
    ensures HexBytes(w + [c]) == HexBytes(w) + HexByte(c)
  {
    hide HexByte;
    HeaderLaws.HexConcat(w, [c]);
    assert HexBytes([c][1..]) == [];
  }

  import HeaderLaws

  // ---------- Headers ----------

  /** The frame check of an Omen header: the suffix goes through the register too. */
  method FinishOmen(crc: bv32, ghost h: seq<bv8>) returns (sum: bv32)
    requires crc == Crc.Fold32(0xffffffff, h)
    ensures sum == SumOmen(h)
  {
    hide Crc.Fold32, Latin;
    var suffix := new bv8[|OMEN_SUFFIX|](i requires 0 <= i < |OMEN_SUFFIX| => OMEN_SUFFIX[i]);
    assert suffix[0..0 + suffix.Length] == OMEN_SUFFIX;
    sum := Crc.Update32(crc, suffix, 0, suffix.Length);
    sum := !sum;
  }

  /** The fields of a hex header: length, header and frame check. */
  method TxHexFields(z: Zmodem, n: seq<bv8>, h: seq<bv8>) returns (ok: bool)
    modifies z`outputs, z`sent, z`lastSent
    ensures ok ==> Wrote(z, HexBytes(n + h + Bytes16(Sum16(h))))
    ensures old(z.Healthy()) ==> ok && z.Healthy()
  {
    hide LastSent, HexBytes, Crc16.Fold16, Crc16.Byte16, Bytes16;
    HexParts(z.sent, z.lastSent, n, h, Bytes16(Sum16(h)));
    var crc;
    ok, crc := TxHex(z, n);
    if !ok {
      return;
    }
    ok, crc := TxHex(z, h);
    if !ok {
      return;
    }
    crc := Crc16.Byte16(Crc16.Byte16(crc, 0), 0);
    ok, crc := TxHex(z, Bytes16(crc));
  }

  lemma HexParts(base: seq<bv8>, last: bv8, n: seq<bv8>, h: seq<bv8>, sum: seq<bv8>)
    ensures var a, b, c := HexBytes(n), HexBytes(h), HexBytes(sum);
            && base + a + b + c == base + HexBytes(n + h + sum)
            && LastSent(LastSent(LastSent(last, a), b), c) == LastSent(last, HexBytes(n + h + sum))
  {
    hide HexBytes, LastSent;
    HeaderLaws.HexConcat(n, h);
    HeaderLaws.HexConcat(n + h, sum);
    var a, b, c := HexBytes(n), HexBytes(h), HexBytes(sum);
    LastSentConcat(last, a, b);
    LastSentConcat(last, a + b, c);
    assert base + a + b + c == base + (a + b + c);
  }

  lemma ThreeWrites(base: seq<bv8>, last: bv8, a: seq<bv8>, b: seq<bv8>, c: seq<bv8>)
    ensures base + a + b + c == base + (a + b + c)
    ensures LastSent(LastSent(LastSent(last, a), b), c) == LastSent(last, a + b + c)
  {
    hide LastSent;
    LastSentConcat(last, a, b);
    LastSentConcat(last, a + b, c);
    assert base + a + b + c == base + (a + b + c);
  }

  /** tx_hex_header_length */
  method TxHexHeaderLength(z: Zmodem, h: seq<bv8>) returns (ok: bool)
    requires IsHeader(h)
    modifies z`outputs, z`sent, z`lastSent
    ensures ok ==> Wrote(z, HexHeader(h) + HexTrailer(h))
    ensures old(z.Healthy()) ==> ok && z.Healthy()
  {
    hide LastSent, HexBytes, Front, Sum16, Bytes16, Length, HexTrailer;
    var front := Front(2, if |h| == HDRLEN then ZHEX else ZVHEX);
    ghost var fields := HexBytes(Length(h) + h + Bytes16(Sum16(h)));
    ThreeWrites(z.sent, z.lastSent, front, fields, [CR, LF] + HexTrailer(h));
    assert front + fields + ([CR, LF] + HexTrailer(h)) == HexHeader(h) + HexTrailer(h);
    ok := TxRaws(z, front);
    if !ok {
      return;
    }
    ok := TxHexFields(z, Length(h), h);
    if !ok {
      return;
    }
    ok := TxRaws(z, [CR, LF] + HexTrailer(h));
    if !ok {
      return;
    }
    ok := TxFlush(z);
  }

  lemma EscapeThree(m: TxMode, s: bv8, n: seq<bv8>, h: seq<bv8>, sum: seq<bv8>)
    ensures var a := Escape(m, s, n);
            var b := Escape(m, LastSent(s, a), h);
            Escape(m, s, n + h + sum) == a + b + Escape(m, LastSent(LastSent(s, a), b), sum)
  {
    hide Escape, LastSent;
    EscapeConcat(m, s, n, h);
    EscapeConcat(m, s, n + h, sum);
    var a := Escape(m, s, n);
    LastSentConcat(s, a, Escape(m, LastSent(s, a), h));
  }

  lemma FourWrites(base: seq<bv8>, last: bv8, front: seq<bv8>, a: seq<bv8>, b: seq<bv8>, c: seq<bv8>)
    ensures base + front + a + b + c == base + (front + (a + b + c))
    ensures LastSent(LastSent(LastSent(LastSent(last, front), a), b), c) == LastSent(last, front + (a + b + c))
  {
    hide LastSent;
    var s := LastSent(last, front);
    LastSentConcat(s, a, b);
    LastSentConcat(s, a + b, c);
    LastSentConcat(last, front, a + b + c);
    assert base + front + a + b + c == base + (front + (a + b + c));
  }

  /** What is known when the length and the header are out, and the frame check is to come. */
  ghost predicate Nearly(m: TxMode, base: seq<bv8>, last: bv8, front: seq<bv8>, n: seq<bv8>, h: seq<bv8>,
                         sent: seq<bv8>, lastSent: bv8) {
    var s := LastSent(last, front);
    var a := Escape(m, s, n);
    var b := Escape(m, LastSent(s, a), h);
    sent == base + front + a + b && lastSent == LastSent(LastSent(s, a), b)
  }

  lemma QuotedParts(m: TxMode, base: seq<bv8>, last: bv8, front: seq<bv8>, n: seq<bv8>, h: seq<bv8>, sum: seq<bv8>,
                    sent: seq<bv8>, lastSent: bv8)
    requires Nearly(m, base, last, front, n, h, sent, lastSent)
    ensures var c := Escape(m, lastSent, sum);
            var all := front + Escape(m, LastSent(last, front), n + h + sum);
            sent + c == base + all && LastSent(lastSent, c) == LastSent(last, all)
  {
    hide Escape, LastSent;
    var s := LastSent(last, front);
    EscapeThree(m, s, n, h, sum);
    var a := Escape(m, s, n);
    var b := Escape(m, LastSent(s, a), h);
    FourWrites(base, last, front, a, b, Escape(m, lastSent, sum));
  }

  lemma FrontEndsInStyle(last: bv8, pads: nat, style: bv8)
    requires 0x31 <= style <= 0x63
    ensures LastSent(last, Front(pads, style)) == style
  {
    HeaderLaws.StyleIsQuiet(style);
  }

  /** The common part of tx_bin16_header, tx_bin32_header and tx_mobyturbo_header: front, length, header. */
  method TxQuotedHeader(z: Zmodem, moby: bool, front: seq<bv8>, n: seq<bv8>, h: seq<bv8>) returns (ok: bool, crc: bv32)
    modifies z`outputs, z`sent, z`lastSent
    ensures ok ==> Nearly(TxMode(moby, z.escapeAllControlCharacters, z.escapeIac), old(z.sent), old(z.lastSent), front,
                          n, h,
                          z.sent, z.lastSent)
    ensures ok ==> crc == Crc.Fold32(0xffffffff, h)
    ensures old(z.Healthy()) ==> ok && z.Healthy()
  {
    hide LastSent, Escape, Crc.Fold32;
    crc := 0;
    ok := TxRaws(z, front);
    if !ok {
      return;
    }
    ok, crc := TxQuoted(z, moby, n);
    if !ok {
      return;
    }
    ok, crc := TxQuoted(z, moby, h);
  }

  /** The quoted frame check, which completes the header. */
  method TxQuotedSum(z: Zmodem, moby: bool, sum: seq<bv8>, ghost base: seq<bv8>, ghost last: bv8, ghost front: seq<bv8>,
                     ghost n: seq<bv8>, ghost h: seq<bv8>) returns (ok: bool)
    requires Nearly(TxMode(moby, z.escapeAllControlCharacters, z.escapeIac), base, last, front, n, h, z.sent,
                    z.lastSent)
    modifies z`outputs, z`sent, z`lastSent
    ensures var all := front + Escape(TxMode(moby, z.escapeAllControlCharacters, z.escapeIac), LastSent(last, front),
                                      n + h + sum);
            ok ==> z.sent == base + all && z.lastSent == LastSent(last, all)
    ensures old(z.Healthy()) ==> ok && z.Healthy()
  {
    hide LastSent, Escape, Nearly, Crc.Fold32;
    QuotedParts(TxMode(moby, z.escapeAllControlCharacters, z.escapeIac), base, last, front, n, h, sum, z.sent,
                z.lastSent);
    var crc;
    ok, crc := TxQuoted(z, moby, sum);
  }

  /** The frame check of a CRC-32 header. */
  method FinishSum32(crc: bv32, ghost h: seq<bv8>) returns (sum: bv32)
    requires crc == Crc.Fold32(0xffffffff, h)
    ensures sum == Sum32(h)
  {
    hide Crc.Fold32;
    sum := !crc;
  }

  /** tx_bin32_header */
  method TxBin32Header(z: Zmodem, h: seq<bv8>) returns (ok: bool)
    requires IsHeader(h)
    modifies z`outputs, z`sent, z`lastSent
    ensures ok ==> Wrote(z, Bin32Header(FlagsOf(z), h))
    ensures old(z.Healthy()) ==> ok && z.Healthy()
  {
    hide LastSent, Escape, Front, Crc.Fold32, Crc.Byte32, Bytes32, Length, Nearly, Sum32;
    var style := if |h| == HDRLEN then ZBIN32 else ZVBIN32;
    ghost var base, last := z.sent, z.lastSent;
    FrontEndsInStyle(last, 2, style);
    var crc;
    ok, crc := TxQuotedHeader(z, false, Front(2, style), Length(h), h);
    if !ok {
      return;
    }
    crc := FinishSum32(crc, h);
    ok := TxQuotedSum(z, false, Bytes32(crc), base, last, Front(2, style), Length(h), h);
  }

  /** tx_bin16_header */
  method TxBin16Header(z: Zmodem, h: seq<bv8>) returns (ok: bool)
    requires IsHeader(h)
    modifies z`outputs, z`sent, z`lastSent
    ensures ok ==> Wrote(z, Bin16Header(FlagsOf(z), h))
    ensures old(z.Healthy()) ==> ok && z.Healthy()
  {
    hide LastSent, Escape, Front, Crc.Fold32, Crc.Byte32, Sum16, Bytes16, Length, Nearly;
    var style := if |h| == HDRLEN then ZBIN else ZVBIN;
    ghost var base, last := z.sent, z.lastSent;
    FrontEndsInStyle(last, 2, style);
    var wide;
    ok, wide := TxQuotedHeader(z, false, Front(2, style), Length(h), h);
    if !ok {
      return;
    }
    var crc := HeaderSum16(h);
    ok := TxQuotedSum(z, false, Bytes16(crc), base, last, Front(2, style), Length(h), h);
  }

  /** The CRC-16 register over a header. */
  method HeaderSum16(h: seq<bv8>) returns (crc: bv16)
    ensures crc == Sum16(h)
  {
    hide Crc16.Fold16, Crc16.Byte16;
    crc := 0;
    Crc16.FoldNothing(0);
    for i := 0 to |h|
      invariant crc == Crc16.Fold16(0, h[..i])
    {
      assert h[..i + 1] == h[..i] + [h[i]];
      Crc16.FoldSnoc(0, h[..i], h[i]);
      crc := Crc16.Byte16(crc, h[i]);
    }
    assert h[..|h|] == h;
    crc := Crc16.Byte16(Crc16.Byte16(crc, 0), 0);
  }

  /** tx_mobyturbo_header */
  method TxMobyHeader(z: Zmodem, h: seq<bv8>) returns (ok: bool)
    requires IsHeader(h)
    modifies z`outputs, z`sent, z`lastSent
    ensures ok ==> Wrote(z, MobyHeader(FlagsOf(z), h))
    ensures old(z.Healthy()) ==> ok && z.Healthy()
  {
    hide LastSent, Escape, Front, Crc.Fold32, Crc.Byte32, Bytes32, ParameterCount, SumOmen, Nearly;
    ghost var base, last := z.sent, z.lastSent;
    FrontEndsInStyle(last, 1, ZBINM32);
    var crc;
    ok, crc := TxQuotedHeader(z, true, Front(1, ZBINM32), [ParameterCount(h)], h);
    if !ok {
      return;
    }
    crc := FinishOmen(crc, h);
    ok := TxQuotedSum(z, true, Bytes32(crc), base, last, Front(1, ZBINM32), [ParameterCount(h)], h);
  }

  lemma OmenParts(escctl: bool, base: seq<bv8>, last: bv8, front: seq<bv8>, h: seq<bv8>, sum: seq<bv8>)
    ensures var a, b := OmenBytes(escctl, h), OmenBytes(escctl, sum);
            && base + front + a + b == base + (front + OmenBytes(escctl, h + sum))
            && LastSent(LastSent(LastSent(last, front), a), b) == LastSent(last, front + OmenBytes(escctl, h + sum))
  {
    hide OmenBytes, LastSent;
    OmenConcat(escctl, h, sum);
    var a, b := OmenBytes(escctl, h), OmenBytes(escctl, sum);
    LastSentConcat(last, front, a);
    LastSentConcat(last, front + a, b);
    assert front + a + b == front + (a + b);
    assert base + front + a + b == base + (front + (a + b));
  }

  /** tx_omen_header */
  method TxOmenHeader(z: Zmodem, h: seq<bv8>) returns (ok: bool)
    requires IsHeader(h)
    modifies z`outputs, z`sent, z`lastSent
    ensures ok ==> Wrote(z, OmenHeader(FlagsOf(z), h))
    ensures old(z.Healthy()) ==> ok && z.Healthy()
  {
    hide LastSent, OmenBytes, Front, Crc.Fold32, Crc.Byte32, Bytes32, OmenCountByte, SumOmen;
    var front := Front(1, if z.usePack7 then ZBINP7 else ZBINR32ESC8) + [OmenCountByte(h)];
    OmenParts(z.escapeAllControlCharacters, z.sent, z.lastSent, front, h, Bytes32(SumOmen(h)));
    ok := TxRaws(z, front);
    if !ok {
      return;
    }
    var crc;
    ok, crc := TxOmen(z, h);
    if !ok {
      return;
    }
    crc := FinishOmen(crc, h);
    ok, crc := TxOmen(z, Bytes32(crc));
  }

  /** tx_header_length: a header of a length that ZMODEM does not have is refused, and nothing is sent. */
  method TxHeaderLength(z: Zmodem, h: seq<bv8>) returns (ok: bool)
    modifies z`outputs, z`sent, z`lastSent
    ensures ok ==> IsHeader(h) && Wrote(z, HeaderWire(FlagsOf(z), h))
    ensures !IsHeader(h) ==> z.sent == old(z.sent)
    ensures old(z.Healthy()) && IsHeader(h) ==> ok && z.Healthy()
  {
    hide OmenHeader, MobyHeader, Bin32Header, Bin16Header, HexHeader, HexTrailer;
    ok := false;
    if |h| < HDRLEN || |h| > ZMAXHLEN + 1 {
      return;
    }
    assert forall w: seq<bv8> :: w + [] == w;
    if z.escape8thBit {
      ok := TxOmenHeader(z, h);
    } else if z.useMobyturbo {
      ok := TxMobyHeader(z, h);
    } else if z.canFcs32 && z.wantFcs32 {
      ok := TxBin32Header(z, h);
    } else if z.canFcs32 {
      ok := TxBin16Header(z, h);
    } else {
      ok := TxHexHeaderLength(z, h);
    }
  }

  /** tx_mobyturbo_probe */
  method TxMobyturboProbe(z: Zmodem) returns (ok: bool)
    modifies z`outputs, z`sent, z`lastSent
    ensures ok ==> Wrote(z, PROBE)
    ensures old(z.Healthy()) ==> ok && z.Healthy()
  {
    ok := TxRaws(z, PROBE);
  }

  /** select_zrpos_encoding: a compact encoding is used exactly when the receiver asked for it and both ends
      can use it; the two never together. */
  method SelectZrposEncoding(z: Zmodem, askedMobyturbo: bool, askedPack7: bool, offered: bool, refused: bool,
                             variableHeaders: bool)
    modifies z`usePack7, z`useMobyturbo
    ensures StyleOf(FlagsOf(z)).OmenPack? <==> askedPack7 && z.escape8thBit && variableHeaders
    ensures StyleOf(FlagsOf(z)).Moby? <==> askedMobyturbo && offered && !refused && !z.escape8thBit && variableHeaders
    ensures !(z.usePack7 && z.useMobyturbo)
  {
    z.usePack7 := askedPack7;
    if !z.escape8thBit {
      z.usePack7 := false;
    }
    if !variableHeaders {
      z.usePack7 := false;
    }
    z.useMobyturbo := askedMobyturbo;
    if !offered {
      z.useMobyturbo := false;
    }
    if refused {
      z.useMobyturbo := false;
    }
    if z.escape8thBit {
      z.useMobyturbo := false;
    }
    if !variableHeaders {
      z.useMobyturbo := false;
    }
  }

  /** tx_data: a payload that is too long is refused; otherwise the whole packet goes out. */
  method TxDataPacket(z: Zmodem, t: bv8, p: array<bv8>, l: nat) returns (ok: bool)
    requires z.Valid() && l <= p.Length && p != z.txDataWire
    modifies z`outputs, z`sent, z`lastSent, z.txDataWire
    ensures ok ==> l <= ZMAXSPLEN && Wrote(z, DataWire(FlagsOf(z), old(z.lastSent), old(p[..l]), t))
    ensures l > ZMAXSPLEN ==> z.sent == old(z.sent)
    ensures old(z.Healthy()) && l <= ZMAXSPLEN ==> ok && z.Healthy()
  {
    hide PacketWire, LastSent;
    ok := false;
    if l > ZMAXSPLEN {
      return;
    }
    if z.escape8thBit {
      if z.usePack7 {
        ok := Pack7Data.TxPack7Data(z, t, p, l);
      } else {
        ok := OmenData.TxOmenData(z, t, p, l);
      }
    } else {
      ok := TxQuotedData(z, t, p, l);
    }
  }
}
