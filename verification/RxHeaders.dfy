/** zmdm.c: receiving headers of every style. */
module RxHeaders {
  import opened Bytes
  import opened Quoting
  import opened Subpackets
  import opened Omen
  import opened Headers
  import opened Frames
  import opened Link
  import opened RxData
  import opened OmenData
  import Pack7Data
  import Crc
  import Crc16

  /** What a header reader leaves behind: the result, the header if there is one, the rest of the line. */
  ghost predicate Reads(z: Zmodem, b: Body, code: int)
    reads z, z.inputBuffer, z.rxdHeader
  {
    && z.Valid() && code == b.code && z.Mode() == b.mode
    && z.Pending() == b.rest && z.cancelCount == b.cancels
    && z.rxdHeaderLen == |b.header| <= ZMAXHLEN + 1 && z.rxdHeader[..z.rxdHeaderLen] == b.header
    && (code < OK ==> b.header == []) && (code == OK ==> b.header != []) && code <= OK
  }

  lemma NothingRead(z: Zmodem, b: Body, code: int)
    requires z.Valid() && z.rxdHeaderLen == 0 && code == b.code < OK && b.header == [] && z.Mode() == b.mode
    requires z.Pending() == b.rest && z.cancelCount == b.cancels
    ensures Reads(z, b, code)
  {
    assert z.rxdHeader[..0] == [];
  }

  // ---------- Fields ----------

  lemma TakeStep(r: RxMode, n: nat, invalid: ErrorCode, input: Input, cancels: nat)
    requires n > 0
    ensures var s := Next(r, Fresh, input, cancels);
            Take(r, n, invalid, input, cancels) ==
            if s.symbol.Fail? then Quoting.Taken(s.symbol.code, [], s.rest, s.cancels)
            else if s.symbol.End? then Quoting.Taken(invalid, [], s.rest, s.cancels)
            else
              var more := Take(r, n - 1, invalid, s.rest, s.cancels);
              more.(bytes := [s.symbol.b] + more.bytes)
  {
    hide Next;
  }

  ghost predicate Behind(whole: Quoting.Taken, bytes: seq<bv8>, more: Quoting.Taken) {
    whole == more.(bytes := bytes + more.bytes)
  }

  lemma BehindMore(whole: Quoting.Taken, bytes: seq<bv8>, b: bv8, more: Quoting.Taken)
    requires Behind(whole, bytes, more.(bytes := [b] + more.bytes))
    ensures Behind(whole, bytes + [b], more)
  {
    assert bytes + ([b] + more.bytes) == bytes + [b] + more.bytes;
  }

  lemma BehindNothing(whole: Quoting.Taken)
    ensures Behind(whole, [], whole)
  {
    assert [] + whole.bytes == whole.bytes;
  }

  lemma BehindAll(whole: Quoting.Taken, bytes: seq<bv8>, code: int, rest: Input, cancels: nat)
    requires Behind(whole, bytes, Quoting.Taken(code, [], rest, cancels))
    ensures whole == Quoting.Taken(code, bytes, rest, cancels)
  {
    assert bytes + [] == bytes;
  }

  /** The header loop of rx_bin16_header, rx_bin32_header and rx_mobyturbo_header. */
  method RxHeaderBytes(z: Zmodem, fcs32: bool, count: nat) returns (code: int, g: Register)
    requires z.Valid() && count <= ZMAXHLEN + 1
    modifies z`script, z`inputCount, z`inputIndex, z`cancelCount, z.inputBuffer, z.rxdHeader
    ensures z.Valid()
    ensures var k := Take(z.Mode(), count, INVALID_HEADER, old(z.Pending()), old(z.cancelCount));
            && code == k.code && z.Pending() == k.rest && z.cancelCount == k.cancels
            && (code == OK ==> z.rxdHeader[..count] == k.bytes && g == FoldRegister(Start(fcs32), k.bytes))
  {
    hide Next, Take, FoldRegister, Start, Behind;
    var r := z.Mode();
    ghost var whole := Take(r, count, INVALID_HEADER, z.Pending(), z.cancelCount);
    g := Start(fcs32);
    FoldRegisterConcat(g, [], []);
    BehindNothing(whole);
    assert z.rxdHeader[..0] == [];
    var n := 0;
    while n < count
      invariant n <= count && z.Valid()
      invariant g == FoldRegister(Start(fcs32), z.rxdHeader[..n])
      invariant Behind(whole, z.rxdHeader[..n], Take(r, count - n, INVALID_HEADER, z.Pending(), z.cancelCount))
    {
      TakeStep(r, count - n, INVALID_HEADER, z.Pending(), z.cancelCount);
      ghost var bytes := z.rxdHeader[..n];
      var c := Rx(z);
      assert z.rxdHeader[..n] == bytes;
      if c.Fail? {
        BehindAll(whole, bytes, c.code, z.Pending(), z.cancelCount);
        return c.code, g;
      }
      if c.End? {
        BehindAll(whole, bytes, INVALID_HEADER, z.Pending(), z.cancelCount);
        return INVALID_HEADER, g;
      }
      BehindMore(whole, bytes, c.b, Take(r, count - n - 1, INVALID_HEADER, z.Pending(), z.cancelCount));
      FoldRegisterConcat(Start(fcs32), bytes, [c.b]);
      g := FoldRegister(g, [c.b]);
      ghost var pending := z.Pending();
      z.rxdHeader[n] := c.b;
      assert z.Pending() == pending;
      n := n + 1;
      assert z.rxdHeader[..n] == bytes + [c.b];
    }
    TakeNone(r, z.Pending(), z.cancelCount);
    BehindAll(whole, z.rxdHeader[..count], OK, z.Pending(), z.cancelCount);
    code := OK;
  }

  lemma TakeNone(r: RxMode, input: Input, cancels: nat)
    ensures Take(r, 0, INVALID_HEADER, input, cancels) == Quoting.Taken(OK, [], input, cancels)
  {}

  /** The frame check computed from a register. */
  predicate Matches(g: Register, sum: seq<bv8>)
    requires |sum| == if g.Register32? then 4 else 2
  {
    match g
    case Register32(v) => Word32(sum) == !v
    case Register16(v) => Word16(sum) == Crc16.Byte16(Crc16.Byte16(v, 0), 0)
  }

  lemma MatchesSum(fcs32: bool, h: seq<bv8>, sum: seq<bv8>)
    requires |sum| == if fcs32 then 4 else 2
    ensures var g := FoldRegister(Start(fcs32), h);
            && g.Register32? == fcs32
            && (Matches(g, sum) <==> if fcs32 then Word32(sum) == Sum32(h) else Word16(sum) == Sum16(h))
  {
    hide Crc.Fold32, Crc16.Fold16, Crc16.Byte16, Word32, Word16;
  }

  /** rx_bin16_header and rx_bin32_header */
  method RxBinaryHeader(z: Zmodem, fcs32: bool, count: nat) returns (code: int)
    requires z.Valid() && 0 < count <= ZMAXHLEN + 1 && z.rxdHeaderLen == 0
    modifies z`script, z`inputCount, z`inputIndex, z`cancelCount, z`rxdHeaderLen, z.inputBuffer, z.rxdHeader
    ensures Reads(z, ReadBinary(z.Mode(), fcs32, count, old(z.Pending()), old(z.cancelCount)), code)
  {
    hide Take, FoldRegister, Start, Matches, Word32, Word16, Sum32, Sum16;
    var r := z.Mode();
    ghost var b := ReadBinary(r, fcs32, count, z.Pending(), z.cancelCount);
    ghost var h := Take(r, count, INVALID_HEADER, z.Pending(), z.cancelCount).bytes;
    var g;
    code, g := RxHeaderBytes(z, fcs32, count);
    if code != OK {
      NothingRead(z, b, code);
      return;
    }
    var sum;
    code, sum := RxTake(z, if fcs32 then 4 else 2, INVALID_HEADER);
    assert z.rxdHeader[..count] == h;
    if code != OK {
      NothingRead(z, b, code);
      return;
    }
    MatchesSum(fcs32, h, sum);
    if !Matches(g, sum) {
      code := INVALID_HEADER;
      NothingRead(z, b, code);
      return;
    }
    ghost var pending := z.Pending();
    z.rxdHeaderLen := count;
    assert z.Pending() == pending;
  }

  // ---------- Hexadecimal ----------

  /** rx_nibble */
  method RxNibble(z: Zmodem) returns (code: int, n: bv8)
    requires z.Valid()
    modifies z`script, z`inputCount, z`inputIndex, z`cancelCount, z.inputBuffer
    ensures z.Valid()
    ensures Quoting.Taken(code, if code == OK then [n] else [], z.Pending(), z.cancelCount)
         == TakeNibbles(z.Mode(), 1, old(z.Pending()), old(z.cancelCount))
  {
    hide Next, Nibble;
    n := 0;
    NibbleStep(z.Mode(), z.Pending(), z.cancelCount);
    var c := Rx(z);
    if c.Fail? {
      return c.code, n;
    }
    if c.End? {
      return INVALID_HEADER, n;
    }
    if Nibble(c.b) == 0xff {
      return INVALID_HEADER, n;
    }
    code, n := OK, Nibble(c.b);
  }

  lemma NibbleStep(r: RxMode, input: Input, cancels: nat)
    ensures var s := Next(r, Fresh, input, cancels);
            TakeNibbles(r, 1, input, cancels) ==
            if s.symbol.Fail? then Quoting.Taken(s.symbol.code, [], s.rest, s.cancels)
            else if s.symbol.End? || Nibble(s.symbol.b) == 0xff
              then Quoting.Taken(INVALID_HEADER, [], s.rest, s.cancels)
            else Quoting.Taken(OK, [Nibble(s.symbol.b)], s.rest, s.cancels)
  {
    hide Next, Nibble;
    var s := Next(r, Fresh, input, cancels);
    assert TakeNibbles(r, 0, s.rest, s.cancels) == Quoting.Taken(OK, [], s.rest, s.cancels);
    if s.symbol.Byte? {
      assert [Nibble(s.symbol.b)] + [] == [Nibble(s.symbol.b)];
    }
  }

  lemma {:induction false} NibblesSplit(r: RxMode, m: nat, n: nat, input: Input, cancels: nat)
    ensures var a := TakeNibbles(r, m, input, cancels);
            var b := TakeNibbles(r, n, a.rest, a.cancels);
            TakeNibbles(r, m + n, input, cancels) == if a.code < OK then a else b.(bytes := a.bytes + b.bytes)
    decreases m
  {
    hide Next, Nibble;
    if m == 0 {
      var b := TakeNibbles(r, n, input, cancels);
      assert [] + b.bytes == b.bytes;
    } else {
      var s := Next(r, Fresh, input, cancels);
      if s.symbol.Byte? && Nibble(s.symbol.b) != 0xff {
        NibblesSplit(r, m - 1, n, s.rest, s.cancels);
        var a := TakeNibbles(r, m - 1, s.rest, s.cancels);
        var b := TakeNibbles(r, n, a.rest, a.cancels);
        assert [Nibble(s.symbol.b)] + (a.bytes + b.bytes) == [Nibble(s.symbol.b)] + a.bytes + b.bytes;
      }
    }
  }

  /** rx_hex */
  method RxHex(z: Zmodem) returns (code: int, c: bv8)
    requires z.Valid()
    modifies z`script, z`inputCount, z`inputIndex, z`cancelCount, z.inputBuffer
    ensures z.Valid()
    ensures var k := TakeHex(z.Mode(), 1, old(z.Pending()), old(z.cancelCount));
            && code == k.code && z.Pending() == k.rest && z.cancelCount == k.cancels
            && (code == OK ==> k.bytes == [c])
  {
    hide TakeNibbles;
    c := 0;
    NibblesSplit(z.Mode(), 1, 1, z.Pending(), z.cancelCount);
    var n1, n0;
    code, n1 := RxNibble(z);
    if code != OK {
      return;
    }
    code, n0 := RxNibble(z);
    if code != OK {
      return;
    }
    assert [n1] + [n0] == [n1, n0];
    JoinedPair(n1, n0);
    c := (n1 << 4) | n0;
  }

  lemma JoinedPair(n1: bv8, n0: bv8)
    ensures Joined([n1, n0]) == [(n1 << 4) | n0]
  {
    assert [n1, n0][2..] == [];
  }

  lemma {:induction false} JoinedConcat(a: seq<bv8>, b: seq<bv8>)
    requires |a| % 2 == 0 && |b| % 2 == 0
    ensures Joined(a + b) == Joined(a) + Joined(b)
    decreases a
  {
    if a == [] {
      assert a + b == b;
    } else {
      assert (a + b)[2..] == a[2..] + b;
      JoinedConcat(a[2..], b);
    }
  }

  /** One byte after another. */
  lemma HexStep(r: RxMode, n: nat, input: Input, cancels: nat)
    requires n > 0
    ensures var a := TakeHex(r, 1, input, cancels);
            var b := TakeHex(r, n - 1, a.rest, a.cancels);
            TakeHex(r, n, input, cancels) ==
            if a.code < OK then Quoting.Taken(a.code, [], a.rest, a.cancels)
            else if b.code < OK then Quoting.Taken(b.code, [], b.rest, b.cancels)
            else b.(bytes := a.bytes + b.bytes)
  {
    hide TakeNibbles, Joined;
    NibblesSplit(r, 2, 2 * (n - 1), input, cancels);
    var a := TakeNibbles(r, 2, input, cancels);
    var b := TakeNibbles(r, 2 * (n - 1), a.rest, a.cancels);
    if a.code == OK && b.code == OK {
      JoinedConcat(a.bytes, b.bytes);
    }
  }

  /** Whole behind some bytes: as read so far, and failing as a whole. */
  ghost predicate HexBehind(whole: Quoting.Taken, bytes: seq<bv8>, more: Quoting.Taken) {
    whole == if more.code < OK then Quoting.Taken(more.code, [], more.rest, more.cancels)
      else more.(bytes := bytes + more.bytes)
  }

  lemma HexBehindMore(whole: Quoting.Taken, bytes: seq<bv8>, c: bv8, all: Quoting.Taken, more: Quoting.Taken)
    requires HexBehind(whole, bytes, all) && more.code <= OK
    requires all == if more.code < OK then Quoting.Taken(more.code, [], more.rest, more.cancels)
                    else more.(bytes := [c] + more.bytes)
    ensures HexBehind(whole, bytes + [c], more)
  {
    assert bytes + ([c] + more.bytes) == bytes + [c] + more.bytes;
  }

  /** The header loop of rx_hex_header. */
  method RxHexBytes(z: Zmodem, count: nat) returns (code: int, crc: bv16)
    requires z.Valid() && count <= ZMAXHLEN + 1
    modifies z`script, z`inputCount, z`inputIndex, z`cancelCount, z.inputBuffer, z.rxdHeader
    ensures z.Valid()
    ensures var k := TakeHex(z.Mode(), count, old(z.Pending()), old(z.cancelCount));
            && code == k.code && z.Pending() == k.rest && z.cancelCount == k.cancels
            && (code == OK ==> z.rxdHeader[..count] == k.bytes && crc == Crc16.Fold16(0, k.bytes))
  {
    hide TakeHex, Crc16.Fold16, Crc16.Byte16, HexBehind;
    var r := z.Mode();
    ghost var whole := TakeHex(r, count, z.Pending(), z.cancelCount);
    crc := 0;
    Crc16.FoldNothing(0);
    assert z.rxdHeader[..0] == [];
    HexBehindNothing(whole);
    HexNone(r, whole.rest, whole.cancels);
    var i := 0;
    while i < count
      invariant i <= count && z.Valid()
      invariant crc == Crc16.Fold16(0, z.rxdHeader[..i])
      invariant HexBehind(whole, z.rxdHeader[..i], TakeHex(r, count - i, z.Pending(), z.cancelCount))
    {
      HexStep(r, count - i, z.Pending(), z.cancelCount);
      ghost var bytes, all := z.rxdHeader[..i], TakeHex(r, count - i, z.Pending(), z.cancelCount);
      var c;
      code, c := RxHex(z);
      assert z.rxdHeader[..i] == bytes;
      if code != OK {
        HexBehindFailed(whole, bytes, all);
        return;
      }
      HexBehindMore(whole, bytes, c, all, TakeHex(r, count - i - 1, z.Pending(), z.cancelCount));
      Crc16.FoldSnoc(0, bytes, c);
      crc := Crc16.Byte16(crc, c);
      ghost var pending := z.Pending();
      z.rxdHeader[i] := c;
      assert z.Pending() == pending;
      i := i + 1;
      assert z.rxdHeader[..i] == bytes + [c];
    }
    HexNone(r, z.Pending(), z.cancelCount);
    HexBehindAll(whole, z.rxdHeader[..count], z.Pending(), z.cancelCount);
    code := OK;
  }

  lemma HexNone(r: RxMode, input: Input, cancels: nat)
    ensures TakeHex(r, 0, input, cancels) == Quoting.Taken(OK, [], input, cancels)
  {}

  lemma HexBehindNothing(whole: Quoting.Taken)
    requires whole.code < OK ==> whole.bytes == []
    ensures HexBehind(whole, [], whole)
  {
    assert [] + whole.bytes == whole.bytes;
  }

  lemma HexBehindFailed(whole: Quoting.Taken, bytes: seq<bv8>, all: Quoting.Taken)
    requires HexBehind(whole, bytes, all) && all.code < OK
    ensures whole == Quoting.Taken(all.code, [], all.rest, all.cancels)
  {}

  lemma HexBehindAll(whole: Quoting.Taken, bytes: seq<bv8>, rest: Input, cancels: nat)
    requires HexBehind(whole, bytes, Quoting.Taken(OK, [], rest, cancels))
    ensures whole == Quoting.Taken(OK, bytes, rest, cancels)
  {
    assert bytes + [] == bytes;
  }

  /** rx_hex_terminator_byte */
  method RxLineByte(z: Zmodem) returns (result: Symbol)
    requires z.Valid()
    modifies z`script, z`inputCount, z`inputIndex, z`cancelCount, z.inputBuffer
    ensures z.Valid()
    ensures Scan(result, z.Pending(), z.cancelCount) == LineByte(z.Mode(), old(z.Pending()), old(z.cancelCount))
  {
    hide Raw, IsFlowControl;
    var r := z.Mode();
    ghost var goal := LineByte(r, z.Pending(), z.cancelCount);
    while true
      invariant z.Valid() && LineByte(r, z.Pending(), z.cancelCount) == goal
      decreases z.Pending()
    {
      result := RxRaw(z);
      if !result.Byte? || !IsFlowControl(result.b) {
        return;
      }
    }
  }

  /** The end of line of rx_hex_header. */
  method RxEndOfLine(z: Zmodem) returns (code: int)
    requires z.Valid()
    modifies z`script, z`inputCount, z`inputIndex, z`cancelCount, z.inputBuffer
    ensures z.Valid()
    ensures Quoting.Taken(code, [], z.Pending(), z.cancelCount)
              == EndOfLine(z.Mode(), old(z.Pending()), old(z.cancelCount))
  {
    hide LineByte;
    var c := RxLineByte(z);
    if !c.Byte? {
      return c.code;
    }
    if c.b & 0x7f == CR {
      c := RxLineByte(z);
      if !c.Byte? {
        return c.code;
      }
    }
    code := if c.b & 0x7f == LF then OK else INVALID_HEADER;
  }

  /** The two bytes of the frame check of a hex header. */
  method RxHexSum(z: Zmodem) returns (code: int, sum: bv16)
    requires z.Valid()
    modifies z`script, z`inputCount, z`inputIndex, z`cancelCount, z.inputBuffer
    ensures z.Valid()
    ensures var k := TakeHex(z.Mode(), 2, old(z.Pending()), old(z.cancelCount));
            && code == k.code && z.Pending() == k.rest && z.cancelCount == k.cancels
            && (code == OK ==> sum == Word16(k.bytes))
  {
    hide TakeHex, Word16;
    sum := 0;
    HexStep(z.Mode(), 2, z.Pending(), z.cancelCount);
    var high, low;
    code, high := RxHex(z);
    if code != OK {
      return;
    }
    code, low := RxHex(z);
    if code != OK {
      return;
    }
    assert [high] + [low] == [high, low];
    sum := Word16([high, low]);
  }

  /** rx_hex_header */
  method RxHexHeader(z: Zmodem, count: nat) returns (code: int)
    requires z.Valid() && 0 < count <= ZMAXHLEN + 1 && z.rxdHeaderLen == 0
    modifies z`script, z`inputCount, z`inputIndex, z`cancelCount, z`rxdHeaderLen, z.inputBuffer, z.rxdHeader
    ensures Reads(z, ReadHex(z.Mode(), count, old(z.Pending()), old(z.cancelCount)), code)
  {
    hide TakeHex, Word16, Crc16.Fold16, Crc16.Byte16, EndOfLine;
    var r := z.Mode();
    ghost var b := ReadHex(r, count, z.Pending(), z.cancelCount);
    ghost var h := TakeHex(r, count, z.Pending(), z.cancelCount).bytes;
    var crc;
    code, crc := RxHexBytes(z, count);
    if code != OK {
      NothingRead(z, b, code);
      return;
    }
    crc := Crc16.Byte16(Crc16.Byte16(crc, 0), 0);
    var sum;
    code, sum := RxHexSum(z);
    if code != OK {
      NothingRead(z, b, code);
      return;
    }
    if sum != crc {
      code := INVALID_HEADER;
      NothingRead(z, b, code);
      return;
    }
    code := RxEndOfLine(z);
    if code != OK {
      NothingRead(z, b, code);
      return;
    }
    assert z.rxdHeader[..count] == h;
    ghost var pending := z.Pending();
    z.rxdHeaderLen := count;
    assert z.Pending() == pending;
  }

  /** rx_variable_length */
  method RxVariableLength(z: Zmodem, hex: bool) returns (code: int, count: nat)
    requires z.Valid()
    modifies z`script, z`inputCount, z`inputIndex, z`cancelCount, z.inputBuffer
    ensures z.Valid()
    ensures var k := ReadLength(z.Mode(), hex, old(z.Pending()), old(z.cancelCount));
            && code == k.code && z.Pending() == k.rest && z.cancelCount == k.cancels
            && (code == OK ==> count == k.bytes[0] as nat + 1 && HDRLEN <= count <= ZMAXHLEN + 1)
  {
    hide TakeHex, Take;
    var n;
    count := 0;
    if hex {
      code, n := RxHex(z);
    } else {
      var bytes;
      code, bytes := RxTake(z, 1, INVALID_HEADER);
      n := if code == OK then bytes[0] else 0;
    }
    if code != OK {
      return;
    }
    if n as nat < HDRLEN - 1 || n as nat > ZMAXHLEN {
      return INVALID_HEADER, count;
    }
    count := n as nat + 1;
  }

  /** The variable-length cases of rx_header_raw. */
  method RxVariableHeader(z: Zmodem, style: bv8) returns (code: int)
    requires z.Valid() && z.rxdHeaderLen == 0
    modifies z`script, z`inputCount, z`inputIndex, z`cancelCount, z`rxdHeaderLen, z.inputBuffer, z.rxdHeader
    ensures Reads(z, ReadVariable(z.Mode(), style, old(z.Pending()), old(z.cancelCount)), code)
  {
    hide ReadLength, ReadHex, ReadBinary;
    ghost var b := ReadVariable(z.Mode(), style, z.Pending(), z.cancelCount);
    var count;
    code, count := RxVariableLength(z, style == ZVHEX);
    if code != OK {
      NothingRead(z, b, code);
      return;
    }
    if style == ZVHEX {
      code := RxHexHeader(z, count);
    } else {
      code := RxBinaryHeader(z, style != ZVBIN, count);
    }
  }

  // ---------- Omen's headers ----------

  /** The flow-control loop in front of the count of rx_omen_header. */
  method RxOmenCount(z: Zmodem) returns (result: Symbol)
    requires z.Valid()
    modifies z`script, z`inputCount, z`inputIndex, z`cancelCount, z.inputBuffer
    ensures z.Valid()
    ensures Scan(result, z.Pending(), z.cancelCount) == OmenCount(z.Mode(), old(z.Pending()), old(z.cancelCount))
  {
    hide Raw, IsFlowControl;
    var r := z.Mode();
    ghost var goal := OmenCount(r, z.Pending(), z.cancelCount);
    while true
      invariant z.Valid() && OmenCount(r, z.Pending(), z.cancelCount) == goal
      decreases z.Pending()
    {
      result := RxRaw(z);
      if !result.Byte? || !IsFlowControl(result.b & 0x7f) {
        return;
      }
    }
  }

  lemma TakeOmenStep(r: RxMode, n: nat, input: Input, cancels: nat)
    requires n > 0
    ensures var s := OmenNext(r, BARE, input, cancels);
            TakeOmen(r, n, input, cancels) ==
            if s.symbol.Fail? then Quoting.Taken(s.symbol.code, [], s.rest, s.cancels)
            else if s.symbol.End? then Quoting.Taken(INVALID_HEADER, [], s.rest, s.cancels)
            else
              var more := TakeOmen(r, n - 1, s.rest, s.cancels);
              more.(bytes := [s.symbol.b] + more.bytes)
  {
    hide OmenNext;
  }

  /** rx_omen_byte_cursor, n times over. */
  method RxOmenTake(z: Zmodem, n: nat) returns (code: int, bytes: seq<bv8>)
    requires z.Valid()
    modifies z`script, z`inputCount, z`inputIndex, z`cancelCount, z.inputBuffer
    ensures z.Valid()
    ensures Quoting.Taken(code, bytes, z.Pending(), z.cancelCount)
              == TakeOmen(z.Mode(), n, old(z.Pending()), old(z.cancelCount))
  {
    hide OmenNext, TakeOmen, Behind;
    var r := z.Mode();
    ghost var whole := TakeOmen(r, n, z.Pending(), z.cancelCount);
    bytes := [];
    BehindNothing(whole);
    var i := 0;
    while i < n
      invariant i <= n && z.Valid()
      invariant Behind(whole, bytes, TakeOmen(r, n - i, z.Pending(), z.cancelCount))
    {
      TakeOmenStep(r, n - i, z.Pending(), z.cancelCount);
      var cursor := LoadRxCursor(z);
      var c;
      c, cursor := RxOmenCursor(z, cursor);
      StoreRxCursor(z, cursor);
      if c.Fail? {
        BehindAll(whole, bytes, c.code, z.Pending(), z.cancelCount);
        return c.code, bytes;
      }
      if c.End? {
        BehindAll(whole, bytes, INVALID_HEADER, z.Pending(), z.cancelCount);
        return INVALID_HEADER, bytes;
      }
      BehindMore(whole, bytes, c.b, TakeOmen(r, n - i - 1, z.Pending(), z.cancelCount));
      bytes := bytes + [c.b];
      i := i + 1;
    }
    OmenNone(r, z.Pending(), z.cancelCount);
    BehindAll(whole, bytes, OK, z.Pending(), z.cancelCount);
    code := OK;
  }

  lemma OmenNone(r: RxMode, input: Input, cancels: nat)
    ensures TakeOmen(r, 0, input, cancels) == Quoting.Taken(OK, [], input, cancels)
  {}

  /** Header bytes into rxd_header, whose length is set when the frame check has been found right. */
  method StoreHeader(z: Zmodem, h: seq<bv8>)
    requires z.Valid() && |h| <= ZMAXHLEN + 1
    modifies z`rxdHeaderLen, z.rxdHeader
    ensures z.Valid() && z.rxdHeaderLen == |h| && z.rxdHeader[..|h|] == h
    ensures z.Pending() == old(z.Pending())
  {
    ghost var buffer := z.inputBuffer[z.inputIndex..z.inputIndex + z.inputCount];
    forall i | 0 <= i < |h| {
      z.rxdHeader[i] := h[i];
    }
    z.rxdHeaderLen := |h|;
    assert z.inputBuffer[z.inputIndex..z.inputIndex + z.inputCount] == buffer;
  }

  /** The header and frame check of rx_omen_header, behind the count. */
  method RxOmenBody(z: Zmodem, count: nat) returns (code: int, h: seq<bv8>)
    requires z.Valid()
    modifies z`script, z`inputCount, z`inputIndex, z`cancelCount, z.inputBuffer
    ensures z.Valid() && code <= OK
    ensures var h' := TakeOmen(z.Mode(), count, old(z.Pending()), old(z.cancelCount));
            var k := TakeOmen(z.Mode(), 4, h'.rest, h'.cancels);
            if h'.code < OK then code == h'.code && z.Pending() == h'.rest && z.cancelCount == h'.cancels
            else
              && z.Pending() == k.rest && z.cancelCount == k.cancels
              && (if k.code < OK then code == k.code
                  else if Word32(k.bytes) != SumOmen(h'.bytes) then code == INVALID_HEADER
                  else code == OK && h == h'.bytes)
  {
    hide TakeOmen, Word32, SumOmen;
    code, h := RxOmenTake(z, count);
    if code != OK {
      return;
    }
    var sum := SumOmen(h);
    var check;
    code, check := RxOmenTake(z, 4);
    if code != OK {
      return;
    }
    if Word32(check) != sum {
      code := INVALID_HEADER;
    }
  }

  /** rx_omen_header, behind the count. */
  method RxOmenBehindCount(z: Zmodem, encoding: Encoding, count: nat) returns (code: int)
    requires z.Valid() && z.rxdHeaderLen == 0 && 0 < count <= ZMAXHLEN + 1
    modifies z`script, z`inputCount, z`inputIndex, z`cancelCount, z`rxdHeaderLen, z.inputBuffer, z.rxdHeader
    modifies z`receive32BitData, z`receiveEncodedData, z`receiveEscape8Format
    ensures Reads(z, OmenBehindCount(old(z.Mode()), encoding, count, old(z.Pending()), old(z.cancelCount)), code)
  {
    hide TakeOmen, Word32, SumOmen;
    ghost var b := OmenBehindCount(z.Mode(), encoding, count, z.Pending(), z.cancelCount);
    var h;
    code, h := RxOmenBody(z, count);
    if code != OK {
      NothingRead(z, b, code);
      return;
    }
    StoreHeader(z, h);
    ghost var pending := z.Pending();
    z.receive32BitData, z.receiveEncodedData, z.receiveEscape8Format := true, encoding, Escape8Omen;
    assert z.Pending() == pending;
  }

  /** rx_omen_header */
  method RxOmenHeader(z: Zmodem, encoding: Encoding) returns (code: int)
    requires z.Valid() && z.rxdHeaderLen == 0
    modifies z`script, z`inputCount, z`inputIndex, z`cancelCount, z`rxdHeaderLen, z.inputBuffer, z.rxdHeader
    modifies z`receive32BitData, z`receiveEncodedData, z`receiveEscape8Format
    ensures Reads(z, ReadOmen(old(z.Mode()), encoding, old(z.Pending()), old(z.cancelCount)), code)
  {
    hide OmenBehindCount, OmenCount;
    ghost var b := ReadOmen(z.Mode(), encoding, z.Pending(), z.cancelCount);
    var c := RxOmenCount(z);
    if !c.Byte? {
      code := c.code;
      NothingRead(z, b, code);
      return;
    }
    var n := (c.b & 0x7f) as nat;
    if n < 0x22 || n - 0x22 > ZMAXHLEN {
      code := INVALID_HEADER;
      NothingRead(z, b, code);
      return;
    }
    code := RxOmenBehindCount(z, encoding, n - 0x21);
  }

  /** The header and frame check of rx_mobyturbo_header, behind the count. */
  method RxMobyBody(z: Zmodem, count: nat) returns (code: int, h: seq<bv8>)
    requires z.Valid()
    modifies z`script, z`inputCount, z`inputIndex, z`cancelCount, z.inputBuffer
    ensures z.Valid() && code <= OK
    ensures var h' := Take(z.Mode(), count, INVALID_HEADER, old(z.Pending()), old(z.cancelCount));
            var k := Take(z.Mode(), 4, INVALID_HEADER, h'.rest, h'.cancels);
            if h'.code < OK then code == h'.code && z.Pending() == h'.rest && z.cancelCount == h'.cancels
            else
              && z.Pending() == k.rest && z.cancelCount == k.cancels
              && (if k.code < OK then code == k.code
                  else if Word32(k.bytes) != SumOmen(h'.bytes) then code == INVALID_HEADER
                  else code == OK && h == h'.bytes)
  {
    hide Take, Word32, SumOmen;
    code, h := RxTake(z, count, INVALID_HEADER);
    if code != OK {
      return;
    }
    var sum := SumOmen(h);
    var check;
    code, check := RxTake(z, 4, INVALID_HEADER);
    if code != OK {
      return;
    }
    if Word32(check) != sum {
      code := INVALID_HEADER;
    }
  }

  /** rx_mobyturbo_header, behind the count. */
  method RxMobyBehindCount(z: Zmodem, count: nat, ghost b: Body) returns (code: int)
    requires z.Valid() && z.rxdHeaderLen == 0 && 0 < count <= ZMAXHLEN + 1
    requires b == MobyBehindCount(z.Mode(), count, z.Pending(), z.cancelCount)
    modifies z`script, z`inputCount, z`inputIndex, z`cancelCount, z`rxdHeaderLen, z.inputBuffer, z.rxdHeader
    modifies z`receive32BitData, z`receiveEncodedData, z`receiveEscape8Format
    ensures Reads(z, b, code)
  {
    hide Take, Word32, SumOmen;
    var h;
    code, h := RxMobyBody(z, count);
    if code != OK {
      NothingRead(z, b, code);
      return;
    }
    StoreHeader(z, h);
    ghost var pending := z.Pending();
    z.receive32BitData, z.receiveEncodedData, z.receiveEscape8Format := true, Plain, Escape8None;
    assert z.Pending() == pending;
  }

  /** rx_mobyturbo_header: MobyTurbo transparency starts with the count. */
  method RxMobyHeader(z: Zmodem) returns (code: int)
    requires z.Valid() && z.rxdHeaderLen == 0 && z.receiveMobyturbo
    modifies z`script, z`inputCount, z`inputIndex, z`cancelCount, z`rxdHeaderLen, z.inputBuffer, z.rxdHeader
    modifies z`receive32BitData, z`receiveEncodedData, z`receiveEscape8Format
    ensures Reads(z, ReadMoby(old(z.Mode()), old(z.Pending()), old(z.cancelCount)), code)
  {
    hide MobyBehindCount, ReadLength;
    ghost var b := ReadMoby(z.Mode(), z.Pending(), z.cancelCount);
    var count;
    code, count := RxVariableLength(z, false);
    if code != OK {
      NothingRead(z, b, code);
      return;
    }
    code := RxMobyBehindCount(z, count, b);
  }

  // ---------- Any header ----------

  /** A change of receive modes leaves the line as it is. */
  method Select(z: Zmodem, fcs32: bool, encoding: Encoding, ghost b: Body, ghost code: int)
    requires Reads(z, b, code)
    modifies z`receive32BitData, z`receiveEncodedData
    ensures Reads(z, Selecting(b, fcs32, encoding), code)
  {
    ghost var pending := z.Pending();
    z.receive32BitData, z.receiveEncodedData := fcs32, encoding;
    assert z.Pending() == pending;
  }

  /** The switch of rx_header_raw on the styles with ordinary quoting. */
  method RxOrdinaryBody(z: Zmodem, style: bv8) returns (code: int)
    requires z.Valid() && z.rxdHeaderLen == 0 && !z.receiveMobyturbo && IsStyle(style)
    requires style != ZBINR32ESC8 && style != ZBINP7 && style != ZBINM32
    modifies z`script, z`inputCount, z`inputIndex, z`cancelCount, z`rxdHeaderLen, z.inputBuffer, z.rxdHeader
    modifies z`receive32BitData, z`receiveEncodedData
    ensures Reads(z, ReadBody(old(z.Mode()), style, old(z.Pending()), old(z.cancelCount)), code)
  {
    hide ReadBinary, ReadHex, ReadVariable, Reads;
    ghost var r, input, cancels := z.Mode(), z.Pending(), z.cancelCount;
    assert r.(moby := false) == r;
    if style == ZBIN {
      code := RxBinaryHeader(z, false, HDRLEN);
      Select(z, false, Plain, ReadBinary(r, false, HDRLEN, input, cancels), code);
    } else if style == ZHEX {
      code := RxHexHeader(z, HDRLEN);
      Select(z, false, Plain, ReadHex(r, HDRLEN, input, cancels), code);
    } else if style == ZBIN32 {
      code := RxBinaryHeader(z, true, HDRLEN);
      Select(z, true, Plain, ReadBinary(r, true, HDRLEN, input, cancels), code);
    } else if style == ZBINR32 {
      code := RxBinaryHeader(z, true, HDRLEN);
      Select(z, true, Rle, ReadBinary(r, true, HDRLEN, input, cancels), code);
    } else if style == ZVBIN || style == ZVHEX {
      code := RxVariableHeader(z, style);
      Select(z, false, Plain, ReadVariable(r, style, input, cancels), code);
    } else {
      code := RxVariableHeader(z, style);
      Select(z, true, if style == ZVBINR32 then Rle else Plain, ReadVariable(r, style, input, cancels), code);
    }
  }

  /** Setting receive_mobyturbo, in front of the body. */
  method SetMoby(z: Zmodem, on: bool)
    requires z.Valid()
    modifies z`receiveMobyturbo
    ensures z.Valid() && z.Mode() == old(z.Mode()).(moby := on) && z.Pending() == old(z.Pending())
  {
    ghost var pending := z.Pending();
    z.receiveMobyturbo := on;
    assert z.Pending() == pending;
  }

  lemma BodyOfMode(r: RxMode, style: bv8, input: Input, cancels: nat)
    requires IsStyle(style) && style != ZBINM32
    ensures ReadBody(r, style, input, cancels) == ReadBody(r.(moby := false), style, input, cancels)
  {
    hide ReadOmen, ReadMoby, ReadBinary, ReadHex, ReadVariable, Selecting;
    assert r.(moby := false).(moby := false) == r.(moby := false);
  }

  /** The switch of rx_header_raw. */
  method RxBody(z: Zmodem, style: bv8) returns (code: int)
    requires z.Valid() && z.rxdHeaderLen == 0 && IsStyle(style)
    modifies z`script, z`inputCount, z`inputIndex, z`cancelCount, z`rxdHeaderLen, z.inputBuffer, z.rxdHeader
    modifies z`receiveMobyturbo, z`receive32BitData, z`receiveEncodedData, z`receiveEscape8Format
    ensures Reads(z, ReadBody(old(z.Mode()), style, old(z.Pending()), old(z.cancelCount)), code)
  {
    hide ReadOmen, ReadMoby, ReadBinary, ReadHex, ReadVariable, Reads, Selecting;
    if style == ZBINM32 {
      SetMoby(z, true);
      code := RxMobyHeader(z);
      return;
    }
    BodyOfMode(z.Mode(), style, z.Pending(), z.cancelCount);
    SetMoby(z, false);
    if style == ZBINR32ESC8 {
      code := RxOmenHeader(z, Rle);
    } else if style == ZBINP7 {
      code := RxOmenHeader(z, Pack7);
    } else {
      code := RxOrdinaryBody(z, style);
    }
  }

  /** From behind a ZPAD to the style byte; spurious if no header begins there. */
  method RxOpen(z: Zmodem) returns (spurious: bool, result: Symbol)
    requires z.Valid()
    modifies z`script, z`inputCount, z`inputIndex, z`cancelCount, z.inputBuffer
    ensures z.Valid()
    ensures (if spurious then Spurious(z.Pending(), z.cancelCount) else Opening(result, z.Pending(), z.cancelCount))
         == Open(z.Mode(), old(z.Pending()), old(z.cancelCount))
  {
    hide Next, Raw;
    spurious := false;
    result := RxRaw(z);
    if !result.Byte? {
      return;
    }
    if result.b & 0x7f == ZPAD {
      result := RxRaw(z);
      if !result.Byte? {
        return;
      }
    }
    if result.b & 0x7f != ZDLE {
      spurious := true;
      return;
    }
    result := Rx(z);
  }

  /** The outcome of a search for a header, as rx_header_raw reports it. */
  ghost predicate Reports(z: Zmodem, g: Found, result: int)
    reads z, z.inputBuffer, z.rxdHeader
  {
    && z.Valid() && z.Mode() == g.mode && z.Pending() == g.rest && z.cancelCount == g.cancels
    && z.rxdHeaderLen == |g.header| <= ZMAXHLEN + 1 && z.rxdHeader[..z.rxdHeaderLen] == g.header
    && z.mobyturboProbePassed == g.probe && g.code <= OK
    && (if g.code == OK then g.header != [] && result == g.header[0] as int else g.header == [] && result == g.code)
  }

  /** One round of the search, after a byte of the line. */
  lemma FindStep(r: RxMode, report: bool, p: Probe, input: Input, cancels: nat)
    requires p.index < |PROBE|
    ensures var raw := Raw(r, input, cancels);
            FindHeader(r, report, p, input, cancels) ==
            if !raw.symbol.Byte? then Found(raw.symbol.code, [], r, false, raw.rest, raw.cancels)
            else if raw.symbol.b & 0x7f != ZPAD
              then FindHeader(r, report, ProbeStep(p, raw.symbol.b), raw.rest, raw.cancels)
            else FindBehindPad(r, report, ProbeStep(p, raw.symbol.b), raw.rest, raw.cancels)
  {
    hide Raw, Open, ReadBody, IsStyle, ProbeStep;
  }

  /** The search behind a ZPAD. */
  function FindBehindPad(r: RxMode, report: bool, q: Probe, input: Input, cancels: nat): Found
    requires q.index < |PROBE|
  {
    var o := Open(r, input, cancels);
    if o.Spurious? then FindHeader(r, report, q, o.rest, o.cancels)
    else if o.symbol.Fail? then Found(o.symbol.code, [], r, false, o.rest, o.cancels)
    else FindBehindStyle(r, report, q, if o.symbol.Byte? then o.symbol.b & 0x7f else 0, o.rest, o.cancels)
  }

  function FindBehindStyle(r: RxMode, report: bool, q: Probe, style: bv8, input: Input, cancels: nat): Found
    requires q.index < |PROBE|
  {
    if !IsStyle(style) then
      if report then Found(INVALID_HEADER, [], r, false, input, cancels) else FindHeader(r, report, q, input, cancels)
    else
      var b := ReadBody(r, style, input, cancels);
      if Ends(b.code) then Found(b.code, [], b.mode, false, b.rest, b.cancels)
      else if b.code == OK then Found(OK, b.header, b.mode, q.passed, b.rest, b.cancels)
      else if report then Found(INVALID_HEADER, [], b.mode, false, b.rest, b.cancels)
      else FindHeader(b.mode, report, q, b.rest, b.cancels)
  }

  /** The inner loop of rx_header_raw: bytes go by until a ZPAD, and the probe is looked for among them. */
  method SkipToPad(z: Zmodem, ghost report: bool, p: Probe) returns (result: Symbol, q: Probe)
    requires z.Valid() && p.index < |PROBE|
    modifies z`script, z`inputCount, z`inputIndex, z`cancelCount, z.inputBuffer
    ensures z.Valid() && q.index < |PROBE| && !result.End?
    ensures var g := FindHeader(z.Mode(), report, p, old(z.Pending()), old(z.cancelCount));
            if result.Fail? then g == Found(result.code, [], z.Mode(), false, z.Pending(), z.cancelCount)
            else g == FindBehindPad(z.Mode(), report, q, z.Pending(), z.cancelCount) && z.Pending() < old(z.Pending())
  {
    hide Raw, FindHeader, FindBehindPad, ProbeStep;
    var r := z.Mode();
    ghost var goal, start := FindHeader(r, report, p, z.Pending(), z.cancelCount), z.Pending();
    q := p;
    while true
      invariant z.Valid() && q.index < |PROBE|
      invariant FindHeader(r, report, q, z.Pending(), z.cancelCount) == goal && Within(z.Pending(), start)
      decreases z.Pending()
    {
      FindStep(r, report, q, z.Pending(), z.cancelCount);
      result := RxRaw(z);
      if !result.Byte? {
        return;
      }
      q := ProbeStep(q, result.b);
      if result.b & 0x7f == ZPAD {
        return;
      }
    }
  }

  /** How a round of the search ends: with a result, or with the search still to be done. */
  ghost predicate Progress(z: Zmodem, report: bool, q: Probe, goal: Found, start: Input, found: bool, result: int)
    requires q.index < |PROBE|
    reads z, z.inputBuffer, z.rxdHeader
  {
    if found then Reports(z, goal, result)
    else
      && z.Valid() && z.rxdHeaderLen == 0 && !z.mobyturboProbePassed
      && FindHeader(z.Mode(), report, q, z.Pending(), z.cancelCount) == goal && z.Pending() < start
  }

  /** The body of a header whose style has been read, and what becomes of it. */
  method RxBehindStyle(z: Zmodem, report: bool, q: Probe, style: bv8, ghost goal: Found, ghost start: Input)
    returns (found: bool, result: int)
    requires z.Valid() && q.index < |PROBE| && z.rxdHeaderLen == 0 && !z.mobyturboProbePassed
    requires FindBehindStyle(z.Mode(), report, q, style, z.Pending(), z.cancelCount) == goal && z.Pending() < start
    modifies z`script, z`inputCount, z`inputIndex, z`cancelCount, z`rxdHeaderLen, z.inputBuffer, z.rxdHeader
    modifies z`receiveMobyturbo, z`receive32BitData, z`receiveEncodedData, z`receiveEscape8Format,
      z`mobyturboProbePassed
    ensures Progress(z, report, q, goal, start, found, result)
  {
    hide FindHeader, ReadBody, IsStyle;
    found, result := false, INVALID_HEADER;
    if !IsStyle(style) {
      if report {
        ReportsNothing(z, goal);
        found := true;
      }
      return;
    }
    BodyConsumes(z.Mode(), style, z.Pending(), z.cancelCount);
    result := RxBody(z, style);
    if Ends(result) {
      ReportsNothing(z, goal);
      found := true;
    } else if result == OK {
      ghost var pending := z.Pending();
      z.mobyturboProbePassed := q.passed;
      assert z.Pending() == pending;
      found, result := true, z.rxdHeader[0] as int;
    } else if report {
      result := INVALID_HEADER;
      ReportsNothing(z, goal);
      found := true;
    }
  }

  /** One round of rx_header_raw, behind a ZPAD. */
  method RxBehindPad(z: Zmodem, report: bool, q: Probe, ghost goal: Found, ghost start: Input)
    returns (found: bool, result: int)
    requires z.Valid() && q.index < |PROBE| && z.rxdHeaderLen == 0 && !z.mobyturboProbePassed
    requires FindBehindPad(z.Mode(), report, q, z.Pending(), z.cancelCount) == goal && z.Pending() < start
    modifies z`script, z`inputCount, z`inputIndex, z`cancelCount, z`rxdHeaderLen, z.inputBuffer, z.rxdHeader
    modifies z`receiveMobyturbo, z`receive32BitData, z`receiveEncodedData, z`receiveEscape8Format,
      z`mobyturboProbePassed
    ensures Progress(z, report, q, goal, start, found, result)
  {
    hide FindHeader, FindBehindStyle, Open;
    OpenConsumes(z.Mode(), z.Pending(), z.cancelCount);
    var spurious, c := RxOpen(z);
    found, result := false, INVALID_HEADER;
    if spurious {
      return;
    }
    if c.Fail? {
      ReportsNothing(z, goal);
      return true, c.code;
    }
    found, result := RxBehindStyle(z, report, q, if c.Byte? then c.b & 0x7f else 0, goal, start);
  }

  /** rx_header_raw: which header is found, and what is left of the line, is a function of the line alone. */
  method RxHeaderRaw(z: Zmodem, report: bool) returns (result: int)
    requires z.Valid()
    modifies z`script, z`inputCount, z`inputIndex, z`cancelCount, z`rxdHeaderLen, z.inputBuffer, z.rxdHeader
    modifies z`receiveMobyturbo, z`receive32BitData, z`receiveEncodedData, z`receiveEscape8Format,
      z`mobyturboProbePassed
    ensures Reports(z, FindHeader(old(z.Mode()), report, Probe(0, false), old(z.Pending()), old(z.cancelCount)), result)
  {
    hide FindHeader, FindBehindPad;
    var q := Probe(0, false);
    ghost var goal, pending := FindHeader(z.Mode(), report, q, z.Pending(), z.cancelCount), z.Pending();
    z.rxdHeaderLen, z.mobyturboProbePassed := 0, false;
    assert z.Pending() == pending && z.rxdHeader[..0] == [];
    while true
      invariant z.Valid() && q.index < |PROBE| && z.rxdHeaderLen == 0 && !z.mobyturboProbePassed
      invariant FindHeader(z.Mode(), report, q, z.Pending(), z.cancelCount) == goal
      decreases z.Pending()
    {
      ghost var start := z.Pending();
      var c, found;
      c, q := SkipToPad(z, report, q);
      if c.Fail? {
        ReportsNothing(z, goal);
        return c.code;
      }
      found, result := RxBehindPad(z, report, q, goal, start);
      if found {
        return;
      }
    }
  }

  lemma ReportsNothing(z: Zmodem, g: Found)
    requires z.Valid() && z.rxdHeaderLen == 0 && !z.mobyturboProbePassed
    requires g.code < OK && g == Found(g.code, [], z.Mode(), false, z.Pending(), z.cancelCount)
    ensures Reports(z, g, g.code)
  {
    assert z.rxdHeader[..0] == [];
  }

  /** rx_data: the decoder that the last header selected. */
  method RxDataPacket(z: Zmodem, p: array<bv8>, capacity: nat) returns (outcome: Outcome, l: nat)
    requires z.Valid() && capacity <= p.Length && p != z.inputBuffer
    modifies z`script, z`inputCount, z`inputIndex, z`cancelCount, z.inputBuffer, p
    ensures z.Valid() && l <= p.Length
    ensures Packet(outcome, p[..l], z.Pending(), z.cancelCount)
         == ReceiveData(z.Mode(), capacity, old(z.Pending()), old(z.cancelCount))
  {
    if !z.receiveEncodedData.Plain? {
      if z.receiveEncodedData.Pack7? {
        outcome, l := Pack7Data.RxPack7Data(z, p, capacity);
      } else {
        outcome, l := RxRleData(z, p, capacity);
      }
    } else {
      outcome, l := RxCheckedData(z, z.receive32BitData, p, capacity);
    }
  }
}
