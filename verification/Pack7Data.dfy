/** zmdm.c: Pack-7 packets sent and received. */
module Pack7Data {
  import opened Bytes
  import opened Quoting
  import opened Subpackets
  import opened Omen
  import opened Pack7
  import opened Link
  import opened OmenData
  import Rle
  import Crc

  // ---------- Sending ----------

  lemma ValueStep(b: seq<bv8>, c: bv8)
    ensures Value256(b + [c]) == Value256(b) * 256 + c as nat
  {
    assert (b + [c])[..|b|] == b;
  }

  lemma DigitsStep(value: nat, n: nat, tail: seq<bv8>)
    requires n > 0
    ensures Digits(value, n) + tail == Digits(value / 88, n - 1) + ([DigitByte(value % 88)] + tail)
  {
    hide DigitByte;
    assert Digits(value, n) == Digits(value / 88, n - 1) + [DigitByte(value % 88)];
  }

  /** pack7_encode_group: the 32-bit accumulator never loses a bit. */
  method Pack7EncodeGroup(input: seq<bv8>, output: array<bv8>) returns (digits: nat)
    requires 1 <= |input| <= 4 && output.Length == 5
    modifies output
    ensures digits == |input| + 1 && output[..digits] == EncodeGroup(input)
  {
    hide DigitByte, Value256, Digits, Power;
    var value: nat := 0;
    digits := |input| + 1;
    assert Value256([]) == 0 by { EmptyValue(); }
    assert input[..0] == [];
    for i := 0 to |input|
      invariant value == Value256(input[..i]) <= UINT32_MAX
    {
      assert input[..i + 1] == input[..i] + [input[i]];
      ValueStep(input[..i], input[i]);
      BytesOfValue(input[..i + 1]);
      PowersFit(i + 1);
      value := value * 256 + input[i] as nat;
    }
    assert input[..|input|] == input;
    ghost var goal := Digits(value, digits);
    var i := digits;
    assert output[digits..digits] == [] && goal + [] == goal;
    while i > 0
      invariant 0 <= i <= digits
      invariant Digits(value, i) + output[i..digits] == goal
    {
      DigitsStep(value, i, output[i..digits]);
      ghost var tail := output[i..digits];
      output[i - 1] := DigitByte(value % 88);
      value := value / 88;
      i := i - 1;
      assert output[i..digits] == [output[i]] + tail;
    }
    assert Digits(value, 0) == [] by { EmptyDigits(value); }
    assert output[0..digits] == output[..digits];
  }

  lemma EmptyValue()
    ensures Value256([]) == 0
  {}

  lemma EmptyDigits(value: nat)
    ensures Digits(value, 0) == []
  {}

  /** One byte where there is room: the result of buffer_omen_raw may be ignored. */
  method BufferRoomy(z: Zmodem, c: bv8, used: nat) returns (used': nat, previous': bv8)
    requires z.Valid() && used < z.txDataWire.Length
    modifies z`outputs, z`sent, z.txDataWire
    ensures z.sent == old(z.sent) && z.outputs == old(z.outputs)
    ensures used' == used + 1 && z.txDataWire[..used'] == old(z.txDataWire[..used]) + [c]
    ensures previous' == c & 0x7f
  {
    var _, next, last := BufferOmenRaw(z, c, used);
    used', previous' := next, last;
    assert z.sent + z.txDataWire[..used'] == z.sent + (old(z.txDataWire[..used]) + [c]);
    SameTail(z.sent, z.txDataWire[..used'], old(z.txDataWire[..used]) + [c]);
  }

  lemma SameTail(a: seq<bv8>, b: seq<bv8>, c: seq<bv8>)
    requires a + b == a + c
    ensures b == c
  {
    assert b == (a + b)[|a|..] && c == (a + c)[|a|..];
  }

  /** buffer_pack7_group */
  method BufferPack7Group(z: Zmodem, input: seq<bv8>, used: nat) returns (used': nat, previous': bv8)
    requires z.Valid() && 1 <= |input| <= 4 && used + 5 <= z.txDataWire.Length
    modifies z`outputs, z`sent, z.txDataWire
    ensures z.sent == old(z.sent) && z.outputs == old(z.outputs)
    ensures var w := EncodeGroup(input);
            && used' == used + |w| && z.txDataWire[..used'] == old(z.txDataWire[..used]) + w
            && previous' == w[|w| - 1] & 0x7f
  {
    hide EncodeGroup, IsDigit;
    var encoded := new bv8[5];
    var digits := Pack7EncodeGroup(input, encoded);
    ghost var before, w := z.txDataWire[..used], encoded[..digits];
    used', previous' := used, 0;
    for i := 0 to digits
      invariant z.sent == old(z.sent) && z.outputs == old(z.outputs)
      invariant encoded[..digits] == w
      invariant used' == used + i && z.txDataWire[..used'] == before + w[..i]
      invariant i > 0 ==> previous' == w[i - 1] & 0x7f
    {
      used', previous' := BufferRoomy(z, encoded[i], used');
      assert w[..i + 1] == w[..i] + [w[i]];
      assert before + w[..i] + [w[i]] == before + w[..i + 1];
    }
    assert w[..digits] == w;
  }

  lemma GroupsFirst(data: seq<bv8>)
    requires data != []
    ensures Groups(data) == EncodeGroup(data[..GroupSize(data)]) + Groups(data[GroupSize(data)..])
  {
    hide EncodeGroup;
  }

  lemma Suffixes(data: seq<bv8>, offset: nat, n: nat)
    requires offset + n <= |data|
    ensures data[offset..][n..] == data[offset + n..] && data[offset..][..n] == data[offset..offset + n]
  {}

  /** One more group done. */
  lemma GroupsStep(done: seq<bv8>, left: seq<bv8>, whole: seq<bv8>)
    requires left != [] && done + Groups(left) == whole
    ensures done + EncodeGroup(left[..GroupSize(left)]) + Groups(left[GroupSize(left)..]) == whole
  {
    hide EncodeGroup, Groups;
    GroupsFirst(left);
    Associates(done, EncodeGroup(left[..GroupSize(left)]), Groups(left[GroupSize(left)..]));
  }

  /** The groups of the payload into the wire buffer, which always has room for the whole packet. */
  method BufferGroups(z: Zmodem, p: array<bv8>, length: nat) returns (used: nat)
    requires z.Valid() && length <= p.Length && length <= ZMAXSPLEN && p != z.txDataWire
    modifies z`outputs, z`sent, z.txDataWire
    ensures z.sent == old(z.sent) && z.outputs == old(z.outputs)
    ensures used <= 2 * length && z.txDataWire[..used] == Groups(old(p[..length])) && p[..length] == old(p[..length])
  {
    hide EncodeGroup, Groups;
    ghost var data := p[..length];
    used := 0;
    assert data[0..] == data && [] + Groups(data) == Groups(data);
    assert z.txDataWire[..0] == [];
    var offset := 0;
    while offset < length
      invariant offset <= length && p[..length] == data && used <= 2 * offset
      invariant z.sent == old(z.sent) && z.outputs == old(z.outputs)
      invariant z.txDataWire[..used] + Groups(data[offset..]) == Groups(data)
    {
      var count := length - offset;
      if count > 4 {
        count := 4;
      }
      GroupsStep(z.txDataWire[..used], data[offset..], Groups(data));
      Suffixes(data, offset, count);
      assert p[offset..offset + count] == p[..length][offset..offset + count];
      var next, _ := BufferPack7Group(z, p[offset..offset + count], used);
      used := next;
      assert p[..length] == data;
      offset := offset + count;
    }
    assert Groups(data[offset..]) == [] by { NoGroups(data, offset); }
    assert z.txDataWire[..used] + [] == z.txDataWire[..used];
  }

  lemma NoGroups(data: seq<bv8>, offset: nat)
    requires offset == |data|
    ensures Groups(data[offset..]) == []
  {}

  lemma PackParts(data: seq<bv8>, t: bv8, last: bv8)
    ensures var check := EncodeGroup(Bytes32(Check32(data, t)));
            var body := Groups(data) + [GROUPS_END] + [t] + check;
            && PackWire(data, t) == (if t == ZCRCW then body + [XON] else body)
            && LastSent(last, PackWire(data, t)) == (if t == ZCRCW then XON & 0x7f else check[|check| - 1] & 0x7f)
  {
    hide EncodeGroup, Groups, Check32, Bytes32;
  }

  /** Everything of tx_pack7_data in front of the flush: no write happens, so no result is lost. */
  method BufferPack7Packet(z: Zmodem, t: bv8, p: array<bv8>, length: nat) returns (used: nat, previous: bv8)
    requires z.Valid() && length <= p.Length && length <= ZMAXSPLEN && p != z.txDataWire
    modifies z`outputs, z`sent, z.txDataWire
    ensures z.sent == old(z.sent) && z.outputs == old(z.outputs)
    ensures var w := PackWire(old(p[..length]), t);
            used == |w| <= z.txDataWire.Length && z.txDataWire[..used] == w && previous == LastSent(z.lastSent, w)
  {
    hide EncodeGroup, Groups, PackWire, LastSent, Crc.Fold32, Crc.Byte32, Bytes32, IsDigit, Check32;
    ghost var data := p[..length];
    PackParts(data, t, z.lastSent);
    used := BufferGroups(z, p, length);
    used, previous := BufferRoomy(z, GROUPS_END, used);
    used, previous := BufferRoomy(z, t, used);
    assert p[..length] == data && p[0..length] == data;
    var crc := Crc.Update32(0xffffffff, p, 0, length);
    crc := FinishCheck(crc, t, data);
    used, previous := BufferPack7Group(z, Bytes32(crc), used);
    if t == ZCRCW {
      used, previous := BufferRoomy(z, XON, used);
    }
  }

  /** tx_pack7_data */
  method TxPack7Data(z: Zmodem, t: bv8, p: array<bv8>, length: nat) returns (ok: bool)
    requires z.Valid() && length <= p.Length && length <= ZMAXSPLEN && p != z.txDataWire
    modifies z`outputs, z`sent, z`lastSent, z.txDataWire
    ensures var w := PackWire(old(p[..length]), t);
            ok ==> z.sent == old(z.sent) + w && z.lastSent == LastSent(old(z.lastSent), w)
    ensures old(z.Healthy()) ==> ok && z.Healthy()
  {
    hide PackWire, LastSent;
    var used, previous := BufferPack7Packet(z, t, p, length);
    ok, used := FlushOmen(z, used);
    if !ok {
      return;
    }
    NothingBuffered(z);
    z.lastSent := previous;
    ok := TxFlush(z);
  }

  // ---------- Receiving ----------

  lemma BytesStep(value: nat, n: nat, tail: seq<bv8>)
    requires n > 0
    ensures Bytes256(value, n) + tail == Bytes256(value / 256, n - 1) + ([LowByte(value)] + tail)
  {
    hide LowByte;
    assert Bytes256(value, n) == Bytes256(value / 256, n - 1) + [LowByte(value)];
  }

  lemma NoBytes(value: nat)
    ensures Bytes256(value, 0) == []
  {}

  /** The bytes of a completed group, low byte last. */
  method UnpackValue(value: nat, bytes: nat, output: array<bv8>)
    requires bytes <= 4 == output.Length
    modifies output
    ensures output[..bytes] == Bytes256(value, bytes)
  {
    hide Bytes256, LowByte;
    var left, i := value, bytes;
    ghost var goal := Bytes256(value, bytes);
    assert output[bytes..bytes] == [] && goal + [] == goal;
    while i > 0
      invariant 0 <= i <= bytes
      invariant Bytes256(left, i) + output[i..bytes] == goal
    {
      BytesStep(left, i, output[i..bytes]);
      ghost var tail := output[i..bytes];
      output[i - 1] := LowByte(left);
      left := left / 256;
      i := i - 1;
      assert output[i..bytes] == [output[i]] + tail;
    }
    NoBytes(left);
    assert output[0..bytes] == output[..bytes];
  }

  /** What a caller of rx_pack7_group sees of a group. */
  ghost predicate Reads(g: Group, code: int, output: array<bv8>, count: nat, rest: Input, cancels: nat)
    reads output
  {
    code == g.code && rest == g.rest && cancels == g.cancels
    && (code == OK ==> count == |g.b| <= 4 <= output.Length && output[..count] == g.b)
  }

  /** The digit loop of rx_pack7_group: the accumulator stays within 32 bits. */
  method RxPack7Digits(z: Zmodem, cursor: Cursor) returns (code: int, value: nat, digits: nat, next: Cursor)
    requires z.Valid() && z.Holds(cursor)
    modifies z`script, z`inputCount, z`inputIndex, z`cancelCount, z.inputBuffer
    ensures z.Valid() && z.Holds(next) && code <= OK && digits <= 5 && value <= UINT32_MAX
    ensures var g := ReadGroup(z.Mode(), 0, 0, old(z.Ahead(cursor)), cursor.cancels);
            && z.Ahead(next) == g.rest && next.cancels == g.cancels
            && (if code < OK then code == g.code
                else && g.code == Finish(value, digits, g.rest, g.cancels).code
                     && g.b == Finish(value, digits, g.rest, g.cancels).b)
  {
    hide OmenNext, IsDigit, DigitValue, Finish, ReadGroup;
    var r := z.Mode();
    ghost var g := ReadGroup(r, 0, 0, z.Ahead(cursor), cursor.cancels);
    code, value, digits, next := OK, 0, 0, cursor;
    while true
      invariant z.Valid() && z.Holds(next) && digits < 5 && value <= UINT32_MAX && code == OK
      invariant SameGroup(g, ReadGroup(r, value, digits, z.Ahead(next), next.cancels))
      decreases z.Ahead(next)
    {
      ReadGroupCases(r, value, digits, z.Ahead(next), next.cancels);
      var c;
      c, next := RxOmenCursor(z, next);
      if c.Fail? {
        return c.code, value, digits, next;
      }
      if c.End? {
        return INVALID_DATA, value, digits, next;
      }
      if c.b == GROUPS_END {
        if digits == 1 {
          return INVALID_DATA, value, digits, next;
        }
        FinishLeaves(value, digits, z.Ahead(next), next.cancels);
        return;
      }
      if !IsDigit(c.b) {
        return INVALID_DATA, value, digits, next;
      }
      var digit := DigitValue(c.b);
      if value > (UINT32_MAX - digit) / 88 {
        return INVALID_DATA, value, digits, next;
      }
      NeverWraps(value, digit);
      value := value * 88 + digit;
      digits := digits + 1;
      if digits == 5 {
        FinishLeaves(value, 5, z.Ahead(next), next.cancels);
        return;
      }
    }
  }

  /** Alike but for the digits recorded. */
  ghost predicate SameGroup(g: Group, h: Group) {
    g.code == h.code && g.b == h.b && g.rest == h.rest && g.cancels == h.cancels
  }

  lemma FinishLeaves(value: nat, digits: nat, rest: Input, cancels: nat)
    ensures Finish(value, digits, rest, cancels).rest == rest && Finish(value, digits, rest, cancels).cancels == cancels
  {}

  lemma ReadGroupCases(r: RxMode, value: nat, digits: nat, input: Input, cancels: nat)
    requires digits < 5
    ensures var s := OmenNext(r, BARE, input, cancels);
            var g := ReadGroup(r, value, digits, input, cancels);
            if s.symbol.Fail? then g.code == s.symbol.code && g.rest == s.rest && g.cancels == s.cancels
            else
              && s.rest < input
              && (if s.symbol.End? then g.code == INVALID_DATA && g.rest == s.rest && g.cancels == s.cancels
                  else
                    var c := s.symbol.b;
                    if c == GROUPS_END && digits != 1 then SameGroup(g, Finish(value, digits, s.rest, s.cancels))
                    else if c == GROUPS_END || !IsDigit(c) || value > (UINT32_MAX - DigitValue(c)) / 88 then
                      g.code == INVALID_DATA && g.rest == s.rest && g.cancels == s.cancels
                    else if digits == 4 then SameGroup(g, Finish(value * 88 + DigitValue(c), 5, s.rest, s.cancels))
                    else SameGroup(g, ReadGroup(r, value * 88 + DigitValue(c), digits + 1, s.rest, s.cancels)))
  {
    hide OmenNext, IsDigit, DigitValue, Finish;
  }

  lemma FinishCases(value: nat, digits: nat, rest: Input, cancels: nat)
    requires digits <= 5
    ensures var n := if digits == 0 then 0 else digits - 1;
            var f := Finish(value, digits, rest, cancels);
            if n < 4 && value >= Power(256, n) then f.code == INVALID_DATA
            else f.code == OK && f.b == Bytes256(value, n)
  {
    hide Power, Bytes256;
  }

  /** rx_pack7_group */
  method RxPack7Group(z: Zmodem, output: array<bv8>, cursor: Cursor) returns (code: int, count: nat, next: Cursor)
    requires z.Valid() && z.Holds(cursor) && output.Length == 4 && output != z.inputBuffer
    modifies z`script, z`inputCount, z`inputIndex, z`cancelCount, z.inputBuffer, output
    ensures z.Valid() && z.Holds(next)
    ensures Reads(ReadGroup(z.Mode(), 0, 0, old(z.Ahead(cursor)), cursor.cancels), code, output, count, z.Ahead(next),
                  next.cancels)
  {
    hide ReadGroup, Finish, Bytes256, Power;
    var value, digits;
    count := 0;
    code, value, digits, next := RxPack7Digits(z, cursor);
    if code != OK {
      return;
    }
    ghost var ahead := z.Ahead(next);
    FinishCases(value, digits, ahead, next.cancels);
    var bytes := if digits == 0 then 0 else digits - 1;
    if bytes < 4 && value >= Power(256, bytes) {
      return INVALID_DATA, count, next;
    }
    UnpackValue(value, bytes, output);
    assert z.Ahead(next) == ahead;
    count := bytes;
  }

  /** The loop of rx_pack7_data over the bytes of one group. */
  method StoreGroup(p: array<bv8>, decoded: array<bv8>, count: nat, limit: nat, used: nat, overflow: bool, crc: bv32,
                    ghost data: seq<bv8>)
    returns (used': nat, overflow': bool, crc': bv32)
    requires Kept(p, limit, data, used, overflow) && count <= decoded.Length && decoded != p
    requires crc == Crc.Fold32(0xffffffff, data)
    modifies p
    ensures Kept(p, limit, data + decoded[..count], used', overflow')
    ensures crc' == Crc.Fold32(0xffffffff, data + decoded[..count])
    ensures decoded[..count] == old(decoded[..count])
  {
    hide Kept, Crc.Byte32, Crc.Fold32;
    used', overflow', crc' := used, overflow, crc;
    ghost var b := decoded[..count];
    assert data + b[..0] == data;
    for i := 0 to count
      invariant decoded[..count] == b
      invariant Kept(p, limit, data + b[..i], used', overflow')
      invariant crc' == Crc.Fold32(0xffffffff, data + b[..i])
    {
      assert data + b[..i] + [b[i]] == data + b[..i + 1];
      Crc.FoldSnoc(0xffffffff, data + b[..i], b[i]);
      crc' := Crc.Byte32(crc', decoded[i]);
      used', overflow' := KeepByte(p, decoded[i], limit, used', overflow', data + b[..i]);
    }
    assert b[..count] == b;
  }

  lemma UnpackStep(r: RxMode, input: Input, cancels: nat)
    ensures var g := ReadGroup(r, 0, 0, input, cancels);
            Unpack(r, input, cancels) ==
            if g.code < OK then Unpacked(g.code, [], g.rest, g.cancels)
            else if |g.b| < 4 then Unpacked(OK, g.b, g.rest, g.cancels)
            else Unpack(r, g.rest, g.cancels).(data := g.b + Unpack(r, g.rest, g.cancels).data)
    ensures ReadGroup(r, 0, 0, input, cancels).code == OK ==> ReadGroup(r, 0, 0, input, cancels).rest < input
  {
    hide ReadGroup;
  }

  ghost predicate After(whole: Unpacked, data: seq<bv8>, more: Unpacked) {
    whole == more.(data := data + more.data)
  }

  lemma AfterMore(whole: Unpacked, data: seq<bv8>, b: seq<bv8>, more: Unpacked)
    requires After(whole, data, more.(data := b + more.data))
    ensures After(whole, data + b, more)
  {
    assert data + (b + more.data) == data + b + more.data;
  }

  lemma AfterNothing(whole: Unpacked)
    ensures After(whole, [], whole)
  {
    assert [] + whole.data == whole.data;
  }

  lemma AfterAll(whole: Unpacked, data: seq<bv8>, code: int, rest: Input, cancels: nat)
    requires After(whole, data, Unpacked(code, [], rest, cancels))
    ensures whole == Unpacked(code, data, rest, cancels)
  {
    assert data + [] == data;
  }

  /** The group loop of rx_pack7_data. */
  method RxGroups(z: Zmodem, p: array<bv8>, limit: nat, first: Cursor)
    returns (code: int, next: Cursor, used: nat, overflow: bool, crc: bv32)
    requires z.Valid() && z.Holds(first) && limit <= p.Length && p != z.inputBuffer
    modifies z`script, z`inputCount, z`inputIndex, z`cancelCount, z.inputBuffer, p
    ensures z.Valid() && z.Holds(next)
    ensures var u := Unpack(z.Mode(), old(z.Ahead(first)), first.cancels);
            && code == u.code && z.Ahead(next) == u.rest && next.cancels == u.cancels
            && Kept(p, limit, u.data, used, overflow) && crc == Crc.Fold32(0xffffffff, u.data)
  {
    hide ReadGroup, Unpack, Kept, Crc.Byte32, Crc.Fold32;
    var r := z.Mode();
    ghost var whole := Unpack(r, z.Ahead(first), first.cancels);
    ghost var data: seq<bv8> := [];
    var decoded := new bv8[4];
    next, used, overflow, crc := first, 0, false, 0xffffffff;
    Crc.FoldNothing(0xffffffff);
    AfterNothing(whole);
    NothingKept(p, limit);
    while true
      invariant z.Valid() && z.Holds(next)
      invariant Kept(p, limit, data, used, overflow)
      invariant crc == Crc.Fold32(0xffffffff, data)
      invariant After(whole, data, Unpack(r, z.Ahead(next), next.cancels))
      decreases z.Ahead(next)
    {
      ghost var before := z.Ahead(next);
      UnpackStep(r, before, next.cancels);
      var count;
      ghost var g := ReadGroup(r, 0, 0, before, next.cancels);
      code, count, next := RxPack7Group(z, decoded, next);
      if code != OK {
        AfterAll(whole, data, code, g.rest, g.cancels);
        return;
      }
      if count == 4 {
        AfterMore(whole, data, g.b, Unpack(r, g.rest, g.cancels));
      } else {
        assert g.b + [] == g.b;
        AfterMore(whole, data, g.b, Unpacked(OK, [], g.rest, g.cancels));
        AfterAll(whole, data + g.b, OK, g.rest, g.cancels);
      }
      used, overflow, crc := StoreGroup(p, decoded, count, limit, used, overflow, crc, data);
      data := data + g.b;
      if count < 4 {
        return;
      }
    }
  }

  /** The end of rx_pack7_data, behind the payload. */
  ghost function PackVerdict(r: RxMode, data: seq<bv8>, overflow: bool, input: Input, cancels: nat)
    : (Outcome, Input, nat)
  {
    var s := OmenNext(r, BARE, input, cancels);
    if s.symbol.Fail? then (Rejected(s.symbol.code), s.rest, s.cancels)
    else if s.symbol.End? || !InTerminators(s.symbol.b) then (Rejected(INVALID_DATA), s.rest, s.cancels)
    else
      var g := ReadGroup(r, 0, 0, s.rest, s.cancels);
      if g.code < OK then (Rejected(g.code), g.rest, g.cancels)
      else if |g.b| != 4 || Word32(g.b) != Check32(data, s.symbol.b) || overflow
        then (Rejected(INVALID_DATA), g.rest, g.cancels)
      else (Accepted(s.symbol.b), g.rest, g.cancels)
  }

  method RxPack7Verdict(z: Zmodem, crc: bv32, overflow: bool, cursor: Cursor, ghost data: seq<bv8>)
    returns (outcome: Outcome)
    requires z.Valid() && z.Holds(cursor) && crc == Crc.Fold32(0xffffffff, data)
    modifies z`script, z`inputCount, z`inputIndex, z`cancelCount, z.inputBuffer
    ensures z.Valid()
    ensures (outcome, z.Pending(), z.cancelCount)
         == PackVerdict(z.Mode(), data, overflow, old(z.Ahead(cursor)), cursor.cancels)
  {
    hide ReadGroup, OmenNext, Crc.Byte32, Crc.Fold32, Check32, Word32, InTerminators;
    var r := z.Mode();
    var c, after := RxOmenCursor(z, cursor);
    if c.Fail? {
      StoreRxCursor(z, after);
      return Rejected(c.code);
    }
    if c.End? || !InTerminators(c.b) {
      StoreRxCursor(z, after);
      return Rejected(INVALID_DATA);
    }
    var sum := FinishCheck(crc, c.b, data);
    var decoded := new bv8[4];
    var code, count;
    ghost var g := ReadGroup(r, 0, 0, z.Ahead(after), after.cancels);
    code, count, after := RxPack7Group(z, decoded, after);
    StoreRxCursor(z, after);
    if code != OK {
      return Rejected(code);
    }
    if count != 4 {
      return Rejected(INVALID_DATA);
    }
    assert decoded[..4] == g.b;
    if Word32(decoded[..4]) != sum {
      return Rejected(INVALID_DATA);
    }
    if overflow {
      return Rejected(INVALID_DATA);
    }
    outcome := Accepted(c.b);
  }

  /** rx_pack7_data */
  method RxPack7Data(z: Zmodem, p: array<bv8>, capacity: nat) returns (outcome: Outcome, l: nat)
    requires z.Valid() && capacity <= p.Length && p != z.inputBuffer
    modifies z`script, z`inputCount, z`inputIndex, z`cancelCount, z.inputBuffer, p
    ensures z.Valid() && l <= p.Length
    ensures Packet(outcome, p[..l], z.Pending(), z.cancelCount)
         == ReceivePack7(z.Mode(), capacity, old(z.Pending()), old(z.cancelCount))
    ensures var data := Unpack(z.Mode(), old(z.Pending()), old(z.cancelCount)).data;
            && p[..l] == Clip(data, Limit(capacity))
            && (|data| > Limit(capacity) ==> outcome.Rejected?) && (outcome.Accepted? ==> p[..l] == data)
  {
    PackAcceptedExactly(z.Mode(), capacity, z.Pending(), z.cancelCount);
    hide Unpack, ReadGroup, OmenNext, Crc.Fold32, Check32, Word32, InTerminators;
    var limit := if capacity < ZMAXSPLEN then capacity else ZMAXSPLEN;
    var cursor := LoadRxCursor(z);
    ghost var data := Unpack(z.Mode(), z.Pending(), z.cancelCount).data;
    var code, next, used, overflow, crc := RxGroups(z, p, limit, cursor);
    l := used;
    if code != OK {
      StoreRxCursor(z, next);
      return Rejected(code), l;
    }
    ghost var stored := p[..l];
    outcome := RxPack7Verdict(z, crc, overflow, next, data);
    assert p[..l] == stored;
  }
}
