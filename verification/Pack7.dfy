/** zmdm.c: Pack-7, groups of one to four bytes as base-88 numbers, and whole Pack-7 packets. */
module Pack7 {
  import opened Bytes
  import opened Quoting
  import opened Subpackets
  import opened Omen
  import Numbers
  import Crc

  const UINT32_MAX: nat := 0xffffffff
  const DIGIT_ZERO: bv8 := 0x22
  const DIGIT_LAST: bv8 := 0x79

  /** Ends the groups of a packet. */
  const GROUPS_END: bv8 := 0x21

  // ---------- Digits ----------

  predicate IsDigit(c: bv8) {
    DIGIT_ZERO <= c <= DIGIT_LAST
  }

  function DigitByte(d: nat): (c: bv8)
    requires d < 88
    ensures IsDigit(c)
  {
    DigitFits(d);
    (d + 0x22) as bv8
  }

  function DigitValue(c: bv8): (d: nat)
    requires IsDigit(c)
    ensures d < 88
  {
    DigitRange(c);
    (c as nat) - 0x22
  }

  lemma DigitFits(d: nat)
    requires d < 88
    ensures 0x22 <= (d + 0x22) as bv8 <= 0x79 && ((d + 0x22) as bv8) as nat == d + 0x22
  {
    Numbers.NatOfByte(d + 0x22);
  }

  lemma DigitRange(c: bv8)
    requires IsDigit(c)
    ensures 0x22 <= c as nat <= 0x79
  {
    Numbers.OrderOfBytes(DIGIT_ZERO, c);
    Numbers.OrderOfBytes(c, DIGIT_LAST);
  }

  lemma DigitRoundTrip(d: nat, c: bv8)
    ensures d < 88 ==> DigitValue(DigitByte(d)) == d
    ensures IsDigit(c) ==> DigitByte(DigitValue(c)) == c
  {
    if d < 88 {
      DigitFits(d);
    }
    if IsDigit(c) {
      DigitRange(c);
      Numbers.ByteOfNat(c);
    }
  }

  function Power(base: nat, n: nat): (p: nat)
    ensures base > 0 ==> p > 0
  {
    if n == 0 then 1 else Power(base, n - 1) * base
  }

  /** A digit string as a number, most significant digit first. */
  function Value88(w: seq<bv8>): nat
    requires forall i :: 0 <= i < |w| ==> IsDigit(w[i])
    decreases |w|
  {
    if w == [] then 0 else Value88(w[..|w| - 1]) * 88 + DigitValue(w[|w| - 1])
  }

  /** The n lowest digits of a number. */
  function Digits(value: nat, n: nat): (w: seq<bv8>)
    ensures |w| == n && forall i :: 0 <= i < |w| ==> IsDigit(w[i])
    decreases n
  {
    if n == 0 then [] else Digits(value / 88, n - 1) + [DigitByte(value % 88)]
  }

  /** Bytes as a number, most significant byte first. */
  function Value256(b: seq<bv8>): nat
    decreases |b|
  {
    if b == [] then 0 else Value256(b[..|b| - 1]) * 256 + b[|b| - 1] as nat
  }

  function LowByte(value: nat): bv8 {
    (value % 256) as bv8
  }

  /** The n lowest bytes of a number. */
  function Bytes256(value: nat, n: nat): (b: seq<bv8>)
    ensures |b| == n
    decreases n
  {
    if n == 0 then [] else Bytes256(value / 256, n - 1) + [LowByte(value)]
  }

  lemma {:induction false} ValueOfDigits(value: nat, n: nat)
    requires value < Power(88, n)
    ensures Value88(Digits(value, n)) == value
    decreases n
  {
    hide DigitByte, DigitValue;
    if n > 0 {
      var front := Digits(value / 88, n - 1);
      ValueOfDigits(value / 88, n - 1);
      DigitRoundTrip(value % 88, 0);
      assert (front + [DigitByte(value % 88)])[..n - 1] == front;
    }
  }

  lemma {:induction false} DigitsOfValue(w: seq<bv8>)
    requires forall i :: 0 <= i < |w| ==> IsDigit(w[i])
    ensures Value88(w) < Power(88, |w|) && Digits(Value88(w), |w|) == w
    decreases |w|
  {
    hide DigitByte, DigitValue;
    if w != [] {
      var front, c := w[..|w| - 1], w[|w| - 1];
      DigitsOfValue(front);
      DigitRoundTrip(0, c);
      DivideBack(Value88(front), DigitValue(c));
      assert w == front + [c];
    }
  }

  lemma {:induction false} ValueOfBytes(value: nat, n: nat)
    requires value < Power(256, n)
    ensures Value256(Bytes256(value, n)) == value
    decreases n
  {
    if n > 0 {
      var front := Bytes256(value / 256, n - 1);
      ValueOfBytes(value / 256, n - 1);
      Numbers.NatOfByte(value % 256);
      assert (front + [LowByte(value)])[..n - 1] == front;
    }
  }

  lemma {:induction false} BytesOfValue(b: seq<bv8>)
    ensures Value256(b) < Power(256, |b|) && Bytes256(Value256(b), |b|) == b
    decreases |b|
  {
    hide LowByte;
    if b != [] {
      var front, c := b[..|b| - 1], b[|b| - 1];
      BytesOfValue(front);
      Numbers.ByteOfNat(c);
      LowByteBack(Value256(front), c);
      assert b == front + [c];
    }
  }

  lemma DivideBack(q: nat, d: nat)
    ensures d < 88 ==> (q * 88 + d) / 88 == q && (q * 88 + d) % 88 == d
    ensures d < 256 ==> (q * 256 + d) / 256 == q && (q * 256 + d) % 256 == d
  {}

  lemma LowByteBack(q: nat, c: bv8)
    ensures LowByte(q * 256 + c as nat) == c && (q * 256 + c as nat) / 256 == q
  {
    Numbers.ByteOfNat(c);
    DivideBack(q, c as nat);
  }

  lemma PowersFit(n: nat)
    requires n <= 4
    ensures Power(256, n) <= Power(88, n + 1)
    ensures Power(256, n) <= 0x1_0000_0000 && Power(88, n) < 0x1_0000_0000
    ensures n > 0 ==> Power(256, n) == [1, 256, 0x1_0000, 0x100_0000, 0x1_0000_0000][n]
  {
    assert Power(256, 0) == 1 && Power(256, 1) == 256 && Power(256, 2) == 0x1_0000;
    assert Power(256, 3) == 0x100_0000 && Power(256, 4) == 0x1_0000_0000;
    assert Power(88, 0) == 1 && Power(88, 1) == 88 && Power(88, 2) == 7744 && Power(88, 3) == 681472;
    assert Power(88, 4) == 59969536 && Power(88, 5) == 5277319168;
  }

  // ---------- Groups ----------

  /** pack7_encode_group */
  function EncodeGroup(b: seq<bv8>): (w: seq<bv8>)
    ensures |w| == |b| + 1 && forall i :: 0 <= i < |w| ==> IsDigit(w[i])
  {
    Digits(Value256(b), |b| + 1)
  }

  /** The bytes of a completed digit string: none if it is a single digit, or too large a number. */
  datatype Completed = Complete(b: seq<bv8>) | Invalid

  function Complete(value: nat, digits: nat): (c: Completed)
    ensures c.Complete? ==> |c.b| == if digits == 0 then 0 else digits - 1
  {
    var n := if digits == 0 then 0 else digits - 1;
    if n < 4 && value >= Power(256, n) then Invalid else Completed.Complete(Bytes256(value, n))
  }

  /** A group off the line: the digits read, the bytes they stand for, or the code of what was wrong. */
  datatype Group = Group(code: int, digits: seq<bv8>, b: seq<bv8>, rest: Input, cancels: nat)

  function Finish(value: nat, digits: nat, rest: Input, cancels: nat): Group {
    match Complete(value, digits)
    case Complete(b) => Group(OK, [], b, rest, cancels)
    case Invalid => Group(INVALID_DATA, [], [], rest, cancels)
  }

  /** rx_pack7_group, with some digits read already. */
  function ReadGroup(r: RxMode, value: nat, digits: nat, input: Input, cancels: nat): (g: Group)
    requires digits < 5
    ensures g.code <= OK
    ensures g.code == OK ==> g.rest < input
    decreases input
  {
    var s := OmenNext(r, BARE, input, cancels);
    match s.symbol
    case Fail(code) => Group(code, [], [], s.rest, s.cancels)
    case End(_) => Group(INVALID_DATA, [], [], s.rest, s.cancels)
    case Byte(c) =>
      if c == GROUPS_END then
        if digits == 1 then Group(INVALID_DATA, [], [], s.rest, s.cancels)
        else Finish(value, digits, s.rest, s.cancels)
      else if !IsDigit(c) || value > (UINT32_MAX - DigitValue(c)) / 88 then
        Group(INVALID_DATA, [], [], s.rest, s.cancels)
      else
        var value' := value * 88 + DigitValue(c);
        var more := if digits + 1 == 5 then Finish(value', 5, s.rest, s.cancels)
                    else ReadGroup(r, value', digits + 1, s.rest, s.cancels);
        more.(digits := [c] + more.digits)
  }

  /** The check in front of each digit is exact: it refuses the digit just when 32 bits would not hold it. */
  lemma NeverWraps(value: nat, d: nat)
    requires d < 88
    ensures value <= (UINT32_MAX - d) / 88 <==> value * 88 + d <= UINT32_MAX
  {}

  /** ReadGroup behind a symbol read. */
  function AfterDigit(r: RxMode, value: nat, digits: nat, c: bv8, rest: Input, cancels: nat): (g: Group)
    requires digits < 5 && IsDigit(c)
  {
    var value' := value * 88 + DigitValue(c);
    var more := if digits + 1 == 5 then Finish(value', 5, rest, cancels)
      else ReadGroup(r, value', digits + 1, rest, cancels);
    more.(digits := [c] + more.digits)
  }

  lemma ReadGroupStep(r: RxMode, value: nat, digits: nat, input: Input, cancels: nat)
    requires digits < 5
    ensures var s := OmenNext(r, BARE, input, cancels);
            var g := ReadGroup(r, value, digits, input, cancels);
            g.code == OK ==>
              && s.symbol.Byte?
              && (s.symbol.b == GROUPS_END ==> digits != 1 && g == Finish(value, digits, s.rest, s.cancels))
              && (s.symbol.b != GROUPS_END ==>
                    && IsDigit(s.symbol.b) && value <= (UINT32_MAX - DigitValue(s.symbol.b)) / 88
                    && g == AfterDigit(r, value, digits, s.symbol.b, s.rest, s.cancels))
  {
    hide OmenNext, IsDigit, DigitValue, Finish;
  }

  /** Every digit string that is accepted is exactly the encoding of what it is read as, and no sooner
      ended: so no two digit strings are read as the same bytes. */
  lemma {:induction false} AcceptedGroup(r: RxMode, before: seq<bv8>, input: Input, cancels: nat)
    requires |before| < 5 && forall i :: 0 <= i < |before| ==> IsDigit(before[i])
    requires Value88(before) <= UINT32_MAX
    ensures var g := ReadGroup(r, Value88(before), |before|, input, cancels);
            g.code == OK ==>
              && |g.b| <= 4
              && before + g.digits == (if g.b == [] then [] else EncodeGroup(g.b))
    decreases input
  {
    hide DigitByte, DigitValue, OmenNext, Value256, Bytes256, Power, Digits, Value88, Complete, EncodeGroup, IsDigit,
      ReadGroup;
    var s := OmenNext(r, BARE, input, cancels);
    ReadGroupStep(r, Value88(before), |before|, input, cancels);
    if ReadGroup(r, Value88(before), |before|, input, cancels).code == OK {
      var c := s.symbol.b;
      if c == GROUPS_END {
        CompletedGroup(before);
        assert before + [] == before;
      } else {
        NeverWraps(Value88(before), DigitValue(c));
        ValueMore(before, c);
        var more := before + [c];
        if |more| == 5 {
          CompletedGroup(more);
          assert before + ([c] + []) == more;
        } else {
          AcceptedGroup(r, more, s.rest, s.cancels);
          var tail := ReadGroup(r, Value88(more), |more|, s.rest, s.cancels).digits;
          assert before + ([c] + tail) == more + tail;
        }
      }
    }
  }

  lemma ValueMore(before: seq<bv8>, c: bv8)
    requires IsDigit(c) && forall i :: 0 <= i < |before| ==> IsDigit(before[i])
    ensures Value88(before + [c]) == Value88(before) * 88 + DigitValue(c)
  {
    hide DigitValue;
    assert (before + [c])[..|before|] == before;
  }

  lemma CompletedGroup(w: seq<bv8>)
    requires |w| <= 5 && |w| != 1 && forall i :: 0 <= i < |w| ==> IsDigit(w[i])
    requires Value88(w) <= UINT32_MAX
    ensures var c := Complete(Value88(w), |w|);
            c.Complete? ==> |c.b| <= 4 && w == if c.b == [] then [] else EncodeGroup(c.b)
  {
    hide DigitByte, DigitValue, Value256, Bytes256, Power, Digits, Value88;
    if |w| > 0 {
      var n := |w| - 1;
      PowersFit(n);
      DigitsOfValue(w);
      if Value88(w) < Power(256, n) {
        ValueOfBytes(Value88(w), n);
      }
    }
  }

  /** Reading back: the encoding of one to four bytes is their value, and completes to them. */
  lemma EncodedGroup(b: seq<bv8>)
    requires 1 <= |b| <= 4
    ensures Value88(EncodeGroup(b)) == Value256(b) <= UINT32_MAX
    ensures Complete(Value256(b), |b| + 1) == Completed.Complete(b)
  {
    hide DigitByte, DigitValue, Value256, Bytes256, Power, Digits, Value88;
    BytesOfValue(b);
    PowersFit(|b|);
    ValueOfDigits(Value256(b), |b| + 1);
  }

  // ---------- Packets ----------

  function GroupSize(data: seq<bv8>): nat {
    if |data| < 4 then |data| else 4
  }

  function Groups(data: seq<bv8>): seq<bv8>
    decreases |data|
  {
    if data == [] then []
    else EncodeGroup(data[..GroupSize(data)]) + Groups(data[GroupSize(data)..])
  }

  /** Everything of a Pack-7 packet but the trailing XON. */
  function PackBody(data: seq<bv8>, t: bv8): seq<bv8> {
    Groups(data) + [GROUPS_END] + [t] + EncodeGroup(Bytes32(Check32(data, t)))
  }

  function PackWire(data: seq<bv8>, t: bv8): seq<bv8> {
    PackBody(data, t) + Trailer(t)
  }

  /** Groups up to the first that is not full. */
  datatype Unpacked = Unpacked(code: int, data: seq<bv8>, rest: Input, cancels: nat)

  function Unpack(r: RxMode, input: Input, cancels: nat): (u: Unpacked)
    ensures u.code <= OK
    decreases input
  {
    var g := ReadGroup(r, 0, 0, input, cancels);
    if g.code < OK then Unpacked(g.code, [], g.rest, g.cancels)
    else if |g.b| < 4 then Unpacked(OK, g.b, g.rest, g.cancels)
    else
      var more := Unpack(r, g.rest, g.cancels);
      more.(data := g.b + more.data)
  }

  predicate InTerminators(c: bv8) {
    ZCRCE <= c <= ZCRCW
  }

  /** rx_pack7_data: the frame check covers the payload, and comes as one group. */
  function ReceivePack7(r: RxMode, capacity: nat, input: Input, cancels: nat): Packet {
    var u := Unpack(r, input, cancels);
    var stored := Clip(u.data, Limit(capacity));
    if u.code < OK then Packet(Rejected(u.code), stored, u.rest, u.cancels)
    else
      var s := OmenNext(r, BARE, u.rest, u.cancels);
      if s.symbol.Fail? then Packet(Rejected(s.symbol.code), stored, s.rest, s.cancels)
      else if s.symbol.End? || !InTerminators(s.symbol.b) then Packet(Rejected(INVALID_DATA), stored, s.rest, s.cancels)
      else
        var t := s.symbol.b;
        var g := ReadGroup(r, 0, 0, s.rest, s.cancels);
        if g.code < OK then Packet(Rejected(g.code), stored, g.rest, g.cancels)
        else if |g.b| != 4 || Word32(g.b) != Check32(u.data, t) || |u.data| > Limit(capacity) then
          Packet(Rejected(INVALID_DATA), stored, g.rest, g.cancels)
        else Packet(Accepted(t), stored, g.rest, g.cancels)
  }

  lemma TerminatorsAreARange(t: bv8)
    ensures InTerminators(t) <==> IsTerminator(t)
  {}

  /** Printable bytes stand for themselves on the seven-bit line. */
  lemma PrintableDecodes(r: RxMode, c: bv8, w: seq<bv8>)
    requires 0x21 <= c <= 0x79
    ensures Decode(r, BARE, [c] + w) == Got(Byte(c), w)
  {
    hide Decode, React;
    PrintableReaction(r, c);
    DecodeFirst(r, BARE, [c] + w);
    assert ([c] + w)[1..] == w;
  }

  lemma PrintableReaction(r: RxMode, c: bv8)
    requires 0x21 <= c <= 0x79
    ensures React(r, BARE, c) == Emit(Byte(c))
  {}

  /** One printable byte off a noisy line. */
  lemma NextPrintable(r: RxMode, c: bv8, w: seq<bv8>, v: seq<bv8>, rest: Input, cancels: nat)
    returns (v1: seq<bv8>, v2: seq<bv8>)
    requires !r.moby && cancels < 4 && 0x21 <= c <= 0x79 && Strip(v) == [c] + w
    ensures Splits(v, v1, v2) && Strip(v2) == w
    ensures OmenNext(r, BARE, Feed(v, rest), cancels) == Scan(Byte(c), Feed(v2, rest), 0)
  {
    hide OmenNext, Decode, Splits, Strip;
    PrintableDecodes(r, c, w);
    v1, v2 := Denoise(r, BARE, v, rest, cancels);
  }

  lemma DigitIsPrintable(c: bv8)
    requires IsDigit(c)
    ensures 0x21 <= c <= 0x79 && c != GROUPS_END
  {}

  function EndMark(b: seq<bv8>): seq<bv8> {
    if |b| < 4 then [GROUPS_END] else []
  }

  /** A digit off a noisy line that leaves the value within 32 bits. */
  lemma DigitOffLine(r: RxMode, value: nat, digits: nat, c: bv8, w: seq<bv8>, v: seq<bv8>, rest: Input, cancels: nat)
    returns (v1: seq<bv8>, v2: seq<bv8>)
    requires !r.moby && cancels < 4 && digits < 5 && IsDigit(c) && Strip(v) == [c] + w
    requires value * 88 + DigitValue(c) <= UINT32_MAX
    ensures Splits(v, v1, v2) && Strip(v2) == w
    ensures ReadGroup(r, value, digits, Feed(v, rest), cancels) == AfterDigit(r, value, digits, c, Feed(v2, rest), 0)
  {
    hide DigitValue, OmenNext, IsDigit, Splits, Strip, Finish;
    DigitIsPrintable(c);
    v1, v2 := NextPrintable(r, c, w, v, rest, cancels);
    NeverWraps(value, DigitValue(c));
  }

  /** The mark that ends a group of fewer than four bytes. */
  lemma MarkOffLine(r: RxMode, value: nat, digits: nat, w: seq<bv8>, v: seq<bv8>, rest: Input, cancels: nat)
    returns (v1: seq<bv8>, v2: seq<bv8>)
    requires !r.moby && cancels < 4 && digits < 5 && digits != 1 && Strip(v) == [GROUPS_END] + w
    ensures Splits(v, v1, v2) && Strip(v2) == w
    ensures ReadGroup(r, value, digits, Feed(v, rest), cancels) == Finish(value, digits, Feed(v2, rest), 0)
  {
    hide OmenNext, Splits, Strip, Finish;
    v1, v2 := NextPrintable(r, GROUPS_END, w, v, rest, cancels);
  }

  lemma FinishEncoded(b: seq<bv8>, rest: Input)
    requires 1 <= |b| <= 4
    ensures Finish(Value256(b), |b| + 1, rest, 0) == Group(OK, [], b, rest, 0)
    ensures Value88(EncodeGroup(b)) == Value256(b)
  {
    hide Value256, Value88, Complete, EncodeGroup;
    EncodedGroup(b);
  }

  lemma SplitAt(all: seq<bv8>, k: nat, mark: seq<bv8>, w: seq<bv8>)
    requires k < |all|
    ensures all[k..] == [all[k]] + all[k + 1..] && all[..k] + [all[k]] == all[..k + 1]
    ensures all[k..] + mark + w == [all[k]] + (all[k + 1..] + mark + w)
  {}

  /** The rest of an encoded group off a noisy line: some digits have been read already. */
  lemma {:induction false} GroupOffLine(r: RxMode, b: seq<bv8>, k: nat, w: seq<bv8>, v: seq<bv8>, rest: Input,
                                        cancels: nat)
    returns (v1: seq<bv8>, v2: seq<bv8>)
    requires !r.moby && cancels < 4 && 1 <= |b| <= 4 && k < 5 && k <= |b| + 1
    requires Strip(v) == EncodeGroup(b)[k..] + EndMark(b) + w
    ensures Splits(v, v1, v2) && Strip(v2) == w
    ensures ReadGroup(r, Value88(EncodeGroup(b)[..k]), k, Feed(v, rest), cancels)
         == Group(OK, EncodeGroup(b)[k..], b, Feed(v2, rest), 0)
    decreases |b| + 1 - k
  {
    hide DigitValue, Value256, Value88, Finish, IsDigit, Splits, Strip, EncodeGroup, ReadGroup;
    var all := EncodeGroup(b);
    assert all[..|b| + 1] == all && all[|b| + 1..] == [];
    if k == |b| + 1 {
      assert all[k..] + EndMark(b) + w == [GROUPS_END] + w;
      v1, v2 := MarkOffLine(r, Value88(all), k, w, v, rest, cancels);
      FinishEncoded(b, Feed(v2, rest));
    } else {
      var c := all[k];
      var tail := all[k + 1..] + EndMark(b) + w;
      SplitAt(all, k, EndMark(b), w);
      ValueMore(all[..k], c);
      PrefixFits(b, k + 1);
      v1, v2 := DigitOffLine(r, Value88(all[..k]), k, c, tail, v, rest, cancels);
      if k + 1 == 5 {
        assert tail == w;
        FinishEncoded(b, Feed(v2, rest));
      } else {
        var v3, v4 := GroupOffLine(r, b, k + 1, w, v2, rest, 0);
        SplitsTwice(v, v1, v2, v3, v4);
        v1, v2 := v1 + v3, v4;
      }
    }
  }

  /** The accumulator of a valid encoding never exceeds its final value. */
  lemma {:induction false} PrefixFits(b: seq<bv8>, k: nat)
    requires 1 <= |b| <= 4 && k <= |b| + 1
    ensures Value88(EncodeGroup(b)[..k]) <= UINT32_MAX
    decreases |b| + 1 - k
  {
    hide DigitByte, DigitValue, Digits, Value88, EncodeGroup;
    var all := EncodeGroup(b);
    EncodedGroup(b);
    if k == |b| + 1 {
      assert all[..k] == all;
    } else {
      PrefixFits(b, k + 1);
      ValueMore(all[..k], all[k]);
      assert all[..k] + [all[k]] == all[..k + 1];
    }
  }

  /** A whole group off a noisy line. */
  lemma WholeGroup(r: RxMode, b: seq<bv8>, w: seq<bv8>, v: seq<bv8>, rest: Input, cancels: nat)
    returns (v1: seq<bv8>, v2: seq<bv8>)
    requires !r.moby && cancels < 4 && 1 <= |b| <= 4
    requires Strip(v) == EncodeGroup(b) + EndMark(b) + w
    ensures Splits(v, v1, v2) && Strip(v2) == w
    ensures ReadGroup(r, 0, 0, Feed(v, rest), cancels) == Group(OK, EncodeGroup(b), b, Feed(v2, rest), 0)
  {
    hide EncodeGroup, ReadGroup, Splits, Strip;
    var all := EncodeGroup(b);
    assert all[0..] == all && all[..0] == [];
    assert Value88([]) == 0;
    v1, v2 := GroupOffLine(r, b, 0, w, v, rest, cancels);
  }

  /** The mark alone is the empty group that ends a payload of full groups. */
  lemma EmptyGroup(r: RxMode, w: seq<bv8>, v: seq<bv8>, rest: Input, cancels: nat)
    returns (v1: seq<bv8>, v2: seq<bv8>)
    requires !r.moby && cancels < 4 && Strip(v) == [GROUPS_END] + w
    ensures Splits(v, v1, v2) && Strip(v2) == w
    ensures ReadGroup(r, 0, 0, Feed(v, rest), cancels) == Group(OK, [], [], Feed(v2, rest), 0)
  {
    hide OmenNext, Splits, Strip;
    v1, v2 := NextPrintable(r, GROUPS_END, w, v, rest, cancels);
  }

  /** The payload off a noisy line, for every length modulo four. */
  lemma {:induction false} UnpackGroups(r: RxMode, data: seq<bv8>, w: seq<bv8>, v: seq<bv8>, rest: Input, cancels: nat)
    returns (v1: seq<bv8>, v2: seq<bv8>)
    requires !r.moby && cancels < 4 && Strip(v) == Groups(data) + [GROUPS_END] + w
    ensures Splits(v, v1, v2) && Strip(v2) == w
    ensures Unpack(r, Feed(v, rest), cancels) == Unpacked(OK, data, Feed(v2, rest), 0)
    decreases |data|
  {
    hide EncodeGroup, ReadGroup, Splits, Strip;
    if data == [] {
      assert Groups(data) + [GROUPS_END] + w == [GROUPS_END] + w;
      v1, v2 := EmptyGroup(r, w, v, rest, cancels);
    } else if |data| < 4 {
      assert data[..|data|] == data && Groups([]) == [];
      assert Groups(data) == EncodeGroup(data);
      v1, v2 := WholeGroup(r, data, w, v, rest, cancels);
    } else {
      var b, left := data[..4], data[4..];
      var tail := Groups(left) + [GROUPS_END] + w;
      assert Groups(data) + [GROUPS_END] + w == EncodeGroup(b) + [] + tail;
      v1, v2 := WholeGroup(r, b, tail, v, rest, cancels);
      var v3, v4 := UnpackGroups(r, left, w, v2, rest, 0);
      SplitsTwice(v, v1, v2, v3, v4);
      v1, v2 := v1 + v3, v4;
      assert b + left == data;
    }
  }

  lemma DigitsClean(w: seq<bv8>)
    requires forall i :: 0 <= i < |w| ==> 0x21 <= w[i] <= 0x79
    ensures Clean(w) && CancelSafe(w)
  {
    forall i | 0 <= i < |w|
      ensures w[i] < 0x80 && !IsFlowControl(w[i]) && w[i] != CAN
    {
      PrintableIsClean(w[i]);
    }
  }

  lemma PrintableIsClean(c: bv8)
    requires 0x21 <= c <= 0x79
    ensures c < 0x80 && !IsFlowControl(c) && c != CAN
  {}

  ghost predicate Printable(w: seq<bv8>) {
    forall i :: 0 <= i < |w| ==> 0x21 <= w[i] <= 0x79
  }

  lemma DigitsPrintable(b: seq<bv8>)
    ensures Printable(EncodeGroup(b))
  {
    hide IsDigit;
    var w := EncodeGroup(b);
    forall i | 0 <= i < |w|
      ensures 0x21 <= w[i] <= 0x79
    {
      DigitIsPrintable(w[i]);
    }
  }

  lemma {:induction false} GroupsPrintable(data: seq<bv8>)
    ensures Printable(Groups(data))
    decreases |data|
  {
    hide EncodeGroup;
    if data != [] {
      DigitsPrintable(data[..GroupSize(data)]);
      GroupsPrintable(data[GroupSize(data)..]);
    }
  }

  /** The whole packet but its XON is printable: no control byte, nothing above 0x79. */
  lemma PackBodyPrintable(data: seq<bv8>, t: bv8)
    requires IsTerminator(t)
    ensures Printable(PackBody(data, t))
    ensures Strip(PackBody(data, t)) == PackBody(data, t) && Strip(PackWire(data, t)) == PackBody(data, t)
    ensures CancelSafe(PackWire(data, t)) && FlowTail(PackWire(data, t)) == Trailer(t)
  {
    hide EncodeGroup, Groups, Check32, FlowTail, Strip, IsFlowControl, Trailer;
    var body := PackBody(data, t);
    GroupsPrintable(data);
    DigitsPrintable(Bytes32(Check32(data, t)));
    assert 0x21 <= t <= 0x79;
    DigitsClean(body);
    StripClean(body);
    StripConcat(body, Trailer(t));
    StripOfTrailer(t);
    assert body + [] == body;
    CancelSafeConcat(body, Trailer(t));
    LastOfClean(body);
    FlowTailOfSplit(body, Trailer(t));
  }

  lemma LastOfClean(w: seq<bv8>)
    requires Clean(w) && w != []
    ensures !IsFlowControl(w[|w| - 1] & 0x7f)
  {
    assert w[|w| - 1] & 0x7f == w[|w| - 1] by { assert w[|w| - 1] < 0x80; }
  }

  lemma StripOfTrailer(t: bv8)
    ensures Strip(Trailer(t)) == [] && CancelSafe(Trailer(t))
  {}

  /** A Pack-7 packet comes back whole, for every length of the payload, even if the line sets or clears
      bit 7 of any byte and inserts XON and XOFF anywhere. */
  lemma PackRoundTrip(r: RxMode, data: seq<bv8>, t: bv8, capacity: nat, v: seq<bv8>, rest: Input, cancels: nat)
    requires !r.moby && cancels < 4 && IsTerminator(t) && |data| <= Limit(capacity)
    requires Strip(v) == Strip(PackWire(data, t))
    ensures ReceivePack7(r, capacity, Feed(v, rest), cancels) == Packet(Accepted(t), data, Feed(FlowTail(v), rest), 0)
  {
    hide EncodeGroup, Groups, Check32, FlowTail, Strip, ReadGroup, Unpack, Splits, OmenNext, Bytes32, Word32;
    var check := Bytes32(Check32(data, t));
    PackBodyPrintable(data, t);
    assert PackBody(data, t) == Groups(data) + [GROUPS_END] + ([t] + EncodeGroup(check));
    var v1, v2 := UnpackGroups(r, data, [t] + EncodeGroup(check), v, rest, cancels);
    TerminatorsAreARange(t);
    var v3, v4 := NextPrintable(r, t, EncodeGroup(check), v2, rest, 0);
    assert EncodeGroup(check) == EncodeGroup(check) + [] + [];
    var v5, v6 := WholeGroup(r, check, [], v4, rest, 0);
    SplitsTwice(v, v1, v2, v3, v4);
    SplitsTwice(v, v1 + v3, v4, v5, v6);
    TailOfSplit(v, v1 + v3 + v5, v6);
    WordOfBytes32(Check32(data, t));
  }

  /** Whatever arrives: the buffer holds the first bytes of the decoded payload, and a packet that is
      accepted carried a terminator and the check of all of the payload, which fitted. */
  lemma PackAcceptedExactly(r: RxMode, capacity: nat, input: Input, cancels: nat)
    ensures var p := ReceivePack7(r, capacity, input, cancels);
            var u := Unpack(r, input, cancels);
            var s := OmenNext(r, BARE, u.rest, u.cancels);
            && p.payload == Clip(u.data, Limit(capacity))
            && (p.outcome.Accepted? <==>
                  && u.code == OK && |u.data| <= Limit(capacity) && s.symbol.Byte? && IsTerminator(s.symbol.b)
                  && var g := ReadGroup(r, 0, 0, s.rest, s.cancels);
                     g.code == OK && |g.b| == 4 && Word32(g.b) == Check32(u.data, s.symbol.b))
            && (p.outcome.Accepted? ==> p.payload == u.data && p.outcome.t == s.symbol.b)
  {
    hide Unpack, OmenNext, ReadGroup, Word32, Check32, InTerminators, IsTerminator;
    var u := Unpack(r, input, cancels);
    var s := OmenNext(r, BARE, u.rest, u.cancels);
    if s.symbol.Byte? {
      TerminatorsAreARange(s.symbol.b);
    }
  }

  lemma TailOfSplit(v: seq<bv8>, v1: seq<bv8>, v2: seq<bv8>)
    requires Splits(v, v1, v2) && Strip(v2) == []
    ensures FlowTail(v) == v2
  {
    FlowTailOfSplit(v1, v2);
  }

  /** Five wire bytes for four, and a partial group one more than its bytes: never over the wire buffer. */
  lemma {:induction false} GroupsLength(data: seq<bv8>)
    ensures |Groups(data)| == |data| + (|data| + 3) / 4
    decreases |data|
  {
    hide EncodeGroup;
    if data != [] {
      GroupsLength(data[GroupSize(data)..]);
    }
  }

  lemma PackLength(data: seq<bv8>, t: bv8)
    requires |data| <= ZMAXSPLEN
    ensures |PackWire(data, t)| <= 10248 < WIRE_CAPACITY
  {
    hide EncodeGroup, Groups;
    GroupsLength(data);
  }
}
