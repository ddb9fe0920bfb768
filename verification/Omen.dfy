/** zmdm.c: Omen's seven-bit quoting, as functions on bytes, and why a seven-bit line cannot hurt it. */
module Omen {
  import opened Bytes
  import opened Quoting

  // ---------- Encoding ----------

  /** The private ZDLE code of a byte that needs one, or 0. */
  function PrivateCode(escctl: bool, c: bv8): bv8 {
    if c == SO then 0x6e
    else if c == 0x10 then 0x50
    else if c == XON then 0x51
    else if c == XOFF then 0x53
    else if c == ZDLE then ZDLEE
    else if c == 0x80 then 0x73
    else if c == 0x8e then 0x6f
    else if c == 0x90 then 0x70
    else if c == 0x91 then 0x71
    else if c == 0x93 then 0x72
    else if c == 0x98 then 0x74
    else if c == 0xff then ZRUB1
    else if c == 0x7f && escctl then ZRUB0
    else 0
  }

  /** omen_encode_byte */
  function OmenByte(escctl: bool, c: bv8): (w: seq<bv8>)
    ensures 1 <= |w| <= 3
  {
    var low := c & 0x7f;
    var code := PrivateCode(escctl, c);
    if code != 0 then [ZDLE, code]
    else if c & 0x80 != 0 then
      if escctl && low < 0x20 then [SO, ZDLE, low ^ 0x40] else [SO, low]
    else if escctl && low < 0x20 then [ZDLE, low ^ 0x40]
    else [low]
  }

  function OmenBytes(escctl: bool, symbols: seq<bv8>): seq<bv8>
    decreases symbols
  {
    if symbols == [] then [] else OmenByte(escctl, symbols[0]) + OmenBytes(escctl, symbols[1..])
  }

  lemma {:induction false} OmenConcat(escctl: bool, a: seq<bv8>, b: seq<bv8>)
    ensures OmenBytes(escctl, a + b) == OmenBytes(escctl, a) + OmenBytes(escctl, b)
    decreases a
  {
    hide OmenByte;
    if a == [] {
      assert a + b == b;
    } else {
      assert (a + b)[1..] == a[1..] + b;
      OmenConcat(escctl, a[1..], b);
    }
  }

  lemma OmenOne(escctl: bool, c: bv8)
    ensures OmenBytes(escctl, [c]) == OmenByte(escctl, c)
  {
    hide OmenByte;
    assert OmenBytes(escctl, []) == [];
  }

  // ---------- Decoding ----------

  /** Where the decoder stands: whether SO has been seen, and whether a ZDLE is open. */
  datatype Posture = Posture(high: bool, quoted: bool)

  const BARE := Posture(false, false)

  /** What one seven-bit byte does to the decoder. */
  datatype Reaction = Stay(p: Posture) | Emit(symbol: Symbol) | Bad

  function High(p: Posture, c: bv8): bv8 {
    if p.high then c | 0x80 else c
  }

  function React(r: RxMode, p: Posture, c: bv8): Reaction {
    if IsFlowControl(c) then Stay(p)
    else if !p.quoted then
      if c == SO then Stay(Posture(true, false))
      else if c == ZDLE then Stay(p.(quoted := true))
      else if IsUnescapedControl(r, c) then Stay(p)
      else Emit(Byte(High(p, c)))
    else if IsTerminator(c) then Emit(End(c))
    else if c == ZRUB0 then Emit(Byte(High(p, 0x7f)))
    else if c == ZRUB1 then Emit(Byte(0xff))
    else if c == 0x6e then Emit(Byte(High(p, 0x0e)))
    else if c == 0x6f then Emit(Byte(0x8e))
    else if c == 0x70 then Emit(Byte(0x90))
    else if c == 0x71 then Emit(Byte(0x91))
    else if c == 0x72 then Emit(Byte(0x93))
    else if c == 0x73 then Emit(Byte(0x80))
    else if c == 0x74 then Emit(Byte(0x98))
    else if c & 0x60 == 0x40 then Emit(Byte(High(p, c ^ 0x40)))
    else Bad
  }

  /** rx_omen_cursor: bit 7 of every wire byte is discarded, and flow control is skipped. */
  function OmenNext(r: RxMode, p: Posture, input: Input, cancels: nat): (s: Scan)
    ensures !s.symbol.Fail? ==> s.rest < input
    decreases input
  {
    var raw := Raw(r, input, cancels);
    if raw.symbol.Fail? then raw
    else match React(r, p, raw.symbol.b & 0x7f)
      case Stay(p') => OmenNext(r, p', raw.rest, raw.cancels)
      case Emit(symbol) => Scan(symbol, raw.rest, raw.cancels)
      case Bad => Scan(Fail(INVALID_DATA), raw.rest, raw.cancels)
  }

  // ---------- The line ----------

  /** What survives of wire bytes: seven bits of everything that is not flow control. */
  function Strip(v: seq<bv8>): seq<bv8>
    decreases v
  {
    if v == [] then []
    else if IsFlowControl(v[0] & 0x7f) then Strip(v[1..])
    else [v[0] & 0x7f] + Strip(v[1..])
  }

  /** The flow control at the very end. */
  function FlowTail(v: seq<bv8>): seq<bv8>
    decreases v
  {
    if Strip(v) == [] then v else FlowTail(v[1..])
  }

  /** The decoder on a line without noise. */
  datatype CleanScan = Got(symbol: Symbol, rest: seq<bv8>) | Starved | Broken

  function Decode(r: RxMode, p: Posture, w: seq<bv8>): CleanScan
    decreases w
  {
    if w == [] then Starved
    else match React(r, p, w[0])
      case Stay(p') => Decode(r, p', w[1..])
      case Emit(symbol) => Got(symbol, w[1..])
      case Bad => Broken
  }

  lemma ReactToFlow(r: RxMode, p: Posture, c: bv8)
    requires IsFlowControl(c & 0x7f)
    ensures React(r, p, c & 0x7f) == Stay(p) && c != CAN
  {}

  lemma ReactToCan(r: RxMode, p: Posture)
    ensures React(r, p, CAN & 0x7f) == if p.quoted then Bad else Stay(p.(quoted := true))
  {}

  /** A wire split behind a byte that is not flow control. */
  ghost predicate Splits(v: seq<bv8>, v1: seq<bv8>, v2: seq<bv8>) {
    v == v1 + v2 && v1 != [] && !IsFlowControl(v1[|v1| - 1] & 0x7f)
  }

  lemma SplitsBefore(c: bv8, v: seq<bv8>, v1: seq<bv8>, v2: seq<bv8>)
    requires v != [] && v[0] == c && Splits(v[1..], v1, v2)
    ensures Splits(v, [c] + v1, v2)
  {
    assert v == [c] + v[1..];
    assert ([c] + v1)[|[c] + v1| - 1] == v1[|v1| - 1];
  }

  lemma OmenNextOctet(r: RxMode, p: Posture, b: bv8, rest: Input, cancels: nat)
    requires !r.moby && !(b == CAN && cancels == 4)
    ensures var k := if b == CAN then cancels + 1 else 0;
            OmenNext(r, p, Octet(b, rest), cancels) ==
            match React(r, p, b & 0x7f)
            case Stay(p') => OmenNext(r, p', rest, k)
            case Emit(symbol) => Scan(symbol, rest, k)
            case Bad => Scan(Fail(INVALID_DATA), rest, k)
  {
    hide React;
  }

  lemma DecodeFirst(r: RxMode, p: Posture, w: seq<bv8>)
    requires w != []
    ensures Decode(r, p, w) ==
            match React(r, p, w[0])
            case Stay(p') => Decode(r, p', w[1..])
            case Emit(symbol) => Got(symbol, w[1..])
            case Bad => Broken
  {
    hide React;
  }

  /** A byte that leaves the decoder waiting: flow control, or the first byte of a longer form. */
  lemma WaitingByte(r: RxMode, p: Posture, p': Posture, b: bv8, v: seq<bv8>, rest: Input, cancels: nat)
    requires !r.moby && cancels < (if p.quoted then 5 else 4)
    requires React(r, p, b & 0x7f) == Stay(p')
    ensures var k := if b == CAN then cancels + 1 else 0;
            && k < (if p'.quoted then 5 else 4)
            && OmenNext(r, p, Octet(b, Feed(v, rest)), cancels) == OmenNext(r, p', Feed(v, rest), k)
            && Decode(r, p, Strip([b] + v)) == Decode(r, p', Strip(v))
  {
    hide React, IsFlowControl, OmenNext, Decode;
    var c := b & 0x7f;
    FlowIsNotCan(b);
    ReactToCan(r, p);
    OmenNextOctet(r, p, b, Feed(v, rest), cancels);
    assert ([b] + v)[1..] == v;
    if IsFlowControl(c) {
      ReactToFlow(r, p, b);
    } else {
      StayKeeps(r, p, c);
      var w := Strip([b] + v);
      assert w[0] == c && w[1..] == Strip(v);
      DecodeFirst(r, p, w);
    }
  }

  lemma FinalByte(r: RxMode, p: Posture, b: bv8, v: seq<bv8>, rest: Input, cancels: nat)
    requires !r.moby && React(r, p, b & 0x7f).Emit?
    ensures var symbol := React(r, p, b & 0x7f).symbol;
            && !IsFlowControl(b & 0x7f)
            && OmenNext(r, p, Octet(b, Feed(v, rest)), cancels) == Scan(symbol, Feed(v, rest), 0)
            && Decode(r, p, Strip([b] + v)) == Got(symbol, Strip(v))
  {
    hide React, OmenNext, Decode;
    var c := b & 0x7f;
    EmitIsNotCan(r, p, c);
    FlowIsNotCan(b);
    assert !IsFlowControl(c) by {
      if IsFlowControl(c) {
        ReactToFlow(r, p, b);
      }
    }
    OmenNextOctet(r, p, b, Feed(v, rest), cancels);
    assert ([b] + v)[1..] == v;
    var w := Strip([b] + v);
    assert w[0] == c && w[1..] == Strip(v);
    DecodeFirst(r, p, w);
  }

  lemma BadByte(r: RxMode, p: Posture, b: bv8, v: seq<bv8>)
    requires React(r, p, b & 0x7f).Bad?
    ensures Decode(r, p, Strip([b] + v)) == Broken
  {
    hide React, Decode;
    if IsFlowControl(b & 0x7f) {
      ReactToFlow(r, p, b);
    }
    assert ([b] + v)[1..] == v;
    DecodeFirst(r, p, Strip([b] + v));
  }

  /** Whatever parity the bytes have and wherever flow control was inserted, the decoder gives what it
      gives on the clean line, and leaves what the clean line leaves. */
  lemma {:induction false} Denoise(r: RxMode, p: Posture, v: seq<bv8>, rest: Input, cancels: nat)
    returns (v1: seq<bv8>, v2: seq<bv8>)
    requires !r.moby && cancels < (if p.quoted then 5 else 4)
    requires Decode(r, p, Strip(v)).Got?
    ensures Splits(v, v1, v2)
    ensures var got := Decode(r, p, Strip(v));
            OmenNext(r, p, Feed(v, rest), cancels) == Scan(got.symbol, Feed(v2, rest), 0) && Strip(v2) == got.rest
    decreases v
  {
    hide React, IsFlowControl, OmenNext, Decode, Strip;
    StarvedOnNothing(r, p);
    var b := v[0];
    assert v == [b] + v[1..];
    match React(r, p, b & 0x7f) {
      case Stay(p') =>
        WaitingByte(r, p, p', b, v[1..], rest, cancels);
        v1, v2 := Denoise(r, p', v[1..], rest, if b == CAN then cancels + 1 else 0);
        SplitsBefore(b, v, v1, v2);
        v1 := [b] + v1;
      case Emit(symbol) =>
        FinalByte(r, p, b, v[1..], rest, cancels);
        v1, v2 := [b], v[1..];
      case Bad =>
        BadByte(r, p, b, v[1..]);
    }
  }

  lemma StarvedOnNothing(r: RxMode, p: Posture)
    ensures Decode(r, p, []) == Starved && Strip([]) == []
  {}

  lemma FlowIsNotCan(c: bv8)
    ensures IsFlowControl(c & 0x7f) ==> c != CAN
    ensures c == CAN ==> c & 0x7f == CAN
  {}

  lemma EmitIsNotCan(r: RxMode, p: Posture, c: bv8)
    requires React(r, p, c).Emit?
    ensures c != CAN
  {}

  /** Only a ZDLE opens a quoted pair, and once open it stays open. */
  lemma StayKeeps(r: RxMode, p: Posture, c: bv8)
    requires React(r, p, c).Stay? && !IsFlowControl(c)
    ensures !p.quoted && (React(r, p, c).p.quoted <==> c == CAN)
  {}

  // ---------- Quoting is undone ----------

  /** Every byte comes back from its seven-bit form. */
  lemma OmenByteDecodes(escctl: bool, r: RxMode, c: bv8, w: seq<bv8>)
    requires r.escctl ==> escctl
    ensures Decode(r, BARE, OmenByte(escctl, c) + w) == Got(Byte(c), w)
  {
    hide React, OmenByte, Decode;
    var e := OmenByte(escctl, c);
    OmenReactions(escctl, r, c);
    DecodeFirst(r, BARE, e + w);
    assert (e + w)[1..] == e[1..] + w;
    if |e| > 1 {
      var p := React(r, BARE, e[0]).p;
      DecodeFirst(r, p, e[1..] + w);
      assert (e[1..] + w)[1..] == e[2..] + w;
      if |e| > 2 {
        DecodeFirst(r, React(r, p, e[1]).p, e[2..] + w);
        assert (e[2..] + w)[1..] == w;
      } else {
        assert e[2..] + w == w;
      }
    } else {
      assert e[1..] + w == w;
    }
  }

  /** The decoder's reactions to the one, two or three wire bytes of a byte. */
  ghost predicate Answers(r: RxMode, e: seq<bv8>, c: bv8) {
    if |e| == 1 then React(r, BARE, e[0]) == Emit(Byte(c))
    else
      1 < |e| && var first := React(r, BARE, e[0]);
      first.Stay? && var second := React(r, first.p, e[1]);
      if |e| == 2 then second == Emit(Byte(c))
      else |e| == 3 && second.Stay? && React(r, second.p, e[2]) == Emit(Byte(c))
  }

  lemma OmenReactions(escctl: bool, r: RxMode, c: bv8)
    requires r.escctl ==> escctl
    ensures Answers(r, OmenByte(escctl, c), c)
  {
    if PrivateCode(escctl, c) != 0 {
      PrivateReaction(escctl, r, c);
    } else {
      PlainReaction(escctl, r, c);
    }
  }

  lemma PrivateReaction(escctl: bool, r: RxMode, c: bv8)
    requires PrivateCode(escctl, c) != 0
    ensures Answers(r, [ZDLE, PrivateCode(escctl, c)], c)
  {}

  lemma PlainReaction(escctl: bool, r: RxMode, c: bv8)
    requires r.escctl ==> escctl
    requires PrivateCode(escctl, c) == 0
    ensures Answers(r, OmenByte(escctl, c), c)
  {}

  lemma TerminatorDecodes(r: RxMode, t: bv8, w: seq<bv8>)
    requires IsTerminator(t)
    ensures Decode(r, BARE, [ZDLE, t] + w) == Got(End(t), w)
  {
    var all := [ZDLE, t] + w;
    assert all[1..] == [t] + w && all[1..][1..] == w;
  }

  // ---------- The encoded wire is clean ----------

  /** Seven bits, no flow control. */
  ghost predicate Clean(w: seq<bv8>) {
    forall i :: 0 <= i < |w| ==> w[i] < 0x80 && !IsFlowControl(w[i])
  }

  lemma OmenByteClean(escctl: bool, c: bv8)
    ensures Clean(OmenByte(escctl, c)) && CancelSafe(OmenByte(escctl, c))
  {}

  /** Every wire byte is below 0x80, none is flow control, and no two are CANs in a row. */
  lemma {:induction false} OmenBytesClean(escctl: bool, symbols: seq<bv8>)
    ensures Clean(OmenBytes(escctl, symbols)) && CancelSafe(OmenBytes(escctl, symbols))
    decreases symbols
  {
    hide OmenByte;
    if symbols == [] {
    } else {
      OmenByteClean(escctl, symbols[0]);
      OmenBytesClean(escctl, symbols[1..]);
      CancelSafeConcat(OmenByte(escctl, symbols[0]), OmenBytes(escctl, symbols[1..]));
    }
  }

  lemma {:induction false} StripClean(w: seq<bv8>)
    requires Clean(w)
    ensures Strip(w) == w
    decreases w
  {
    if w == [] {
    } else {
      assert w[0] & 0x7f == w[0] by { assert w[0] < 0x80; }
      StripClean(w[1..]);
      assert w == [w[0]] + w[1..];
    }
  }

  lemma {:induction false} StripConcat(a: seq<bv8>, b: seq<bv8>)
    ensures Strip(a + b) == Strip(a) + Strip(b)
    decreases a
  {
    if a == [] {
      assert a + b == b;
    } else {
      assert (a + b)[1..] == a[1..] + b;
      StripConcat(a[1..], b);
    }
  }

  lemma {:induction false} FlowTailOfSplit(v1: seq<bv8>, v2: seq<bv8>)
    requires v1 != [] && !IsFlowControl(v1[|v1| - 1] & 0x7f) && Strip(v2) == []
    ensures FlowTail(v1 + v2) == v2
    decreases v1
  {
    StripConcat(v1, v2);
    StripOfLast(v1);
    assert (v1 + v2)[1..] == v1[1..] + v2;
    if v1[1..] != [] {
      FlowTailOfSplit(v1[1..], v2);
    }
  }

  lemma StripOfLast(v: seq<bv8>)
    requires v != [] && !IsFlowControl(v[|v| - 1] & 0x7f)
    ensures Strip(v) != []
  {
    assert v == v[..|v| - 1] + [v[|v| - 1]];
    StripConcat(v[..|v| - 1], [v[|v| - 1]]);
  }

  lemma SplitsTwice(v: seq<bv8>, v1: seq<bv8>, v2: seq<bv8>, v3: seq<bv8>, v4: seq<bv8>)
    requires Splits(v, v1, v2) && Splits(v2, v3, v4)
    ensures Splits(v, v1 + v3, v4)
  {
    assert (v1 + v3)[|v1 + v3| - 1] == v3[|v3| - 1];
  }
}
