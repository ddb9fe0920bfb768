/** zmdm.c: the word-at-a-time scanners.

    A word is four or eight bytes fetched in either byte order.  Whatever the form, a word is flagged
    exactly when one of its bytes is of the kind searched for, so the fast loops agree with the rule for
    single bytes. */
module Spans {
  import opened Bytes
  import opened Quoting

  /** The width of span_word and the byte order of the machine. */
  datatype WordForm = WordForm(wide: bool, bigEndian: bool)

  function Size(f: WordForm): nat {
    if f.wide then 8 else 4
  }

  function Load32(a: bv8, b: bv8, c: bv8, d: bv8): bv32 {
    (a as bv32) | ((b as bv32) << 8) | ((c as bv32) << 16) | ((d as bv32) << 24)
  }

  function Load64(a: bv8, b: bv8, c: bv8, d: bv8, e: bv8, f: bv8, g: bv8, h: bv8): bv64 {
    (a as bv64) | ((b as bv64) << 8) | ((c as bv64) << 16) | ((d as bv64) << 24)
    | ((e as bv64) << 32) | ((f as bv64) << 40) | ((g as bv64) << 48) | ((h as bv64) << 56)
  }

  /** memcpy into a span_word. */
  function Fetch32(f: WordForm, s: seq<bv8>): bv32
    requires |s| == 4
  {
    if f.bigEndian then Load32(s[3], s[2], s[1], s[0]) else Load32(s[0], s[1], s[2], s[3])
  }

  function Fetch64(f: WordForm, s: seq<bv8>): bv64
    requires |s| == 8
  {
    if f.bigEndian then Load64(s[7], s[6], s[5], s[4], s[3], s[2], s[1], s[0])
    else Load64(s[0], s[1], s[2], s[3], s[4], s[5], s[6], s[7])
  }

  /** The carry trick: some byte of z is zero. */
  predicate ZeroByte32(z: bv32) {
    (z - 0x01010101) & !z & 0x80808080 != 0
  }

  predicate ZeroByte64(z: bv64) {
    (z - 0x0101010101010101) & !z & 0x8080808080808080 != 0
  }

  predicate HasZdle32(w: bv32) {
    ZeroByte32(w ^ 0x18181818)
  }

  predicate HasZdle64(w: bv64) {
    ZeroByte64(w ^ 0x1818181818181818)
  }

  predicate HasSpecial32(w: bv32) {
    ZeroByte32((w & 0x7c7c7c7c) ^ 0x10101010)
  }

  predicate HasSpecial64(w: bv64) {
    ZeroByte64((w & 0x7c7c7c7c7c7c7c7c) ^ 0x1010101010101010)
  }

  predicate HasReturn32(w: bv32) {
    ZeroByte32((w & 0x7f7f7f7f) ^ 0x0d0d0d0d)
  }

  predicate HasReturn64(w: bv64) {
    ZeroByte64((w & 0x7f7f7f7f7f7f7f7f) ^ 0x0d0d0d0d0d0d0d0d)
  }

  predicate HasFlow32(w: bv32) {
    ZeroByte32((w & 0x7d7d7d7d) ^ 0x11111111)
  }

  predicate HasFlow64(w: bv64) {
    ZeroByte64((w & 0x7d7d7d7d7d7d7d7d) ^ 0x1111111111111111)
  }

  predicate TxWord32(w: bv32) {
    HasZdle32(w) || HasSpecial32(w) || HasReturn32(w)
  }

  predicate TxWord64(w: bv64) {
    HasZdle64(w) || HasSpecial64(w) || HasReturn64(w)
  }

  predicate RxWord32(moby: bool, w: bv32) {
    HasZdle32(w) || (!moby && HasFlow32(w))
  }

  predicate RxWord64(moby: bool, w: bv64) {
    HasZdle64(w) || (!moby && HasFlow64(w))
  }

  predicate IsZdle(c: bv8) {
    c == 0x18
  }

  predicate IsSpecial(c: bv8) {
    c & 0x7c == 0x10
  }

  predicate IsFlow(c: bv8) {
    c & 0x7d == 0x11
  }

  /** The transmit scanner stops at ZDLE, at 0x10 to 0x13 and at CR, either parity. */
  predicate StopsTx(c: bv8) {
    IsZdle(c) || IsSpecial(c) || IsReturn(c)
  }

  /** The receive scanner stops at ZDLE and, unless the line is transparent, at flow control. */
  predicate StopsRx(moby: bool, c: bv8) {
    IsZdle(c) || (!moby && IsFlow(c))
  }

  predicate FlagTx(f: WordForm, s: seq<bv8>)
    requires |s| == Size(f)
  {
    if f.wide then TxWord64(Fetch64(f, s)) else TxWord32(Fetch32(f, s))
  }

  predicate FlagRx(f: WordForm, moby: bool, s: seq<bv8>)
    requires |s| == Size(f)
  {
    if f.wide then RxWord64(moby, Fetch64(f, s)) else RxWord32(moby, Fetch32(f, s))
  }

  lemma ScanWord32(a: bv8, b: bv8, c: bv8, d: bv8)
    ensures HasZdle32(Load32(a, b, c, d)) <==> (IsZdle(a) || IsZdle(b) || IsZdle(c) || IsZdle(d))
    ensures HasSpecial32(Load32(a, b, c, d)) <==> (IsSpecial(a) || IsSpecial(b) || IsSpecial(c) || IsSpecial(d))
    ensures HasReturn32(Load32(a, b, c, d)) <==> (IsReturn(a) || IsReturn(b) || IsReturn(c) || IsReturn(d))
    ensures HasFlow32(Load32(a, b, c, d)) <==> (IsFlow(a) || IsFlow(b) || IsFlow(c) || IsFlow(d))
  {}

  lemma ScanWord64(a: bv8, b: bv8, c: bv8, d: bv8, e: bv8, f: bv8, g: bv8, h: bv8)
    ensures HasZdle64(Load64(a, b, c, d, e, f, g, h)) <==>
              (IsZdle(a) || IsZdle(b) || IsZdle(c) || IsZdle(d) || IsZdle(e) || IsZdle(f) || IsZdle(g) || IsZdle(h))
    ensures HasSpecial64(Load64(a, b, c, d, e, f, g, h)) <==>
              (IsSpecial(a) || IsSpecial(b) || IsSpecial(c) || IsSpecial(d) || IsSpecial(e) || IsSpecial(f)
               || IsSpecial(g) || IsSpecial(h))
    ensures HasReturn64(Load64(a, b, c, d, e, f, g, h)) <==>
              (IsReturn(a) || IsReturn(b) || IsReturn(c) || IsReturn(d) || IsReturn(e) || IsReturn(f) || IsReturn(g)
               || IsReturn(h))
    ensures HasFlow64(Load64(a, b, c, d, e, f, g, h)) <==>
              (IsFlow(a) || IsFlow(b) || IsFlow(c) || IsFlow(d) || IsFlow(e) || IsFlow(f) || IsFlow(g) || IsFlow(h))
  {}

  lemma TxWords(a: bv8, b: bv8, c: bv8, d: bv8, e: bv8, f: bv8, g: bv8, h: bv8)
    ensures TxWord64(Load64(a, b, c, d, e, f, g, h))
       <==> (StopsTx(a) || StopsTx(b) || StopsTx(c) || StopsTx(d) || StopsTx(e) || StopsTx(f) || StopsTx(g)
             || StopsTx(h))
    ensures TxWord32(Load32(a, b, c, d)) <==> (StopsTx(a) || StopsTx(b) || StopsTx(c) || StopsTx(d))
  {
    hide HasZdle32, HasSpecial32, HasReturn32, HasFlow32, HasZdle64, HasSpecial64, HasReturn64, HasFlow64;
    hide Load32, Load64, IsZdle, IsSpecial, IsReturn, IsFlow;
    ScanWord64(a, b, c, d, e, f, g, h);
    ScanWord32(a, b, c, d);
  }

  lemma RxWords(m: bool, a: bv8, b: bv8, c: bv8, d: bv8, e: bv8, f: bv8, g: bv8, h: bv8)
    ensures RxWord64(m, Load64(a, b, c, d, e, f, g, h))
       <==> (StopsRx(m, a) || StopsRx(m, b) || StopsRx(m, c) || StopsRx(m, d)
             || StopsRx(m, e) || StopsRx(m, f) || StopsRx(m, g) || StopsRx(m, h))
    ensures RxWord32(m, Load32(a, b, c, d)) <==> (StopsRx(m, a) || StopsRx(m, b) || StopsRx(m, c) || StopsRx(m, d))
  {
    hide HasZdle32, HasSpecial32, HasReturn32, HasFlow32, HasZdle64, HasSpecial64, HasReturn64, HasFlow64;
    hide Load32, Load64, IsZdle, IsSpecial, IsReturn, IsFlow;
    ScanWord64(a, b, c, d, e, f, g, h);
    ScanWord32(a, b, c, d);
  }

  /** In every form a word is flagged exactly when one of its bytes stops the scan. */
  lemma FlagTxExactly(f: WordForm, s: seq<bv8>)
    requires |s| == Size(f)
    ensures FlagTx(f, s) <==> exists i :: 0 <= i < |s| && StopsTx(s[i])
  {
    hide TxWord32, TxWord64, Load32, Load64, StopsTx;
    if f.wide {
      TxWords(s[0], s[1], s[2], s[3], s[4], s[5], s[6], s[7]);
      TxWords(s[7], s[6], s[5], s[4], s[3], s[2], s[1], s[0]);
    } else {
      TxWords(s[0], s[1], s[2], s[3], 0, 0, 0, 0);
      TxWords(s[3], s[2], s[1], s[0], 0, 0, 0, 0);
    }
  }

  lemma FlagRxExactly(f: WordForm, moby: bool, s: seq<bv8>)
    requires |s| == Size(f)
    ensures FlagRx(f, moby, s) <==> exists i :: 0 <= i < |s| && StopsRx(moby, s[i])
  {
    hide RxWord32, RxWord64, Load32, Load64, StopsRx;
    if f.wide {
      RxWords(moby, s[0], s[1], s[2], s[3], s[4], s[5], s[6], s[7]);
      RxWords(moby, s[7], s[6], s[5], s[4], s[3], s[2], s[1], s[0]);
    } else {
      RxWords(moby, s[0], s[1], s[2], s[3], 0, 0, 0, 0);
      RxWords(moby, s[3], s[2], s[1], s[0], 0, 0, 0, 0);
    }
  }

  // ---------- The transmit scanner ----------

  /** Ordinary quoting with no option set: the mode the fast scanner is for. */
  const DEFAULT := TxMode(false, false, false)

  lemma UnflaggedIsPlain(c: bv8, previous: bv8)
    requires !StopsTx(c)
    ensures !NeedsEscape(DEFAULT, c, previous)
  {}

  /** The tests of the byte loop in tx_copy_plain_span. */
  predicate ClassedAlways(c: bv8) {
    TxClass(c) & TX_ESCAPE_ALWAYS != 0
  }

  predicate ClassedReturn(c: bv8) {
    TxClass(c) & TX_ESCAPE_CR != 0
  }

  lemma PlainRule(c: bv8, previous: bv8)
    ensures NeedsEscape(DEFAULT, c, previous) <==> (ClassedAlways(c) || (ClassedReturn(c) && previous == 0x40))
    ensures NeedsEscape(DEFAULT, c, previous) ==> EscapeByte(DEFAULT, previous, c) == [ZDLE, c ^ 0x40]
  {}

  /** Bytes that all stand for themselves. */
  ghost predicate AllPlain(previous: bv8, s: seq<bv8>) {
    Escape(DEFAULT, previous, s) == s
  }

  lemma PlainSnoc(previous: bv8, s: seq<bv8>, c: bv8)
    requires AllPlain(previous, s) && !NeedsEscape(DEFAULT, c, LastSent(previous, s))
    ensures AllPlain(previous, s + [c])
  {
    hide Escape, NeedsEscape;
    EscapeSnoc(DEFAULT, previous, s, c);
  }

  lemma {:induction false} PlainWord(previous: bv8, s: seq<bv8>, word: seq<bv8>)
    requires AllPlain(previous, s) && forall i :: 0 <= i < |word| ==> !StopsTx(word[i])
    ensures AllPlain(previous, s + word)
    decreases |word|
  {
    hide AllPlain, StopsTx, NeedsEscape;
    if word == [] {
      assert s + word == s;
    } else {
      UnflaggedIsPlain(word[0], LastSent(previous, s));
      PlainSnoc(previous, s, word[0]);
      PlainWord(previous, s + [word[0]], word[1..]);
      assert s + word == (s + [word[0]]) + word[1..];
    }
  }

  /** memcpy of one word. */
  method CopyWord(output: array<bv8>, at: nat, data: array<bv8>, start: nat, n: nat)
    requires start + n <= data.Length && at + n <= output.Length && output != data
    modifies output
    ensures output[..at + n] == old(output[..at]) + data[start..start + n]
  {
    forall i | 0 <= i < n {
      output[at + i] := data[start + i];
    }
  }

  /** The word loop of tx_copy_plain_span: words without a byte that may need quoting are copied whole. */
  method CopyWords(f: WordForm, output: array<bv8>, at: nat, data: array<bv8>, start: nat, length: nat,
                   ghost previous: bv8)
    returns (span: nat)
    requires start + length <= data.Length && at + length <= output.Length && output != data
    modifies output
    ensures span <= length && output[..at + span] == old(output[..at]) + data[start..start + span]
    ensures AllPlain(previous, data[start..start + span])
  {
    hide AllPlain, FlagTx, StopsTx;
    span := 0;
    NothingIsPlain(previous);
    ghost var before := output[..at];
    assert data[start..start] == [];
    while length - span >= Size(f)
      invariant span <= length
      invariant output[..at + span] == before + data[start..start + span]
      invariant AllPlain(previous, data[start..start + span])
    {
      ghost var done := data[start..start + span];
      var word := data[start + span..start + span + Size(f)];
      FlagTxExactly(f, word);
      if FlagTx(f, word) {
        break;
      }
      PlainWord(previous, done, word);
      assert data[start..start + span + Size(f)] == done + word;
      Associates(before, done, word);
      CopyWord(output, at + span, data, start + span, Size(f));
      span := span + Size(f);
    }
  }

  /** The byte loop of tx_copy_plain_span, from where the word loop stopped. */
  method CopyPlainBytes(output: array<bv8>, at: nat, data: array<bv8>, start: nat, length: nat, first: nat,
                        previous: bv8, last: bv8)
    returns (span: nat, last': bv8)
    requires first <= length && start + length <= data.Length && at + length <= output.Length && output != data
    requires AllPlain(previous, data[start..start + first]) && last == LastSent(previous, data[start..start + first])
    modifies output
    ensures first <= span <= length
              && output[..at + span] == old(output[..at + first]) + data[start + first..start + span]
    ensures AllPlain(previous, data[start..start + span]) && last' == LastSent(previous, data[start..start + span])
    ensures span < length ==> NeedsEscape(DEFAULT, data[start + span], last')
  {
    hide AllPlain, NeedsEscape, ClassedAlways, ClassedReturn, LastSent;
    span, last' := first, last;
    ghost var before := output[..at + first];
    assert data[start + first..start + first] == [];
    while span < length && !ClassedAlways(data[start + span]) && (!ClassedReturn(data[start + span]) || last' != 0x40)
      invariant first <= span <= length
      invariant output[..at + span] == before + data[start + first..start + span]
      invariant AllPlain(previous, data[start..start + span]) && last' == LastSent(previous, data[start..start + span])
    {
      var c := data[start + span];
      PlainRule(c, last');
      PlainSnoc(previous, data[start..start + span], c);
      assert data[start..start + span + 1] == data[start..start + span] + [c];
      assert data[start + first..start + span + 1] == data[start + first..start + span] + [c];
      output[at + span] := c;
      assert output[..at + span + 1] == output[..at + span] + [c];
      last' := c & 0x7f;
      span := span + 1;
      LastOfSpan(previous, data[start..start + span]);
    }
    if span < length {
      PlainRule(data[start + span], last');
    }
  }

  /** tx_copy_plain_span: the bytes in front of the next one that needs quoting go out as they are, and the
      byte it stops at does need quoting by the bytewise rule. */
  method TxCopyPlainSpan(f: WordForm, output: array<bv8>, at: nat, data: array<bv8>, start: nat, length: nat,
                         previous: bv8)
    returns (span: nat, last: bv8)
    requires 0 < length && start + length <= data.Length && at + length <= output.Length && output != data
    modifies output
    ensures span <= length && output[..at + span] == old(output[..at]) + data[start..start + span]
    ensures Escape(DEFAULT, previous, data[start..start + span]) == data[start..start + span]
    ensures last == LastSent(previous, data[start..start + span])
    ensures span < length ==> NeedsEscape(DEFAULT, data[start + span], last)
  {
    hide Escape, NeedsEscape, ClassedAlways, ClassedReturn, LastSent;
    span, last := 0, previous;
    ghost var before := output[..at];
    PlainRule(data[start], previous);
    assert data[start..start] == [];
    NothingIsPlain(previous);
    if last == 0x40 && ClassedReturn(data[start]) {
      return;
    }
    span := CopyWords(f, output, at, data, start, length, previous);
    if span > 0 {
      last := data[start + span - 1] & 0x7f;
    }
    LastOfSpan(previous, data[start..start + span]);
    ghost var words := span;
    span, last := CopyPlainBytes(output, at, data, start, length, span, previous, last);
    assert data[start..start + words] + data[start + words..start + span] == data[start..start + span];
    assert before + data[start..start + words] + data[start + words..start + span]
      == before + data[start..start + span];
  }

  lemma NothingIsPlain(previous: bv8)
    ensures AllPlain(previous, []) && LastSent(previous, []) == previous
  {}

  lemma LastOfSpan(previous: bv8, s: seq<bv8>)
    ensures LastSent(previous, s) == if s == [] then previous else s[|s| - 1] & 0x7f
  {}

  // ---------- The receive scanner ----------

  lemma UnflaggedIsFast(r: RxMode, c: bv8)
    requires !StopsRx(r.moby, c) && !r.escctl
    ensures !NeedsSlowPath(r, c)
  {}

  /** rx_plain_span: how many of the buffered bytes need no decoding. */
  method RxPlainSpan(f: WordForm, r: RxMode, data: array<bv8>, start: nat, count: nat) returns (length: nat)
    requires start + count <= data.Length
    ensures length <= count
    ensures forall i :: start <= i < start + length ==> !NeedsSlowPath(r, data[i])
    ensures length < count ==> NeedsSlowPath(r, data[start + length])
  {
    hide NeedsSlowPath, FlagRx, StopsRx;
    length := 0;
    if r.escctl {
      if r.moby {
        while length < count
          invariant length <= count
          invariant forall i :: start <= i < start + length ==> !NeedsSlowPath(r, data[i])
        {
          MobySlowPath(r, data[start + length]);
          if data[start + length] == ZDLE {
            break;
          }
          length := length + 1;
        }
        return;
      }
      while length < count && !NeedsSlowPath(r, data[start + length])
        invariant length <= count
        invariant forall i :: start <= i < start + length ==> !NeedsSlowPath(r, data[i])
      {
        length := length + 1;
      }
      return;
    }
    while count - length >= Size(f)
      invariant length <= count
      invariant forall i :: start <= i < start + length ==> !NeedsSlowPath(r, data[i])
    {
      ghost var word := data[start + length..start + length + Size(f)];
      FlagRxExactly(f, r.moby, word);
      if FlagRx(f, r.moby, data[start + length..start + length + Size(f)]) {
        break;
      }
      forall i | start + length <= i < start + length + Size(f)
        ensures !NeedsSlowPath(r, data[i])
      {
        assert data[i] == word[i - start - length];
        UnflaggedIsFast(r, data[i]);
      }
      length := length + Size(f);
    }
    while length < count && !NeedsSlowPath(r, data[start + length])
      invariant length <= count
      invariant forall i :: start <= i < start + length ==> !NeedsSlowPath(r, data[i])
    {
      length := length + 1;
    }
  }

  lemma MobySlowPath(r: RxMode, c: bv8)
    requires r.moby
    ensures NeedsSlowPath(r, c) <==> c == ZDLE
  {}
}
