/** zmdm.h and zmdm.c: the protocol state and its byte-level input and output. */
module Link {
  import opened Bytes
  import opened Quoting
  import opened Spans

  /** One call of io.read: some bytes, or a failure. */
  datatype ReadEvent = Chunk(bytes: seq<bv8>) | Failure(code: ErrorCode)

  /** The input that a series of reads delivers, whatever its division into reads.  A read that reports no
      bytes, or more than were asked for, is a transport error. */
  function Replay(script: seq<ReadEvent>): Input
    decreases script
  {
    if script == [] then Silence
    else match script[0]
      case Failure(code) => Fault(code, Replay(script[1..]))
      case Chunk(bytes) =>
        if |bytes| == 0 || |bytes| > INPUT_CAPACITY then Fault(IO_ERROR, Replay(script[1..]))
        else Feed(bytes, Replay(script[1..]))
  }

  /** Reads that all deliver something, and no more than was asked for. */
  predicate Delivering(script: seq<ReadEvent>) {
    forall i :: 0 <= i < |script| ==> script[i].Chunk? && 0 < |script[i].bytes| <= INPUT_CAPACITY
  }

  function Delivered(script: seq<ReadEvent>): seq<bv8>
    requires Delivering(script)
    decreases script
  {
    if script == [] then [] else script[0].bytes + Delivered(script[1..])
  }

  /** How a byte stream is divided into reads makes no difference to what is decoded from it: every reader
      is proved to compute a function of the Input, and the Input is the same. */
  lemma {:induction false} ReadsDoNotMatter(script: seq<ReadEvent>)
    requires Delivering(script)
    ensures Replay(script) == Feed(Delivered(script), Silence)
    decreases script
  {
    if script != [] {
      assert script[0].Chunk? && 0 < |script[0].bytes| <= INPUT_CAPACITY;
      assert forall i :: 0 <= i < |script[1..]| ==> script[1..][i] == script[i + 1];
      ReadsDoNotMatter(script[1..]);
      FeedConcat(script[0].bytes, Delivered(script[1..]), Silence);
    }
  }

  /** struct rx_cursor */
  datatype Cursor = Cursor(count: nat, index: nat, cancels: nat)

  /** struct zmodem, with its transport: the reads to come, the results of the writes and flushes to come,
      and the bytes written so far. */
  class Zmodem {
    var script: seq<ReadEvent>
    var outputs: seq<bool>
    var sent: seq<bv8>

    const wordForm: WordForm

    // The sender's flags
    var canFcs32: bool
    var wantFcs32: bool
    var escapeAllControlCharacters: bool
    var escape8thBit: bool
    var escapeIac: bool
    var usePack7: bool
    var useMobyturbo: bool

    // The receiver's modes
    var receiveMobyturbo: bool
    var receive32BitData: bool
    var receiveEncodedData: Encoding
    var receiveEscape8Format: Escape8
    var receiveEscapedControlCharacters: bool

    // Buffers and counters
    const rxdHeader: array<bv8>
    var rxdHeaderLen: nat
    var mobyturboProbePassed: bool
    const inputBuffer: array<bv8>
    var inputCount: nat
    var inputIndex: nat
    var cancelCount: nat
    var lastSent: bv8
    const txDataWire: array<bv8>

    /** zmodem_init */
    constructor (script: seq<ReadEvent>, outputs: seq<bool>, wordForm: WordForm)
      ensures Valid() && fresh(rxdHeader) && fresh(inputBuffer) && fresh(txDataWire)
      ensures this.script == script && this.outputs == outputs && sent == [] && this.wordForm == wordForm
      ensures wantFcs32 && !canFcs32 && !escapeAllControlCharacters && !escape8thBit && !escapeIac
      ensures !usePack7 && !useMobyturbo && lastSent == NOTHING_SENT
      ensures Mode() == RxMode(false, false, Plain, Escape8None, false)
      ensures Pending() == Replay(script) && cancelCount == 0 && rxdHeaderLen == 0 && !mobyturboProbePassed
    {
      this.script, this.outputs, sent, this.wordForm := script, outputs, [], wordForm;
      canFcs32, wantFcs32, escapeAllControlCharacters, escape8thBit, escapeIac := false, true, false, false, false;
      usePack7, useMobyturbo := false, false;
      receiveMobyturbo, receive32BitData, receiveEncodedData := false, false, Plain;
      receiveEscape8Format, receiveEscapedControlCharacters := Escape8None, false;
      rxdHeader := new bv8[ZMAXHLEN + 1];
      inputBuffer := new bv8[INPUT_CAPACITY];
      txDataWire := new bv8[WIRE_CAPACITY];
      rxdHeaderLen, mobyturboProbePassed := 0, false;
      inputCount, inputIndex, cancelCount, lastSent := 0, 0, 0, NOTHING_SENT;
      new;
      assert inputBuffer[0..0] == [];
    }

    ghost predicate Valid()
      reads this
    {
      && rxdHeader.Length == ZMAXHLEN + 1
      && inputBuffer.Length == INPUT_CAPACITY
      && txDataWire.Length == WIRE_CAPACITY
      && rxdHeader != inputBuffer && rxdHeader != txDataWire && inputBuffer != txDataWire
      && inputIndex + inputCount <= INPUT_CAPACITY
    }

    function Mode(): RxMode
      reads this
    {
      RxMode(receiveMobyturbo, receive32BitData, receiveEncodedData, receiveEscape8Format,
             receiveEscapedControlCharacters)
    }

    ghost predicate Holds(c: Cursor)
      reads this
    {
      c.index + c.count <= inputBuffer.Length
    }

    /** What the line still delivers to a cursor: the rest of the buffer, then the reads to come. */
    ghost function Ahead(c: Cursor): Input
      requires Holds(c)
      reads this, inputBuffer
    {
      Feed(inputBuffer[c.index..c.index + c.count], Replay(script))
    }

    /** What the line still delivers to the protocol state. */
    ghost function Pending(): Input
      requires Valid()
      reads this, inputBuffer
    {
      Ahead(Cursor(inputCount, inputIndex, cancelCount))
    }

    /** The transport reports no failure of a write or a flush to come. */
    ghost predicate Healthy()
      reads this
    {
      forall i :: 0 <= i < |outputs| ==> outputs[i]
    }
  }

  // ---------- Output ----------

  /** One call of io.write or io.flush: its result, and success once the script has run out. */
  method Attempt(z: Zmodem) returns (ok: bool)
    modifies z`outputs
    ensures old(z.Healthy()) ==> ok && z.Healthy()
  {
    ok := true;
    if z.outputs != [] {
      ok, z.outputs := z.outputs[0], z.outputs[1..];
    }
  }

  method IoWrite(z: Zmodem, bytes: seq<bv8>) returns (ok: bool)
    modifies z`outputs, z`sent
    ensures z.sent == if ok then old(z.sent) + bytes else old(z.sent)
    ensures old(z.Healthy()) ==> ok && z.Healthy()
  {
    ok := Attempt(z);
    if ok {
      z.sent := z.sent + bytes;
    }
  }

  /** tx_flush */
  method TxFlush(z: Zmodem) returns (ok: bool)
    modifies z`outputs
    ensures old(z.Healthy()) ==> ok && z.Healthy()
  {
    ok := Attempt(z);
  }

  // ---------- Input ----------

  /** io.read: the next event of the script; bytes land at the start of the buffer. */
  method IoRead(z: Zmodem) returns (code: int, count: nat)
    requires z.Valid()
    modifies z`script, z.inputBuffer
    ensures code <= OK
    ensures code == OK && 0 < count <= INPUT_CAPACITY ==>
              old(Replay(z.script)) == Feed(z.inputBuffer[..count], Replay(z.script))
    ensures code == OK && !(0 < count <= INPUT_CAPACITY) ==> old(Replay(z.script)) == Fault(IO_ERROR, Replay(z.script))
    ensures code < OK ==>
              old(Replay(z.script)) == (if old(z.script) == [] then Silence else Fault(code, Replay(z.script)))
    ensures code < OK && old(z.script) == [] ==> code == TIMEOUT && z.script == []
  {
    code, count := TIMEOUT, 0;
    if z.script != [] {
      var event := z.script[0];
      z.script := z.script[1..];
      match event {
        case Failure(c) =>
          code := c;
        case Chunk(bytes) =>
          code, count := OK, |bytes|;
          if 0 < count <= INPUT_CAPACITY {
            forall i | 0 <= i < count {
              z.inputBuffer[i] := bytes[i];
            }
            assert z.inputBuffer[..count] == bytes;
          }
      }
    }
  }

  /** The next byte of the line, or the failure in front of it: rx_cursor_byte without the CAN rule. */
  function Head(input: Input): (Symbol, Input) {
    match input
    case Silence => (Fail(TIMEOUT), Silence)
    case Fault(code, rest) => (Fail(code), rest)
    case Octet(b, rest) => (Byte(b), rest)
  }

  lemma FeedHead(w: seq<bv8>, rest: Input)
    requires w != []
    ensures Feed(w, rest) == Octet(w[0], Feed(w[1..], rest))
  {}

  /** rx_cursor_byte */
  method RxCursorByte(z: Zmodem, cursor: Cursor) returns (result: Symbol, next: Cursor)
    requires z.Valid() && z.Holds(cursor)
    modifies z`script, z`inputCount, z`inputIndex, z`cancelCount, z.inputBuffer
    ensures z.Valid() && z.Holds(next) && next.cancels == cursor.cancels
    ensures (result, z.Ahead(next)) == Head(old(z.Ahead(cursor)))
  {
    next := cursor;
    if next.count == 0 {
      assert z.inputBuffer[next.index..next.index] == [];
      z.inputCount, z.inputIndex, z.cancelCount := next.count, next.index, next.cancels;
      var code, count := IoRead(z);
      assert z.inputBuffer[next.index..next.index] == [];
      if code != OK {
        return Fail(code), next;
      }
      if count == 0 || count > INPUT_CAPACITY {
        return Fail(IO_ERROR), next;
      }
      next := next.(count := count, index := 0);
      assert z.inputBuffer[0..count] == z.inputBuffer[..count];
    }
    ghost var w := z.inputBuffer[next.index..next.index + next.count];
    FeedHead(w, Replay(z.script));
    var c := z.inputBuffer[next.index];
    next := next.(index := next.index + 1, count := next.count - 1);
    assert z.inputBuffer[next.index..next.index + next.count] == w[1..];
    result := Byte(c);
  }

  /** rx_cursor_raw */
  method RxCursorRaw(z: Zmodem, cursor: Cursor) returns (result: Symbol, next: Cursor)
    requires z.Valid() && z.Holds(cursor)
    modifies z`script, z`inputCount, z`inputIndex, z`cancelCount, z.inputBuffer
    ensures z.Valid() && z.Holds(next)
    ensures Scan(result, z.Ahead(next), next.cancels) == Raw(z.Mode(), old(z.Ahead(cursor)), cursor.cancels)
  {
    result, next := RxCursorByte(z, cursor);
    if result == Byte(CAN) && !z.receiveMobyturbo {
      next := next.(cancels := next.cancels + 1);
      if next.cancels == 5 {
        result := Fail(CANCELLED);
      }
    } else if result.Byte? {
      next := next.(cancels := 0);
    }
  }

  /** load_rx_cursor */
  method LoadRxCursor(z: Zmodem) returns (c: Cursor)
    requires z.Valid()
    ensures z.Holds(c) && z.Ahead(c) == z.Pending() && c.cancels == z.cancelCount
  {
    c := Cursor(z.inputCount, z.inputIndex, z.cancelCount);
  }

  /** store_rx_cursor */
  method StoreRxCursor(z: Zmodem, c: Cursor)
    requires z.Valid() && z.Holds(c)
    modifies z`inputCount, z`inputIndex, z`cancelCount
    ensures z.Valid() && z.Pending() == z.Ahead(c) == old(z.Ahead(c)) && z.cancelCount == c.cancels
  {
    z.inputCount, z.inputIndex, z.cancelCount := c.count, c.index, c.cancels;
  }

  /** rx_raw */
  method RxRaw(z: Zmodem) returns (result: Symbol)
    requires z.Valid()
    modifies z`script, z`inputCount, z`inputIndex, z`cancelCount, z.inputBuffer
    ensures z.Valid()
    ensures Scan(result, z.Pending(), z.cancelCount) == Raw(z.Mode(), old(z.Pending()), old(z.cancelCount))
  {
    var cursor := LoadRxCursor(z);
    result, cursor := RxCursorRaw(z, cursor);
    StoreRxCursor(z, cursor);
  }

  // ---------- Decoding ----------

  /** Decoding continued after c has been read at a byte boundary. */
  function Continue(r: RxMode, c: bv8, input: Input, cancels: nat): Scan {
    if IsFlowControl(c) || IsUnescapedControl(r, c) then Next(r, Resync, input, cancels)
    else if c == ZDLE then Next(r, Quoted, input, cancels)
    else Scan(Byte(c), input, cancels)
  }

  lemma ContinueResync(r: RxMode, input: Input, cancels: nat)
    ensures var raw := Raw(r, input, cancels);
            Next(r, Resync, input, cancels) == if raw.symbol.Byte?
              then Continue(r, raw.symbol.b, raw.rest, raw.cancels) else raw
  {}

  lemma ContinueFresh(r: RxMode, input: Input, cancels: nat)
    ensures var raw := Raw(r, input, cancels);
            Next(r, Fresh, input, cancels) ==
            if raw.symbol.Byte? && NeedsSlowPath(r, raw.symbol.b) then Continue(r, raw.symbol.b, raw.rest, raw.cancels)
              else raw
  {}

  /** The byte after ZDLE: a result, another byte of the pair to come, or nothing that makes a pair. */
  datatype Pair = Done(symbol: Symbol) | Again | Illegal

  function Unquote(r: RxMode, c: bv8): Pair {
    if r.escape8.Escape8Legacy? && c & 0x80 != 0 then Done(Byte(c ^ 0x40))
    else if NeedsSlowPath(r, c) then Again
    else if IsTerminator(c) then Done(End(c))
    else if c == ZRUB0 then Done(Byte(0x7f))
    else if c == ZRUB1 then Done(Byte(0xff))
    else if c & 0x60 == 0x40 then Done(Byte(c ^ 0x40))
    else Illegal
  }

  lemma ContinueQuoted(r: RxMode, input: Input, cancels: nat)
    ensures var raw := Raw(r, input, cancels);
            Next(r, Quoted, input, cancels) ==
            if !raw.symbol.Byte? then raw
            else match Unquote(r, raw.symbol.b)
              case Done(symbol) => Scan(symbol, raw.rest, raw.cancels)
              case Again => Next(r, Quoted, raw.rest, raw.cancels)
              case Illegal => Next(r, Resync, raw.rest, raw.cancels)
  {}

  /** rx_cursor_slow: c has been read already. */
  method RxCursorSlow(z: Zmodem, first: bv8, cursor: Cursor) returns (result: Symbol, next: Cursor)
    requires z.Valid() && z.Holds(cursor)
    modifies z`script, z`inputCount, z`inputIndex, z`cancelCount, z.inputBuffer
    ensures z.Valid() && z.Holds(next)
    ensures Scan(result, z.Ahead(next), next.cancels) == Continue(z.Mode(), first, old(z.Ahead(cursor)), cursor.cancels)
  {
    hide Next, Raw, Unquote, NeedsSlowPath, IsFlowControl, IsUnescapedControl;
    var r := z.Mode();
    ghost var goal := Continue(r, first, z.Ahead(cursor), cursor.cancels);
    var c := first;
    next := cursor;
    while true
      invariant z.Valid() && z.Holds(next)
      invariant Continue(r, c, z.Ahead(next), next.cancels) == goal
      decreases z.Ahead(next)
    {
      while IsFlowControl(c) || IsUnescapedControl(r, c)
        invariant z.Valid() && z.Holds(next)
        invariant Continue(r, c, z.Ahead(next), next.cancels) == goal
        decreases z.Ahead(next)
      {
        ContinueResync(r, z.Ahead(next), next.cancels);
        result, next := RxCursorRaw(z, next);
        if !result.Byte? {
          return;
        }
        c := result.b;
      }
      if c != ZDLE {
        return Byte(c), next;
      }
      while true
        invariant z.Valid() && z.Holds(next)
        invariant Next(r, Quoted, z.Ahead(next), next.cancels) == goal
        decreases z.Ahead(next)
      {
        ContinueQuoted(r, z.Ahead(next), next.cancels);
        result, next := RxCursorRaw(z, next);
        if !result.Byte? {
          return;
        }
        c := result.b;
        match Unquote(r, c) {
          case Done(symbol) => return symbol, next;
          case Again => continue;
          case Illegal => break;
        }
      }
      ContinueResync(r, z.Ahead(next), next.cancels);
      result, next := RxCursorRaw(z, next);
      if !result.Byte? {
        return;
      }
      c := result.b;
    }
  }

  /** rx_cursor */
  method RxCursor(z: Zmodem, cursor: Cursor) returns (result: Symbol, next: Cursor)
    requires z.Valid() && z.Holds(cursor)
    modifies z`script, z`inputCount, z`inputIndex, z`cancelCount, z.inputBuffer
    ensures z.Valid() && z.Holds(next)
    ensures Scan(result, z.Ahead(next), next.cancels) == Next(z.Mode(), Fresh, old(z.Ahead(cursor)), cursor.cancels)
  {
    hide Next, Raw, NeedsSlowPath, Continue;
    ContinueFresh(z.Mode(), z.Ahead(cursor), cursor.cancels);
    result, next := RxCursorRaw(z, cursor);
    if result.Byte? && NeedsSlowPath(z.Mode(), result.b) {
      result, next := RxCursorSlow(z, result.b, next);
    }
  }

  /** rx, with rx_slow */
  method Rx(z: Zmodem) returns (result: Symbol)
    requires z.Valid()
    modifies z`script, z`inputCount, z`inputIndex, z`cancelCount, z.inputBuffer
    ensures z.Valid()
    ensures Scan(result, z.Pending(), z.cancelCount) == Next(z.Mode(), Fresh, old(z.Pending()), old(z.cancelCount))
  {
    hide Next, Raw, NeedsSlowPath, Continue;
    ContinueFresh(z.Mode(), z.Pending(), z.cancelCount);
    result := RxRaw(z);
    if result.Byte? && NeedsSlowPath(z.Mode(), result.b) {
      var cursor := LoadRxCursor(z);
      result, cursor := RxCursorSlow(z, result.b, cursor);
      StoreRxCursor(z, cursor);
    }
  }
}
