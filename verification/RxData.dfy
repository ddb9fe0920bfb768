/** zmdm.c: receiving data subpackets with ordinary and MobyTurbo quoting.

    rx_32_data and rx_16_data differ only in the frame check, which is a parameter here. */
module RxData {
  import opened Bytes
  import opened Quoting
  import opened Spans
  import opened Subpackets
  import opened Link
  import Crc
  import Crc16

  /** The register of the running frame check. */
  datatype Register = Register32(v32: bv32) | Register16(v16: bv16)

  function Start(fcs32: bool): Register {
    if fcs32 then Register32(0xffffffff) else Register16(0)
  }

  function FoldRegister(g: Register, data: seq<bv8>): Register {
    match g
    case Register32(v) => Register32(Crc.Fold32(v, data))
    case Register16(v) => Register16(Crc16.Fold16(v, data))
  }

  lemma FoldRegisterConcat(g: Register, a: seq<bv8>, b: seq<bv8>)
    ensures FoldRegister(g, a + b) == FoldRegister(FoldRegister(g, a), b)
    ensures FoldRegister(g, []) == g
  {
    hide Crc.Fold32, Crc16.Fold16;
    match g
    case Register32(v) =>
      Crc.FoldConcat(v, a, b);
      Crc.FoldNothing(v);
    case Register16(v) =>
      Crc16.FoldConcat(v, a, b);
      Crc16.FoldNothing(v);
  }

  /** crc32_update or crc16_buffer_update */
  method Update(g: Register, data: array<bv8>, start: nat, length: nat) returns (g': Register)
    requires start + length <= data.Length
    ensures g' == FoldRegister(g, data[start..start + length])
  {
    hide Crc.Fold32, Crc16.Fold16;
    match g {
      case Register32(v) =>
        var w := Crc.Update32(v, data, start, length);
        g' := Register32(w);
      case Register16(v) =>
        var w := Crc16.BufferUpdate(v, data, start, length);
        g' := Register16(w);
    }
  }

  /** The end of the frame check, and the comparison with the bytes received. */
  predicate Agrees(g: Register, t: bv8, check: seq<bv8>)
    requires |check| == if g.Register32? then 4 else 2
  {
    match g
    case Register32(v) => Word32(check) == !Crc.Byte32(v, t)
    case Register16(v) => Word16(check) == Crc16.Byte16(Crc16.Byte16(Crc16.Byte16(v, t), 0), 0)
  }

  lemma AgreesWithStream(fcs32: bool, data: seq<bv8>, t: bv8, check: seq<bv8>)
    requires |check| == if fcs32 then 4 else 2
    ensures Agrees(FoldRegister(Start(fcs32), data), t, check) <==> CheckHolds(fcs32, data, t, check)
  {
    hide Crc.Fold32, Crc.Byte32, Crc16.Fold16, Crc16.Byte16, Word32, Word16;
  }

  // ---------- What has been received so far ----------

  /** The buffer holds the clipped stream; the register has seen the stream only if it overflowed. */
  ghost predicate Stored(p: array<bv8>, limit: nat, fcs32: bool, data: seq<bv8>, used: nat, overflow: bool, g: Register)
    reads p
  {
    && used <= limit <= p.Length && p[..used] == Clip(data, limit)
    && overflow == (|data| > limit)
    && g == if overflow then FoldRegister(Start(fcs32), data) else Start(fcs32)
  }

  lemma StoredMore(p: array<bv8>, limit: nat, fcs32: bool, data: seq<bv8>, more: seq<bv8>, used: nat, overflow: bool,
                   g: Register)
    requires Stored(p, limit, fcs32, data, used, overflow, g)
    ensures used == if |data| <= limit then |data| else limit
    ensures |data + more| <= limit ==> Clip(data + more, limit) == p[..used] + more
    ensures |data| <= limit < |data + more| ==> Clip(data + more, limit) == p[..used] + more[..limit - used]
    ensures |data| > limit ==> Clip(data + more, limit) == p[..used]
  {
    if |data| > limit {
      assert (data + more)[..limit] == data[..limit];
    } else if |data + more| > limit {
      assert (data + more)[..limit] == data + more[..limit - |data|];
    }
  }

  /** Bytes beyond the buffer go through the register only. */
  method Spill(p: array<bv8>, source: array<bv8>, from: nat, count: nat, limit: nat, used: nat, overflow: bool,
               g: Register,
               ghost fcs32: bool, ghost data: seq<bv8>)
    returns (g': Register)
    requires used <= p.Length && from + count <= source.Length && 0 < count
    requires p[..used] == Clip(data, limit) && overflow == (|data| > limit)
    requires g == if overflow then FoldRegister(Start(fcs32), data) else Start(fcs32)
    ensures g' == FoldRegister(Start(fcs32), data + source[from..from + count])
  {
    hide FoldRegister, Start;
    g' := g;
    if !overflow {
      assert p[0..used] == p[..used];
      g' := Update(g', p, 0, used);
    }
    g' := Update(g', source, from, count);
    FoldRegisterConcat(Start(fcs32), data, source[from..from + count]);
  }

  /** A run of plain bytes of the input buffer, into the packet buffer as far as it has room. */
  method TakeSpan(z: Zmodem, p: array<bv8>, index: nat, span: nat, limit: nat, used: nat, overflow: bool, g: Register,
                  ghost fcs32: bool, ghost data: seq<bv8>)
    returns (used': nat, overflow': bool, g': Register)
    requires z.Valid() && p != z.inputBuffer && 0 < span && index + span <= z.inputBuffer.Length
    requires Stored(p, limit, fcs32, data, used, overflow, g)
    modifies p
    ensures Stored(p, limit, fcs32, data + old(z.inputBuffer[index..index + span]), used', overflow', g')
  {
    hide FoldRegister, Start;
    ghost var run := z.inputBuffer[index..index + span];
    ghost var kept := p[..used];
    StoredMore(p, limit, fcs32, data, run, used, overflow, g);
    overflow', g' := overflow, g;
    var copied := if span > limit - used then limit - used else span;
    forall i | 0 <= i < copied {
      p[used + i] := z.inputBuffer[index + i];
    }
    used' := used + copied;
    assert p[..used'] == kept + run[..copied];
    assert run[..span] == run;
    if copied < span {
      ghost var stream := data + run[..copied];
      assert stream + z.inputBuffer[index + copied..index + copied + (span - copied)] == data + run;
      if overflow {
        assert stream == data;
      }
      g' := Spill(p, z.inputBuffer, index + copied, span - copied, limit, used', overflow', g', fcs32, stream);
      overflow' := true;
    }
  }

  /** One decoded byte. */
  method TakeByte(p: array<bv8>, c: bv8, limit: nat, used: nat, overflow: bool, g: Register, ghost fcs32: bool,
                  ghost data: seq<bv8>)
    returns (used': nat, overflow': bool, g': Register)
    requires Stored(p, limit, fcs32, data, used, overflow, g)
    modifies p
    ensures Stored(p, limit, fcs32, data + [c], used', overflow', g')
  {
    hide FoldRegister, Start;
    StoredMore(p, limit, fcs32, data, [c], used, overflow, g);
    ghost var kept := p[..used];
    used', overflow', g' := used, overflow, g;
    if used < limit {
      p[used] := c;
      used' := used + 1;
      assert p[..used'] == kept + [c];
    } else {
      if !overflow {
        assert p[0..used] == p[..used];
        g' := Update(g', p, 0, used);
        overflow' := true;
      }
      FoldRegisterConcat(Start(fcs32), data, [c]);
      g' := FoldRegister(g', [c]);
    }
  }

  // ---------- Collecting ----------

  /** Plain bytes decode to themselves. */
  lemma {:induction false} CollectPlain(r: RxMode, s: seq<bv8>, rest: Input, cancels: nat)
    requires s != [] && forall i :: 0 <= i < |s| ==> !NeedsSlowPath(r, s[i])
    ensures var after := Collect(r, rest, 0);
            Collect(r, Feed(s, rest), cancels) == after.(data := s + after.data)
    decreases s
  {
    hide Next, NeedsSlowPath;
    NextPlain(r, s[0], Feed(s[1..], rest), cancels);
    if s[1..] == [] {
      assert s == [s[0]];
    } else {
      CollectPlain(r, s[1..], rest, 0);
      assert s == [s[0]] + s[1..];
      var after := Collect(r, rest, 0);
      assert [s[0]] + (s[1..] + after.data) == s + after.data;
    }
  }

  lemma CollectStep(r: RxMode, input: Input, cancels: nat)
    ensures var s := Next(r, Fresh, input, cancels);
            Collect(r, input, cancels) ==
            if s.symbol.Byte? then
              var after := Collect(r, s.rest, s.cancels);
              after.(data := [s.symbol.b] + after.data)
            else Collected([], s.symbol, s.rest, s.cancels)
  {}

  ghost predicate Prefixed(whole: Collected, data: seq<bv8>, after: Collected) {
    whole == after.(data := data + after.data)
  }

  lemma PrefixedMore(whole: Collected, data: seq<bv8>, more: seq<bv8>, after: Collected)
    requires Prefixed(whole, data, after.(data := more + after.data))
    ensures Prefixed(whole, data + more, after)
  {
    assert data + (more + after.data) == (data + more) + after.data;
  }

  lemma SplitAhead(z: Zmodem, c: Cursor, span: nat)
    requires z.Valid() && z.Holds(c) && 0 < span <= c.count
    ensures var beyond := Cursor(c.count - span, c.index + span, 0);
            z.Ahead(c) == Feed(z.inputBuffer[c.index..c.index + span], z.Ahead(beyond)) && z.Ahead(beyond) < z.Ahead(c)
  {
    var run := z.inputBuffer[c.index..c.index + span];
    var left := z.inputBuffer[c.index + span..c.index + c.count];
    assert z.inputBuffer[c.index..c.index + c.count] == run + left;
    FeedConcat(run, left, Replay(z.script));
    FeedShrinks(run, Feed(left, Replay(z.script)));
  }

  /** The receive loop of rx_32_data and rx_16_data: plain spans by memcpy, everything else a byte at a
      time.  It delivers the collected stream, whatever the reads were. */
  method RxCollect(z: Zmodem, fcs32: bool, p: array<bv8>, limit: nat, first: Cursor)
    returns (result: Symbol, next: Cursor, used: nat, overflow: bool, g: Register)
    requires z.Valid() && z.Holds(first) && limit <= p.Length && p != z.inputBuffer
    modifies z`script, z`inputCount, z`inputIndex, z`cancelCount, z.inputBuffer, p
    ensures z.Valid() && z.Holds(next) && used <= limit
    ensures var c := Collect(z.Mode(), old(z.Ahead(first)), first.cancels);
            && Scan(result, z.Ahead(next), next.cancels) == Scan(c.result, c.rest, c.cancels)
            && Stored(p, limit, fcs32, c.data, used, overflow, g)
  {
    hide Next, Collect, NeedsSlowPath, Stored, FoldRegister, Start;
    var r := z.Mode();
    ghost var whole := Collect(r, z.Ahead(first), first.cancels);
    ghost var data: seq<bv8> := [];
    next, used, overflow, g := first, 0, false, Start(fcs32);
    assert whole.data == [] + whole.data;
    NothingStored(p, limit, fcs32);
    while true
      invariant z.Valid() && z.Holds(next)
      invariant Stored(p, limit, fcs32, data, used, overflow, g)
      invariant Prefixed(whole, data, Collect(r, z.Ahead(next), next.cancels))
      decreases z.Ahead(next)
    {
      ghost var ahead := z.Ahead(next);
      var span := RxPlainSpan(z.wordForm, r, z.inputBuffer, next.index, next.count);
      if span > 0 {
        ghost var run := z.inputBuffer[next.index..next.index + span];
        var beyond := Cursor(next.count - span, next.index + span, 0);
        SplitAhead(z, next, span);
        CollectPlain(r, run, z.Ahead(beyond), next.cancels);
        PrefixedMore(whole, data, run, Collect(r, z.Ahead(beyond), 0));
        used, overflow, g := TakeSpan(z, p, next.index, span, limit, used, overflow, g, fcs32, data);
        data := data + run;
        next := beyond;
        continue;
      }
      CollectStep(r, ahead, next.cancels);
      result, next := RxCursor(z, next);
      if !result.Byte? {
        assert data + [] == data;
        assert Stored(p, limit, fcs32, whole.data, used, overflow, g);
        StoredUsed(p, limit, fcs32, data, used, overflow, g);
        return;
      }
      PrefixedMore(whole, data, [result.b], Collect(r, z.Ahead(next), next.cancels));
      used, overflow, g := TakeByte(p, result.b, limit, used, overflow, g, fcs32, data);
      data := data + [result.b];
    }
  }

  lemma NothingStored(p: array<bv8>, limit: nat, fcs32: bool)
    requires limit <= p.Length
    ensures Stored(p, limit, fcs32, [], 0, false, Start(fcs32))
  {}

  lemma StoredUsed(p: array<bv8>, limit: nat, fcs32: bool, data: seq<bv8>, used: nat, overflow: bool, g: Register)
    requires Stored(p, limit, fcs32, data, used, overflow, g)
    ensures used <= limit
  {}

  lemma {:induction false} FeedShrinks(w: seq<bv8>, rest: Input)
    requires w != []
    ensures rest < Feed(w, rest)
    decreases w
  {
    if w[1..] != [] {
      FeedShrinks(w[1..], rest);
    }
  }

  // ---------- Frame checks and whole packets ----------

  /** rx_byte, n times over: rx_crc16, rx_crc32 and the header fields. */
  method RxTake(z: Zmodem, n: nat, invalid: ErrorCode) returns (code: int, bytes: seq<bv8>)
    requires z.Valid()
    modifies z`script, z`inputCount, z`inputIndex, z`cancelCount, z.inputBuffer
    ensures z.Valid()
    ensures Taken(code, bytes, z.Pending(), z.cancelCount)
              == Take(z.Mode(), n, invalid, old(z.Pending()), old(z.cancelCount))
  {
    hide Next;
    var r := z.Mode();
    ghost var whole := Take(r, n, invalid, z.Pending(), z.cancelCount);
    bytes := [];
    var i := 0;
    assert whole.bytes == [] + whole.bytes;
    while i < n
      invariant i <= n && z.Valid()
      invariant var after := Take(r, n - i, invalid, z.Pending(), z.cancelCount);
                whole == after.(bytes := bytes + after.bytes)
    {
      var c := Rx(z);
      match c {
        case Fail(e) =>
          assert bytes + [] == bytes;
          return e, bytes;
        case End(_) =>
          assert bytes + [] == bytes;
          return invalid, bytes;
        case Byte(b) =>
          ghost var after := Take(r, n - i - 1, invalid, z.Pending(), z.cancelCount);
          assert bytes + ([b] + after.bytes) == (bytes + [b]) + after.bytes;
          bytes := bytes + [b];
          i := i + 1;
      }
    }
    assert bytes + [] == bytes;
    code := OK;
  }

  /** The end of rx_32_data and rx_16_data: read the frame check, compare, and refuse what overflowed. */
  method RxVerdict(z: Zmodem, fcs32: bool, g: Register, t: bv8, overflow: bool, ghost data: seq<bv8>)
    returns (outcome: Outcome)
    requires z.Valid() && g == FoldRegister(Start(fcs32), data)
    modifies z`script, z`inputCount, z`inputIndex, z`cancelCount, z.inputBuffer
    ensures z.Valid()
    ensures var k := Take(z.Mode(), if fcs32 then 4 else 2, INVALID_DATA, old(z.Pending()), old(z.cancelCount));
            && z.Pending() == k.rest && z.cancelCount == k.cancels
            && outcome == if k.code < OK then Rejected(k.code)
                          else if !CheckHolds(fcs32, data, t, k.bytes) || overflow then Rejected(INVALID_DATA)
                          else Accepted(t)
  {
    hide Take, CheckHolds, Agrees, FoldRegister, Start;
    AgreesKind(fcs32, data);
    var code, check := RxTake(z, if fcs32 then 4 else 2, INVALID_DATA);
    if code != OK {
      return Rejected(code);
    }
    AgreesWithStream(fcs32, data, t, check);
    if !Agrees(g, t, check) {
      return Rejected(INVALID_DATA);
    }
    if overflow {
      return Rejected(INVALID_DATA);
    }
    outcome := Accepted(t);
  }

  lemma StoredMeans(p: array<bv8>, limit: nat, fcs32: bool, data: seq<bv8>, used: nat, overflow: bool, g: Register)
    requires Stored(p, limit, fcs32, data, used, overflow, g)
    ensures used <= p.Length && p[..used] == Clip(data, limit) && overflow == (|data| > limit)
  {}

  /** The register over all of the stream, which has been through it already only if it overflowed. */
  method FinishRegister(p: array<bv8>, limit: nat, used: nat, overflow: bool, g: Register, ghost fcs32: bool,
                        ghost data: seq<bv8>)
    returns (g': Register)
    requires Stored(p, limit, fcs32, data, used, overflow, g)
    ensures g' == FoldRegister(Start(fcs32), data)
  {
    hide FoldRegister, Start;
    g' := g;
    if !overflow {
      assert p[0..used] == p[..used];
      g' := Update(g', p, 0, used);
    }
  }

  /** rx_32_data and rx_16_data: what is received, and how much of the input that takes, is a function of
      the input alone, not of how it was divided into reads. */
  method RxCheckedData(z: Zmodem, fcs32: bool, p: array<bv8>, capacity: nat) returns (outcome: Outcome, l: nat)
    requires z.Valid() && capacity <= p.Length && p != z.inputBuffer
    modifies z`script, z`inputCount, z`inputIndex, z`cancelCount, z.inputBuffer, p
    ensures z.Valid() && l <= p.Length
    ensures Packet(outcome, p[..l], z.Pending(), z.cancelCount)
         == Receive(z.Mode(), fcs32, capacity, old(z.Pending()), old(z.cancelCount))
    ensures var data := Collect(z.Mode(), old(z.Pending()), old(z.cancelCount)).data;
            && p[..l] == Clip(data, Limit(capacity))
            && (|data| > Limit(capacity) ==> outcome.Rejected?) && (outcome.Accepted? ==> p[..l] == data)
  {
    hide Collect, Take, CheckHolds, FoldRegister, Start, Stored, Clip;
    AcceptedExactly(z.Mode(), fcs32, capacity, z.Pending(), z.cancelCount);
    var limit := if capacity < ZMAXSPLEN then capacity else ZMAXSPLEN;
    var cursor := LoadRxCursor(z);
    ghost var data := Collect(z.Mode(), z.Pending(), z.cancelCount).data;
    var result, next, used, overflow, g := RxCollect(z, fcs32, p, limit, cursor);
    StoreRxCursor(z, next);
    l := used;
    StoredMeans(p, limit, fcs32, data, used, overflow, g);
    if result.Fail? {
      return Rejected(result.code), l;
    }
    g := FinishRegister(p, limit, used, overflow, g, fcs32, data);
    ghost var stored := p[..l];
    outcome := RxVerdict(z, fcs32, g, result.t, overflow, data);
    assert p[..l] == stored;
  }

  lemma AgreesKind(fcs32: bool, data: seq<bv8>)
    ensures FoldRegister(Start(fcs32), data).Register32? == fcs32
  {
    hide Crc.Fold32, Crc16.Fold16;
  }
}
