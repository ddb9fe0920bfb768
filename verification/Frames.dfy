/** zmdm.c: tx_data and rx_data over all encodings, and whole frames: whatever the sender's flags, the
    decoder that a header selects is the one for the encoder that tx_data chooses. */
module Frames {
  import opened Bytes
  import opened Quoting
  import opened Subpackets
  import opened Omen
  import opened Rle
  import opened Pack7
  import opened Headers
  import opened HeaderLaws

  /** tx_data: the encoder the flags select. */
  function DataWire(f: Flags, previous: bv8, data: seq<bv8>, t: bv8): seq<bv8> {
    if f.esc8 then (if f.pack7 then PackWire(data, t) else OmenWire(f.escctl, data, t))
    else PacketWire(TxMode(f.moby, f.escctl, f.iac), f.moby || (f.wantFcs32 && f.canFcs32), previous, data, t)
  }

  /** rx_data: the decoder the receive modes select. */
  function ReceiveData(r: RxMode, capacity: nat, input: Input, cancels: nat): Packet {
    match r.encoding
    case Pack7 => ReceivePack7(r, capacity, input, cancels)
    case Rle => ReceiveRle(r, capacity, input, cancels)
    case Plain => Receive(r, r.fcs32, capacity, input, cancels)
  }

  // ---------- One packet ----------

  /** The flow control that may stand between a hex header and its data. */
  predicate IsLead(f: Flags, lead: seq<bv8>) {
    lead == [] || (lead == [XON] && StyleOf(f).Hex?)
  }

  lemma NextBehindXon(r: RxMode, rest: Input, cancels: nat)
    requires !r.moby
    ensures Next(r, Fresh, Octet(XON, rest), cancels) == Next(r, Fresh, rest, 0)
  {
    var raw := Raw(r, rest, 0);
    if raw.symbol.Byte? {
      var c := raw.symbol.b;
      assert NeedsSlowPath(r, c) <==> (c == ZDLE || IsFlowControl(c) || IsUnescapedControl(r, c));
      assert !(c == ZDLE && (IsFlowControl(c) || IsUnescapedControl(r, c)));
    }
  }

  lemma ReceiveBehindXon(r: RxMode, capacity: nat, rest: Input, cancels: nat)
    requires !r.moby && r.encoding.Plain?
    ensures ReceiveData(r, capacity, Octet(XON, rest), cancels) == ReceiveData(r, capacity, rest, 0)
  {
    hide Next, Take, CheckHolds;
    NextBehindXon(r, rest, cancels);
    assert Collect(r, Octet(XON, rest), cancels) == Collect(r, rest, 0);
  }

  lemma EightBitRoundTrip(f: Flags, r: RxMode, previous: bv8, data: seq<bv8>, t: bv8, capacity: nat, rest: Input)
    requires !f.esc8 && r.encoding.Plain? && r.moby == f.moby && (r.escctl ==> f.escctl)
    requires r.fcs32 == (f.moby || (f.wantFcs32 && f.canFcs32))
    requires IsTerminator(t) && |data| <= Limit(capacity)
    ensures ReceiveData(r, capacity, Feed(DataWire(f, previous, data, t), rest), 0)
         == Packet(Accepted(t), data, Feed(Trailer(t), rest), 0)
  {
    hide Receive, PacketWire;
    PacketRoundTrip(TxMode(f.moby, f.escctl, f.iac), r, r.fcs32, previous, data, t, capacity, rest, 0);
  }

  lemma SevenBitRoundTrip(f: Flags, r: RxMode, previous: bv8, data: seq<bv8>, t: bv8, capacity: nat, rest: Input)
    requires f.esc8 && r.encoding == (if f.pack7 then Encoding.Pack7 else Encoding.Rle)
    requires !r.moby && r.escape8.Escape8Omen? && (r.escctl ==> f.escctl)
    requires IsTerminator(t) && |data| <= Limit(capacity)
    ensures ReceiveData(r, capacity, Feed(DataWire(f, previous, data, t), rest), 0)
         == Packet(Accepted(t), data, Feed(Trailer(t), rest), 0)
  {
    hide ReceiveRle, ReceivePack7, PackWire, OmenWire, FlowTail, Strip, IsTerminator;
    var w := DataWire(f, previous, data, t);
    if f.pack7 {
      PackBodyPrintable(data, t);
      PackRoundTrip(r, data, t, capacity, w, rest, 0);
    } else {
      OmenWireSevenBit(f.escctl, data, t);
      OmenRoundTrip(f.escctl, r, data, t, capacity, w, rest, 0);
    }
  }

  /** In the modes that its header left, the receiver undoes whatever encoding tx_data chose. */
  lemma DataRoundTrip(f: Flags, older: RxMode, previous: bv8, data: seq<bv8>, t: bv8, capacity: nat, lead: seq<bv8>,
                      rest: Input)
    requires (older.escctl ==> f.escctl) && IsTerminator(t) && |data| <= Limit(capacity) && IsLead(f, lead)
    ensures ReceiveData(ModeAfter(f, older), capacity, Feed(lead, Feed(DataWire(f, previous, data, t), rest)), 0)
         == Packet(Accepted(t), data, Feed(Trailer(t), rest), 0)
  {
    hide ReceiveData, DataWire, IsTerminator;
    var r := ModeAfter(f, older);
    var input := Feed(DataWire(f, previous, data, t), rest);
    if lead == [XON] {
      FeedOne(XON, input);
      ReceiveBehindXon(r, capacity, input, 0);
    }
    if f.esc8 {
      SevenBitRoundTrip(f, r, previous, data, t, capacity, rest);
    } else {
      EightBitRoundTrip(f, r, previous, data, t, capacity, rest);
    }
  }

  // ---------- Frames ----------

  datatype Piece = Piece(data: seq<bv8>, t: bv8)

  /** The data subpackets of a frame, sent one after the other. */
  function PiecesWire(f: Flags, previous: bv8, pieces: seq<Piece>): seq<bv8>
    decreases pieces
  {
    if pieces == [] then []
    else
      var w := DataWire(f, previous, pieces[0].data, pieces[0].t);
      w + PiecesWire(f, LastSent(previous, w), pieces[1..])
  }

  /** Some calls of rx_data: what they accepted, and whether all of them did. */
  datatype Pieces = Pieces(got: seq<Piece>, complete: bool, rest: Input, cancels: nat)

  function ReceivePieces(r: RxMode, n: nat, capacity: nat, input: Input, cancels: nat): Pieces
    decreases n
  {
    if n == 0 then Pieces([], true, input, cancels)
    else
      var p := ReceiveData(r, capacity, input, cancels);
      if p.outcome.Rejected? then Pieces([], false, p.rest, p.cancels)
      else
        var more := ReceivePieces(r, n - 1, capacity, p.rest, p.cancels);
        more.(got := [Piece(p.payload, p.outcome.t)] + more.got)
  }

  /** Proper terminators, payloads that fit, and ZCRCW nowhere but at the end. */
  predicate Sendable(capacity: nat, pieces: seq<Piece>) {
    && (forall i :: 0 <= i < |pieces| ==> IsTerminator(pieces[i].t) && |pieces[i].data| <= Limit(capacity))
    && (forall i :: 0 <= i < |pieces| - 1 ==> pieces[i].t != ZCRCW)
  }

  /** The flow control left on the line by a frame. */
  function Leftover(lead: seq<bv8>, pieces: seq<Piece>): seq<bv8> {
    if pieces == [] then lead else Trailer(pieces[|pieces| - 1].t)
  }

  lemma {:induction false} PiecesRoundTrip(f: Flags, older: RxMode, previous: bv8, pieces: seq<Piece>, capacity: nat,
                                           lead: seq<bv8>, rest: Input)
    requires (older.escctl ==> f.escctl) && Sendable(capacity, pieces) && IsLead(f, lead)
    ensures ReceivePieces(ModeAfter(f, older), |pieces|, capacity,
                          Feed(lead, Feed(PiecesWire(f, previous, pieces), rest)), 0)
         == Pieces(pieces, true, Feed(Leftover(lead, pieces), rest), 0)
    decreases pieces
  {
    hide ReceiveData, DataWire, IsTerminator, IsLead, ModeAfter, Limit, LastSent;
    if pieces != [] {
      var p := pieces[0];
      var w := DataWire(f, previous, p.data, p.t);
      var tail := PiecesWire(f, LastSent(previous, w), pieces[1..]);
      FeedConcat(w, tail, rest);
      DataRoundTrip(f, older, previous, p.data, p.t, capacity, lead, Feed(tail, rest));
      assert pieces == [p] + pieces[1..];
      if pieces[1..] != [] {
        assert p.t == pieces[0].t != ZCRCW;
        assert Trailer(p.t) == [];
        NoLead(f);
        PiecesRoundTrip(f, older, LastSent(previous, w), pieces[1..], capacity, [], rest);
      }
    }
  }

  lemma NoLead(f: Flags)
    ensures IsLead(f, [])
  {}

  /** A header, perhaps behind the probe string, and the packets that follow it. */
  datatype Frame = Frame(probe: bool, flags: Flags, header: seq<bv8>, pieces: seq<Piece>)

  predicate FrameOk(capacity: nat, escctl: bool, frame: Frame) {
    IsHeader(frame.header) && (escctl ==> frame.flags.escctl) && Sendable(capacity, frame.pieces)
  }

  function ProbeWire(probe: bool): seq<bv8> {
    if probe then PROBE else []
  }

  function FrameWire(previous: bv8, frame: Frame): seq<bv8>
    requires IsHeader(frame.header)
  {
    var front := ProbeWire(frame.probe) + HeaderWire(frame.flags, frame.header);
    front + PiecesWire(frame.flags, LastSent(previous, front), frame.pieces)
  }

  /** What a receiver makes of a frame: rx_header, then a number of calls of rx_data. */
  datatype Received = Received(header: seq<bv8>, probe: bool, pieces: seq<Piece>)
  datatype FrameRead = FrameRead(taken: Received, complete: bool, mode: RxMode, rest: Input, cancels: nat)

  function ReceiveFrame(r: RxMode, n: nat, capacity: nat, input: Input, cancels: nat): FrameRead {
    var h := FindHeader(r, false, Probe(0, false), input, cancels);
    if h.code != OK then FrameRead(Received([], false, []), false, h.mode, h.rest, h.cancels)
    else
      var p := ReceivePieces(h.mode, n, capacity, h.rest, h.cancels);
      FrameRead(Received(h.header, h.probe, p.got), p.complete, h.mode, p.rest, p.cancels)
  }

  function FrameLeftover(frame: Frame): seq<bv8>
    requires IsHeader(frame.header)
  {
    Leftover(HeaderTrailer(frame.flags, frame.header), frame.pieces)
  }

  lemma SkipXon(r: RxMode, lead: seq<bv8>, rest: Input, cancels: nat)
    requires lead == [] || lead == [XON]
    ensures lead == [] || FindHeader(r, false, Probe(0, false), Feed(lead, rest), cancels)
                          == FindHeader(r, false, Probe(0, false), rest, 0)
    ensures lead == [] ==> Feed(lead, rest) == rest
  {
    hide FindHeader;
    if lead == [XON] {
      FeedOne(XON, rest);
      SkipByte(r, false, Probe(0, false), XON, rest, cancels);
      assert ProbeStep(Probe(0, false), XON) == Probe(0, false);
    }
  }

  /** The header of a frame, behind what the frame before it left on the line. */
  lemma FrameHeader(frame: Frame, r: RxMode, lead: seq<bv8>, rest: Input)
    requires IsHeader(frame.header) && (r.escctl ==> frame.flags.escctl) && (lead == [] || lead == [XON])
    ensures FindHeader(r, false, Probe(0, false),
                       Feed(lead, Feed(ProbeWire(frame.probe) + HeaderWire(frame.flags, frame.header), rest)), 0)
         == Found(OK, frame.header, ModeAfter(frame.flags, r), frame.probe,
                  Feed(HeaderTrailer(frame.flags, frame.header), rest), 0)
  {
    hide FindHeader, HeaderWire, ModeAfter, HeaderTrailer;
    var w := HeaderWire(frame.flags, frame.header);
    SkipXon(r, lead, Feed(ProbeWire(frame.probe) + w, rest), 0);
    FeedConcat(ProbeWire(frame.probe), w, rest);
    if frame.probe {
      ProbeIsSeen(r, false, Probe(0, false), Feed(w, rest), 0);
    }
    HeaderRoundTrip(frame.flags, r, false, Probe(0, frame.probe), frame.header, rest, 0);
  }

  /** A whole frame is received as it was sent, whatever mode was used before it. */
  lemma FrameRoundTrip(frame: Frame, r: RxMode, previous: bv8, capacity: nat, lead: seq<bv8>, rest: Input)
    requires FrameOk(capacity, r.escctl, frame) && (lead == [] || lead == [XON])
    ensures ReceiveFrame(r, |frame.pieces|, capacity, Feed(lead, Feed(FrameWire(previous, frame), rest)), 0)
         == FrameRead(Received(frame.header, frame.probe, frame.pieces), true, ModeAfter(frame.flags, r),
                      Feed(FrameLeftover(frame), rest), 0)
  {
    hide FindHeader, HeaderWire, ModeAfter, PiecesWire, Sendable, LastSent, ReceivePieces, Leftover;
    var front := ProbeWire(frame.probe) + HeaderWire(frame.flags, frame.header);
    var tail := PiecesWire(frame.flags, LastSent(previous, front), frame.pieces);
    FeedConcat(front, tail, rest);
    FrameHeader(frame, r, lead, Feed(tail, rest));
    PiecesRoundTrip(frame.flags, r, LastSent(previous, front), frame.pieces, capacity,
                    HeaderTrailer(frame.flags, frame.header), rest);
  }

  // ---------- Sessions ----------

  function SessionWire(previous: bv8, frames: seq<Frame>): seq<bv8>
    requires forall i :: 0 <= i < |frames| ==> IsHeader(frames[i].header)
    decreases frames
  {
    if frames == [] then []
    else
      var w := FrameWire(previous, frames[0]);
      w + SessionWire(LastSent(previous, w), frames[1..])
  }

  datatype Session = Session(taken: seq<Received>, complete: bool, rest: Input, cancels: nat)

  /** Frame after frame, each with its number of packets. */
  function ReceiveSession(r: RxMode, counts: seq<nat>, capacity: nat, input: Input, cancels: nat): Session
    decreases counts
  {
    if counts == [] then Session([], true, input, cancels)
    else
      var one := ReceiveFrame(r, counts[0], capacity, input, cancels);
      if !one.complete then Session([], false, one.rest, one.cancels)
      else
        var more := ReceiveSession(one.mode, counts[1..], capacity, one.rest, one.cancels);
        more.(taken := [one.taken] + more.taken)
  }

  function Sent(frames: seq<Frame>): (s: seq<Received>)
    ensures |s| == |frames|
    decreases frames
  {
    if frames == [] then [] else [Received(frames[0].header, frames[0].probe, frames[0].pieces)] + Sent(frames[1..])
  }

  function Counts(frames: seq<Frame>): (n: seq<nat>)
    ensures |n| == |frames|
    decreases frames
  {
    if frames == [] then [] else [|frames[0].pieces|] + Counts(frames[1..])
  }

  /** Any list of frames, each sent with flags of its own, is received frame by frame as it was sent, from
      any mode the receiver starts in; at the end at most one XON is left. */
  lemma {:induction false} SessionRoundTrip(frames: seq<Frame>, r: RxMode, previous: bv8, capacity: nat,
                                            lead: seq<bv8>, rest: Input)
    returns (left: seq<bv8>)
    requires forall i :: 0 <= i < |frames| ==> IsHeader(frames[i].header) && FrameOk(capacity, r.escctl, frames[i])
    requires lead == [] || lead == [XON]
    ensures left == [] || left == [XON]
    ensures ReceiveSession(r, Counts(frames), capacity, Feed(lead, Feed(SessionWire(previous, frames), rest)), 0)
         == Session(Sent(frames), true, Feed(left, rest), 0)
    decreases frames
  {
    hide ReceiveFrame, FrameWire, FrameOk, ModeAfter, FrameLeftover, LastSent;
    if frames == [] {
      left := lead;
    } else {
      var frame := frames[0];
      assert FrameOk(capacity, r.escctl, frame);
      var w := FrameWire(previous, frame);
      var tail := SessionWire(LastSent(previous, w), frames[1..]);
      FeedConcat(w, tail, rest);
      FrameRoundTrip(frame, r, previous, capacity, lead, Feed(tail, rest));
      LeftoverIsXon(frame);
      KeepsEscctl(frame.flags, r);
      left := SessionRoundTrip(frames[1..], ModeAfter(frame.flags, r), LastSent(previous, w), capacity,
                               FrameLeftover(frame), rest);
    }
  }

  lemma KeepsEscctl(f: Flags, r: RxMode)
    ensures ModeAfter(f, r).escctl == r.escctl
  {}

  lemma LeftoverIsXon(frame: Frame)
    requires IsHeader(frame.header)
    ensures FrameLeftover(frame) == [] || FrameLeftover(frame) == [XON]
  {}

  // ---------- No sequence of frames reads as an abort ----------

  lemma DataSafe(f: Flags, previous: bv8, data: seq<bv8>, t: bv8)
    requires IsTerminator(t)
    ensures CancelSafe(DataWire(f, previous, data, t))
  {
    hide PacketWire, PackWire, OmenWire, CancelSafe, IsTerminator;
    PacketTransparent(TxMode(f.moby, f.escctl, f.iac), f.moby || (f.wantFcs32 && f.canFcs32), previous, data, t);
    PackBodyPrintable(data, t);
    OmenWireSevenBit(f.escctl, data, t);
  }

  lemma {:induction false} PiecesSafe(f: Flags, previous: bv8, pieces: seq<Piece>)
    requires forall i :: 0 <= i < |pieces| ==> IsTerminator(pieces[i].t)
    ensures CancelSafe(PiecesWire(f, previous, pieces))
    decreases pieces
  {
    hide DataWire, IsTerminator, LastSent;
    if pieces != [] {
      var w := DataWire(f, previous, pieces[0].data, pieces[0].t);
      DataSafe(f, previous, pieces[0].data, pieces[0].t);
      PiecesSafe(f, LastSent(previous, w), pieces[1..]);
      CancelSafeConcat(w, PiecesWire(f, LastSent(previous, w), pieces[1..]));
    }
  }

  lemma ProbeSafe(probe: bool)
    ensures CancelSafe(ProbeWire(probe))
  {}

  lemma FrameSafe(previous: bv8, frame: Frame)
    requires IsHeader(frame.header) && forall i :: 0 <= i < |frame.pieces| ==> IsTerminator(frame.pieces[i].t)
    ensures CancelSafe(FrameWire(previous, frame))
  {
    hide HeaderWire, PiecesWire, CancelSafe, IsTerminator, LastSent, ProbeWire;
    var front := ProbeWire(frame.probe) + HeaderWire(frame.flags, frame.header);
    ProbeSafe(frame.probe);
    HeaderTransparent(frame.flags, previous, frame.header);
    CancelSafeConcat(ProbeWire(frame.probe), HeaderWire(frame.flags, frame.header));
    PiecesSafe(frame.flags, LastSent(previous, front), frame.pieces);
    CancelSafeConcat(front, PiecesWire(frame.flags, LastSent(previous, front), frame.pieces));
  }

  /** However many frames are sent, with whatever flags, no two CANs ever stand together on the line. */
  lemma {:induction false} SessionSafe(previous: bv8, frames: seq<Frame>)
    requires forall i :: 0 <= i < |frames| ==> IsHeader(frames[i].header)
    requires forall i, j :: 0 <= i < |frames| && 0 <= j < |frames[i].pieces| ==> IsTerminator(frames[i].pieces[j].t)
    ensures CancelSafe(SessionWire(previous, frames))
    decreases frames
  {
    hide FrameWire, IsTerminator, LastSent;
    if frames != [] {
      var w := FrameWire(previous, frames[0]);
      FrameSafe(previous, frames[0]);
      SessionSafe(LastSent(previous, w), frames[1..]);
      CancelSafeConcat(w, SessionWire(LastSent(previous, w), frames[1..]));
    }
  }

  /** So the raw receiver never takes a session for an abort, in whatever mode it reads. */
  lemma SessionNeverAborts(r: RxMode, previous: bv8, frames: seq<Frame>)
    requires forall i :: 0 <= i < |frames| ==> IsHeader(frames[i].header)
    requires forall i, j :: 0 <= i < |frames| && 0 <= j < |frames[i].pieces| ==> IsTerminator(frames[i].pieces[j].t)
    ensures !Aborts(r, SessionWire(previous, frames), 0)
  {
    hide SessionWire, Aborts, IsTerminator, IsHeader, CancelSafe;
    SessionSafe(previous, frames);
    CancelSafeNeverAborts(r, SessionWire(previous, frames), 0);
  }

  // ---------- Sessions in ordinary styles are transparent ----------

  predicate Ordinary(f: Flags) {
    !f.esc8 && !f.moby
  }

  /** Which bytes of a wire are the XONs behind hex headers and ZCRCW packets: a body, then its trailer. */
  function Trailing(body: nat, trailer: nat): (mask: seq<bool>)
    ensures |mask| == body + trailer
    ensures forall i :: 0 <= i < |mask| ==> mask[i] == (i >= body)
  {
    seq(body + trailer, i => i >= body)
  }

  /** The only flow control of a wire is where the mask says, there is no other byte a network may act on,
      and no CR directly behind '@'. */
  ghost predicate Screened(previous: bv8, w: seq<bv8>, mask: seq<bool>) {
    && |mask| == |w|
    && (forall i :: 0 <= i < |w| ==> if mask[i] then w[i] == XON else !IsNetworkControl(w[i]))
    && (forall i :: 0 <= i < |w| && IsReturn(w[i]) ==> LastSent(previous, w[..i]) != 0x40)
  }

  lemma ScreenedConcat(previous: bv8, a: seq<bv8>, m: seq<bool>, b: seq<bv8>, n: seq<bool>)
    requires Screened(previous, a, m) && Screened(LastSent(previous, a), b, n)
    ensures Screened(previous, a + b, m + n)
  {
    hide IsNetworkControl, IsReturn;
    var w := a + b;
    forall i | 0 <= i < |w| && IsReturn(w[i])
      ensures LastSent(previous, w[..i]) != 0x40
    {
      if i < |a| {
        assert w[..i] == a[..i];
      } else {
        assert w[..i] == a + b[..i - |a|];
        LastSentConcat(previous, a, b[..i - |a|]);
      }
    }
  }

  /** A transparent body and an XON, if there is one. */
  lemma BodyAndTrailer(previous: bv8, body: seq<bv8>, trailer: seq<bv8>)
    requires Transparent(previous, body) && (trailer == [] || trailer == [XON])
    ensures Screened(previous, body + trailer, Trailing(|body|, |trailer|))
  {
    hide IsNetworkControl, IsReturn;
    XonIsNoReturn();
    var w := body + trailer;
    forall i | 0 <= i < |w| && IsReturn(w[i])
      ensures LastSent(previous, w[..i]) != 0x40
    {
      assert w[..i] == body[..i];
    }
  }

  lemma XonIsNoReturn()
    ensures !IsReturn(XON)
  {}

  /** The packet without its XON. */
  function DataBody(f: Flags, previous: bv8, p: Piece): seq<bv8> {
    PacketBody(TxMode(f.moby, f.escctl, f.iac), f.moby || (f.wantFcs32 && f.canFcs32), previous, p.data, p.t)
  }

  function PiecesMask(f: Flags, previous: bv8, pieces: seq<Piece>): seq<bool>
    decreases pieces
  {
    if pieces == [] then []
    else
      var w := DataWire(f, previous, pieces[0].data, pieces[0].t);
      Trailing(|DataBody(f, previous, pieces[0])|, |Trailer(pieces[0].t)|)
        + PiecesMask(f, LastSent(previous, w), pieces[1..])
  }

  function FrameMask(previous: bv8, frame: Frame): seq<bool>
    requires IsHeader(frame.header)
  {
    Trailing(|HeaderBody(frame.flags, frame.header)|, |HeaderTrailer(frame.flags, frame.header)|)
    + PiecesMask(frame.flags, LastSent(previous, HeaderWire(frame.flags, frame.header)), frame.pieces)
  }

  function SessionMask(previous: bv8, frames: seq<Frame>): seq<bool>
    requires forall i :: 0 <= i < |frames| ==> IsHeader(frames[i].header)
    decreases frames
  {
    if frames == [] then []
    else FrameMask(previous, frames[0]) + SessionMask(LastSent(previous, FrameWire(previous, frames[0])), frames[1..])
  }

  lemma DataScreened(f: Flags, previous: bv8, p: Piece)
    requires Ordinary(f) && IsTerminator(p.t)
    ensures Screened(previous, DataWire(f, previous, p.data, p.t), Trailing(|DataBody(f, previous, p)|, |Trailer(p.t)|))
  {
    hide PacketBody, IsTerminator, Transparent, Screened;
    PacketTransparent(TxMode(f.moby, f.escctl, f.iac), f.moby || (f.wantFcs32 && f.canFcs32), previous, p.data, p.t);
    BodyAndTrailer(previous, DataBody(f, previous, p), Trailer(p.t));
  }

  lemma {:induction false} PiecesScreened(f: Flags, previous: bv8, pieces: seq<Piece>)
    requires Ordinary(f) && forall i :: 0 <= i < |pieces| ==> IsTerminator(pieces[i].t)
    ensures Screened(previous, PiecesWire(f, previous, pieces), PiecesMask(f, previous, pieces))
    decreases pieces
  {
    hide DataWire, DataBody, IsTerminator, LastSent, Trailing, Trailer;
    if pieces != [] {
      hide Screened;
      var p := pieces[0];
      var w := DataWire(f, previous, p.data, p.t);
      DataScreened(f, previous, p);
      PiecesScreened(f, LastSent(previous, w), pieces[1..]);
      ScreenedConcat(previous, w, Trailing(|DataBody(f, previous, p)|, |Trailer(p.t)|),
                     PiecesWire(f, LastSent(previous, w), pieces[1..]),
                     PiecesMask(f, LastSent(previous, w), pieces[1..]));
    }
  }

  lemma StyleIsOrdinary(f: Flags)
    requires Ordinary(f)
    ensures StyleOf(f).Hex? || StyleOf(f).Bin16? || StyleOf(f).Bin32?
  {}

  lemma HeaderTrailerIsXon(f: Flags, h: seq<bv8>)
    requires IsHeader(h)
    ensures HeaderTrailer(f, h) == [] || HeaderTrailer(f, h) == [XON]
  {}

  lemma FrameScreened(previous: bv8, frame: Frame)
    requires IsHeader(frame.header) && Ordinary(frame.flags) && !frame.probe
    requires forall i :: 0 <= i < |frame.pieces| ==> IsTerminator(frame.pieces[i].t)
    ensures Screened(previous, FrameWire(previous, frame), FrameMask(previous, frame))
  {
    hide HeaderBody, HeaderTrailer, PiecesWire, PiecesMask, Transparent, Screened, IsTerminator, LastSent, Trailing,
      StyleOf, Ordinary, IsHeader;
    var front := HeaderWire(frame.flags, frame.header);
    assert [] + front == front;
    StyleIsOrdinary(frame.flags);
    HeaderTransparent(frame.flags, previous, frame.header);
    HeaderTrailerIsXon(frame.flags, frame.header);
    BodyAndTrailer(previous, HeaderBody(frame.flags, frame.header), HeaderTrailer(frame.flags, frame.header));
    PiecesScreened(frame.flags, LastSent(previous, front), frame.pieces);
    ScreenedConcat(previous, front,
                   Trailing(|HeaderBody(frame.flags, frame.header)|, |HeaderTrailer(frame.flags, frame.header)|),
                   PiecesWire(frame.flags, LastSent(previous, front), frame.pieces),
                   PiecesMask(frame.flags, LastSent(previous, front), frame.pieces));
  }

  /** However many frames go out in the ordinary styles: no DLE, XON or XOFF of either parity but the XONs
      behind hex headers and ZCRCW packets, and no CR directly behind '@', across all boundaries. */
  lemma {:induction false} SessionScreened(previous: bv8, frames: seq<Frame>)
    requires forall i :: 0 <= i < |frames| ==>
             IsHeader(frames[i].header) && Ordinary(frames[i].flags) && !frames[i].probe
    requires forall i, j :: 0 <= i < |frames| && 0 <= j < |frames[i].pieces| ==> IsTerminator(frames[i].pieces[j].t)
    ensures Screened(previous, SessionWire(previous, frames), SessionMask(previous, frames))
    decreases frames
  {
    hide FrameWire, FrameMask, IsTerminator, LastSent, Ordinary, IsHeader;
    if frames != [] {
      hide Screened;
      var w := FrameWire(previous, frames[0]);
      FrameScreened(previous, frames[0]);
      SessionScreened(LastSent(previous, w), frames[1..]);
      ScreenedConcat(previous, w, FrameMask(previous, frames[0]),
                     SessionWire(LastSent(previous, w), frames[1..]), SessionMask(LastSent(previous, w), frames[1..]));
    }
  }
}
