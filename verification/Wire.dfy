/** zmdm.c, end to end: frames sent, divided into reads in any way, and received. */
module Wire {
  import opened Bytes
  import opened Quoting
  import opened Headers
  import opened Frames
  import opened Link

  /** However a line is divided into reads, the frames on it are received as they were sent, whatever flags
      each was sent with and whatever modes the receiver starts in. */
  lemma SessionOverAnyReads(frames: seq<Frame>, r: RxMode, previous: bv8, capacity: nat, script: seq<ReadEvent>)
    requires forall i :: 0 <= i < |frames| ==> IsHeader(frames[i].header) && FrameOk(capacity, r.escctl, frames[i])
    requires Delivering(script) && Delivered(script) == SessionWire(previous, frames)
    ensures var s := ReceiveSession(r, Counts(frames), capacity, Replay(script), 0);
            s.complete && s.taken == Sent(frames)
  {
    hide ReceiveSession, SessionWire, FrameOk, Replay;
    ReadsDoNotMatter(script);
    assert Feed([], Feed(SessionWire(previous, frames), Silence)) == Feed(SessionWire(previous, frames), Silence);
    var left := SessionRoundTrip(frames, r, previous, capacity, [], Silence);
  }
}
