/** zmtx.c and zmrx.c as state machines: what a sender and a receiver of one file may do, step by step.

    The programs themselves are in Zmtx and Zmrx; they are proved to take only steps of these machines.
    Headers and data subpackets are items here: their way over the wire is the subject of Frames. */
module Peers {
  import Bytes

  const MAX_RETRIES: nat := 10
  const POSITIONS: nat := 0x1_0000_0000

  type File = seq<bv8>

  /** ZCRCE, ZCRCG, ZCRCQ and ZCRCW. */
  datatype End = CrcE | CrcG | CrcQ | CrcW

  /** The frame goes on behind this subpacket. */
  predicate Continues(t: End) {
    t == CrcG || t == CrcQ
  }

  /** What the sender puts on the line: ZFILE, ZDATA, a data subpacket (the file information behind ZFILE is
      one too), ZEOF, ZRQINIT, ZFIN, some other header; or what is left of any of them when it was damaged. */
  datatype Down = Offer | Data(pos: nat) | Sub(bytes: File, t: End) | Eof(pos: nat) | Rqinit | Fin | OtherDown | Noise

  /** What the receiver answers: ZRINIT, ZACK, ZRPOS, ZSKIP, ZNAK, some other header, or a damaged one. */
  datatype Up = Init | Ack(pos: nat) | Rpos(pos: nat) | Skip | Nak | OtherUp | Lost

  // ---------- The sender ----------

  /** The file, the information sent with ZFILE, the window (0 for none), the receiver's buffer (0 for no
      limit), and whether every block is waited for. */
  datatype Config = Config(source: File, info: File, window: nat, buffer: nat, wait: bool)

  /** Dismissed is the end by an answer of the receiver, Stopped any other one that is no success. */
  datatype TxPhase = Offering | Sending | Finishing | Succeeded | Dismissed(answer: Up) | Stopped

  /** The account of recoveries: the furthest position the receiver has asked for, the furthest position
      attempted since then, and how many recoveries there have been without progress. */
  datatype Tally = Tally(receiver: nat, attempted: nat, attempts: nat)

  /** The receiver asks for a position. */
  function Requested(t: Tally, p: nat): Tally {
    if p > t.receiver then Tally(p, p, 0) else t.(attempts := t.attempts + 1)
  }

  /** The sender starts again of its own accord, having come to a position. */
  function Attempted(t: Tally, p: nat): Tally {
    if p > t.attempted then t.(attempted := p, attempts := 0) else t.(attempts := t.attempts + 1)
  }

  /** What send_file and send_from keep: the position in the file, whether a ZDATA frame is open, whether
      the answer to a ZCRCW is awaited, the acknowledged position, the last position an acknowledgement was
      asked for, the bytes sent since the receiver's buffer was last empty, the position the receiver last
      asked for, whether the stream is yet to be synchronized after a recovery, whether the last thing
      noticed calls for one (or for another ZEOF), how many there have been, the positions an acknowledgement
      was asked for and has not come, the account of recoveries, how many ZEOFs have been sent, and whether
      the line has failed. */
  datatype Sender = Sender(phase: TxPhase, position: nat, open: bool, waiting: bool, acknowledged: nat,
                           lastRequest: nat, segment: nat, requested: nat, recovering: bool, alarm: bool,
                           recoveries: nat, pending: seq<nat>, tally: Tally, eofs: nat, cut: bool)

  const IDLE := Sender(Offering, 0, false, false, 0, 0, 0, 0, false, false, 0, [], Tally(0, 0, 0), 0, false)

  /** A new send_from, at a position in the file; a position beyond it ends the transfer. */
  function Start(cfg: Config, p: nat, recoveries: nat, tally: Tally): Sender {
    if p <= |cfg.source| then
      Sender(Sending, p, false, false, p, p, 0, p, recoveries > 0, false, recoveries, [], tally, 0, false)
    else IDLE.(phase := Dismissed(Rpos(p)), recoveries := recoveries, tally := tally)
  }

  predicate WindowFull(cfg: Config, s: Sender) {
    cfg.window > 0 && s.position - s.acknowledged >= cfg.window
  }

  /** What the sender may put on the line. */
  predicate MaySend(cfg: Config, s: Sender, m: Down) {
    match m
    case Offer => s.phase.Offering?
    case Rqinit => s.phase.Offering?
    case Data(p) => s.phase.Sending? && !s.open && !s.waiting && p == s.position && !WindowFull(cfg, s)
    case Sub(b, t) =>
      && |b| <= Bytes.ZMAXSPLEN
      && if s.phase.Offering? then b == cfg.info && t == CrcW else MaySendBlock(cfg, s, b, t)
    case Eof(p) =>
      && (if s.phase.Finishing? then s.eofs == 0 || s.alarm else s.phase.Sending? && !s.open && !s.waiting)
      && p == s.position == |cfg.source|
    case Fin => s.phase.Succeeded? || s.phase.Stopped? || s.phase.Dismissed?
    case OtherDown => true
    case Noise => false
  }

  /** A block of the file, and when each terminator is allowed. */
  predicate MaySendBlock(cfg: Config, s: Sender, b: File, t: End) {
    && s.phase.Sending? && s.open && s.lastRequest <= s.position
    && s.position + |b| <= |cfg.source| && b == cfg.source[s.position..s.position + |b|]
    && (cfg.window > 0 ==> s.position + |b| <= s.acknowledged + cfg.window)
    && (cfg.buffer > 0 ==> s.segment + |b| <= cfg.buffer)
    && (b == [] ==> t == CrcE)
    && (t == CrcE ==> s.position + |b| == |cfg.source|)
    && ((s.recovering || cfg.wait) && b != [] ==> t == CrcW)
    && (t == CrcW ==> s.recovering || cfg.wait || (cfg.buffer > 0 && s.segment + |b| == cfg.buffer))
    && (cfg.buffer > 0 && Continues(t) ==> s.segment + |b| < cfg.buffer)
    && (cfg.window > 0 && t == CrcG ==> s.position + |b| - s.lastRequest < cfg.window / 4)
    && (t == CrcQ ==> cfg.window > 0 && s.position + |b| - s.lastRequest >= cfg.window / 4)
  }

  function Sent(s: Sender, m: Down): Sender {
    match m
    case Data(_) => s.(open := true)
    case Sub(b, t) => if s.phase.Offering? then s else SentBlock(s, b, t)
    case Eof(_) => s.(phase := Finishing, eofs := s.eofs + 1)
    case OtherDown => Ended(s)
    case _ => s
  }

  /** No more is sent: an end by the receiver stays one. */
  function Ended(s: Sender): Sender {
    if s.phase.Dismissed? then s else s.(phase := Stopped)
  }

  function SentBlock(s: Sender, b: File, t: End): Sender {
    var position := s.position + |b|;
    s.(phase := if t == CrcE then Finishing else s.phase,
       position := position, open := Continues(t), waiting := t == CrcW, segment := s.segment + |b|,
       lastRequest := if t == CrcQ then position else s.lastRequest,
       pending := if t == CrcQ || t == CrcW then s.pending + [position] else s.pending)
  }

  /** The requests that an acknowledgement of p leaves unanswered. */
  function Unanswered(pending: seq<nat>, p: nat): seq<nat>
    decreases pending
  {
    if pending != [] && pending[0] <= p then Unanswered(pending[1..], p) else pending
  }

  /** What an acknowledgement does to a sender that is sending: while it waits only that of its position
      counts, and one of what was never sent is an alarm. */
  function Acknowledged(s: Sender, p: nat): Sender {
    if p > s.position then s.(alarm := !s.waiting)
    else if s.waiting then
      if p == s.position then
        s.(waiting := false, acknowledged := p, lastRequest := p, segment := 0, recovering := false, pending := [])
      else s.(pending := Unanswered(s.pending, p))
    else s.(acknowledged := if s.acknowledged < p then p else s.acknowledged, pending := Unanswered(s.pending, p))
  }

  /** What an answer does to the sender. */
  function Heard(cfg: Config, s: Sender, u: Up): Sender {
    match s.phase
    case Offering =>
      (match u
       case Rpos(p) => Start(cfg, p, 0, Tally(p, p, 0))
       case Skip => s.(phase := Dismissed(u))
       case _ => s)
    case Sending =>
      (match u
       case Ack(p) => Acknowledged(s, p)
       case Rpos(p) => Start(cfg, p, s.recoveries + 1, Requested(s.tally, p))
       case Nak => s.(alarm := true)
       case Lost => s
       case _ => s.(phase := Dismissed(u)))
    case Finishing =>
      (match u
       case Init => s.(phase := Succeeded)
       case Rpos(p) => Start(cfg, p, s.recoveries + 1, Requested(s.tally, p))
       case Ack(p) => s.(alarm := true, pending := Unanswered(s.pending, p))
       case Lost => s
       case _ => s.(phase := Dismissed(u)))
    case Succeeded => s
    case Dismissed(_) => s
    case Stopped => s
  }

  /** What happens next on the sender's line: nothing yet; a byte that opens no header; the line failing or
      timing out on a byte; no header in time; an answer; or the acknowledgement of the oldest request that
      has none yet, whatever its position, and nothing yet if there is no such request. */
  datatype Event = Quiet | Junk | Broken(timeout: bool) | Late | Answer(u: Up) | Acked

  /** The answer in an event, if there is one. */
  function Answers(s: Sender, e: Event): (u: seq<Up>)
    ensures |u| <= 1
  {
    match e
    case Answer(u) => [u]
    case Acked => if s.pending == [] then [] else [Ack(s.pending[0])]
    case _ => []
  }

  /** What an event does to the sender. */
  function Noticed(cfg: Config, s: Sender, e: Event): Sender {
    if Answers(s, e) != [] then
      if Answers(s, e)[0].Lost? then s else Heard(cfg, s.(alarm := false), Answers(s, e)[0])
    else if e.Late? || e == Broken(true) then s.(alarm := true)
    else if e == Broken(false) then s.(cut := true)
    else s
  }

  /** One step of a sender: something sent, something read off the line, a new start from the position last
      asked for (after a ZNAK, a timeout, or an acknowledgement of what was never sent), or the end. */
  datatype TxAct = Send(m: Down) | Read(e: Event) | Restart | GiveUp

  predicate TxMay(cfg: Config, s: Sender, a: TxAct) {
    match a
    case Send(m) => MaySend(cfg, s, m)
    case Read(_) => true
    case Restart => s.phase.Sending? && s.alarm
    case GiveUp => !s.phase.Succeeded?
  }

  function TxDo(cfg: Config, s: Sender, a: TxAct): Sender {
    match a
    case Send(m) => Sent(s.(alarm := false), m)
    case Read(e) => Noticed(cfg, s, e)
    case Restart => Start(cfg, s.requested, s.recoveries + 1, Attempted(s.tally, s.position))
    case GiveUp => Ended(s)
  }

  /** A run of the sender: each step allowed where it is taken. */
  predicate TxRun(cfg: Config, s: Sender, acts: seq<TxAct>)
    decreases |acts|
  {
    acts == [] || (TxRun(cfg, s, acts[..|acts| - 1])
                   && TxMay(cfg, TxAfter(cfg, s, acts[..|acts| - 1]), acts[|acts| - 1]))
  }

  function TxAfter(cfg: Config, s: Sender, acts: seq<TxAct>): Sender
    decreases |acts|
  {
    if acts == [] then s else TxDo(cfg, TxAfter(cfg, s, acts[..|acts| - 1]), acts[|acts| - 1])
  }

  lemma TxRunMore(cfg: Config, s: Sender, acts: seq<TxAct>, a: TxAct)
    requires TxRun(cfg, s, acts) && TxMay(cfg, TxAfter(cfg, s, acts), a)
    ensures TxRun(cfg, s, acts + [a]) && TxAfter(cfg, s, acts + [a]) == TxDo(cfg, TxAfter(cfg, s, acts), a)
  {
    assert (acts + [a])[..|acts|] == acts;
  }

  /** What a run put on the line. */
  function Sendings(acts: seq<TxAct>): seq<Down>
    decreases |acts|
  {
    if acts == [] then []
    else
      var last := acts[|acts| - 1];
      Sendings(acts[..|acts| - 1]) + if last.Send? then [last.m] else []
  }

  /** What a run read off the line. */
  function Readings(acts: seq<TxAct>): seq<Event>
    decreases |acts|
  {
    if acts == [] then []
    else
      var last := acts[|acts| - 1];
      Readings(acts[..|acts| - 1]) + if last.Read? then [last.e] else []
  }

  /** The answers among what a run read. */
  function Hearings(cfg: Config, s: Sender, acts: seq<TxAct>): seq<Up>
    decreases |acts|
  {
    if acts == [] then []
    else
      var front, last := acts[..|acts| - 1], acts[|acts| - 1];
      Hearings(cfg, s, front) + if last.Read? then Answers(TxAfter(cfg, s, front), last.e) else []
  }

  lemma TxRecordMore(cfg: Config, s: Sender, acts: seq<TxAct>, a: TxAct)
    ensures Sendings(acts + [a]) == Sendings(acts) + if a.Send? then [a.m] else []
    ensures Readings(acts + [a]) == Readings(acts) + if a.Read? then [a.e] else []
    ensures Hearings(cfg, s, acts + [a])
              == Hearings(cfg, s, acts) + if a.Read? then Answers(TxAfter(cfg, s, acts), a.e) else []
  {
    assert (acts + [a])[..|acts|] == acts;
  }

  // ---------- Requests that wait for their answer ----------

  /** Positions in order, beyond lo and up to hi, at least gap apart. */
  predicate Queue(q: seq<nat>, lo: nat, hi: nat, gap: nat)
    decreases q
  {
    q == [] || (lo < q[0] <= hi && gap > 0 && Queue(q[1..], q[0] + gap - 1, hi, gap))
  }

  lemma {:induction false} QueueAnswered(q: seq<nat>, lo: nat, hi: nat, gap: nat, p: nat)
    requires Queue(q, lo, hi, gap)
    ensures Queue(Unanswered(q, p), if p > lo then p else lo, hi, gap)
    ensures q != [] && p < q[|q| - 1] ==>
              var r := Unanswered(q, p); r != [] && r[|r| - 1] == q[|q| - 1]
    ensures q != [] && q[|q| - 1] <= p ==> Unanswered(q, p) == []
    decreases q
  {
    if q != [] {
      QueueAnswered(q[1..], q[0] + gap - 1, hi, gap, p);
      QueueLast(q, lo, hi, gap);
      if q[0] <= p {
        QueueLower(Unanswered(q[1..], p), if p > q[0] + gap - 1 then p else q[0] + gap - 1, p, hi, gap);
        assert q[1..] != [] ==> q[1..][|q| - 2] == q[|q| - 1];
      }
    }
  }

  lemma {:induction false} QueueLast(q: seq<nat>, lo: nat, hi: nat, gap: nat)
    requires Queue(q, lo, hi, gap) && q != []
    ensures q[0] <= q[|q| - 1] <= hi
    decreases q
  {
    if |q| > 1 {
      QueueLast(q[1..], q[0] + gap - 1, hi, gap);
      assert q[1..][|q| - 2] == q[|q| - 1];
    }
  }

  lemma QueueLower(q: seq<nat>, lo: nat, lo': nat, hi: nat, gap: nat)
    requires Queue(q, lo, hi, gap) && lo' <= lo
    ensures Queue(q, lo', hi, gap)
  {}

  /** One more request, at the new upper end. */
  lemma {:induction false} QueueMore(q: seq<nat>, lo: nat, hi: nat, gap: nat, x: nat)
    requires Queue(q, lo, hi, gap) && lo < x && hi <= x && gap > 0
    requires q != [] ==> q[|q| - 1] + gap <= x
    ensures Queue(q + [x], lo, x, gap)
    decreases q
  {
    if q == [] {
      assert q + [x] == [x] && [x][1..] == [];
    } else {
      QueueLast(q, lo, hi, gap);
      assert (q + [x])[1..] == q[1..] + [x];
      assert q[1..] != [] ==> q[1..][|q| - 2] == q[|q| - 1];
      QueueMore(q[1..], q[0] + gap - 1, hi, gap, x);
    }
  }

  lemma {:induction false} QueueHigher(q: seq<nat>, lo: nat, hi: nat, hi': nat, gap: nat)
    requires Queue(q, lo, hi, gap) && hi <= hi'
    ensures Queue(q, lo, hi', gap)
    decreases q
  {
    if q != [] {
      QueueHigher(q[1..], q[0] + gap - 1, hi, hi', gap);
    }
  }

  /** Wider gaps are gaps of one. */
  lemma {:induction false} QueueOfOnes(q: seq<nat>, lo: nat, hi: nat, gap: nat)
    requires Queue(q, lo, hi, gap)
    ensures Queue(q, lo, hi, 1)
    decreases q
  {
    if q != [] {
      QueueOfOnes(q[1..], q[0] + gap - 1, hi, gap);
      QueueLower(q[1..], q[0] + gap - 1, q[0], hi, 1);
    }
  }

  lemma {:induction false} QueueLength(q: seq<nat>, lo: nat, hi: nat, gap: nat)
    requires Queue(q, lo, hi, gap) && q != []
    ensures (|q| - 1) * gap < hi - lo
    decreases q
  {
    if |q| > 1 {
      QueueLength(q[1..], q[0] + gap - 1, hi, gap);
      assert (|q| - 1) * gap == (|q| - 2) * gap + gap;
    }
  }

  /** Nine requests need more than eight gaps. */
  lemma QueueOfNine(q: seq<nat>, lo: nat, hi: nat, gap: nat)
    requires Queue(q, lo, hi, gap) && |q| >= 9
    ensures hi - lo > 8 * gap
  {
    QueueLength(q, lo, hi, gap);
    assert (|q| - 1) * gap == 8 * gap + (|q| - 9) * gap;
    assert (|q| - 9) * gap >= 0;
  }

  // ---------- What every run of the sender keeps ----------

  /** The distance between two requests. */
  function Gap(cfg: Config, s: Sender): nat {
    if s.waiting || cfg.window < 4 then 1 else cfg.window / 4
  }

  /** The window, the buffer, and the requests for acknowledgements that are still out. */
  predicate TxSound(cfg: Config, s: Sender) {
    s.phase.Sending? || s.phase.Finishing? ==>
      && s.acknowledged <= s.position <= |cfg.source|
      && s.lastRequest <= s.position
      && s.requested <= |cfg.source|
      && (cfg.window > 0 ==> s.position <= s.acknowledged + cfg.window)
      && (cfg.buffer > 0 ==> s.segment <= cfg.buffer)
      && (cfg.buffer > 0 && s.phase.Sending? && !s.waiting ==> s.segment < cfg.buffer)
      && (cfg.window > 0 && s.phase.Sending? && !s.waiting ==>
            s.position == s.lastRequest || s.position - s.lastRequest < cfg.window / 4)
      && (s.phase.Finishing? ==> s.position == |cfg.source| && !s.waiting)
      && (s.open ==> !s.waiting)
      && Queue(s.pending, s.acknowledged, s.position, Gap(cfg, s))
      && (s.waiting ==> s.pending != [] && s.pending[|s.pending| - 1] == s.position)
      && (cfg.window == 0 && !s.waiting ==> s.pending == [])
      && (s.phase.Sending? && !s.waiting ==>
            if s.pending == [] then s.lastRequest <= s.acknowledged else s.pending[|s.pending| - 1] == s.lastRequest)
  }

  lemma StartSound(cfg: Config, p: nat, recoveries: nat, tally: Tally)
    ensures TxSound(cfg, Start(cfg, p, recoveries, tally))
  {}

  lemma BlockSound(cfg: Config, s: Sender, b: File, t: End)
    requires TxSound(cfg, s) && MaySendBlock(cfg, s, b, t)
    ensures TxSound(cfg, SentBlock(s, b, t))
  {
    var x := s.position + |b|;
    QueueHigher(s.pending, s.acknowledged, s.position, x, Gap(cfg, s));
    if t == CrcQ {
      QueueMore(s.pending, s.acknowledged, s.position, Gap(cfg, s), x);
    } else if t == CrcW {
      QueueOfOnes(s.pending, s.acknowledged, s.position, Gap(cfg, s));
      QueueMore(s.pending, s.acknowledged, s.position, 1, x);
    }
  }

  lemma SentSound(cfg: Config, s: Sender, m: Down)
    requires TxSound(cfg, s) && MaySend(cfg, s, m)
    ensures TxSound(cfg, Sent(s.(alarm := false), m))
  {
    if m.Sub? && !s.phase.Offering? {
      BlockSound(cfg, s.(alarm := false), m.bytes, m.t);
    }
  }

  lemma AcknowledgedSound(cfg: Config, s: Sender, p: nat)
    requires TxSound(cfg, s) && s.phase.Sending?
    ensures TxSound(cfg, Acknowledged(s, p))
  {
    hide Queue, Unanswered;
    var gap, q := Gap(cfg, s), Unanswered(s.pending, p);
    QueueAnswered(s.pending, s.acknowledged, s.position, gap, p);
    NoQueue(s.position, s.position, gap);
    if p < s.position && s.waiting {
      QueueLower(q, if p > s.acknowledged then p else s.acknowledged, s.acknowledged, s.position, gap);
    }
  }

  lemma NoQueue(lo: nat, hi: nat, gap: nat)
    ensures forall g :: Queue([], lo, hi, g)
    ensures forall p :: Unanswered([], p) == []
  {}

  lemma HeardSound(cfg: Config, s: Sender, u: Up)
    requires TxSound(cfg, s)
    ensures TxSound(cfg, Heard(cfg, s, u))
  {
    hide Acknowledged;
    if u.Rpos? {
      StartSound(cfg, u.pos, s.recoveries + 1, Requested(s.tally, u.pos));
      StartSound(cfg, u.pos, 0, Tally(u.pos, u.pos, 0));
    } else if u.Ack? && s.phase.Sending? {
      AcknowledgedSound(cfg, s, u.pos);
    } else if u.Ack? && s.phase.Finishing? {
      QueueAnswered(s.pending, s.acknowledged, s.position, Gap(cfg, s), u.pos);
      QueueLower(Unanswered(s.pending, u.pos), if u.pos > s.acknowledged then u.pos else s.acknowledged,
                 s.acknowledged, s.position, Gap(cfg, s));
    }
  }

  lemma NoticedSound(cfg: Config, s: Sender, e: Event)
    requires TxSound(cfg, s)
    ensures TxSound(cfg, Noticed(cfg, s, e))
  {
    hide Heard;
    AlarmIsNoObstacle(cfg, s);
    if Answers(s, e) != [] {
      HeardSound(cfg, s.(alarm := false), Answers(s, e)[0]);
    }
  }

  lemma TxKeepsSound(cfg: Config, s: Sender, a: TxAct)
    requires TxSound(cfg, s) && TxMay(cfg, s, a)
    ensures TxSound(cfg, TxDo(cfg, s, a))
  {
    hide MaySend, Sent, Noticed, Start;
    match a
    case Send(m) =>
      SentSound(cfg, s, m);
    case Read(e) => NoticedSound(cfg, s, e);
    case Restart => StartSound(cfg, s.requested, s.recoveries + 1, Attempted(s.tally, s.position));
    case GiveUp =>
  }

  lemma AlarmIsNoObstacle(cfg: Config, s: Sender)
    ensures TxSound(cfg, s) ==> TxSound(cfg, s.(alarm := false)) && TxSound(cfg, s.(alarm := true))
    ensures TxSound(cfg, s) ==> TxSound(cfg, s.(cut := true))
  {}

  /** At most eight requests are out when the sender does not wait for the last. */
  lemma FewRequests(cfg: Config, s: Sender)
    requires TxSound(cfg, s) && (s.phase.Sending? || s.phase.Finishing?) && !s.waiting
    ensures |s.pending| <= 8
  {
    if |s.pending| >= 9 {
      QueueOfNine(s.pending, s.acknowledged, s.position, Gap(cfg, s));
    }
  }

  /** In every run, whatever is heard: acknowledged <= position <= acknowledged + window, no more than the
      receiver's buffer is under way between acknowledged ZCRCWs, and the position stays in the file. */
  lemma {:induction false} WindowSafety(cfg: Config, acts: seq<TxAct>)
    requires TxRun(cfg, IDLE, acts)
    ensures TxSound(cfg, TxAfter(cfg, IDLE, acts))
    decreases |acts|
  {
    hide TxSound, TxMay, TxDo;
    if acts == [] {
      IdleSound(cfg);
    } else {
      WindowSafety(cfg, acts[..|acts| - 1]);
      TxKeepsSound(cfg, TxAfter(cfg, IDLE, acts[..|acts| - 1]), acts[|acts| - 1]);
    }
  }

  lemma IdleSound(cfg: Config)
    ensures TxSound(cfg, IDLE)
  {}

  /** A new send_from: after a ZNAK or a timeout, or because ZRPOS is heard. */
  predicate IsRestart(a: TxAct) {
    a.Restart? || (a.Read? && a.e.Answer? && a.e.u.Rpos?)
  }

  /** A stretch of a run, from j up to k, without a new send_from. */
  predicate OneSendFrom(acts: seq<TxAct>, j: nat, k: nat) {
    j <= k <= |acts| && forall i :: j <= i < k ==> !IsRestart(acts[i])
  }

  lemma AcknowledgedStep(cfg: Config, s: Sender, a: TxAct)
    requires TxSound(cfg, s) && TxMay(cfg, s, a) && !IsRestart(a)
    ensures s.acknowledged <= TxDo(cfg, s, a).acknowledged
  {
    hide Unanswered, Queue, MaySendBlock, TxMay, Start;
    match a
    case Send(m) => hide TxSound; SendStep(s.(alarm := false), m);
    case Read(e) =>
      if Answers(s, e) != [] {
        hide TxSound;
        AcknowledgedInFile(cfg, s);
        HearStep(cfg, s.(alarm := false), Answers(s, e)[0]);
      }
    case GiveUp =>
  }

  lemma AcknowledgedInFile(cfg: Config, s: Sender)
    requires TxSound(cfg, s)
    ensures s.phase.Sending? ==> s.acknowledged <= s.position
  {}

  lemma SendStep(s: Sender, m: Down)
    ensures Sent(s, m).acknowledged == s.acknowledged && Sent(s, m).recovering == s.recovering
    ensures Sent(s, m).recoveries == s.recoveries && Sent(s, m).tally == s.tally && Sent(s, m).alarm == s.alarm
  {}

  lemma HearStep(cfg: Config, s: Sender, u: Up)
    requires !u.Rpos? && (s.phase.Sending? ==> s.acknowledged <= s.position)
    ensures var t := Heard(cfg, s, u);
            && s.acknowledged <= t.acknowledged && t.recoveries == s.recoveries && t.tally == s.tally
            && (t.recovering ==> s.recovering)
  {
    hide Unanswered, Start, Requested;
    if s.phase.Sending? && u.Ack? {
      AckStep(s, u.pos);
      hide Acknowledged;
    }
  }

  lemma AckStep(s: Sender, p: nat)
    requires s.acknowledged <= s.position
    ensures var t := Acknowledged(s, p);
            && s.acknowledged <= t.acknowledged && t.recoveries == s.recoveries && t.tally == s.tally
            && (t.recovering ==> s.recovering)
  {
    hide Unanswered;
  }

  /** In every run, however it came to be sending: until send_from is entered anew, the acknowledged
      position never goes back. */
  lemma {:induction false} AcknowledgedNeverFalls(cfg: Config, acts: seq<TxAct>, j: nat, k: nat)
    requires TxRun(cfg, IDLE, acts) && OneSendFrom(acts, j, k)
    ensures TxAfter(cfg, IDLE, acts[..j]).acknowledged <= TxAfter(cfg, IDLE, acts[..k]).acknowledged
    decreases k
  {
    hide TxMay, TxDo, TxSound, IsRestart;
    if j < k {
      AcknowledgedNeverFalls(cfg, acts, j, k - 1);
      TxPrefix(cfg, IDLE, acts, k);
      WindowSafety(cfg, acts[..k - 1]);
      assert !IsRestart(acts[k - 1]);
      AcknowledgedStep(cfg, TxAfter(cfg, IDLE, acts[..k - 1]), acts[k - 1]);
    }
  }

  /** The beginning of a run is a run, and its last step is one from where the steps before it led. */
  lemma {:induction false} TxPrefix(cfg: Config, s: Sender, acts: seq<TxAct>, k: nat)
    requires TxRun(cfg, s, acts) && k <= |acts|
    ensures TxRun(cfg, s, acts[..k])
    ensures k > 0 ==>
              && TxRun(cfg, s, acts[..k - 1]) && TxMay(cfg, TxAfter(cfg, s, acts[..k - 1]), acts[k - 1])
              && TxAfter(cfg, s, acts[..k]) == TxDo(cfg, TxAfter(cfg, s, acts[..k - 1]), acts[k - 1])
    decreases |acts|
  {
    hide TxMay, TxDo;
    if k == |acts| {
      assert acts[..k] == acts;
    } else {
      var front := acts[..|acts| - 1];
      TxPrefix(cfg, s, front, k);
      assert front[..k] == acts[..k];
      assert k > 0 ==> front[..k - 1] == acts[..k - 1];
    }
  }

  /** No stall of the sender's own making: when the window is full, an acknowledgement has been asked for
      beyond the acknowledged position, and the answer leaves less than a quarter of the window out. */
  lemma NoSelfMadeStall(cfg: Config, acts: seq<TxAct>)
    requires TxRun(cfg, IDLE, acts)
    requires var s := TxAfter(cfg, IDLE, acts); s.phase.Sending? && !s.waiting && WindowFull(cfg, s)
    ensures var s := TxAfter(cfg, IDLE, acts);
            && s.acknowledged < s.lastRequest <= s.position && s.pending != []
            && var s' := Heard(cfg, s, Ack(s.lastRequest));
               && s'.acknowledged == s.lastRequest && !WindowFull(cfg, s')
               && (s'.position == s'.acknowledged || s'.position - s'.acknowledged < cfg.window / 4)
  {
    WindowSafety(cfg, acts);
  }

  /** How many subpackets with anything in them a run sends. */
  function Blocks(acts: seq<TxAct>): nat
    decreases |acts|
  {
    if acts == [] then 0 else Blocks(acts[..|acts| - 1]) + Block(acts[|acts| - 1])
  }

  function Block(a: TxAct): nat {
    if a.Send? && a.m.Sub? && a.m.bytes != [] then 1 else 0
  }

  /** Synchronizing: at most one block is out, and it is waited for. */
  predicate StopAndWait(s: Sender, blocks: nat) {
    && !s.phase.Offering? && blocks <= 1 && (blocks == 1 ==> s.waiting || !s.phase.Sending?) && (s.open ==> !s.waiting)
  }

  lemma RecoveryStep(cfg: Config, s: Sender, blocks: nat, a: TxAct)
    requires s.recovering && StopAndWait(s, blocks) && TxMay(cfg, s, a) && !IsRestart(a)
    ensures var t := TxDo(cfg, s, a);
            if t.recovering then StopAndWait(t, blocks + Block(a)) else a.Read? && Answers(s, a.e) == [Ack(s.position)]
  {
    match a
    case Send(m) => SentWhileRecovering(cfg, s, blocks, m);
    case Read(e) =>
      if Answers(s, e) != [] {
        HeardWhileRecovering(cfg, s.(alarm := false), blocks, Answers(s, e)[0]);
      }
    case GiveUp =>
  }

  lemma SentWhileRecovering(cfg: Config, s: Sender, blocks: nat, m: Down)
    requires s.recovering && StopAndWait(s, blocks) && MaySend(cfg, s, m)
    ensures Sent(s.(alarm := false), m).recovering && StopAndWait(Sent(s.(alarm := false), m), blocks + Block(Send(m)))
  {}

  lemma HeardWhileRecovering(cfg: Config, s: Sender, blocks: nat, u: Up)
    requires s.recovering && StopAndWait(s, blocks) && !u.Rpos?
    ensures var t := Heard(cfg, s, u);
            if t.recovering then StopAndWait(t, blocks) else u == Ack(s.position)
  {
    hide Unanswered;
  }

  /** Only a recovery makes the sender synchronize. */
  lemma NotAgain(cfg: Config, s: Sender, a: TxAct)
    requires !s.recovering && !IsRestart(a)
    ensures !TxDo(cfg, s, a).recovering
  {
    hide Unanswered, Start, Requested;
    match a
    case Send(m) => SendStep(s.(alarm := false), m);
    case Read(e) =>
      if Answers(s, e) != [] {
        NotByHearing(cfg, s.(alarm := false), Answers(s, e)[0]);
        hide Heard;
      }
    case GiveUp =>
  }

  lemma NotByHearing(cfg: Config, s: Sender, u: Up)
    requires !s.recovering && !u.Rpos?
    ensures !Heard(cfg, s, u).recovering
  {
    hide Unanswered;
  }

  /** After a recovery, in every run: until the receiver has acknowledged the very position the sender is at,
      it sends one subpacket and no more. */
  lemma {:induction false} RecoveryStopsAndWaits(cfg: Config, acts: seq<TxAct>, j: nat, k: nat)
    requires TxRun(cfg, IDLE, acts) && 0 < j && OneSendFrom(acts, j, k)
    requires IsRestart(acts[j - 1])
    requires TxAfter(cfg, IDLE, acts[..j]).phase.Sending? && TxAfter(cfg, IDLE, acts[..j]).recovering
    ensures var t := TxAfter(cfg, IDLE, acts[..k]);
            if t.recovering then StopAndWait(t, Blocks(acts[j..k])) else Synchronized(cfg, acts, j, k)
    decreases k
  {
    hide StopAndWait, TxMay, TxDo, IsRestart;
    if j == k {
      TxPrefix(cfg, IDLE, acts, j);
      StartsByWaiting(cfg, TxAfter(cfg, IDLE, acts[..j - 1]), acts[j - 1]);
      assert acts[j..k] == [];
    } else {
      RecoveryStopsAndWaits(cfg, acts, j, k - 1);
      TxPrefix(cfg, IDLE, acts, k);
      var t, last := TxAfter(cfg, IDLE, acts[..k - 1]), acts[k - 1];
      assert !IsRestart(last);
      StretchFront(acts, j, k);
      if t.recovering {
        RecoveryStep(cfg, t, Blocks(acts[j..k - 1]), last);
      } else {
        NotAgain(cfg, t, last);
      }
    }
  }

  lemma StretchFront(acts: seq<TxAct>, j: nat, k: nat)
    requires j < k <= |acts|
    ensures Blocks(acts[j..k]) == Blocks(acts[j..k - 1]) + Block(acts[k - 1])
  {
    hide Block;
    assert acts[j..k][..k - 1 - j] == acts[j..k - 1];
  }

  /** The position the sender was at has been acknowledged somewhere in the stretch. */
  predicate Synchronized(cfg: Config, acts: seq<TxAct>, j: nat, k: nat)
    requires j <= k <= |acts|
  {
    exists i :: j <= i < k && acts[i].Read? &&
      Answers(TxAfter(cfg, IDLE, acts[..i]), acts[i].e) == [Ack(TxAfter(cfg, IDLE, acts[..i]).position)]
  }

  lemma StartsByWaiting(cfg: Config, s: Sender, a: TxAct)
    requires TxMay(cfg, s, a) && IsRestart(a) && TxDo(cfg, s, a).phase.Sending?
    ensures StopAndWait(TxDo(cfg, s, a), 0)
  {}

  // ---------- Modes that wait for every block ----------

  /** Behind a block that ends at x: its acknowledgement is waited for, or nothing is being sent. */
  predicate Awaits(s: Sender, x: nat) {
    !s.phase.Offering? && (s.phase.Sending? ==> s.waiting && s.position == x && !s.open)
  }

  lemma AwaitStep(cfg: Config, s: Sender, a: TxAct, x: nat)
    requires Awaits(s, x) && TxMay(cfg, s, a) && !IsRestart(a)
    ensures Awaits(TxDo(cfg, s, a), x) || (a.Read? && Answers(s, a.e) == [Ack(x)])
  {
    hide Unanswered;
    match a
    case Send(m) =>
    case Read(e) =>
      if Answers(s, e) != [] {
        AwaitHears(cfg, s.(alarm := false), x, Answers(s, e)[0]);
      }
    case GiveUp =>
  }

  lemma AwaitHears(cfg: Config, s: Sender, x: nat, u: Up)
    requires Awaits(s, x) && !u.Rpos?
    ensures Awaits(Heard(cfg, s, u), x) || u == Ack(x)
  {
    hide Unanswered;
  }

  /** Somewhere in a stretch of a run the acknowledgement of a position is read. */
  predicate AckRead(cfg: Config, acts: seq<TxAct>, j: nat, k: nat, x: nat)
    requires j <= k <= |acts|
  {
    exists i :: j <= i < k && acts[i].Read? && Answers(TxAfter(cfg, IDLE, acts[..i]), acts[i].e) == [Ack(x)]
  }

  lemma {:induction false} StillAwaits(cfg: Config, acts: seq<TxAct>, j: nat, k: nat, x: nat)
    requires TxRun(cfg, IDLE, acts) && OneSendFrom(acts, j, k) && Awaits(TxAfter(cfg, IDLE, acts[..j]), x)
    ensures Awaits(TxAfter(cfg, IDLE, acts[..k]), x) || AckRead(cfg, acts, j, k, x)
    decreases k
  {
    hide Awaits, TxMay, TxDo, IsRestart;
    if j < k {
      StillAwaits(cfg, acts, j, k - 1, x);
      TxPrefix(cfg, IDLE, acts, k);
      assert !IsRestart(acts[k - 1]);
      if Awaits(TxAfter(cfg, IDLE, acts[..k - 1]), x) {
        AwaitStep(cfg, TxAfter(cfg, IDLE, acts[..k - 1]), acts[k - 1], x);
      }
    }
  }

  lemma BlockAwaits(cfg: Config, s: Sender, a: TxAct)
    requires cfg.wait && s.phase.Sending? && TxMay(cfg, s, a) && Block(a) == 1
    ensures a.m.t == CrcW && Awaits(TxDo(cfg, s, a), s.position + |a.m.bytes|)
  {}

  /** With -s, against a receiver that cannot overlap its disk, and for a window on a half-duplex line: every
      block of the file ends in ZCRCW, and before the next one goes out the acknowledgement of exactly the
      position reached has been read. */
  lemma EveryBlockIsAwaited(cfg: Config, acts: seq<TxAct>, j: nat, k: nat)
    requires TxRun(cfg, IDLE, acts) && cfg.wait && j < k < |acts| && OneSendFrom(acts, j, k)
    requires Block(acts[j]) == 1 && Block(acts[k]) == 1 && TxAfter(cfg, IDLE, acts[..j]).phase.Sending?
    ensures acts[j].m.t == CrcW
    ensures AckRead(cfg, acts, j + 1, k, TxAfter(cfg, IDLE, acts[..j]).position + |acts[j].m.bytes|)
  {
    hide TxMay, TxDo, IsRestart, Awaits, Block;
    var s := TxAfter(cfg, IDLE, acts[..j]);
    TxPrefix(cfg, IDLE, acts, j + 1);
    BlockAwaits(cfg, s, acts[j]);
    IsABlock(acts[j]);
    StillAwaits(cfg, acts, j + 1, k, s.position + |acts[j].m.bytes|);
    TxPrefix(cfg, IDLE, acts, k + 1);
    NoBlockWhileAwaiting(cfg, TxAfter(cfg, IDLE, acts[..k]), acts[k], s.position + |acts[j].m.bytes|);
  }

  lemma IsABlock(a: TxAct)
    requires Block(a) == 1
    ensures a.Send? && a.m.Sub?
  {}

  lemma NoBlockWhileAwaiting(cfg: Config, s: Sender, a: TxAct, x: nat)
    requires TxMay(cfg, s, a) && Block(a) == 1
    ensures !Awaits(s, x)
  {}

  /** In no other mode is a block waited for, but for the first one after a recovery and one that fills the
      receiver's buffer. */
  lemma WaitsForAReason(cfg: Config, acts: seq<TxAct>, k: nat)
    requires TxRun(cfg, IDLE, acts) && k < |acts| && Block(acts[k]) == 1 && acts[k].m.t == CrcW && !cfg.wait
    ensures var s := TxAfter(cfg, IDLE, acts[..k]);
            s.phase.Sending? ==> s.recovering || (cfg.buffer > 0 && s.segment + |acts[k].m.bytes| == cfg.buffer)
  {
    TxPrefix(cfg, IDLE, acts, k + 1);
  }

  // ---------- Why a sender gives up ----------

  /** The answers that end a transfer: ZSKIP, a position beyond the end of the file, ZRINIT in the middle of it,
      ZNAK to ZEOF, and what has no place in a transfer. */
  predicate Fatal(cfg: Config, phase: TxPhase, u: Up) {
    match u
    case Init => phase.Sending?
    case Ack(_) => false
    case Rpos(p) => p > |cfg.source|
    case Skip => true
    case Nak => phase.Finishing?
    case OtherUp => !phase.Offering?
    case Lost => false
  }

  predicate UnderWay(phase: TxPhase) {
    phase.Offering? || phase.Sending? || phase.Finishing?
  }

  lemma DismissalStep(cfg: Config, s: Sender, a: TxAct)
    requires TxMay(cfg, s, a) && TxDo(cfg, s, a).phase.Dismissed? && (a.Restart? ==> s.requested <= |cfg.source|)
    ensures var u := TxDo(cfg, s, a).phase.answer;
            s.phase == Dismissed(u)
            || (a.Read? && Answers(s, a.e) == [u] && UnderWay(s.phase) && Fatal(cfg, s.phase, u))
  {
    hide MaySend;
    match a
    case Send(m) => NoDismissalBySending(s.(alarm := false), m);
    case Read(e) =>
      hide Heard;
      if Answers(s, e) != [] {
        DismissalByAnswer(cfg, s.(alarm := false), Answers(s, e)[0]);
      }
    case Restart =>
    case GiveUp =>
  }

  lemma NoDismissalBySending(s: Sender, m: Down)
    ensures Sent(s, m).phase.Dismissed? ==> Sent(s, m).phase == s.phase
  {}

  lemma DismissalByAnswer(cfg: Config, s: Sender, u: Up)
    requires Heard(cfg, s, u).phase.Dismissed?
    ensures s.phase == Heard(cfg, s, u).phase
            || (Heard(cfg, s, u).phase.answer == u && UnderWay(s.phase) && Fatal(cfg, s.phase, u))
  {
    hide Unanswered;
  }

  /** An answer read at the k-th step, and what it found. */
  predicate ReadAt(cfg: Config, acts: seq<TxAct>, k: nat, u: Up)
    requires k < |acts|
  {
    var s := TxAfter(cfg, IDLE, acts[..k]);
    acts[k].Read? && Answers(s, acts[k].e) == [u] && UnderWay(s.phase) && Fatal(cfg, s.phase, u)
  }

  /** A transfer that an answer has ended was ended by one that does end transfers, and that was read. */
  lemma {:induction false} DismissalWasRead(cfg: Config, acts: seq<TxAct>)
    requires TxRun(cfg, IDLE, acts) && TxAfter(cfg, IDLE, acts).phase.Dismissed?
    ensures exists k :: 0 <= k < |acts| && ReadAt(cfg, acts, k, TxAfter(cfg, IDLE, acts).phase.answer)
    decreases |acts|
  {
    hide TxMay, TxDo, Fatal, TxSound;
    if acts != [] {
      var front := acts[..|acts| - 1];
      WindowSafety(cfg, front);
      InFile(cfg, front);
      DismissalStep(cfg, TxAfter(cfg, IDLE, front), acts[|acts| - 1]);
      if TxAfter(cfg, IDLE, front).phase.Dismissed? {
        DismissalWasRead(cfg, front);
        var k :| 0 <= k < |front| && ReadAt(cfg, front, k, TxAfter(cfg, IDLE, front).phase.answer);
        assert front[..k] == acts[..k];
        assert ReadAt(cfg, acts, k, TxAfter(cfg, IDLE, acts).phase.answer);
      } else {
        assert ReadAt(cfg, acts, |acts| - 1, TxAfter(cfg, IDLE, acts).phase.answer);
      }
    }
  }

  lemma InFile(cfg: Config, acts: seq<TxAct>)
    requires TxSound(cfg, TxAfter(cfg, IDLE, acts))
    ensures TxAfter(cfg, IDLE, acts).phase.Sending? ==> TxAfter(cfg, IDLE, acts).requested <= |cfg.source|
    ensures TxMay(cfg, TxAfter(cfg, IDLE, acts), Restart) ==> TxAfter(cfg, IDLE, acts).phase.Sending?
  {}

  /** What makes a sender start again: a timeout, ZNAK, an acknowledgement of what was never sent, or ZRPOS. */
  predicate Disturbs(s: Sender, e: Event) {
    if s.phase.Sending? then
      || e.Late? || e == Broken(true)
      || (Answers(s, e) != [] &&
          match Answers(s, e)[0]
          case Ack(p) => p > s.position
          case Rpos(_) => true
          case Nak => true
          case _ => false)
    else s.phase.Finishing? && Answers(s, e) != [] && Answers(s, e)[0].Rpos?
  }

  /** What makes a sender send ZEOF again. */
  predicate Delays(s: Sender, e: Event) {
    s.phase.Finishing? && (e.Late? || e == Broken(true) || (Answers(s, e) != [] && Answers(s, e)[0].Ack?))
  }

  function Disturbances(cfg: Config, acts: seq<TxAct>): nat
    decreases |acts|
  {
    if acts == [] then 0
    else
      var front, last := acts[..|acts| - 1], acts[|acts| - 1];
      Disturbances(cfg, front) + if last.Read? && Disturbs(TxAfter(cfg, IDLE, front), last.e) then 1 else 0
  }

  function Delayings(cfg: Config, acts: seq<TxAct>): nat
    decreases |acts|
  {
    if acts == [] then 0
    else
      var front, last := acts[..|acts| - 1], acts[|acts| - 1];
      Delayings(cfg, front) + if last.Read? && Delays(TxAfter(cfg, IDLE, front), last.e) then 1 else 0
  }

  /** What is accounted for has been read: every recovery, and every ZEOF but one. */
  predicate Accounted(s: Sender, disturbances: nat, delays: nat) {
    && s.tally.attempts <= s.recoveries
    && s.recoveries + (if s.phase.Sending? && s.alarm then 1 else 0) <= disturbances
    && (s.phase.Finishing? ==> s.eofs + (if s.alarm then 1 else 0) <= delays + 1)
    && (s.phase.Sending? ==> s.eofs == 0)
  }

  lemma AccountedStep(cfg: Config, s: Sender, disturbances: nat, delays: nat, a: TxAct)
    requires Accounted(s, disturbances, delays) && TxMay(cfg, s, a)
    ensures Accounted(TxDo(cfg, s, a), disturbances + (if a.Read? && Disturbs(s, a.e) then 1 else 0),
                      delays + (if a.Read? && Delays(s, a.e) then 1 else 0))
  {
    match a
    case Send(m) =>
      hide MaySend, Sent, Accounted;
      SentAccounted(cfg, s, disturbances, delays, m);
    case Read(e) => NoticedAccounted(cfg, s, disturbances, delays, e);
    case Restart =>
    case GiveUp =>
  }

  lemma NoticedAccounted(cfg: Config, s: Sender, disturbances: nat, delays: nat, e: Event)
    requires Accounted(s, disturbances, delays)
    ensures Accounted(Noticed(cfg, s, e), disturbances + (if Disturbs(s, e) then 1 else 0),
                      delays + (if Delays(s, e) then 1 else 0))
  {
    hide Heard;
    if Answers(s, e) != [] {
      var u := Answers(s, e)[0];
      assert Disturbs(s, e) == Disturbs(s, Answer(u)) && Delays(s, e) == Delays(s, Answer(u));
      HeardAccounted(cfg, s, disturbances, delays, u);
      hide Accounted;
    }
  }

  lemma SentAccounted(cfg: Config, s: Sender, disturbances: nat, delays: nat, m: Down)
    requires Accounted(s, disturbances, delays) && MaySend(cfg, s, m)
    ensures Accounted(Sent(s.(alarm := false), m), disturbances, delays)
  {}

  lemma HeardAccounted(cfg: Config, s: Sender, disturbances: nat, delays: nat, u: Up)
    requires Accounted(s, disturbances, delays)
    ensures Accounted(Heard(cfg, s.(alarm := false), u),
                      disturbances + (if Disturbs(s, Answer(u)) then 1 else 0),
                      delays + (if Delays(s, Answer(u)) then 1 else 0))
  {
    hide Unanswered;
  }

  lemma {:induction false} RunAccounted(cfg: Config, acts: seq<TxAct>)
    requires TxRun(cfg, IDLE, acts)
    ensures Accounted(TxAfter(cfg, IDLE, acts), Disturbances(cfg, acts), Delayings(cfg, acts))
    decreases |acts|
  {
    hide Accounted, TxMay, TxDo, Disturbs, Delays;
    if acts == [] {
      NothingToAccountFor();
    } else {
      var front := acts[..|acts| - 1];
      RunAccounted(cfg, front);
      AccountedStep(cfg, TxAfter(cfg, IDLE, front), Disturbances(cfg, front), Delayings(cfg, front), acts[|acts| - 1]);
    }
  }

  lemma NothingToAccountFor()
    ensures Accounted(IDLE, 0, 0)
  {}

  lemma {:induction false} CutWasRead(cfg: Config, acts: seq<TxAct>)
    requires TxRun(cfg, IDLE, acts) && TxAfter(cfg, IDLE, acts).cut
    ensures Read(Broken(false)) in acts
    decreases |acts|
  {
    hide TxMay, Unanswered, MaySend;
    if acts != [] && !(acts[|acts| - 1] == Read(Broken(false))) {
      CutStep(cfg, TxAfter(cfg, IDLE, acts[..|acts| - 1]), acts[|acts| - 1]);
      CutWasRead(cfg, acts[..|acts| - 1]);
    }
  }

  lemma CutStep(cfg: Config, s: Sender, a: TxAct)
    requires TxDo(cfg, s, a).cut && a != Read(Broken(false))
    ensures s.cut
  {
    hide Unanswered;
  }

  /** Why a sender may give up a transfer: an answer that ends it, a line that fails, MAX_RETRIES recoveries
      without progress, or MAX_RETRIES ZEOFs that brought nothing. */
  predicate HasCause(s: Sender) {
    || (s.phase.Dismissed? && s.phase.answer != Skip)
    || s.cut
    || s.tally.attempts >= MAX_RETRIES
    || (s.phase.Finishing? && s.eofs >= MAX_RETRIES && s.alarm)
  }

  /** Each of these causes was read off the line. */
  lemma CausesWereRead(cfg: Config, acts: seq<TxAct>)
    requires TxRun(cfg, IDLE, acts) && HasCause(TxAfter(cfg, IDLE, acts))
    ensures || (exists k, u :: 0 <= k < |acts| && u != Skip && ReadAt(cfg, acts, k, u))
            || Read(Broken(false)) in acts
            || Disturbances(cfg, acts) >= MAX_RETRIES
            || Delayings(cfg, acts) >= MAX_RETRIES
  {
    hide ReadAt;
    var s := TxAfter(cfg, IDLE, acts);
    RunAccounted(cfg, acts);
    if s.phase.Dismissed? {
      DismissalWasRead(cfg, acts);
    }
    if s.cut {
      CutWasRead(cfg, acts);
    }
  }

  /** What has been read can be borne: no answer that ends a transfer, a line that holds, fewer than MAX_RETRIES
      disturbances, and fewer than MAX_RETRIES answers to ZEOF that settle nothing. */
  ghost predicate Bearable(cfg: Config, acts: seq<TxAct>) {
    && (forall k, u :: 0 <= k < |acts| ==> !ReadAt(cfg, acts, k, u))
    && Read(Broken(false)) !in acts
    && Disturbances(cfg, acts) < MAX_RETRIES && Delayings(cfg, acts) < MAX_RETRIES
  }

  /** Then there is no cause to give up, and no ZSKIP. */
  lemma NoCauseToGiveUp(cfg: Config, acts: seq<TxAct>)
    requires TxRun(cfg, IDLE, acts) && Bearable(cfg, acts)
    ensures !HasCause(TxAfter(cfg, IDLE, acts)) && !TxAfter(cfg, IDLE, acts).phase.Dismissed?
  {
    hide ReadAt, HasCause;
    if HasCause(TxAfter(cfg, IDLE, acts)) {
      CausesWereRead(cfg, acts);
    }
    if TxAfter(cfg, IDLE, acts).phase.Dismissed? {
      DismissalWasRead(cfg, acts);
    }
  }

  // ---------- The receiver ----------

  datatype RxPhase = Before | Hunting | InFrame | Done | Failed

  /** What the receiver has to answer before it goes on: an acknowledgement, or a request for data, which
      counts as a recovery or not. */
  datatype Debt = Nothing | Acknowledgement | Request(counted: bool)

  /** The bytes committed to the file, the recovery requests counted since the last accepted subpacket,
      whether the extended ZRPOS has been sent, and what is to be answered. */
  datatype Receiver = Receiver(phase: RxPhase, file: File, errors: nat, extended: bool, owes: Debt)

  const NUL: bv8 := 0

  /** The information with ZFILE: a name that is not empty, its NUL, and something that ends in a NUL. */
  predicate IsFileInfo(b: File) {
    |b| >= 2 && b[|b| - 1] == NUL && b[0] != NUL && exists i :: 0 < i < |b| - 1 && b[i] == NUL
  }

  /** One step of a receiver: the information of ZFILE accepted, to go on with the file there is or to write a
      new one; ZFILE seen again; ZDATA at the right position, or at another; a whole subpacket accepted, or
      only a part of it written before the disk failed; a frame given up, for something that cannot be used
      or for nothing in time; ZEOF at the right position; something read that changes nothing; some of what
      has arrived thrown away; an answer sent; the end. */
  datatype RxAct =
    | Accept(info: File, resume: bool)
    | Reoffer
    | Refuse(pos: nat)
    | Enter(pos: nat)
    | Commit(bytes: File, t: End)
    | Part(bytes: File, t: End, count: nat)
    | Spoil(m: Down)
    | Lapse
    | Finish(pos: nat)
    | Ignore(m: Down)
    | Purge(ms: seq<Down>)
    | Reply(u: Up, counted: bool, extended: bool)
    | Fail

  /** What a step takes off the line. */
  function Taken(a: RxAct): seq<Down> {
    match a
    case Accept(info, _) => [Sub(info, CrcW)]
    case Reoffer => [Offer]
    case Refuse(p) => [Data(p)]
    case Enter(p) => [Data(p)]
    case Commit(b, t) => [Sub(b, t)]
    case Part(b, t, _) => [Sub(b, t)]
    case Spoil(m) => [m]
    case Finish(p) => [Eof(p)]
    case Ignore(m) => [m]
    case Purge(ms) => ms
    case _ => []
  }

  /** A request without a debt answers a timeout, and counts. */
  predicate MayReply(r: Receiver, u: Up, counted: bool, extended: bool) {
    && (counted ==> u.Rpos? && r.errors + 1 < MAX_RETRIES)
    && (extended ==> u.Rpos? && !r.extended)
    && match u
       case Init => (r.phase.Before? || r.phase.Done?) && r.owes.Nothing?
       case Ack(p) => r.owes.Acknowledgement? && p == |r.file|
       case Rpos(p) =>
         && r.phase.Hunting? && p == |r.file|
         && counted == (r.owes.Nothing? || (r.owes.Request? && r.owes.counted)) && !r.owes.Acknowledgement?
       case Skip => r.phase.Before? && r.owes.Nothing?
       case Nak => r.owes.Nothing?
       case OtherUp => r.owes.Nothing?
       case Lost => false
  }

  predicate RxMay(r: Receiver, a: RxAct) {
    match a
    case Accept(info, _) => r.phase.Before? && r.owes.Nothing? && IsFileInfo(info)
    case Reoffer => r.phase.Hunting? && r.owes.Nothing?
    case Refuse(p) => r.phase.Hunting? && r.owes.Nothing? && p != |r.file|
    case Enter(p) => r.phase.Hunting? && r.owes.Nothing? && p == |r.file|
    case Commit(b, t) => MayCommit(r, b)
    case Part(b, t, count) => MayCommit(r, b) && count < |b|
    case Spoil(_) => r.phase.InFrame? && r.owes.Nothing?
    case Lapse => r.phase.InFrame? && r.owes.Nothing?
    case Finish(p) => r.phase.Hunting? && r.owes.Nothing? && p == |r.file|
    case Ignore(_) => !r.phase.InFrame?
    case Purge(_) => !r.phase.InFrame?
    case Reply(u, counted, extended) => MayReply(r, u, counted, extended)
    case Fail => true
  }

  predicate MayCommit(r: Receiver, b: File) {
    r.phase.InFrame? && r.owes.Nothing? && |b| <= Bytes.ZMAXSPLEN && |r.file| + |b| < POSITIONS
  }

  function RxDo(r: Receiver, a: RxAct): Receiver {
    match a
    case Accept(_, resume) =>
      r.(phase := Hunting, file := if resume then r.file else [], errors := 0, extended := false,
         owes := Request(false))
    case Reoffer => r.(owes := Request(false))
    case Refuse(_) => r.(owes := Request(true))
    case Enter(_) => r.(phase := InFrame)
    case Commit(b, t) =>
      r.(phase := if Continues(t) then InFrame else Hunting, file := r.file + b, errors := 0,
         owes := if t == CrcQ || t == CrcW then Acknowledgement else Nothing)
    case Part(b, _, count) => if count < |b| then r.(phase := Failed, file := r.file + b[..count]) else r
    case Spoil(_) => r.(phase := Hunting, owes := Request(true))
    case Lapse => r.(phase := Hunting, owes := Request(true))
    case Finish(_) => r.(phase := Done)
    case Ignore(_) => r
    case Purge(_) => r
    case Reply(u, counted, extended) =>
      r.(errors := if counted then r.errors + 1 else r.errors, extended := r.extended || extended, owes := Nothing)
    case Fail => if r.phase.Done? then r else r.(phase := Failed, owes := Nothing)
  }

  predicate RxRun(r: Receiver, acts: seq<RxAct>)
    decreases |acts|
  {
    acts == [] || (RxRun(r, acts[..|acts| - 1]) && RxMay(RxAfter(r, acts[..|acts| - 1]), acts[|acts| - 1]))
  }

  function RxAfter(r: Receiver, acts: seq<RxAct>): Receiver
    decreases |acts|
  {
    if acts == [] then r else RxDo(RxAfter(r, acts[..|acts| - 1]), acts[|acts| - 1])
  }

  lemma RxRunMore(r: Receiver, acts: seq<RxAct>, a: RxAct)
    requires RxRun(r, acts) && RxMay(RxAfter(r, acts), a)
    ensures RxRun(r, acts + [a]) && RxAfter(r, acts + [a]) == RxDo(RxAfter(r, acts), a)
  {
    assert (acts + [a])[..|acts|] == acts;
  }

  /** What a run took off the line. */
  function Takings(acts: seq<RxAct>): seq<Down>
    decreases |acts|
  {
    if acts == [] then [] else Takings(acts[..|acts| - 1]) + Taken(acts[|acts| - 1])
  }

  /** What a run answered. */
  function Replies(acts: seq<RxAct>): seq<Up>
    decreases |acts|
  {
    if acts == [] then []
    else
      var last := acts[|acts| - 1];
      Replies(acts[..|acts| - 1]) + if last.Reply? then [last.u] else []
  }

  lemma RxRecordMore(acts: seq<RxAct>, a: RxAct)
    ensures Takings(acts + [a]) == Takings(acts) + Taken(a)
    ensures Replies(acts + [a]) == Replies(acts) + if a.Reply? then [a.u] else []
  {
    assert (acts + [a])[..|acts|] == acts;
  }

  /** The subpackets a run accepted, end to end. */
  function Committed(acts: seq<RxAct>): File
    decreases |acts|
  {
    if acts == [] then []
    else
      var last := acts[|acts| - 1];
      Committed(acts[..|acts| - 1]) + if last.Commit? then last.bytes else []
  }

  /** What the disk took of a subpacket when it failed. */
  function Remnant(acts: seq<RxAct>): File
    decreases |acts|
  {
    if acts == [] then []
    else
      var last := acts[|acts| - 1];
      if last.Part? && last.count < |last.bytes| then last.bytes[..last.count] else Remnant(acts[..|acts| - 1])
  }

  /** The counted recovery requests since the last accepted subpacket. */
  function Requests(acts: seq<RxAct>): nat
    decreases |acts|
  {
    if acts == [] then 0
    else
      var last := acts[|acts| - 1];
      if last.Commit? then 0
      else Requests(acts[..|acts| - 1]) + if last.Reply? && last.counted then 1 else 0
  }

  function Extended(acts: seq<RxAct>): nat
    decreases |acts|
  {
    if acts == [] then 0
    else
      var last := acts[|acts| - 1];
      Extended(acts[..|acts| - 1]) + if last.Reply? && last.extended then 1 else 0
  }

  /** In every run of a receiver that has accepted its file: the file is what it was and the accepted
      subpackets behind it, and only behind a disk that failed a part of one more; its length stays below
      2^32; fewer than MAX_RETRIES counted recovery requests go out between two accepted subpackets, and at
      most one extended ZRPOS. */
  lemma {:induction false} ReceiverRuns(r: Receiver, acts: seq<RxAct>)
    requires RxRun(r, acts) && !r.phase.Before? && r.errors == 0 && !r.extended && |r.file| < POSITIONS
    ensures var after := RxAfter(r, acts);
            && after.file == r.file + Committed(acts) + Remnant(acts) && |after.file| < POSITIONS
            && (Remnant(acts) != [] ==> after.phase.Failed?)
            && Requests(acts) <= after.errors < MAX_RETRIES
            && Extended(acts) == (if after.extended then 1 else 0) && !after.phase.Before?
    decreases |acts|
  {
    if acts == [] {
      assert r.file + [] + [] == r.file;
    } else {
      var front := acts[..|acts| - 1];
      ReceiverRuns(r, front);
      var last := acts[|acts| - 1];
      if last.Commit? {
        assert r.file + Committed(front) + [] + last.bytes == r.file + (Committed(front) + last.bytes) + [];
      } else {
        assert Committed(front) + [] == Committed(front);
        assert r.file + Committed(front) + [] == r.file + Committed(front);
      }
    }
  }

  lemma {:induction false} RxRunSplits(r: Receiver, a: seq<RxAct>, b: seq<RxAct>)
    requires RxRun(r, a + b)
    ensures RxRun(r, a) && RxRun(RxAfter(r, a), b)
    ensures RxAfter(r, a + b) == RxAfter(RxAfter(r, a), b)
    decreases |b|
  {
    if b == [] {
      assert a + b == a;
    } else {
      assert (a + b)[..|a + b| - 1] == a + b[..|b| - 1];
      RxRunSplits(r, a, b[..|b| - 1]);
    }
  }

  /** The same in a whole session, from where the file is accepted. */
  lemma AcceptedFile(r: Receiver, acts: seq<RxAct>, k: nat)
    requires RxRun(r, acts) && k < |acts| && acts[k].Accept?
    requires |RxAfter(r, acts[..k]).file| < POSITIONS
    ensures var after := RxAfter(r, acts);
            && after.file == (if acts[k].resume then RxAfter(r, acts[..k]).file else [])
                             + Committed(acts[k + 1..]) + Remnant(acts[k + 1..])
            && (Remnant(acts[k + 1..]) != [] ==> after.phase.Failed?)
            && |after.file| < POSITIONS && Requests(acts[k + 1..]) < MAX_RETRIES && Extended(acts[k + 1..]) <= 1
  {
    hide RxMay, Committed, Remnant, Requests, Extended, RxRun, RxAfter;
    assert acts == acts[..k + 1] + acts[k + 1..];
    RxPrefix(r, acts, k + 1);
    RxRunSplits(r, acts[..k + 1], acts[k + 1..]);
    ReceiverRuns(RxAfter(r, acts[..k + 1]), acts[k + 1..]);
  }

  /** The beginning of a run is a run, and its last step is one from where the steps before it led. */
  lemma {:induction false} RxPrefix(r: Receiver, acts: seq<RxAct>, k: nat)
    requires RxRun(r, acts) && k <= |acts|
    ensures RxRun(r, acts[..k])
    ensures k > 0 ==>
              && RxRun(r, acts[..k - 1]) && RxMay(RxAfter(r, acts[..k - 1]), acts[k - 1])
              && RxAfter(r, acts[..k]) == RxDo(RxAfter(r, acts[..k - 1]), acts[k - 1])
    decreases |acts|
  {
    hide RxMay, RxDo;
    if k == |acts| {
      assert acts[..k] == acts;
    } else {
      var front := acts[..|acts| - 1];
      RxPrefix(r, front, k);
      assert front[..k] == acts[..k];
      assert k > 0 ==> front[..k - 1] == acts[..k - 1];
    }
  }

  /** Every ZRPOS and every ZACK of a run names the length committed where it was sent. */
  lemma RepliesNameTheLength(r: Receiver, acts: seq<RxAct>, k: nat)
    requires RxRun(r, acts) && k < |acts| && acts[k].Reply? && (acts[k].u.Rpos? || acts[k].u.Ack?)
    ensures acts[k].u.pos == |RxAfter(r, acts[..k]).file|
  {
    RxPrefix(r, acts, k + 1);
  }

  /** An invitation goes out only where no file has been accepted, or all of one has arrived: between the
      accepted ZFILE and its ZEOF there is none. */
  lemma NoInviteInTheFile(r: Receiver, acts: seq<RxAct>, j: nat, k: nat)
    requires RxRun(r, acts) && j < k < |acts| && acts[j].Accept? && acts[k].Reply? && acts[k].u.Init?
    ensures exists i :: j < i < k && acts[i].Finish?
  {
    hide RxDo, RxRun, RxAfter;
    RxPrefix(r, acts, k + 1);
    if forall i :: j < i < k ==> !acts[i].Finish? {
      InTheFile(r, acts, j, k);
    }
  }

  lemma {:induction false} InTheFile(r: Receiver, acts: seq<RxAct>, j: nat, k: nat)
    requires RxRun(r, acts) && j < k <= |acts| && acts[j].Accept?
    requires forall i :: j < i < k ==> !acts[i].Finish?
    ensures var phase := RxAfter(r, acts[..k]).phase; !phase.Before? && !phase.Done?
    decreases k
  {
    hide RxMay, RxDo, RxRun, RxAfter;
    RxPrefix(r, acts, k);
    var was := RxAfter(r, acts[..k - 1]);
    if j + 1 < k {
      InTheFile(r, acts, j, k - 1);
      assert !acts[k - 1].Finish?;
    }
    PhaseStep(was, acts[k - 1]);
  }

  lemma PhaseStep(r: Receiver, a: RxAct)
    requires RxMay(r, a) && !a.Finish? && (a.Accept? || (!r.phase.Before? && !r.phase.Done?))
    ensures var phase := RxDo(r, a).phase; !phase.Before? && !phase.Done?
  {}

  /** What calls for an answer: an acknowledgement for a subpacket that asks for one, a request for what
      could not be used. */
  predicate CallsFor(a: RxAct, u: Up) {
    if a.Commit? && (a.t == CrcQ || a.t == CrcW) then u.Ack?
    else (a.Spoil? || a.Lapse? || a.Refuse? || a.Reoffer? || a.Accept?) && u.Rpos?
  }

  /** Nothing that calls for an answer goes unanswered: the next thing that is not a purge or something
      ignored is the answer, with the committed length, or the end of the transfer. */
  lemma {:induction false} DebtsArePaid(r: Receiver, acts: seq<RxAct>, j: nat, k: nat, u: Up)
    requires RxRun(r, acts) && j < k < |acts| && CallsFor(acts[j], u)
    requires forall i :: j < i < k ==> acts[i].Purge? || acts[i].Ignore?
    requires !acts[k].Purge? && !acts[k].Ignore?
    ensures acts[k].Fail? || (acts[k].Reply? && acts[k].u.Ack? == u.Ack? && acts[k].u.Rpos? == u.Rpos?
                              && acts[k].u.pos == |RxAfter(r, acts[..k]).file|)
  {
    StillOwes(r, acts, j, k, u);
    RxPrefix(r, acts, k + 1);
  }

  predicate Owes(r: Receiver, u: Up) {
    if u.Ack? then r.owes.Acknowledgement? else r.owes.Request? && r.phase.Hunting?
  }

  lemma {:induction false} StillOwes(r: Receiver, acts: seq<RxAct>, j: nat, k: nat, u: Up)
    requires RxRun(r, acts) && j < k <= |acts| && CallsFor(acts[j], u)
    requires forall i :: j < i < k ==> acts[i].Purge? || acts[i].Ignore?
    ensures Owes(RxAfter(r, acts[..k]), u)
    decreases k
  {
    RxPrefix(r, acts, k);
    if j + 1 < k {
      StillOwes(r, acts, j, k - 1, u);
      assert acts[k - 1].Purge? || acts[k - 1].Ignore?;
    }
  }
}
