/** zmtx.c: sending one file.  Every header and subpacket that goes out is a step the sender of Peers may
    take, whatever the receiver answers. */
module Zmtx {
  import opened Peers
  import opened Bytes

  const ZBLOCKLEN: nat := 1024

  // ---------- Recovery rounds ----------

  /** Rounds left before the retries are used up: the receiver can advance at most 2^32 times, each advance
      starts a new count of attempted positions, and each new attempted position a new count of retries. */
  function RoundsLeft(receiver: nat, attempted: nat, attempts: nat): nat
    requires receiver < POSITIONS && attempted < POSITIONS && attempts <= MAX_RETRIES
  {
    ((POSITIONS - 1 - receiver) * POSITIONS + (POSITIONS - 1 - attempted)) * MAX_RETRIES + (MAX_RETRIES - attempts)
  }

  /** account_recovery: only requests without net progress use up retries. */
  method AccountRecovery(position: nat, furthest: nat, attempts: nat)
    returns (progress: bool, furthest': nat, attempts': nat)
    requires attempts < MAX_RETRIES
    ensures progress <==> position > furthest
    ensures progress ==> furthest' == position && attempts' == 0
    ensures !progress ==> furthest' == furthest && attempts' == attempts + 1
  {
    if position > furthest {
      return true, position, 0;
    }
    return false, furthest, attempts + 1;
  }

  /** Each way to account for a round leaves fewer of them, although an advance of the receiver sets the
      attempted position back. */
  lemma RoundsShrink(receiver: nat, attempted: nat, attempts: nat, position: nat)
    requires receiver < POSITIONS && attempted < POSITIONS && attempts < MAX_RETRIES && position < POSITIONS
    ensures position > receiver ==> RoundsLeft(position, position, 0) < RoundsLeft(receiver, attempted, attempts)
    ensures position > attempted ==> RoundsLeft(receiver, position, 0) < RoundsLeft(receiver, attempted, attempts)
    ensures RoundsLeft(receiver, attempted, attempts + 1) < RoundsLeft(receiver, attempted, attempts)
  {}

  lemma RoundsBound(first: nat)
    requires first < POSITIONS
    ensures RoundsLeft(first, first, 0) <= MAX_RETRIES * POSITIONS * POSITIONS
  {}

  // ---------- Subpacket sizes ----------

  predicate IsSize(n: nat) {
    n == 128 || n == 256 || n == 512 || n == 1024 || n == 2048 || n == 4096 || n == 8192
  }

  // ---------- Events ----------

  /** The result of waiting for a header. */
  datatype Reply = Said(u: Up) | Timeout | Error

  datatype Grant = Interrupted | ReadError | Granted(n: nat)

  /** How a send_from ends: the file sent to its end (ZACK in the source), an answer to be acted on, an
      acknowledgement of what was never sent (ZNAK), a timeout, a line that fails, or a write or a file that
      does. */
  datatype Ending = Completed | Answered(u: Up) | Refused | TimedOut | Broke | Stuck

  datatype Verdict = Anew | Ask(pos: nat) | Report(result: SendResult)

  datatype SendResult = SEND_FAILED | SEND_SKIPPED | SEND_SUCCEEDED

  /** A receiver that says nothing for a while, and then ZRINIT. */
  predicate Calm(events: seq<Event>, k: nat) {
    && |events| > k && events[|events| - 1] == Answer(Init)
    && forall i :: 0 <= i < |events| - 1 ==> events[i] == Quiet
  }

  /** One thing said less, and one block sent. */
  lemma CalmOn(events: seq<Event>, k: nat, n: nat)
    requires Calm(events, k) && 1 <= n <= k
    ensures events != [] && events[0] == Quiet && Calm(events[1..], k - n)
  {}

  lemma CalmEnough(events: seq<Event>, k: nat, k': nat)
    requires Calm(events, k) && k' <= k
    ensures Calm(events, k')
  {}

  /** A receiver that plays its part in sending a file of some length: it acknowledges what it is asked to
      acknowledge, oldest request first, and lets any time pass in between; it may ask for the data again,
      from a position in the file, but only some number of times; and it ends with ZRINIT, not before it has
      been ready for some more acknowledgements than the credit it was given. */
  predicate Coop(length: nat, events: seq<Event>, credit: int, rounds: nat)
    decreases events
  {
    events != [] &&
    match events[0]
    case Quiet => Coop(length, events[1..], credit, rounds)
    case Acked => Coop(length, events[1..], credit + 1, rounds)
    case Answer(u) =>
      (u.Init? && credit >= 0) ||
      (u.Rpos? && u.pos <= length && rounds > 0 && Coop(length, events[1..], -2 * (length - u.pos), rounds - 1))
    case _ => false
  }

  /** From a position in the file, the receiver plays its part. */
  predicate PlaysFrom(length: nat, events: seq<Event>, p: nat, rounds: nat) {
    p <= length && Coop(length, events, -2 * (length - p), rounds)
  }

  lemma {:induction false} CoopMore(length: nat, events: seq<Event>, credit: int, credit': int, rounds: nat)
    requires Coop(length, events, credit, rounds) && credit <= credit'
    ensures Coop(length, events, credit', rounds)
    decreases events
  {
    if events[0].Quiet? {
      CoopMore(length, events[1..], credit, credit', rounds);
    } else if events[0].Acked? {
      CoopMore(length, events[1..], credit + 1, credit' + 1, rounds);
    }
  }

  /** Answering the oldest request leaves fewer. */
  lemma {:induction false} AnsweredOldest(q: seq<nat>, p: nat)
    requires q != [] && q[0] <= p
    ensures |Unanswered(q, p)| < |q|
    decreases q
  {
    if q[1..] != [] && q[1] <= p {
      assert q[1..][0] == q[1];
      AnsweredOldest(q[1..], p);
    }
  }

  /** What a wait may pass over: what is no header; acknowledgements too; and timeouts, between subpackets. */
  datatype Patience = Listening | Waiting | Polling

  predicate Passes(h: Patience, e: Event) {
    match e
    case Quiet => true
    case Junk => true
    case Acked => true
    case Answer(u) => u.Lost? || (u.Ack? && !h.Listening?)
    case Late => h.Polling?
    case Broken(timeout) => timeout && h.Polling?
  }

  /** All that has been done since, but perhaps for the last step, is reading what may be passed over. */
  predicate Passed(h: Patience, before: seq<TxAct>, after: seq<TxAct>) {
    before <= after && forall i :: |before| <= i < |after| - 1 ==> after[i].Read? && Passes(h, after[i].e)
  }

  predicate PassedAll(h: Patience, before: seq<TxAct>, after: seq<TxAct>) {
    before <= after && forall i :: |before| <= i < |after| ==> after[i].Read? && Passes(h, after[i].e)
  }

  predicate Wider(h: Patience, h': Patience) {
    h == h' || h.Listening? || h'.Polling?
  }

  lemma PassedOn(h: Patience, h': Patience, a: seq<TxAct>, b: seq<TxAct>, c: seq<TxAct>)
    requires PassedAll(h', a, b) && Passed(h, b, c) && Wider(h, h')
    ensures Passed(h', a, c)
    ensures |b| < |c| && c[|c| - 1].Read? && Passes(h', c[|c| - 1].e) ==> PassedAll(h', a, c)
    ensures c == b ==> PassedAll(h', a, c)
  {
    forall i | |a| <= i < |c| - 1
      ensures c[i].Read? && Passes(h', c[i].e)
    {
      assert i < |b| ==> c[i] == b[i];
      assert i == |b| - 1 ==> b[|b| - 1] == c[i];
    }
  }

  /** The event a reply was made of. */
  predicate Makes(e: Event, reply: Reply) {
    match reply
    case Said(u) => e == Answer(u) || (e.Acked? && u.Ack?)
    case Timeout => e.Late? || e == Broken(true)
    case Error => e == Broken(false)
  }

  /** Where a wait for a header comes to on the line; an acknowledgement may be due or not. */
  function AtAnswer(events: seq<Event>, due: bool): (r: seq<Event>)
    ensures |r| <= |events|
    ensures r != [] ==> !Passes(Listening, r[0]) || (r[0].Acked? && due)
    decreases events
  {
    if events != [] && Passes(Listening, events[0]) && !(events[0].Acked? && due) then AtAnswer(events[1..], due)
    else events
  }

  lemma AtAnswerStep(events: seq<Event>, due: bool)
    ensures events != [] && Passes(Listening, events[0]) && !(events[0].Acked? && due) ==>
              AtAnswer(events, due) == AtAnswer(events[1..], due)
    ensures events == [] || !Passes(Listening, events[0]) || (events[0].Acked? && due) ==>
              AtAnswer(events, due) == events
  {}

  lemma {:induction false} CalmAtAnswer(events: seq<Event>, due: bool)
    ensures Calm(events, 0) ==> AtAnswer(events, due) == [Answer(Init)]
    decreases events
  {
    if Calm(events, 0) && |events| > 1 {
      assert events[1..][|events| - 2] == events[|events| - 1];
      assert events[0] == Quiet;
      CalmAtAnswer(events[1..], due);
    }
  }

  /** A receiver that plays its part does so up to its next answer. */
  lemma {:induction false} CoopAtAnswer(length: nat, events: seq<Event>, due: bool, credit: int, rounds: nat)
    returns (left: int)
    requires Coop(length, events, credit, rounds)
    ensures Coop(length, AtAnswer(events, due), left, rounds) && (due ==> left == credit)
    decreases events
  {
    left := credit;
    if events[0].Quiet? {
      left := CoopAtAnswer(length, events[1..], due, credit, rounds);
    } else if events[0].Acked? && !due {
      left := CoopAtAnswer(length, events[1..], due, credit + 1, rounds);
    }
  }

  /** What the next answer of such a receiver can be. */
  lemma CoopAnswers(length: nat, line: seq<Event>, credit: int, rounds: nat)
    requires Coop(length, line, credit, rounds) && !line[0].Quiet?
    ensures line[0].Acked? ==> Coop(length, line[1..], credit + 1, rounds)
    ensures line[0].Answer? ==>
              (line[0].u.Init? && credit >= 0)
              || (line[0].u.Rpos? && rounds > 0 && PlaysFrom(length, line[1..], line[0].u.pos, rounds - 1))
    ensures line[0].Acked? || line[0].Answer?
  {}

  // ---------- Before the first position is named ----------

  predicate Names(e: Event) {
    e.Answer? && (e.u.Rpos? || e.u.Skip?)
  }

  /** The line from the first ZRPOS or ZSKIP on. */
  function Naming(events: seq<Event>): (r: seq<Event>)
    ensures r != [] ==> Names(r[0])
    decreases events
  {
    if events == [] || Names(events[0]) then events else Naming(events[1..])
  }

  /** How many rounds end before that: by a timeout, a line that fails, or an answer; but ZACKs and the first
      ZRINIT of a round are passed over. */
  function RoundsBefore(events: seq<Event>, stale: bool): nat
    decreases events
  {
    if events == [] || Names(events[0]) then 0
    else if events[0] == Answer(Init) && !stale then RoundsBefore(events[1..], true)
    else if Passes(Waiting, events[0]) then RoundsBefore(events[1..], stale)
    else 1 + RoundsBefore(events[1..], false)
  }

  lemma {:induction false} RoundsAtAnswer(events: seq<Event>, stale: bool)
    ensures RoundsBefore(AtAnswer(events, false), stale) == RoundsBefore(events, stale)
    ensures Naming(AtAnswer(events, false)) == Naming(events)
    decreases events
  {
    if events != [] && Passes(Listening, events[0]) {
      RoundsAtAnswer(events[1..], stale);
    }
  }

  /** What one answer does to a round. */
  lemma RoundGoesOn(line: seq<Event>, stale: bool, reply: Reply)
    requires line != [] && Makes(line[0], reply) && !Passes(Listening, line[0])
    ensures if reply.Said? && (reply.u.Rpos? || reply.u.Skip?) then
              RoundsBefore(line, stale) == 0 && Naming(line) == line
            else
              && Naming(line) == Naming(line[1..])
              && RoundsBefore(line, stale)
                 == if reply == Said(Init) && !stale then RoundsBefore(line[1..], true)
                    else if reply.Said? && reply.u.Ack? then RoundsBefore(line[1..], stale)
                    else 1 + RoundsBefore(line[1..], false)
  {}

  /** What n offers put on the line. */
  function Offers(info: File, n: nat): seq<Down> {
    if n == 0 then [] else Offers(info, n - 1) + [Offer, Sub(info, CrcW)]
  }

  /** What has been read is what the line was to deliver, event by event, and then nothing in time. */
  predicate Recorded(script: seq<Event>, line: seq<Event>, acts: seq<TxAct>, events: seq<Event>) {
    && script <= line && line == Readings(acts) + events
    && (forall i :: |script| <= i < |line| ==> line[i] == Late) && (|line| > |script| ==> events == [])
  }

  class Zmtx {
    const source: File
    const info: File
    const windowSize: nat
    const canFullDuplex: bool
    const canOverlapIo: bool
    const stepwise: bool
    const receiverBufferSize: nat
    const block: array<bv8>

    var events: seq<Event>
    var grants: seq<Grant>
    var writes: seq<bool>

    var offset: nat
    var subpacketSize: nat
    var maxSubpacketSize: nat

    /** What has happened on the line, in order. */
    var acts: seq<TxAct>

    ghost const script: seq<Event>
    ghost var line: seq<Event>
    ghost var st: Sender

    constructor (source: File, info: File, windowSize: nat, canFullDuplex: bool, canOverlapIo: bool, stepwise: bool,
                 receiverBufferSize: nat, maxSubpacketSize: nat, events: seq<Event>, grants: seq<Grant>,
                 writes: seq<bool>)
      requires IsSize(maxSubpacketSize) && maxSubpacketSize >= ZBLOCKLEN
      ensures Valid() && st == IDLE && acts == [] && fresh(block)
      ensures this.source == source && this.info == info && this.events == events && script == events
    {
      this.info, script, line := info, events, events;
      this.source, this.windowSize := source, windowSize;
      this.canFullDuplex, this.canOverlapIo := canFullDuplex, canOverlapIo;
      this.stepwise, this.receiverBufferSize := stepwise, receiverBufferSize;
      this.events, this.grants, this.writes := events, grants, writes;
      block := new bv8[ZMAXSPLEN];
      offset, subpacketSize, this.maxSubpacketSize := 0, ZBLOCKLEN, maxSubpacketSize;
      acts, st := [], IDLE;
    }

    predicate WindowEnabled() {
      windowSize != 0 && canFullDuplex
    }

    /** Every block is waited for: by choice, for a receiver that cannot take data while it writes, and for a
        window on a half-duplex line. */
    predicate WaitsEachBlock() {
      stepwise || !canOverlapIo || (windowSize != 0 && !canFullDuplex)
    }

    function Cfg(): Config {
      Config(source, info, if WindowEnabled() then windowSize else 0, receiverBufferSize, WaitsEachBlock())
    }

    /** The sizes are powers of two between 128 and ZMAXSPLEN, the current one at most the maximum; all that
        has been done was allowed; and all that has been read was there to be read. */
    ghost predicate Valid()
      reads this
    {
      && block.Length == ZMAXSPLEN && Recorded(script, line, acts, events)
      && IsSize(subpacketSize) && IsSize(maxSubpacketSize) && subpacketSize <= maxSubpacketSize
        && ZBLOCKLEN <= maxSubpacketSize
      && TxRun(Cfg(), IDLE, acts) && st == TxAfter(Cfg(), IDLE, acts) && TxSound(Cfg(), st)
    }

    // ---------- Steps ----------

    /** A step that reads nothing. */
    method Act(a: TxAct)
      requires Valid() && TxMay(Cfg(), st, a) && !a.Read?
      modifies this`acts, this`st
      ensures Valid() && acts == old(acts) + [a] && st == TxDo(Cfg(), old(st), a)
    {
      hide TxRun, TxAfter, TxSound, TxMay, TxDo, Readings;
      TxRunMore(Cfg(), IDLE, acts, a);
      TxKeepsSound(Cfg(), st, a);
      TxRecordMore(Cfg(), IDLE, acts, a);
      acts, st := acts + [a], TxDo(Cfg(), st, a);
    }

    /** Something goes out, and perhaps not all of it. */
    method Tx(m: Down) returns (ok: bool)
      requires Valid() && MaySend(Cfg(), st, m)
      modifies this`acts, this`st, this`writes
      ensures Valid() && acts == old(acts) + [Send(m)] && st == Sent(old(st).(alarm := false), m)
      ensures old(writes) == [] ==> ok && writes == []
    {
      hide TxRun, TxAfter, TxSound, Sent, MaySend;
      Act(Send(m));
      ok := true;
      if writes != [] {
        ok, writes := writes[0], writes[1..];
      }
    }

    /** ZFERR, whether it goes out or not: the transfer is over. */
    method TxError()
      requires Valid()
      modifies this`acts, this`st, this`writes
      ensures Valid() && st == Ended(old(st).(alarm := false)) && acts == old(acts) + [Send(OtherDown)]
      ensures old(writes) == [] ==> writes == []
    {
      hide TxRun, TxAfter, TxSound;
      var _ := Tx(OtherDown);
    }

    /** The next event on the line, and the answer in it. */
    method Next() returns (e: Event, u: seq<Up>)
      requires Valid()
      modifies this`acts, this`st, this`events, this`line
      ensures Valid() && acts == old(acts) + [Read(e)]
      ensures u == Answers(old(st), e) && st == Noticed(Cfg(), old(st), e)
      ensures if old(events) == [] then e == Late && events == [] else e == old(events)[0] && events == old(events)[1..]
    {
      hide TxRun, TxAfter, TxSound, Noticed, Readings, IsSize;
      TakeEvent(if events == [] then Late else events[0]);
      e := Late;
      if events == [] {
        line := line + [Late];
      } else {
        e, events := events[0], events[1..];
      }
      u := Answers(TxAfter(Cfg(), IDLE, acts), e);
      acts := acts + [Read(e)];
      st := Noticed(Cfg(), st, e);
    }

    /** What reading an event does to the record. */
    lemma TakeEvent(e: Event)
      requires Valid()
      ensures TxRun(Cfg(), IDLE, acts + [Read(e)]) && TxAfter(Cfg(), IDLE, acts + [Read(e)]) == Noticed(Cfg(), st, e)
      ensures TxSound(Cfg(), Noticed(Cfg(), st, e)) && Readings(acts + [Read(e)]) == Readings(acts) + [e]
      ensures events != [] ==> Readings(acts) + [events[0]] + events[1..] == line
      ensures events == [] ==> Readings(acts) == line
    {
      hide TxRun, TxAfter, TxSound, Noticed, Readings, IsSize;
      TxRunMore(Cfg(), IDLE, acts, Read(e));
      TxKeepsSound(Cfg(), st, Read(e));
      TxRecordMore(Cfg(), IDLE, acts, Read(e));
      assert events != [] ==> [events[0]] + events[1..] == events;
    }

    /** A reply that a receiver playing its part may give: the acknowledgement that is due, a request for data,
        or ZRINIT once its credit is used up. */
    ghost predicate Played(reply: Reply, pending: seq<nat>, credit: int, rounds: nat)
      reads this
    {
      reply.Said? &&
      match reply.u
      case Ack(p) => pending != [] && p == pending[0] && Coop(|source|, events, credit + 1, rounds)
      case Rpos(p) => Recalled(p, rounds)
      case Init => pending != [] ==> credit >= 0
      case _ => false
    }

    /** The receiver has asked for the data again, and plays its part from there. */
    ghost predicate Recalled(p: nat, rounds: nat)
      reads this
    {
      rounds > 0 && PlaysFrom(|source|, events, p, rounds - 1)
    }

    /** What a wait for a header makes of the line and of the sender. */
    twostate predicate Listened(reply: Reply)
      reads this
    {
      && (match reply
          case Said(u) => u != Lost && st == Heard(Cfg(), old(st).(alarm := false), u)
          case Timeout => st == old(st).(alarm := true)
          case Error => st == old(st).(cut := true))
      && var line := AtAnswer(old(events), old(st.pending) != []);
         if line == [] then reply.Timeout? && events == []
         else && Makes(line[0], reply) && events == line[1..]
              && (line[0].Acked? ==> old(st.pending) != [] && reply == Said(Ack(old(st.pending)[0])))
    }

    /** rx_header: what is no header goes by, and nothing else does. */
    method RxHeader(ghost credit: int, ghost rounds: nat) returns (reply: Reply)
      requires Valid()
      modifies this`acts, this`st, this`events, this`line
      ensures Valid() && Listened(reply) && Sendings(acts) == old(Sendings(acts))
      ensures |events| <= old(|events|) && (old(events) != [] || reply.Said? ==> |events| < old(|events|))
      ensures old(events) != [] && old(events)[0].Answer? && old(events)[0].u != Lost ==>
                reply == Said(old(events)[0].u) && events == old(events)[1..]
      ensures Passed(Listening, old(acts), acts) && |acts| > |old(acts)|
      ensures acts[|acts| - 1].Read? && Makes(acts[|acts| - 1].e, reply)
      ensures Calm(old(events), 0) ==> reply == Said(Init)
      ensures Coop(|source|, old(events), credit, rounds) ==> Played(reply, old(st.pending), credit, rounds)
    {
      hide TxRun, TxAfter, TxSound, Heard, IsSize, Recorded, Sendings, Calm, Coop;
      ghost var was := st;
      CalmAtAnswer(events, st.pending != []);
      ghost var left := credit;
      if Coop(|source|, events, credit, rounds) {
        left := CoopAtAnswer(|source|, events, st.pending != [], credit, rounds);
        CoopAnswers(|source|, AtAnswer(events, st.pending != []), left, rounds);
      }
      reply := FindAnswer();
    }

    /** The loop of rx_header. */
    method FindAnswer() returns (reply: Reply)
      requires Valid()
      modifies this`acts, this`st, this`events, this`line
      ensures Valid() && Listened(reply) && Sendings(acts) == old(Sendings(acts))
      ensures |events| <= old(|events|) && (old(events) != [] || reply.Said? ==> |events| < old(|events|))
      ensures Passed(Listening, old(acts), acts) && |acts| > |old(acts)|
      ensures acts[|acts| - 1].Read? && Makes(acts[|acts| - 1].e, reply)
    {
      hide TxRun, TxAfter, TxSound, Heard, IsSize, Recorded, Sendings, Answers, Noticed, Passes, Makes, AtAnswer,
        Passed, PassedAll;
      NothingPassed();
      while true
        invariant Valid() && st == old(st) && (events == old(events) || |events| < old(|events|))
        invariant AtAnswer(events, st.pending != []) == AtAnswer(old(events), st.pending != [])
        invariant PassedAll(Listening, old(acts), acts) && Sendings(acts) == old(Sendings(acts))
        decreases |events|
      {
        ghost var e0 := if events == [] then Late else events[0];
        TxRecordMore(Cfg(), IDLE, acts, Read(e0));
        EventCases(st, e0);
        AtAnswerStep(events, st.pending != []);
        OneMore(old(acts), acts, e0);
        var e, u := Next();
        if u != [] && u[0] != Lost {
          return Said(u[0]);
        }
        if e.Late? || e == Broken(true) {
          return Timeout;
        }
        if e == Broken(false) {
          return Error;
        }
      }
    }

    lemma OneMore(before: seq<TxAct>, after: seq<TxAct>, e: Event)
      requires PassedAll(Listening, before, after)
      ensures Passed(Listening, before, after + [Read(e)]) && |before| <= |after|
      ensures Passes(Listening, e) ==> PassedAll(Listening, before, after + [Read(e)])
    {}

    /** What one event does to a wait for a header. */
    lemma EventCases(s: Sender, e: Event)
      ensures var u, t := Answers(s, e), Noticed(Cfg(), s, e);
              var passes := Passes(Listening, e) && !(e.Acked? && s.pending != []);
              if u != [] && u[0] != Lost then
                && !passes && Makes(e, Said(u[0])) && t == Heard(Cfg(), s.(alarm := false), u[0])
                && (e.Acked? ==> s.pending != [] && u[0] == Ack(s.pending[0]))
              else if e.Late? || e == Broken(true) then !passes && Makes(e, Timeout) && t == s.(alarm := true)
              else if e == Broken(false) then !passes && Makes(e, Error) && t == s.(cut := true)
              else passes && t == s
      ensures e.Late? || e.Broken? ==> Answers(s, e) == []
    {
      hide Heard;
    }

    // ---------- Sizes ----------

    /** increase_subpacket_size */
    method IncreaseSubpacketSize()
      requires Valid()
      modifies this`subpacketSize
      ensures Valid()
      ensures subpacketSize
                == if 2 * old(subpacketSize) <= maxSubpacketSize then 2 * old(subpacketSize) else maxSubpacketSize
    {
      if subpacketSize < maxSubpacketSize {
        subpacketSize := subpacketSize * 2;
        if subpacketSize > maxSubpacketSize {
          subpacketSize := maxSubpacketSize;
        }
      }
    }

    /** reduce_subpacket_size */
    method ReduceSubpacketSize()
      requires Valid()
      modifies this`subpacketSize, this`maxSubpacketSize
      ensures Valid()
      ensures subpacketSize == if old(subpacketSize) > 128 then old(subpacketSize) / 2 else 128
      ensures maxSubpacketSize == if old(subpacketSize == maxSubpacketSize && maxSubpacketSize > ZBLOCKLEN)
                                  then old(maxSubpacketSize) / 2 else old(maxSubpacketSize)
    {
      if subpacketSize == maxSubpacketSize {
        if maxSubpacketSize > ZBLOCKLEN {
          maxSubpacketSize := maxSubpacketSize / 2;
        }
      }
      if subpacketSize > 128 {
        subpacketSize := subpacketSize / 2;
      }
    }

    // ---------- Reading the file ----------

    /** One call of read: some of what was asked for, none only at the end of the file. */
    method ReadSome(used: nat, wanted: nat) returns (ok: bool, count: nat)
      requires Valid() && offset <= |source| && 0 < wanted && used + wanted <= block.Length
      modifies this`offset, this`grants, block
      ensures Valid() && block[..used] == old(block[..used])
      ensures ok ==> && count <= wanted && offset == old(offset) + count <= |source|
                     && block[..used + count] == old(block[..used]) + source[old(offset)..offset]
                     && (count == 0 <==> old(offset) == |source|)
      ensures !ok ==> offset == old(offset)
      ensures old(grants) == [] ==> ok && grants == []
    {
      hide TxRun, TxAfter, TxSound, IsSize;
      ghost var kept := block[..used];
      count := wanted;
      ok := true;
      while grants != []
        invariant Valid() && block[..used] == kept && offset == old(offset) && (old(grants) == [] ==> grants == [])
        decreases |grants|
      {
        var grant := grants[0];
        grants := grants[1..];
        if grant.ReadError? {
          return false, 0;
        }
        if grant.Granted? {
          count := if grant.n == 0 then 1 else if grant.n < wanted then grant.n else wanted;
          break;
        }
      }
      if count > |source| - offset {
        count := |source| - offset;
      }
      CopyIn(used, count);
      offset := offset + count;
    }

    /** Some of the file comes to stand behind what is in the block. */
    method CopyIn(used: nat, count: nat)
      requires used + count <= block.Length && offset + count <= |source|
      modifies block
      ensures block[..used + count] == old(block[..used]) + source[offset..offset + count]
      ensures block[..used] == old(block[..used])
    {
      forall i | 0 <= i < count {
        block[used + i] := source[offset + i];
      }
    }

    /** read_file_block: short and interrupted reads do not show, and the end of the file is reported exactly
        when less than a full block is left. */
    method ReadFileBlock(capacity: nat) returns (ok: bool, count: nat, endOfFile: bool)
      requires Valid() && offset <= |source| && 0 < capacity <= block.Length
      modifies this`offset, this`grants, block
      ensures Valid() && offset <= |source|
      ensures ok ==> && count <= capacity && offset == old(offset) + count
                     && block[..count] == source[old(offset)..offset]
                     && (endOfFile <==> count < capacity) && (endOfFile ==> offset == |source|)
      ensures old(grants) == [] ==> ok && grants == []
    {
      hide TxRun, TxAfter, TxSound, IsSize;
      ghost var start := offset;
      count, endOfFile, ok := 0, false, true;
      while count < capacity
        invariant Valid() && count <= capacity && !endOfFile && ok
        invariant offset == start + count <= |source| && block[..count] == source[start..offset]
        invariant old(grants) == [] ==> grants == []
      {
        ghost var before := offset;
        var n;
        ok, n := ReadSome(count, capacity - count);
        if !ok {
          return;
        }
        if n == 0 {
          endOfFile := true;
          break;
        }
        assert source[start..before] + source[before..offset] == source[start..offset];
        count := count + n;
      }
    }

    // ---------- send_from ----------

    /** In a send_from: what its local variables say of the sender. */
    ghost predicate Streaming(frameOpen: bool, acknowledged: nat, lastAckRequest: nat, segmentSent: nat)
      reads this
    {
      && Valid() && st.phase.Sending? && !st.waiting && st.position == offset <= |source|
      && frameOpen == st.open && acknowledged == st.acknowledged && lastAckRequest == st.lastRequest
      && segmentSent == st.segment
    }

    /** What only a new start changes. */
    ghost predicate Alike(was: Sender)
      reads this
    {
      st.requested == was.requested && st.recoveries == was.recoveries && st.tally == was.tally && st.eofs == was.eofs
    }

    ghost predicate Kept(was: Sender)
      reads this
    {
      Alike(was) && st.recovering == was.recovering
    }

    /** accept_acknowledgement: an acknowledgement of what was never sent is refused. */
    method AcceptAcknowledgement(position: nat, sent: nat, acknowledged: nat) returns (ok: bool, acknowledged': nat)
      ensures ok <==> position <= sent
      ensures acknowledged' == if ok && position > acknowledged then position else acknowledged
    {
      if position > sent {
        return false, acknowledged;
      }
      ok, acknowledged' := true, if position > acknowledged then position else acknowledged;
    }

    /** Where a send_from may leave the sender when it ends. */
    ghost predicate Left(ending: Ending, was: Sender)
      reads this
    {
      && Valid() && offset <= |source|
      && st.recoveries == was.recoveries + (if ending.Answered? && ending.u.Rpos? then 1 else 0)
      && match ending
      case Completed =>
        && st.position == |source| == offset && Alike(was)
        && (if st.phase.Finishing? then !st.alarm else st.phase.Sending? && !st.open && !st.waiting)
      case Answered(u) =>
        && !u.Ack? && !u.Lost?
        && (u.Rpos? ==> st == Start(Cfg(), u.pos, was.recoveries + 1, Requested(was.tally, u.pos)))
        && (u.Nak? ==> Alarmed(was))
        && (u.Skip? || u.Init? || u.OtherUp? ==> st.phase == Dismissed(u))
      case Refused => Alarmed(was)
      case TimedOut => Alarmed(was)
      case Broke => st.cut && !Over()
      case Stuck => !st.phase.Succeeded? && st.phase != Dismissed(Skip)
    }

    /** The last thing noticed calls for a new start. */
    ghost predicate Alarmed(was: Sender)
      reads this
    {
      st.phase.Sending? && Alike(was) && st.alarm && st.position == offset
    }

    ghost predicate Over()
      reads this
    {
      st.phase.Succeeded? || st.phase.Dismissed?
    }

    /** Left says nothing of the earlier state but what only a new start changes. */
    lemma LeftAlike(ending: Ending, was: Sender, earlier: Sender)
      requires Left(ending, was) && was.requested == earlier.requested && was.recoveries == earlier.recoveries
      requires was.tally == earlier.tally && was.eofs == earlier.eofs
      ensures Left(ending, earlier)
    {
      hide TxRun, TxAfter, TxSound, IsSize;
    }

    lemma LeftStuck(was: Sender)
      requires Valid() && offset <= |source| && st.recoveries == was.recoveries && !Over()
      ensures Left(Stuck, was)
    {
      hide TxRun, TxAfter, TxSound, IsSize;
    }

    function Close(reply: Reply): (ending: Ending) {
      match reply
      case Said(u) => Answered(u)
      case Timeout => TimedOut
      case Error => Broke
    }

    /** The receiver plays its part: it is good for all that is still to be sent and answered, and some more. */
    ghost predicate Helped(extra: nat, rounds: nat)
      reads this
    {
      offset <= |source| && Coop(|source|, events, -(|st.pending| + 2 * (|source| - offset) + extra), rounds)
    }

    /** The receiver asks for the data again, playing its part. */
    ghost predicate Interrupted(ending: Ending, rounds: nat)
      reads this
    {
      ending.Answered? && ending.u.Rpos? && Recalled(ending.u.pos, rounds)
    }

    /** An answer to the oldest request is one of something sent, and leaves fewer requests. */
    lemma OldestRequest()
      requires Valid() && st.phase.Sending? && st.pending != []
      ensures st.acknowledged < st.pending[0] <= st.position
      ensures |Unanswered(st.pending, st.pending[0])| < |st.pending|
    {
      hide TxRun, TxAfter, Recorded, IsSize;
      QueueLast(st.pending, st.acknowledged, st.position, Gap(Cfg(), st));
      AnsweredOldest(st.pending, st.pending[0]);
    }

    /** One request fewer, or some of the file sent: the receiver still plays its part. */
    lemma HelpedOn(credit: int, extra: nat, rounds: nat)
      requires offset <= |source| && Coop(|source|, events, credit, rounds)
      requires credit <= -(|st.pending| + 2 * (|source| - offset) + extra)
      ensures Helped(extra, rounds)
    {
      CoopMore(|source|, events, credit, -(|st.pending| + 2 * (|source| - offset) + extra), rounds);
    }

    /** Where a header leaves a sender that was sending. */
    lemma ReplyLeaves(reply: Reply, was: Sender, acknowledged: nat)
      requires Valid() && offset <= |source| && was.phase.Sending? && !was.waiting && was.position == offset
      requires acknowledged == was.acknowledged
      requires match reply
               case Said(u) => u != Lost && st == Heard(Cfg(), was.(alarm := false), u)
               case Timeout => st == was.(alarm := true)
               case Error => st == was.(cut := true)
      ensures !(reply.Said? && reply.u.Ack?) ==> Left(Close(reply), was)
      ensures reply.Said? && reply.u.Ack? && reply.u.pos > offset ==> Left(Refused, was)
      ensures reply.Timeout? ==> Streaming(was.open, acknowledged, was.lastRequest, was.segment) && Kept(was)
      ensures reply.Said? && reply.u.Ack? && reply.u.pos <= offset ==>
                && Streaming(was.open, if reply.u.pos > acknowledged then reply.u.pos else acknowledged,
                             was.lastRequest, was.segment)
                && Kept(was) && st.pending == Unanswered(was.pending, reply.u.pos)
    {
      hide TxRun, TxAfter, TxSound, IsSize, Recorded;
    }

    /** One header from the receiver in a send_from. */
    method TakeAnswer(frameOpen: bool, acknowledged: nat, ghost lastAckRequest: nat, ghost segmentSent: nat,
                      ghost extra: nat, ghost rounds: nat)
      returns (reply: Reply, refused: bool, acknowledged': nat)
      requires Streaming(frameOpen, acknowledged, lastAckRequest, segmentSent)
      modifies this`acts, this`st, this`events, this`line
      ensures |events| <= old(|events|) && (old(events) != [] || reply.Said? ==> |events| < old(|events|))
      ensures var taken := reply.Said? && reply.u.Ack?;
              && (refused ==> taken && Left(Refused, old(st)))
              && (!taken ==> Left(Close(reply), old(st)))
              && (reply.Timeout? || (taken && !refused) ==>
                    && Streaming(frameOpen, acknowledged', lastAckRequest, segmentSent) && Kept(old(st))
                    && acknowledged <= acknowledged')
      ensures Passed(Listening, old(acts), acts) && |acts| > |old(acts)|
      ensures acts[|acts| - 1].Read? && Makes(acts[|acts| - 1].e, reply)
      ensures old(Helped(extra, rounds) && (st.pending != [] || (extra > 0 && events[0].Answer?))) ==>
                if reply.Said? && reply.u.Ack? then !refused && Helped(extra, rounds)
                else Interrupted(Close(reply), rounds)
    {
      hide TxRun, TxAfter, TxSound, IsSize, Recorded, Coop, Left, Heard, Recalled;
      ghost var was := st;
      ghost var credit := -(|st.pending| + 2 * (|source| - offset) + extra);
      ghost var helped := Helped(extra, rounds)
        && (st.pending != [] || (extra > 0 && events != [] && events[0].Answer?));
      if st.pending != [] {
        OldestRequest();
      }
      if helped && events != [] && events[0].Answer? {
        NoInviteYet(credit, rounds);
      }
      acknowledged', refused := acknowledged, false;
      reply := RxHeader(credit, rounds);
      ReplyLeaves(reply, was, acknowledged);
      if reply.Said? && reply.u.Ack? {
        var ok;
        ok, acknowledged' := AcceptAcknowledgement(reply.u.pos, offset, acknowledged);
        refused := !ok;
        if helped {
          HelpedOn(credit + 1, extra, rounds);
        }
      }
    }

    /** A receiver that plays its part does not invite the next file before its time. */
    lemma NoInviteYet(credit: int, rounds: nat)
      requires Coop(|source|, events, credit, rounds) && credit < 0 && events[0].Answer?
      ensures events[0].u != Init && events[0].u != Lost
    {}

    /** When the window is full, an acknowledgement has been asked for and has not come. */
    lemma AnswerIsDue(frameOpen: bool, acknowledged: nat, lastAckRequest: nat, segmentSent: nat)
      requires Streaming(frameOpen, acknowledged, lastAckRequest, segmentSent)
      requires WindowEnabled() && offset - acknowledged >= windowSize
      ensures acknowledged < lastAckRequest <= offset && st.pending != []
    {
      NoSelfMadeStall(Cfg(), acts);
    }

    /** A wait for an acknowledgement, which may only be entered when one has been asked for beyond the
        acknowledged position and has not come: the sender never waits for nothing. */
    method AwaitDue(frameOpen: bool, acknowledged: nat, ghost lastAckRequest: nat, ghost segmentSent: nat,
                    ghost rounds: nat)
      returns (done: bool, ending: Ending, acknowledged': nat)
      requires Streaming(frameOpen, acknowledged, lastAckRequest, segmentSent)
      requires acknowledged < lastAckRequest && st.pending != []
      modifies this`acts, this`st, this`events, this`line
      ensures done ==> Left(ending, old(st)) && !ending.Completed? && !ending.Stuck?
      ensures !done ==>
                && Streaming(frameOpen, acknowledged', lastAckRequest, segmentSent) && Kept(old(st))
                && acknowledged <= acknowledged' && |events| < old(|events|)
      ensures Passed(Listening, old(acts), acts) && |acts| > |old(acts)|
      ensures !done ==> acts[|acts| - 1].Read? && Passes(Waiting, acts[|acts| - 1].e)
      ensures old(Helped(0, rounds)) ==> if done then Interrupted(ending, rounds) else Helped(0, rounds)
    {
      hide TxRun, TxAfter, TxSound, IsSize, Left, Heard, Helped, Interrupted, Recorded;
      var reply, refused;
      reply, refused, acknowledged' := TakeAnswer(frameOpen, acknowledged, lastAckRequest, segmentSent, 0, rounds);
      done, ending := false, TimedOut;
      if refused {
        done, ending := true, Refused;
      } else if !reply.Said? || !reply.u.Ack? {
        done, ending := true, Close(reply);
      }
    }

    /** The wait on a full window. */
    method AwaitWindow(frameOpen: bool, acknowledged: nat, ghost lastAckRequest: nat, ghost segmentSent: nat,
                       ghost rounds: nat)
      returns (done: bool, ending: Ending, acknowledged': nat)
      requires Streaming(frameOpen, acknowledged, lastAckRequest, segmentSent) && WindowEnabled()
      modifies this`acts, this`st, this`events, this`line
      ensures done ==> Left(ending, old(st)) && !ending.Completed? && !ending.Stuck?
      ensures !done ==>
                && Streaming(frameOpen, acknowledged', lastAckRequest, segmentSent) && Kept(old(st))
                && acknowledged <= acknowledged' && offset - acknowledged' < windowSize
      ensures if done then Passed(Waiting, old(acts), acts) else PassedAll(Waiting, old(acts), acts)
      ensures old(offset) - acknowledged < windowSize ==> !done && acts == old(acts) && acknowledged' == acknowledged
      ensures old(Helped(0, rounds)) ==> if done then Interrupted(ending, rounds) else Helped(0, rounds)
    {
      hide TxRun, TxAfter, TxSound, IsSize, Left, Heard, Helped, Interrupted, Recorded;
      acknowledged', done, ending := acknowledged, false, TimedOut;
      while offset - acknowledged' >= windowSize
        invariant Streaming(frameOpen, acknowledged', lastAckRequest, segmentSent) && Kept(old(st))
        invariant acknowledged <= acknowledged' && PassedAll(Waiting, old(acts), acts)
        invariant acts != old(acts) || acknowledged' != acknowledged ==> offset - acknowledged >= windowSize
        invariant old(Helped(0, rounds)) ==> Helped(0, rounds)
        decreases |events|
      {
        AnswerIsDue(frameOpen, acknowledged', lastAckRequest, segmentSent);
        ghost var was, before := st, acts;
        done, ending, acknowledged' := AwaitDue(frameOpen, acknowledged', lastAckRequest, segmentSent, rounds);
        PassedOn(Listening, Waiting, old(acts), before, acts);
        if done {
          LeftAlike(ending, was, old(st));
          return;
        }
      }
    }

    /** The size of the next read: at least one byte, within the window and the receiver's buffer. */
    method ReadSize(acknowledged: nat, segmentSent: nat) returns (n: nat)
      requires Valid() && acknowledged <= offset
      requires WindowEnabled() ==> offset - acknowledged < windowSize
      requires receiverBufferSize != 0 ==> segmentSent < receiverBufferSize
      ensures 1 <= n <= subpacketSize <= block.Length
      ensures WindowEnabled() ==> offset + n <= acknowledged + windowSize
      ensures receiverBufferSize != 0 ==> segmentSent + n <= receiverBufferSize
      ensures n == subpacketSize || (WindowEnabled() && offset + n == acknowledged + windowSize)
              || (receiverBufferSize != 0 && segmentSent + n == receiverBufferSize)
    {
      n := subpacketSize;
      if WindowEnabled() {
        if n > windowSize - (offset - acknowledged) {
          n := windowSize - (offset - acknowledged);
        }
      }
      if receiverBufferSize != 0 {
        if n > receiverBufferSize - segmentSent {
          n := receiverBufferSize - segmentSent;
        }
      }
    }

    /** The terminator of a subpacket that ends at the current offset. */
    method FrameEnd(n: nat, endOfFile: bool, wait: bool, lastAckRequest: nat, segmentSent: nat) returns (t: End)
      requires lastAckRequest <= offset
      ensures t == CrcE <==> n == 0 || (!wait && endOfFile)
      ensures t == CrcW <==> t != CrcE && (wait || (receiverBufferSize != 0 && segmentSent + n == receiverBufferSize))
      ensures t == CrcQ <==> t != CrcE && t != CrcW && WindowEnabled() && offset - lastAckRequest >= windowSize / 4
    {
      if n == 0 || (!wait && endOfFile) {
        t := CrcE;
      } else if wait || (receiverBufferSize != 0 && segmentSent + n == receiverBufferSize) {
        t := CrcW;
      } else if WindowEnabled() && offset - lastAckRequest >= windowSize / 4 {
        t := CrcQ;
      } else {
        t := CrcG;
      }
    }

    /** Behind a ZCRCW the last request is that of the current position. */
    lemma LastRequest()
      requires Valid() && st.phase.Sending? && st.waiting
      ensures st.pending != [] && st.pending[|st.pending| - 1] == st.position && !st.open
    {
      hide TxRun, TxAfter, Recorded, IsSize;
    }

    /** The wait for the acknowledgement of a ZCRCW: stale ones do not count, and a timeout ends it. */
    method AwaitAcknowledgement(ghost rounds: nat) returns (done: bool, ending: Ending)
      requires Valid() && st.phase.Sending? && st.waiting && st.position == offset <= |source|
      modifies this`acts, this`st, this`events, this`line
      ensures done ==> Left(ending, old(st)) && !ending.Completed?
      ensures !done ==> Streaming(false, offset, offset, 0) && Alike(old(st)) && !st.recovering
      ensures Passed(Waiting, old(acts), acts) && ending != Stuck
      ensures old(Helped(1, rounds)) ==> if done then Interrupted(ending, rounds) else Helped(0, rounds)
    {
      hide TxRun, TxAfter, TxSound, IsSize, Recorded, Coop, Left, Passes, Passed, PassedAll;
      NothingPassed();
      while true
        invariant Valid() && st.phase.Sending? && st.waiting && st.position == offset && Alike(old(st))
        invariant old(Helped(1, rounds)) ==> Helped(1, rounds)
        invariant PassedAll(Waiting, old(acts), acts)
        decreases |events|
      {
        LastRequest();
        OldestRequest();
        ghost var was, before := st, acts;
        ghost var credit := -(|st.pending| + 2 * (|source| - offset) + 1);
        var reply := RxHeader(credit, rounds);
        AcksPass(acts[|acts| - 1].e, reply);
        PassedOn(Listening, Waiting, old(acts), before, acts);
        if !reply.Said? || !reply.u.Ack? {
          ReplyEndsWait(reply, was);
          LeftAlike(Close(reply), was, old(st));
          return true, Close(reply);
        }
        if old(Helped(1, rounds)) {
          HelpedOn(credit + 1, 0, rounds);
          HelpedOn(credit + 1, 1, rounds);
        }
        if reply.u.pos == offset {
          return false, TimedOut;
        }
      }
    }

    /** Where a header leaves a sender that waits for an acknowledgement. */
    lemma ReplyEndsWait(reply: Reply, was: Sender)
      requires Valid() && offset <= |source| && was.phase.Sending? && was.position == offset
      requires match reply
               case Said(u) => u != Lost && !u.Ack? && st == Heard(Cfg(), was.(alarm := false), u)
               case Timeout => st == was.(alarm := true)
               case Error => st == was.(cut := true)
      ensures Left(Close(reply), was)
    {
      hide TxRun, TxAfter, TxSound, IsSize, Recorded;
    }

    lemma NothingPassed()
      ensures forall h :: PassedAll(h, acts, acts)
    {}

    lemma OnePassed(before: seq<TxAct>, e: Event)
      ensures Passed(Polling, before, before + [Read(e)])
      ensures !e.Broken? && !e.Answer? ==> Passes(Polling, e)
    {}

    lemma AcksPass(e: Event, reply: Reply)
      requires Makes(e, reply)
      ensures reply.Said? && reply.u.Ack? ==> Passes(Waiting, e) && Passes(Polling, e)
      ensures reply.Timeout? ==> Passes(Polling, e)
    {}

    /** The characters from the other side, between two subpackets, as long as there are any. */
    method PollAnswers(frameOpen: bool, acknowledged: nat, ghost lastAckRequest: nat, ghost segmentSent: nat,
                       ghost rounds: nat)
      returns (done: bool, ending: Ending, acknowledged': nat)
      requires Streaming(frameOpen, acknowledged, lastAckRequest, segmentSent)
      modifies this`acts, this`st, this`events, this`line
      ensures done ==> Left(ending, old(st)) && !ending.Completed? && !ending.Stuck?
      ensures !done ==>
                && Streaming(frameOpen, acknowledged', lastAckRequest, segmentSent) && Kept(old(st))
                && acknowledged <= acknowledged'
      ensures !done ==> PassedAll(Polling, old(acts), acts) && (events == [] || Exhausted(acts))
      ensures done ==> Passed(Polling, old(acts), acts) && (ending.TimedOut? ==> LastIs(acts, Broken(true)))
      ensures old(events) != [] ==> |events| < old(|events|)
      ensures old(events) != [] && old(events)[0] == Quiet ==> !done && events == old(events)[1..]
      ensures old(Helped(1, rounds)) ==> if done then Interrupted(ending, rounds) else Helped(0, rounds)
    {
      hide TxRun, TxAfter, TxSound, IsSize, Heard, Recorded, Left, Recalled, Passed, PassedAll, Passes;
      acknowledged', done, ending := acknowledged, false, TimedOut;
      NothingPassed();
      while events != []
        invariant Streaming(frameOpen, acknowledged', lastAckRequest, segmentSent) && Kept(old(st))
        invariant events == old(events) || (|events| < old(|events|) && old(events)[0] != Quiet)
        invariant acknowledged <= acknowledged' && PassedAll(Polling, old(acts), acts)
        invariant old(Helped(1, rounds)) ==> Helped(1, rounds)
        decreases |events|
      {
        ghost var was, before := st, acts;
        if events[0].Answer? {
          done, ending, acknowledged' := TakePolled(frameOpen, acknowledged', lastAckRequest, segmentSent, rounds);
          PassedOn(Listening, Polling, old(acts), before, acts);
        } else {
          var idle;
          ghost var e := events[0];
          done, ending, idle, acknowledged' := TakeOther(frameOpen, acknowledged', lastAckRequest, segmentSent, rounds);
          OnePassed(before, e);
          PassedOn(Polling, Polling, old(acts), before, acts);
          if idle {
            return;
          }
        }
        if done {
          LeftAlike(ending, was, old(st));
          return;
        }
      }
      assert old(Helped(1, rounds)) ==> false;
    }

    /** Nothing more was to be read for now. */
    predicate Exhausted(acts: seq<TxAct>) {
      acts != [] && acts[|acts| - 1].Read? && (acts[|acts| - 1].e.Quiet? || acts[|acts| - 1].e.Acked?)
    }

    predicate LastIs(acts: seq<TxAct>, e: Event) {
      acts != [] && acts[|acts| - 1] == Read(e)
    }

    /** A header between two subpackets; none in time is no matter. */
    method TakePolled(frameOpen: bool, acknowledged: nat, ghost lastAckRequest: nat, ghost segmentSent: nat,
                      ghost rounds: nat)
      returns (done: bool, ending: Ending, acknowledged': nat)
      requires Streaming(frameOpen, acknowledged, lastAckRequest, segmentSent) && events != [] && events[0].Answer?
      modifies this`acts, this`st, this`events, this`line
      ensures |events| < old(|events|)
      ensures done ==> Left(ending, old(st)) && !ending.Completed? && !ending.Stuck? && !ending.TimedOut?
      ensures !done ==>
                && Streaming(frameOpen, acknowledged', lastAckRequest, segmentSent) && Kept(old(st))
                && acknowledged <= acknowledged'
      ensures Passed(Listening, old(acts), acts) && |acts| > |old(acts)| && acts[|acts| - 1].Read?
      ensures !done ==> Passes(Polling, acts[|acts| - 1].e)
      ensures old(Helped(1, rounds)) ==> if done then Interrupted(ending, rounds) else Helped(1, rounds)
    {
      hide TxRun, TxAfter, TxSound, IsSize, Heard, Recorded, Left, Recalled, Passed, Passes;
      var reply, refused;
      reply, refused, acknowledged' := TakeAnswer(frameOpen, acknowledged, lastAckRequest, segmentSent, 1, rounds);
      AcksPass(acts[|acts| - 1].e, reply);
      done, ending := false, Refused;
      if refused {
        done := true;
      } else if reply.Error? || (reply.Said? && !reply.u.Ack?) {
        done, ending := true, Close(reply);
      }
    }

    /** An event between two subpackets that is no header: idle if there is nothing more for now. */
    method TakeOther(frameOpen: bool, acknowledged: nat, ghost lastAckRequest: nat, ghost segmentSent: nat,
                     ghost rounds: nat)
      returns (done: bool, ending: Ending, idle: bool, acknowledged': nat)
      requires Streaming(frameOpen, acknowledged, lastAckRequest, segmentSent) && events != [] && !events[0].Answer?
      modifies this`acts, this`st, this`events, this`line
      ensures events == old(events)[1..] && acts == old(acts) + [Read(old(events)[0])]
      ensures done ==> !idle && Left(ending, old(st)) && !ending.Completed? && !ending.Stuck?
      ensures done <==> old(events)[0].Broken?
      ensures done && ending.TimedOut? ==> old(events)[0] == Broken(true)
      ensures !done ==>
                && Streaming(frameOpen, acknowledged', lastAckRequest, segmentSent) && Kept(old(st))
                && acknowledged <= acknowledged'
      ensures idle <==> old(events)[0].Quiet? || (old(events)[0].Acked? && old(st.pending) == [])
      ensures old(Helped(1, rounds)) ==> !done && Helped(if idle then 0 else 1, rounds)
    {
      hide TxRun, TxAfter, TxSound, IsSize, Recorded;
      ghost var credit := -(|st.pending| + 2 * (|source| - offset) + 1);
      if st.pending != [] {
        OldestRequest();
      }
      acknowledged', done, ending, idle := acknowledged, false, TimedOut, false;
      var e, u := Next();
      if u != [] {
        var ok;
        ok, acknowledged' := AcceptAcknowledgement(u[0].pos, offset, acknowledged);
        if old(Helped(1, rounds)) {
          HelpedOn(credit + 1, 1, rounds);
        }
      } else if e.Quiet? || e.Acked? {
        idle := true;
        if old(Helped(1, rounds)) {
          HelpedOn(if e.Acked? then credit + 1 else credit, 0, rounds);
        }
      } else if e.Broken? {
        done, ending := true, if e.timeout then TimedOut else Broke;
      }
    }

    /** A block that has been read goes out, with the terminator it needs. */
    method SendRead(n: nat, endOfFile: bool, wait: bool, acknowledged: nat, lastAckRequest: nat, segmentSent: nat)
      returns (ok: bool, t: End)
      requires Valid() && st.phase.Sending? && st.open && !st.waiting && n <= block.Length
      requires offset == st.position + n <= |source| && block[..n] == source[st.position..offset]
      requires acknowledged == st.acknowledged && lastAckRequest == st.lastRequest && segmentSent == st.segment
      requires endOfFile ==> offset == |source|
      requires n == 0 ==> endOfFile
      requires WindowEnabled() ==> offset <= acknowledged + windowSize
      requires receiverBufferSize != 0 ==> segmentSent + n <= receiverBufferSize
      requires wait == (st.recovering || WaitsEachBlock())
      modifies this`acts, this`st, this`writes
      ensures Valid() && st.position == offset && Kept(old(st))
      ensures acts == old(acts) + [Send(Sub(block[..n], t))]
      ensures st.pending == old(st.pending) + if t == CrcQ || t == CrcW then [offset] else []
      ensures t == CrcE <==> n == 0 || (endOfFile && !wait)
      ensures t == CrcE <==> st.phase.Finishing?
      ensures old(writes) == [] ==> ok && writes == []
      ensures !wait && receiverBufferSize == 0 ==> t != CrcW
      ensures t != CrcE ==> st.phase.Sending? && (t == CrcW <==> st.waiting)
      ensures t == CrcE ==> Left(Completed, st)
      ensures Continues(t) ==>
                Streaming(true, acknowledged, if t == CrcQ then offset else lastAckRequest, segmentSent + n)
    {
      hide TxRun, TxAfter, TxSound, IsSize, Heard, Recorded, MaySend;
      SegmentRoom();
      t := FrameEnd(n, endOfFile, wait, lastAckRequest, segmentSent);
      BlockMayGoOut(n, t, endOfFile, wait);
      ok := Tx(Sub(block[..n], t));
    }

    lemma BlockMayGoOut(n: nat, t: End, endOfFile: bool, wait: bool)
      requires Valid() && st.phase.Sending? && st.open && !st.waiting && n <= block.Length && block.Length == ZMAXSPLEN
      requires offset == st.position + n <= |source| && block[..n] == source[st.position..offset]
      requires (endOfFile ==> offset == |source|) && (n == 0 ==> endOfFile)
      requires WindowEnabled() ==> offset <= st.acknowledged + windowSize
      requires receiverBufferSize != 0 ==> st.segment + n <= receiverBufferSize
      requires wait == (st.recovering || WaitsEachBlock())
      requires t == CrcE <==> n == 0 || (!wait && endOfFile)
      requires t == CrcW <==> t != CrcE && (wait || (receiverBufferSize != 0 && st.segment + n == receiverBufferSize))
      requires t == CrcQ <==> t != CrcE && t != CrcW && WindowEnabled() && offset - st.lastRequest >= windowSize / 4
      ensures MaySend(Cfg(), st, Sub(block[..n], t))
    {
      hide TxRun, TxAfter, IsSize, Recorded, Queue;
    }

    /** What has been read is a whole block of the current size, but at the end of the file, and where the window
        or the receiver's buffer holds no more. */
    ghost predicate Sized(n: nat, acknowledged: nat, segmentSent: nat)
      reads this
    {
      n <= subpacketSize
      && (n == subpacketSize || offset == |source| || (WindowEnabled() && offset == acknowledged + windowSize)
          || (receiverBufferSize != 0 && segmentSent + n == receiverBufferSize))
    }

    /** One subpacket: read, and sent. */
    method SendBlock(wait: bool, acknowledged: nat, lastAckRequest: nat, segmentSent: nat, ghost rounds: nat)
      returns (ok: bool, n: nat, t: End, endOfFile: bool)
      requires Streaming(true, acknowledged, lastAckRequest, segmentSent) && wait == (st.recovering || WaitsEachBlock())
      requires WindowEnabled() ==> offset - acknowledged < windowSize
      modifies this`acts, this`st, this`writes, this`offset, this`grants, block
      ensures Valid() && offset <= |source| && st.recoveries == old(st.recoveries)
      ensures if ok then Sized(n, acknowledged, segmentSent) else !Over()
      ensures ok && old(Helped(0, rounds)) ==> Helped(if t == CrcE then 0 else 1, rounds)
      ensures ok ==> && offset == old(offset) + n && st.position == offset && Kept(old(st))
                     && (endOfFile ==> offset == |source|) && (n == 0 ==> t == CrcE)
                     && (t == CrcE ==> Left(Completed, st))
                     && (t != CrcE ==> st.phase.Sending? && (t == CrcW <==> st.waiting))
                     && (Continues(t) ==>
                           Streaming(true, acknowledged, if t == CrcQ then offset else lastAckRequest, segmentSent + n))
      ensures old(writes) == [] && old(grants) == [] ==> ok && writes == [] && grants == []
      ensures ok && !wait && receiverBufferSize == 0 ==> t != CrcW
    {
      hide TxRun, TxAfter, TxSound, IsSize, Heard, Sent, Recorded, Queue, Coop, Left;
      ghost var toDo := |st.pending| + 2 * (|source| - offset);
      t := CrcE;
      ok, n, endOfFile := ReadBlock(acknowledged, lastAckRequest, segmentSent);
      if !ok {
        return;
      }
      ok, t := SendRead(n, endOfFile, wait, acknowledged, lastAckRequest, segmentSent);
      if old(Helped(0, rounds)) {
        HelpedOn(-toDo, if t == CrcE then 0 else 1, rounds);
      }
    }

    /** What is to be sent next is read, or the transfer ends with ZFERR. */
    method ReadBlock(acknowledged: nat, ghost lastAckRequest: nat, segmentSent: nat)
      returns (ok: bool, n: nat, endOfFile: bool)
      requires Streaming(true, acknowledged, lastAckRequest, segmentSent)
      requires WindowEnabled() ==> offset - acknowledged < windowSize
      modifies this`acts, this`st, this`writes, this`offset, this`grants, block
      ensures Valid() && offset <= |source| && (old(grants) == [] ==> ok && grants == [])
      ensures old(writes) == [] ==> writes == []
      ensures !ok ==> st == Ended(old(st).(alarm := false)) && !Over()
      ensures ok ==>
                && acts == old(acts) && st == old(st) && writes == old(writes) && offset == old(offset) + n
                && Sized(n, acknowledged, segmentSent) && block[..n] == source[old(offset)..offset]
                && (endOfFile ==> offset == |source|) && (n == 0 ==> endOfFile)
                && (WindowEnabled() ==> offset <= acknowledged + windowSize)
                && (receiverBufferSize != 0 ==> segmentSent + n <= receiverBufferSize) && n <= block.Length
    {
      hide TxRun, TxAfter, IsSize, Heard, Recorded, Queue;
      SegmentRoom();
      var size := ReadSize(acknowledged, segmentSent);
      ok, n, endOfFile := ReadFileBlock(size);
      if !ok {
        TxError();
      }
    }

    lemma SegmentRoom()
      requires Valid() && st.phase.Sending? && !st.waiting
      ensures receiverBufferSize != 0 ==> st.segment < receiverBufferSize
      ensures st.acknowledged <= st.position && st.lastRequest <= st.position && (st.open ==> !st.waiting)
    {}

    /** The ZDATA header, unless a frame is open. */
    method OpenFrame(frameOpen: bool, acknowledged: nat, lastAckRequest: nat, segmentSent: nat, ghost rounds: nat)
      returns (ok: bool)
      requires Streaming(frameOpen, acknowledged, lastAckRequest, segmentSent)
      requires WindowEnabled() ==> offset - acknowledged < windowSize
      modifies this`acts, this`st, this`writes
      ensures Streaming(true, acknowledged, lastAckRequest, segmentSent) && Kept(old(st))
      ensures old(Helped(0, rounds)) ==> Helped(0, rounds)
      ensures old(writes) == [] ==> ok && writes == []
    {
      hide TxRun, TxAfter, TxSound, IsSize;
      ok := true;
      if !frameOpen {
        ok := Tx(Data(offset));
      }
    }

    /** The next subpacket, in the frame that is open or a new one. */
    method SendNext(frameOpen: bool, wait: bool, acknowledged: nat, lastAckRequest: nat, segmentSent: nat,
                    ghost rounds: nat)
      returns (ok: bool, n: nat, t: End, endOfFile: bool)
      requires Streaming(frameOpen, acknowledged, lastAckRequest, segmentSent)
               && wait == (st.recovering || WaitsEachBlock())
      requires WindowEnabled() ==> offset - acknowledged < windowSize
      modifies this`acts, this`st, this`writes, this`offset, this`grants, block
      ensures Valid() && offset <= |source| && st.recoveries == old(st.recoveries)
      ensures if ok then Sized(n, acknowledged, segmentSent) else !Over()
      ensures ok && old(Helped(0, rounds)) ==> Helped(if t == CrcE then 0 else 1, rounds)
      ensures ok ==> && offset == old(offset) + n && st.position == offset && Kept(old(st))
                     && (endOfFile ==> offset == |source|) && (n == 0 ==> t == CrcE)
                     && (t == CrcE ==> Left(Completed, st))
                     && (t != CrcE ==> st.phase.Sending? && (t == CrcW <==> st.waiting))
                     && (Continues(t) ==>
                           Streaming(true, acknowledged, if t == CrcQ then offset else lastAckRequest, segmentSent + n))
      ensures old(writes) == [] && old(grants) == [] ==> ok && writes == [] && grants == []
      ensures ok && !wait && receiverBufferSize == 0 ==> t != CrcW
    {
      hide TxRun, TxAfter, TxSound, IsSize, Heard, MaySend, Sent, Left, Recorded, Helped;
      n, t, endOfFile := 0, CrcE, false;
      ok := OpenFrame(frameOpen, acknowledged, lastAckRequest, segmentSent, rounds);
      if ok {
        ok, n, t, endOfFile := SendBlock(wait, acknowledged, lastAckRequest, segmentSent, rounds);
      }
    }

    /** A subpacket went through: the next may be larger. */
    method Grow(frameOpen: bool, acknowledged: nat, lastAckRequest: nat, segmentSent: nat)
      requires Streaming(frameOpen, acknowledged, lastAckRequest, segmentSent)
      modifies this`subpacketSize
      ensures Streaming(frameOpen, acknowledged, lastAckRequest, segmentSent)
      ensures subpacketSize
                == if 2 * old(subpacketSize) <= maxSubpacketSize then 2 * old(subpacketSize) else maxSubpacketSize
    {
      IncreaseSubpacketSize();
    }

    lemma AtTheEnd(acknowledged: nat, lastAckRequest: nat, segmentSent: nat)
      requires Streaming(false, acknowledged, lastAckRequest, segmentSent) && offset == |source|
      ensures Left(Completed, st)
    {}

    /** What follows a subpacket: the wait for its acknowledgement, or a look at what the receiver says. */
    method Proceed(t: End, n: nat, endOfFile: bool, wait: bool, acknowledged: nat, lastAckRequest: nat,
                   segmentSent: nat, ghost rounds: nat)
      returns (done: bool, ending: Ending, frameOpen: bool, acknowledged': nat, lastAckRequest': nat, segmentSent': nat)
      requires Valid() && st.phase.Sending? && st.position == offset <= |source| && t != CrcE
               && (t == CrcW <==> st.waiting)
      requires endOfFile ==> offset == |source|
      requires Continues(t) ==>
                 Streaming(true, acknowledged, if t == CrcQ then offset else lastAckRequest, segmentSent + n)
      modifies this`acts, this`st, this`events, this`line, this`subpacketSize
      ensures done ==> Left(ending, old(st)) && !ending.Stuck?
      ensures !done ==> Streaming(frameOpen, acknowledged', lastAckRequest', segmentSent') && Alike(old(st))
      ensures !done ==> st.recovering == (old(st.recovering) && t != CrcW)
      ensures done && t == CrcW && ending.Completed? ==> wait && endOfFile
      ensures !done && t == CrcW ==> !(wait && endOfFile) && !frameOpen && acknowledged' == offset
      ensures !done ==>
                subpacketSize
                == if 2 * old(subpacketSize) <= maxSubpacketSize then 2 * old(subpacketSize) else maxSubpacketSize
      ensures t == CrcW ==> Passed(Waiting, old(acts), acts)
      ensures t != CrcW && !done ==> PassedAll(Polling, old(acts), acts) && (events == [] || Exhausted(acts))
      ensures old(events) != [] && old(events)[0] == Quiet && t != CrcW ==> !done && events == old(events)[1..]
      ensures old(Helped(1, rounds)) ==>
                if done && !ending.Completed? then Interrupted(ending, rounds) else Helped(0, rounds)
    {
      hide TxRun, TxAfter, TxSound, IsSize, Heard, MaySend, Sent, Left, Recorded, Recalled, Passed, PassedAll, Passes;
      segmentSent' := segmentSent + n;
      acknowledged', lastAckRequest', frameOpen := acknowledged, lastAckRequest, true;
      if t == CrcW {
        done, ending := AwaitAcknowledgement(rounds);
        if done {
          return;
        }
        acknowledged', lastAckRequest', frameOpen, segmentSent' := offset, offset, false, 0;
        Grow(frameOpen, acknowledged', lastAckRequest', segmentSent');
        if wait && endOfFile {
          AtTheEnd(acknowledged', lastAckRequest', segmentSent');
          LeftAlike(Completed, st, old(st));
          done, ending := true, Completed;
        }
        return;
      }
      if t == CrcQ {
        lastAckRequest' := offset;
      }
      done, ending, acknowledged' := PollAnswers(frameOpen, acknowledged', lastAckRequest', segmentSent', rounds);
      if done {
        return;
      }
      Grow(frameOpen, acknowledged', lastAckRequest', segmentSent');
    }

    /** The line and the file work from here on. */
    predicate Healthy()
      reads this
    {
      writes == [] && grants == []
    }

    /** Nothing fails, and no answer has to be waited for. */
    predicate Streams()
      reads this
    {
      Healthy() && !WindowEnabled() && !stepwise && canOverlapIo && windowSize == 0 && receiverBufferSize == 0
    }

    /** send_from: from the current position to the end of the file, or until something else is called for.
        With synchronize, the first subpacket asks for an answer and waits for it.

        Whatever the window, the receiver's buffer and the options, and whether or not it is a recovery: if
        the receiver answers what it is asked, oldest request first, and nothing else arrives, the end of the
        file is reached; and if the receiver then asks for the data again, that is how it ends.  A stream that
        asks for no answers needs only a receiver that is quiet for as long as it takes. */
    method SendFrom(synchronize: bool, ghost rounds: nat) returns (ending: Ending)
      requires Valid() && offset <= |source|
      requires st == Start(Cfg(), offset, st.recoveries, st.tally) && synchronize == (st.recoveries > 0)
      modifies this`acts, this`st, this`events, this`line, this`grants, this`writes
      modifies this`offset, this`subpacketSize, block
      ensures Left(ending, old(st))
      ensures old(Healthy()) ==> Healthy() && !ending.Stuck?
      ensures old(Healthy() && Helped(0, rounds)) ==>
                if ending.Completed? then Helped(0, rounds) else Interrupted(ending, rounds)
      ensures old(Streams()) && !synchronize && Calm(old(events), |source| - old(offset)) ==>
                ending == Completed && Streams() && Calm(events, 0)
    {
      hide TxRun, TxAfter, TxSound, IsSize, Heard, MaySend, Sent, Left, Recorded, Recalled, Coop, Helped, Calm;
      ghost var calm := Streams() && !synchronize && Calm(events, |source| - offset);
      var frameOpen := false;
      var waitEachBlock := stepwise || !canOverlapIo || (windowSize != 0 && !canFullDuplex);
      var synchronizing := synchronize;
      var acknowledged, lastAckRequest, segmentSent := offset, offset, 0;
      while true
        invariant Streaming(frameOpen, acknowledged, lastAckRequest, segmentSent) && Alike(old(st))
        invariant synchronizing == st.recovering && waitEachBlock == WaitsEachBlock()
        invariant old(Healthy()) ==> Healthy()
        invariant old(Healthy() && Helped(0, rounds)) ==> Helped(0, rounds)
        invariant calm ==> Streams() && !synchronizing && Calm(events, |source| - offset)
        decreases |source| - offset
      {
        var done := false;
        ghost var was := st;
        if WindowEnabled() {
          done, ending, acknowledged := AwaitWindow(frameOpen, acknowledged, lastAckRequest, segmentSent, rounds);
          if done {
            LeftAlike(ending, was, old(st));
            return;
          }
        }
        var wait := synchronizing || waitEachBlock;
        var ok, n, t, endOfFile := SendNext(frameOpen, wait, acknowledged, lastAckRequest, segmentSent, rounds);
        if !ok {
          LeftStuck(old(st));
          return Stuck;
        }
        if t == CrcE {
          LeftAlike(Completed, st, old(st));
          if calm {
            CalmEnough(events, |source| - offset + n, 0);
          }
          return Completed;
        }
        if calm {
          CalmOn(events, |source| - offset + n, n);
        }
        was := st;
        done, ending, frameOpen, acknowledged, lastAckRequest, segmentSent :=
          Proceed(t, n, endOfFile, wait, acknowledged, lastAckRequest, segmentSent, rounds);
        if done {
          LeftAlike(ending, was, old(st));
          return;
        }
        synchronizing := synchronizing && t != CrcW;
      }
    }

    // ---------- send_file ----------

    /** ZFILE and the file information. */
    method TxOffer(ghost n: nat, ghost sent: seq<Down>) returns (ok: bool)
      requires Valid() && st.phase.Offering? && |info| <= ZMAXSPLEN && Sendings(acts) == sent + Offers(info, n)
      modifies this`acts, this`st, this`writes
      ensures Valid() && st == old(st).(alarm := false)
      ensures ok ==> Sendings(acts) == sent + Offers(info, n + 1)
      ensures old(writes) == [] ==> ok && writes == []
    {
      hide TxRun, TxAfter, TxSound, IsSize, Recorded, Sendings, Offers;
      OneOfferMore(n, sent);
      TxRecordMore(Cfg(), IDLE, acts, Send(Offer));
      TxRecordMore(Cfg(), IDLE, acts + [Send(Offer)], Send(Sub(info, CrcW)));
      ok := Tx(Offer);
      if ok {
        ok := Tx(Sub(info, CrcW));
      }
    }

    lemma OneOfferMore(n: nat, sent: seq<Down>)
      ensures sent + Offers(info, n) + [Offer] + [Sub(info, CrcW)] == sent + Offers(info, n + 1)
    {
      assert sent + Offers(info, n) + [Offer] + [Sub(info, CrcW)]
        == sent + (Offers(info, n) + [Offer, Sub(info, CrcW)]);
    }

    /** The wait for the answer to an offer: ZACKs go by, and one ZRINIT. */
    method AwaitNaming() returns (result: Reply)
      requires Valid() && st == IDLE.(alarm := st.alarm, cut := st.cut)
      modifies this`acts, this`st, this`events, this`line
      ensures Valid() && Sendings(acts) == old(Sendings(acts))
      ensures result == Said(Skip) ==> st.phase == Dismissed(Skip) && st.recoveries == 0
      ensures result.Said? && result.u.Rpos? ==> st == Started(result.u.pos)
      ensures !IsNaming(result) ==> st == IDLE.(alarm := st.alarm, cut := st.cut)
      ensures var line := old(events);
              if IsNaming(result) then
                && RoundsBefore(line, false) == 0
                && Naming(line) != [] && Makes(Naming(line)[0], result) && events == Naming(line)[1..]
              else
                && Naming(line) == Naming(events)
                && (RoundsBefore(line, false) == 1 + RoundsBefore(events, false)
                    || (Naming(line) == [] && events == []))
    {
      hide TxRun, TxAfter, TxSound, IsSize, Recorded, Sendings, AtAnswer, Passed, Coop, Calm, Naming, RoundsBefore,
        Makes;
      var staleZrinit := false;
      NoRounds();
      while true
        invariant Valid() && st == IDLE.(alarm := st.alarm, cut := st.cut) && Sendings(acts) == old(Sendings(acts))
        invariant Naming(events) == Naming(old(events))
        invariant RoundsBefore(events, staleZrinit) == RoundsBefore(old(events), false)
        decreases |events|
      {
        RoundsAtAnswer(events, staleZrinit);
        ghost var line := AtAnswer(events, false);
        result := RxHeader(0, 0);
        if line != [] {
          RoundGoesOn(line, staleZrinit, result);
        }
        if result == Said(Init) && !staleZrinit {
          staleZrinit := true;
        } else if !result.Said? || !result.u.Ack? {
          break;
        }
      }
    }

    lemma NoRounds()
      ensures Naming([]) == [] && forall stale :: RoundsBefore([], stale) == 0
    {}

    /** The first send_from. */
    function Started(p: nat): Sender {
      Start(Cfg(), p, 0, Tally(p, p, 0))
    }

    predicate IsNaming(reply: Reply) {
      reply.Said? && (reply.u.Rpos? || reply.u.Skip?)
    }

    /** The ZFILE phase of send_file.  The file is offered until the receiver names a position or declines it,
        and the offers are one more than the rounds that end before it does; with MAX_RETRIES of those it is
        over. */
    method OfferFile() returns (result: Reply)
      requires Valid() && st == IDLE && |info| <= ZMAXSPLEN
      modifies this`acts, this`st, this`events, this`line, this`writes
      ensures Valid() && st.recoveries == 0
      ensures result == Said(Skip) ==> st.phase == Dismissed(Skip)
      ensures result.Said? && result.u.Rpos? ==> st == Started(result.u.pos)
      ensures !IsNaming(result) ==> st.phase.Offering?
      ensures old(writes) == [] ==>
                var line, rounds := old(events), RoundsBefore(old(events), false);
                if Naming(line) != [] && rounds < MAX_RETRIES then
                  && Makes(Naming(line)[0], result) && IsNaming(result) && events == Naming(line)[1..] && writes == []
                  && Sendings(acts) == old(Sendings(acts)) + Offers(info, rounds + 1)
                else !IsNaming(result) && Sendings(acts) == old(Sendings(acts)) + Offers(info, MAX_RETRIES)
    {
      hide TxRun, TxAfter, TxSound, IsSize, Recorded, Sendings, Heard, Offers;
      result := Timeout;
      var attempts := 0;
      NoOffers();
      while attempts < MAX_RETRIES
        invariant attempts <= MAX_RETRIES && Valid() && st == IDLE.(alarm := st.alarm, cut := st.cut)
                  && !IsNaming(result)
        invariant old(writes) == [] ==> writes == []
        invariant Naming(events) == Naming(old(events))
        invariant Naming(events) != [] ==> attempts + RoundsBefore(events, false) == RoundsBefore(old(events), false)
        invariant Sendings(acts) == old(Sendings(acts)) + Offers(info, attempts)
      {
        var ok := TxOffer(attempts, old(Sendings(acts)));
        if !ok {
          return Error;
        }
        result := AwaitNaming();
        if IsNaming(result) {
          return;
        }
        attempts := attempts + 1;
      }
    }

    lemma NoOffers()
      ensures Sendings(acts) == Sendings(acts) + Offers(info, 0)
    {}

    /** seek_sender */
    method SeekSender(position: nat) returns (ok: bool)
      modifies this`offset
      ensures ok <==> position <= |source|
      ensures offset == if ok then position else old(offset)
    {
      ok := position <= |source|;
      if ok {
        offset := position;
      }
    }

    /** A new send_from, where the receiver asks for it. */
    function Again(p: nat, was: Sender): Sender {
      Start(Cfg(), p, was.recoveries + 1, Requested(was.tally, p))
    }

    lemma FinishingHears(s: Sender, u: Up)
      requires s.phase.Finishing?
      ensures var t := Heard(Cfg(), s, u);
              match u
              case Init => t == s.(phase := Succeeded)
              case Rpos(p) => t == Again(p, s) && t.recoveries == s.recoveries + 1
              case Ack(p) => t == s.(alarm := true, pending := Unanswered(s.pending, p))
              case Lost => t == s
              case _ => t == s.(phase := Dismissed(u))
    {}

    /** ZEOF may go out: for the first time, or because the last one brought nothing. */
    ghost predicate ReadyToEnd(eofs: nat)
      reads this
    {
      && Valid() && st.position == |source| && st.eofs == eofs
      && (if st.phase.Finishing? then eofs == 0 || st.alarm else st.phase.Sending? && !st.open && !st.waiting)
    }

    /** ZEOF, at the length of the file. */
    method TxEof() returns (ok: bool)
      requires ReadyToEnd(st.eofs)
      modifies this`acts, this`st, this`writes
      ensures Valid() && acts == old(acts) + [Send(Eof(|source|))]
      ensures st == old(st).(alarm := false, phase := Finishing, eofs := old(st).eofs + 1)
      ensures old(writes) == [] ==> ok && writes == []
    {
      hide TxRun, TxAfter, IsSize;
      ok := Tx(Eof(|source|));
    }

    /** What a phase of send_file leaves behind a reply: a new start, success, the receiver's answer, or a
        failure on the line. */
    ghost predicate Replied(result: Reply, was: Sender)
      reads this
    {
      match result
      case Said(u) =>
        if u.Init? then st.phase.Succeeded? && st.recoveries == was.recoveries
        else if u.Rpos? then st == Again(u.pos, was)
        else st.phase == Dismissed(u) && st.recoveries == was.recoveries
      case Timeout => false
      case Error => st.cut && !Over() && st.recoveries == was.recoveries
    }

    /** ZEOF brought nothing: a timeout, or an acknowledgement still to come. */
    predicate Nothing(result: Reply) {
      result.Timeout? || (result.Said? && result.u.Ack?)
    }

    /** One ZEOF and what is heard of it. */
    method TryToFinish(ghost credit: int, ghost rounds: nat) returns (ok: bool, result: Reply)
      requires ReadyToEnd(st.eofs)
      modifies this`acts, this`st, this`events, this`line, this`writes
      ensures Valid() && (old(writes) == [] ==> ok && writes == [])
      ensures !ok ==> st.recoveries == old(st.recoveries) && !Over()
      ensures ok && Nothing(result) ==>
                && ReadyToEnd(old(st.eofs) + 1) && st.phase.Finishing? && st.alarm
                && st.recoveries == old(st.recoveries) && st.tally == old(st.tally)
      ensures ok && !Nothing(result) ==> Replied(result, old(st))
      ensures old(writes) == [] && Calm(old(events), 0) ==> result == Said(Init)
      ensures old(writes) == [] && Coop(|source|, old(events), credit, rounds) ==>
                && result.Said?
                && (if result.u.Ack? then Coop(|source|, events, credit + 1, rounds) && |st.pending| < |old(st.pending)|
                    else result == Said(Init) || Interrupted(Close(result), rounds))
    {
      hide TxRun, TxAfter, TxSound, IsSize, Calm, MaySend, Sent, Heard, Start, Recorded, Coop, Passed, AtAnswer,
        Recalled;
      result := Timeout;
      ok := TxEof();
      if !ok {
        return;
      }
      ghost var was := st;
      result := RxHeader(credit, rounds);
      Finishes(result, was);
      if result.Said? {
        Fewer(was.pending, result.u);
      }
      hide Replied, Nothing;
    }

    /** What has been heard of a ZEOF. */
    lemma Finishes(result: Reply, was: Sender)
      requires Valid() && was.phase.Finishing? && was.position == |source|
      requires match result
               case Said(u) => u != Lost && st == Heard(Cfg(), was.(alarm := false), u)
               case Timeout => st == was.(alarm := true)
               case Error => st == was.(cut := true)
      ensures if Nothing(result) then
                && ReadyToEnd(was.eofs) && st.phase.Finishing? && st.alarm && st.recoveries == was.recoveries
                && st.tally == was.tally
                && st.pending == if result.Timeout? then was.pending else Unanswered(was.pending, result.u.pos)
              else Replied(result, was) && (result.Said? && result.u.Rpos? ==> st == Again(result.u.pos, was))
    {
      hide TxRun, TxAfter, TxSound, IsSize, Heard, Start, Recorded;
      if result.Said? {
        FinishingHears(was.(alarm := false), result.u);
      }
    }

    lemma Fewer(pending: seq<nat>, u: Up)
      ensures pending != [] && u == Ack(pending[0]) ==> |Unanswered(pending, u.pos)| < |pending|
    {
      if pending != [] && u == Ack(pending[0]) {
        AnsweredOldest(pending, pending[0]);
      }
    }

    /** The ZEOF phase of send_file.  Acknowledgements still to come use up attempts, but there are never
        enough of them to use up all; and only MAX_RETRIES ZEOFs that bring nothing do. */
    method FinishFile(ghost credit: int, ghost rounds: nat) returns (ok: bool, result: Reply)
      requires ReadyToEnd(0)
      modifies this`acts, this`st, this`events, this`line, this`writes
      ensures Valid() && (old(writes) == [] ==> ok && writes == [])
      ensures !ok ==> st.recoveries == old(st.recoveries) && !Over()
      ensures ok && Nothing(result) ==>
                st.phase.Finishing? && st.eofs == MAX_RETRIES && st.alarm && st.recoveries == old(st.recoveries)
      ensures ok && !Nothing(result) ==> Replied(result, old(st))
      ensures old(writes) == [] && Calm(old(events), 0) ==> result == Said(Init)
      ensures old(writes) == [] && Coop(|source|, old(events), credit, rounds) ==>
                result == Said(Init) || Interrupted(Close(result), rounds)
    {
      hide TxRun, TxAfter, TxSound, IsSize, Calm, MaySend, Sent, Heard, Start, Recorded, Coop;
      ok, result := true, Timeout;
      var attempts := 0;
      ghost var left := credit;
      Few();
      while attempts < MAX_RETRIES
        invariant ReadyToEnd(attempts) && attempts <= MAX_RETRIES && ok && Nothing(result)
        invariant st.recoveries == old(st.recoveries) && st.tally == old(st.tally)
        invariant old(writes) == [] ==> writes == []
        invariant attempts > 0 ==> st.phase.Finishing? && st.alarm
        invariant attempts == 0 ==> events == old(events)
        invariant attempts > 0 ==> !(old(writes) == [] && Calm(old(events), 0))
        invariant old(writes) == [] && Coop(|source|, old(events), credit, rounds) ==>
                    Coop(|source|, events, left, rounds) && attempts + |st.pending| <= 8
      {
        ok, result := TryToFinish(left, rounds);
        if !ok || !Nothing(result) {
          return;
        }
        left := left + 1;
        attempts := attempts + 1;
      }
    }

    lemma Few()
      requires Valid() && (st.phase.Finishing? || (st.phase.Sending? && !st.waiting))
      ensures |st.pending| <= 8
    {
      hide TxRun, TxAfter, IsSize, Recorded;
      FewRequests(Cfg(), st);
    }

    /** In fewer than MAX_RETRIES rounds the receiver asks for the file from some position in it, and then plays
        its part as often as it has to ask again, but not MAX_RETRIES times, and then invites the next file. */
    predicate Undisturbed()
      reads this
    {
      && Healthy() && Sendable() && Naming(events) != [] && RoundsBefore(events, false) < MAX_RETRIES
      && Naming(events)[0].u.Rpos? && Naming(events)[0].u.pos <= |source|
      && (PlaysFrom(|source|, Naming(events)[1..], Naming(events)[0].u.pos, MAX_RETRIES - 1)
          || (Streams() && Calm(Naming(events)[1..], |source| - Naming(events)[0].u.pos)))
    }

    predicate Sendable() {
      |source| < POSITIONS && |info| <= ZMAXSPLEN
    }

    /** What a transfer that is over comes to, and with a line and a file that work, why. */
    ghost predicate Fits(result: SendResult, healthy: bool)
      reads this
    {
      && (result.SEND_SUCCEEDED? <==> st.phase.Succeeded?)
      && (result.SEND_SKIPPED? <==> st.phase == Dismissed(Skip))
      && (healthy && result.SEND_FAILED? ==> HasCause(st))
    }

    /** send_file, from ZFILE to the end: a transfer that nothing disturbs succeeds, whatever the window, the
        buffer and the options, and however often less than MAX_RETRIES times the receiver asks for data
        again; success is reported only after ZRINIT has answered a ZEOF; a transfer is given up only for a
        cause; and whatever the receiver does, the number of recovery rounds is bounded. */
    method SendFile() returns (result: SendResult)
      requires Valid() && st == IDLE
      modifies this`acts, this`st, this`events, this`line, this`grants, this`writes
      modifies this`offset, this`subpacketSize, this`maxSubpacketSize, block
      ensures Valid()
      ensures !Sendable() ==> result == SEND_FAILED && acts == old(acts)
      ensures result == SEND_SUCCEEDED <==> st.phase.Succeeded?
      ensures result == SEND_SKIPPED <==> st.phase == Dismissed(Skip)
      ensures old(Healthy()) && Sendable() && result == SEND_FAILED ==>
                if old(Naming(events) != [] && RoundsBefore(events, false) < MAX_RETRIES) then HasCause(st)
                else Sendings(acts) == old(Sendings(acts)) + Offers(info, MAX_RETRIES)
      ensures old(Healthy() && Naming(events) != [] && RoundsBefore(events, false) < MAX_RETRIES) ==>
                Sendable() && Bearable(Cfg(), acts) ==> result == SEND_SUCCEEDED
      ensures old(Undisturbed()) ==> result == SEND_SUCCEEDED
      ensures st.recoveries <= MAX_RETRIES * POSITIONS * POSITIONS
    {
      if |source| >= POSITIONS || |info| > ZMAXSPLEN {
        return SEND_FAILED;
      }
      hide Coop, Calm, TxRun, TxAfter, TxSound, Recorded, IsSize, Sendings, Offers, RoundsBefore, HasCause, Bearable;
      var reply := OfferFile();
      if reply == Said(Skip) {
        Borne();
        return SEND_SKIPPED;
      }
      if !reply.Said? || !reply.u.Rpos? {
        return SEND_FAILED;
      }
      BeyondTheFile(reply.u.pos);
      if reply.u.pos >= POSITIONS {
        Borne();
        return SEND_FAILED;
      }
      result := SendFileData(reply.u.pos);
      Borne();
    }

    lemma Borne()
      requires Valid()
      ensures Bearable(Cfg(), acts) ==> !HasCause(st) && !st.phase.Dismissed?
    {
      hide Bearable, HasCause;
      if Bearable(Cfg(), acts) {
        NoCauseToGiveUp(Cfg(), acts);
      }
    }

    lemma BeyondTheFile(p: nat)
      ensures p > |source| ==>
                Started(p).phase == Dismissed(Rpos(p)) && HasCause(Started(p)) && Started(p).recoveries == 0
      ensures p <= |source| ==> Started(p).phase.Sending?
    {}

    /** What send_file does when a send_from has ended: start again from the position last asked for, start
        from the one asked for now, or report.  A send_from that reached the end leads to ZEOF.  A recovery
        makes the next blocks smaller, but not one that answers ZEOF. */
    method Settle(ending: Ending, ghost was: Sender, ghost rounds: nat) returns (verdict: Verdict)
      requires Left(ending, was) && was.eofs == 0
      modifies this`acts, this`st, this`events, this`line, this`writes, this`subpacketSize, this`maxSubpacketSize
      ensures Valid() && (old(writes) == [] ==> writes == [])
      ensures match verdict
              case Anew => st == Start(Cfg(), was.requested, was.recoveries + 1, Attempted(was.tally, offset))
              case Ask(p) => st == Again(p, was)
              case Report(result) =>
                Fits(result, old(writes) == [] && !ending.Stuck?) && st.recoveries == was.recoveries
      ensures ending.Completed? && old(writes) == [] && Calm(old(events), 0) ==> verdict == Report(SEND_SUCCEEDED)
      ensures old(writes) == []
              && (if ending.Completed? then old(Helped(0, rounds)) else old(Interrupted(ending, rounds))) ==>
                verdict == Report(SEND_SUCCEEDED) || (verdict.Ask? && Recalled(verdict.pos, rounds))
      ensures verdict.Anew? <==> ending.Refused? || ending.TimedOut? || ending == Answered(Nak)
      ensures if verdict.Report? || ending.Completed? then subpacketSize == old(subpacketSize)
              else subpacketSize == if old(subpacketSize) > 128 then old(subpacketSize) / 2 else 128
    {
      hide TxRun, TxAfter, TxSound, IsSize, Heard, MaySend, Recorded, Coop, Calm;
      if ending.Answered? && ending.u.Rpos? {
        ReduceSubpacketSize();
        return Ask(ending.u.pos);
      }
      if ending.Refused? || ending.TimedOut? || ending == Answered(Nak) {
        ReduceSubpacketSize();
        Act(Restart);
        return Anew;
      }
      if ending == Answered(Skip) {
        return Report(SEND_SKIPPED);
      }
      if !ending.Completed? {
        return Report(SEND_FAILED);
      }
      verdict := Finish(was, rounds);
    }

    /** What send_file does when a send_from has reached the end of the file. */
    method Finish(ghost was: Sender, ghost rounds: nat) returns (verdict: Verdict)
      requires Left(Completed, was) && was.eofs == 0
      modifies this`acts, this`st, this`events, this`line, this`writes
      ensures Valid() && (old(writes) == [] ==> writes == [])
      ensures match verdict
              case Anew => false
              case Ask(p) => st == Again(p, was)
              case Report(result) => Fits(result, old(writes) == []) && st.recoveries == was.recoveries
      ensures old(writes) == [] && Calm(old(events), 0) ==> verdict == Report(SEND_SUCCEEDED)
      ensures old(writes) == [] && old(Helped(0, rounds)) ==>
                verdict == Report(SEND_SUCCEEDED) || (verdict.Ask? && Recalled(verdict.pos, rounds))
    {
      hide TxRun, TxAfter, TxSound, IsSize, Heard, MaySend, Recorded, Coop, Calm, Start;
      var ok, reply := FinishFile(-(|st.pending| + 2 * (|source| - offset)), rounds);
      if ok && reply == Said(Init) {
        return Report(SEND_SUCCEEDED);
      }
      if ok && reply == Said(Skip) {
        return Report(SEND_SKIPPED);
      }
      if !ok || !reply.Said? || !reply.u.Rpos? {
        return Report(SEND_FAILED);
      }
      verdict := Ask(reply.u.pos);
    }

    /** One round of the recovery loop: seek, send, and see what comes of it. */
    method Round(pos: nat, synchronize: bool, ghost rounds: nat) returns (verdict: Verdict)
      requires Valid() && st == Start(Cfg(), pos, st.recoveries, st.tally) && synchronize == (st.recoveries > 0)
      modifies this`acts, this`st, this`events, this`line, this`grants, this`writes
      modifies this`offset, this`subpacketSize, this`maxSubpacketSize, block
      ensures Valid() && (old(Healthy()) ==> Healthy())
      ensures match verdict
              case Anew =>
                && st == Start(Cfg(), pos, old(st.recoveries) + 1, Attempted(old(st.tally), offset))
                && offset <= |source|
              case Ask(p) => st == Again(p, old(st))
              case Report(result) => Fits(result, old(Healthy())) && st.recoveries == old(st.recoveries)
      ensures old(Healthy()) && PlaysFrom(|source|, old(events), pos, rounds) ==>
                verdict == Report(SEND_SUCCEEDED)
                || (verdict.Ask? && rounds > 0 && PlaysFrom(|source|, events, verdict.pos, rounds - 1))
      ensures old(Streams()) && !synchronize && pos <= |source| && Calm(old(events), |source| - pos) ==>
                verdict == Report(SEND_SUCCEEDED)
    {
      hide TxRun, TxAfter, TxSound, IsSize, Heard, MaySend, Sent, Left, Recorded, Coop, Calm, Helped;
      var ok := SeekSender(pos);
      if !ok {
        TxError();
        return Report(SEND_FAILED);
      }
      ghost var was := st;
      StartedAfresh(pos, rounds);
      var ending := SendFrom(synchronize, rounds);
      LeftInFile(ending, was);
      verdict := Settle(ending, was, rounds);
    }

    lemma PlaysInFile(p: nat, rounds: nat)
      ensures PlaysFrom(|source|, events, p, rounds) ==> p <= |source|
    {}

    /** The recovery loop of send_file: each round leaves fewer of them, whatever the receiver does; and it
        goes on until it has a result or MAX_RETRIES rounds have brought no progress. */
    method SendFileData(first: nat) returns (result: SendResult)
      requires Valid() && first < POSITIONS && |source| < POSITIONS && st == Started(first)
      modifies this`acts, this`st, this`events, this`line, this`grants, this`writes
      modifies this`offset, this`subpacketSize, this`maxSubpacketSize, block
      ensures Valid() && Fits(result, old(Healthy()))
      ensures old(Healthy()) && PlaysFrom(|source|, old(events), first, MAX_RETRIES - 1) ==> result == SEND_SUCCEEDED
      ensures old(Streams()) && first <= |source| && Calm(old(events), |source| - first) ==> result == SEND_SUCCEEDED
      ensures st.recoveries <= MAX_RETRIES * POSITIONS * POSITIONS
    {
      hide TxRun, TxAfter, TxSound, IsSize, RoundsLeft, Recorded, Calm, PlaysFrom, Start, HasCause, Requested,
        Attempted, Fits, Healthy, Streams;
      StartKeeps(first, 0, Tally(first, first, 0));
      var pos: nat, furthestAttempted: nat, furthestReceiver: nat := first, first, first;
      var attempts: nat, synchronize := 0, false;
      ghost var rounds: nat := MAX_RETRIES - 1;
      ghost var helped := Healthy() && PlaysFrom(|source|, events, first, rounds);
      ghost var calm := Streams() && first <= |source| && Calm(events, |source| - first);
      RoundsBound(first);
      while attempts < MAX_RETRIES
        invariant Valid() && st == Start(Cfg(), pos, st.recoveries,
                                         Tally(furthestReceiver, furthestAttempted, attempts))
        invariant pos < POSITIONS && synchronize == (st.recoveries > 0)
        invariant furthestAttempted < POSITIONS && furthestReceiver < POSITIONS && attempts <= MAX_RETRIES
        invariant st.recoveries + RoundsLeft(furthestReceiver, furthestAttempted, attempts)
                  <= MAX_RETRIES * POSITIONS * POSITIONS
        invariant old(Healthy()) ==> Healthy()
        invariant helped ==> attempts + rounds < MAX_RETRIES && PlaysFrom(|source|, events, pos, rounds)
        invariant calm ==> attempts == 0 && !synchronize && pos == first && Streams() && Calm(events, |source| - first)
        decreases POSITIONS - furthestReceiver, POSITIONS - furthestAttempted, MAX_RETRIES - attempts
      {
        ghost var was := st;
        StartKeeps(pos, was.recoveries, Tally(furthestReceiver, furthestAttempted, attempts));
        var verdict := Round(pos, synchronize, rounds);
        if verdict.Report? {
          FitsAnyway(verdict.result);
          return verdict.result;
        }
        synchronize := true;
        if verdict.Anew? {
          StartKeeps(pos, was.recoveries + 1, Attempted(was.tally, offset));
          furthestAttempted, attempts := AccountAttempt(offset, furthestReceiver, furthestAttempted, attempts);
          continue;
        }
        PlaysInFile(verdict.pos, if rounds > 0 then rounds - 1 else 0);
        StartKeeps(verdict.pos, was.recoveries + 1, Requested(was.tally, verdict.pos));
        if verdict.pos >= POSITIONS {
          RoundsShrink(furthestReceiver, furthestAttempted, attempts, 0);
          FitsAnyway(SEND_FAILED);
          return SEND_FAILED;
        }
        pos := verdict.pos;
        furthestReceiver, furthestAttempted, attempts :=
          AccountRequest(pos, furthestReceiver, furthestAttempted, attempts);
        rounds := if rounds > 0 then rounds - 1 else 0;
      }
      StartKeeps(pos, st.recoveries, Tally(furthestReceiver, furthestAttempted, attempts));
      FitsAnyway(SEND_FAILED);
      result := SEND_FAILED;
    }

    /** A result that fits a healthy line fits any, and failure fits wherever there is a cause. */
    lemma FitsAnyway(result: SendResult)
      ensures Fits(result, true) ==> Fits(result, false)
      ensures HasCause(st) && st.phase != Dismissed(Skip) && !st.phase.Succeeded? && result.SEND_FAILED? ==>
                Fits(result, true) && Fits(result, false)
    {
      hide HasCause;
    }

    /** A new start is neither success nor an end by ZSKIP, and it is the end, with a cause, when the position is
        beyond the file or the retries are used up. */
    lemma StartKeeps(p: nat, recoveries: nat, tally: Tally)
      ensures var s := Start(Cfg(), p, recoveries, tally);
              && s.recoveries == recoveries && s.tally == tally && !s.phase.Succeeded? && s.phase != Dismissed(Skip)
              && (p > |source| || tally.attempts >= MAX_RETRIES ==> HasCause(s))
    {}

    /** The account of a ZNAK, a timeout or a false acknowledgement. */
    method AccountAttempt(position: nat, ghost furthestReceiver: nat, furthestAttempted: nat, attempts: nat)
      returns (furthestAttempted': nat, attempts': nat)
      requires position < POSITIONS && furthestReceiver < POSITIONS && furthestAttempted < POSITIONS
      requires attempts < MAX_RETRIES
      ensures Tally(furthestReceiver, furthestAttempted', attempts')
           == Attempted(Tally(furthestReceiver, furthestAttempted, attempts), position)
      ensures furthestAttempted' < POSITIONS && attempts' <= MAX_RETRIES && attempts' <= attempts + 1
      ensures furthestAttempted' > furthestAttempted
                || (furthestAttempted' == furthestAttempted && attempts' > attempts)
      ensures RoundsLeft(furthestReceiver, furthestAttempted', attempts')
            < RoundsLeft(furthestReceiver, furthestAttempted, attempts)
    {
      hide RoundsLeft;
      RoundsShrink(furthestReceiver, furthestAttempted, attempts, position);
      var progress;
      progress, furthestAttempted', attempts' := AccountRecovery(position, furthestAttempted, attempts);
    }

    /** The account of a ZRPOS: progress of the receiver starts a new account of the attempted positions. */
    method AccountRequest(position: nat, furthestReceiver: nat, furthestAttempted: nat, attempts: nat)
      returns (furthestReceiver': nat, furthestAttempted': nat, attempts': nat)
      requires position < POSITIONS && furthestReceiver < POSITIONS && furthestAttempted < POSITIONS
      requires attempts < MAX_RETRIES
      ensures Tally(furthestReceiver', furthestAttempted', attempts')
           == Requested(Tally(furthestReceiver, furthestAttempted, attempts), position)
      ensures furthestReceiver' < POSITIONS && furthestAttempted' < POSITIONS
      ensures attempts' <= MAX_RETRIES && attempts' <= attempts + 1
      ensures furthestReceiver' > furthestReceiver
              || (furthestReceiver' == furthestReceiver && furthestAttempted' == furthestAttempted
                  && attempts' > attempts)
      ensures RoundsLeft(furthestReceiver', furthestAttempted', attempts')
            < RoundsLeft(furthestReceiver, furthestAttempted, attempts)
    {
      hide RoundsLeft;
      RoundsShrink(furthestReceiver, furthestAttempted, attempts, position);
      var progress;
      progress, furthestReceiver', attempts' := AccountRecovery(position, furthestReceiver, attempts);
      furthestAttempted' := furthestAttempted;
      if progress {
        furthestAttempted' := position;
      }
    }

    lemma StartedAfresh(pos: nat, rounds: nat)
      requires pos == offset <= |source| && st == Start(Cfg(), pos, st.recoveries, st.tally)
      ensures PlaysFrom(|source|, events, pos, rounds) ==> Helped(0, rounds)
      ensures st.eofs == 0 && st.requested == pos
    {
      hide Coop;
    }

    lemma LeftInFile(ending: Ending, was: Sender)
      requires Left(ending, was)
      ensures offset <= |source|
    {}
  }
}
