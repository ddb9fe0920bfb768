/** zmtx.c and zmrx.c at work: what the two programs do, each reading what the other has written, is a run of
    the pair in Session, so everything proved there holds of the programs themselves. */
module Delivery {
  import opened Peers
  import opened Session
  import Zmtx
  import Zmrx

  /** What happened, in the order in which it happened: steps of the sender and steps of the receiver. */
  datatype Moment = OfSender(t: TxAct) | OfReceiver(r: RxAct)

  function TxActs(h: seq<Moment>): seq<TxAct>
    decreases |h|
  {
    if h == [] then []
    else
      var last := h[|h| - 1];
      TxActs(h[..|h| - 1]) + if last.OfSender? then [last.t] else []
  }

  function RxActs(h: seq<Moment>): seq<RxAct>
    decreases |h|
  {
    if h == [] then []
    else
      var last := h[|h| - 1];
      RxActs(h[..|h| - 1]) + if last.OfReceiver? then [last.r] else []
  }

  /** Nothing is read that was not sent before, in the order in which it was sent; it may be damaged. */
  predicate CopyDown(got: seq<Down>, sent: seq<Down>) {
    |got| <= |sent| && forall i :: 0 <= i < |got| ==> got[i] == sent[i] || got[i] == Noise
  }

  predicate CopyUp(got: seq<Up>, sent: seq<Up>) {
    |got| <= |sent| && forall i :: 0 <= i < |got| ==> got[i] == sent[i] || got[i] == Lost
  }

  /** At every moment, each side has read only what the other had sent by then. */
  predicate Joint(cfg: Config, h: seq<Moment>)
    decreases |h|
  {
    h == [] ||
    (Joint(cfg, h[..|h| - 1])
     && CopyDown(Takings(RxActs(h)), Sendings(TxActs(h)))
     && CopyUp(Hearings(cfg, IDLE, TxActs(h)), Replies(RxActs(h))))
  }

  function Beginning(r: Receiver): System {
    System(IDLE, [], [], r)
  }

  /** Where the two have come to, with what is under way between them. */
  function StateOf(cfg: Config, r: Receiver, h: seq<Moment>): System
    requires Joint(cfg, h)
  {
    JointFits(cfg, h);
    System(TxAfter(cfg, IDLE, TxActs(h)), Sendings(TxActs(h))[|Takings(RxActs(h))|..],
           Replies(RxActs(h))[|Hearings(cfg, IDLE, TxActs(h))|..], RxAfter(r, RxActs(h)))
  }

  lemma JointFits(cfg: Config, h: seq<Moment>)
    requires Joint(cfg, h)
    ensures CopyDown(Takings(RxActs(h)), Sendings(TxActs(h)))
    ensures CopyUp(Hearings(cfg, IDLE, TxActs(h)), Replies(RxActs(h)))
  {}

  /** What a step of the sender changes. */
  lemma SenderMoment(cfg: Config, h: seq<Moment>, t: TxAct)
    ensures TxActs(h + [OfSender(t)]) == TxActs(h) + [t] && RxActs(h + [OfSender(t)]) == RxActs(h)
  {
    assert (h + [OfSender(t)])[..|h|] == h;
    assert RxActs(h) + [] == RxActs(h);
  }

  lemma ReceiverMoment(cfg: Config, h: seq<Moment>, a: RxAct)
    ensures RxActs(h + [OfReceiver(a)]) == RxActs(h) + [a] && TxActs(h + [OfReceiver(a)]) == TxActs(h)
  {
    assert (h + [OfReceiver(a)])[..|h|] == h;
    assert TxActs(h) + [] == TxActs(h);
  }

  /** A step of the sender on its own. */
  lemma SenderAlone(cfg: Config, s: System, events: seq<Session.Event>, t: TxAct, sent: seq<Down>, k: nat)
    returns (more: seq<Session.Event>)
    requires Run(cfg, s, events) && k <= |sent| && After(cfg, s, events).down == sent[k..]
    requires TxMay(cfg, After(cfg, s, events).tx, t) && (t.Read? ==> Answers(After(cfg, s, events).tx, t.e) == [])
    ensures Run(cfg, s, more)
    ensures var was := After(cfg, s, events);
            After(cfg, s, more) == was.(tx := TxDo(cfg, was.tx, t), down := (sent + if t.Send? then [t.m] else [])[k..])
  {
    hide Run, After, TxMay, TxDo, Answers;
    more := Session.Step(cfg, s, events, SenderActs(t));
    assert sent[k..] + (if t.Send? then [t.m] else []) == (sent + if t.Send? then [t.m] else [])[k..];
  }

  /** The sender hears an answer, perhaps damaged. */
  lemma SenderHearsOne(cfg: Config, s: System, events: seq<Session.Event>, e: Peers.Event, u: Up, replies: seq<Up>,
                       k: nat)
    returns (more: seq<Session.Event>)
    requires Run(cfg, s, events) && k < |replies| && After(cfg, s, events).up == replies[k..]
    requires Answers(After(cfg, s, events).tx, e) == [u] && (u == replies[k] || u == Lost)
    ensures Run(cfg, s, more)
    ensures var was := After(cfg, s, events);
            After(cfg, s, more) == was.(tx := TxDo(cfg, was.tx, Read(e)), up := replies[k + 1..])
  {
    hide Run, After;
    var was := After(cfg, s, events);
    more := events;
    if u != replies[k] {
      more := Session.Step(cfg, s, more, DamageUp(0));
    }
    assert After(cfg, s, more).up == [u] + replies[k + 1..];
    SameAnswer(cfg, was.tx, e, u);
    more := Session.Step(cfg, s, more, SenderHears);
  }

  lemma SameAnswer(cfg: Config, s: Sender, e: Peers.Event, u: Up)
    requires Answers(s, e) == [u]
    ensures TxDo(cfg, s, Read(Answer(u))) == TxDo(cfg, s, Read(e))
  {}

  /** The receiver takes an item, perhaps damaged. */
  lemma ReceiverTakesOne(cfg: Config, s: System, events: seq<Session.Event>, a: RxAct, m: Down, sent: seq<Down>, k: nat)
    returns (more: seq<Session.Event>)
    requires Run(cfg, s, events) && k < |sent| && After(cfg, s, events).down == sent[k..]
    requires !a.Purge? && Taken(a) == [m] && RxMay(After(cfg, s, events).rx, a) && (m == sent[k] || m == Noise)
    ensures Run(cfg, s, more)
    ensures var was := After(cfg, s, events);
            After(cfg, s, more) == was.(rx := RxDo(was.rx, a), down := sent[k + 1..])
  {
    hide Run, After, RxMay, RxDo, Taken;
    more := events;
    if m != sent[k] {
      more := Session.Step(cfg, s, more, DamageDown(0));
    }
    assert After(cfg, s, more).down == [m] + sent[k + 1..];
    more := Session.Step(cfg, s, more, ReceiverTakes(a));
  }

  /** A step of the receiver on its own. */
  lemma ReceiverAlone(cfg: Config, s: System, events: seq<Session.Event>, a: RxAct, replies: seq<Up>, k: nat)
    returns (more: seq<Session.Event>)
    requires Run(cfg, s, events) && k <= |replies| && After(cfg, s, events).up == replies[k..]
    requires !a.Purge? && Taken(a) == [] && RxMay(After(cfg, s, events).rx, a)
    ensures Run(cfg, s, more)
    ensures var was := After(cfg, s, events);
            After(cfg, s, more) == was.(rx := RxDo(was.rx, a), up := (replies + if a.Reply? then [a.u] else [])[k..])
  {
    hide Run, After, RxMay, RxDo, Taken;
    more := Session.Step(cfg, s, events, ReceiverActs(a));
    assert replies[k..] + (if a.Reply? then [a.u] else []) == (replies + if a.Reply? then [a.u] else [])[k..];
  }

  /** A purge. */
  lemma ReceiverPurges(cfg: Config, s: System, events: seq<Session.Event>, ms: seq<Down>, sent: seq<Down>, k: nat)
    returns (more: seq<Session.Event>)
    requires Run(cfg, s, events) && k + |ms| <= |sent| && After(cfg, s, events).down == sent[k..]
    requires !After(cfg, s, events).rx.phase.InFrame?
    ensures Run(cfg, s, more)
    ensures var was := After(cfg, s, events);
            After(cfg, s, more) == was.(rx := RxDo(was.rx, Purge(ms)), down := sent[k + |ms|..])
  {
    hide Run, After;
    more := Session.Step(cfg, s, events, Purges(|ms|));
    assert sent[k..][|ms|..] == sent[k + |ms|..];
  }

  /** One more moment of the sender. */
  lemma SenderNext(cfg: Config, r: Receiver, front: seq<Moment>, t: TxAct, events: seq<Session.Event>)
    returns (more: seq<Session.Event>)
    requires Joint(cfg, front) && Joint(cfg, front + [OfSender(t)])
    requires TxMay(cfg, TxAfter(cfg, IDLE, TxActs(front)), t)
    requires TxRun(cfg, IDLE, TxActs(front))
    requires Run(cfg, Beginning(r), events)
    requires After(cfg, Beginning(r), events) == StateOf(cfg, r, front)
    ensures Run(cfg, Beginning(r), more)
    ensures After(cfg, Beginning(r), more) == StateOf(cfg, r, front + [OfSender(t)])
  {
    hide Run, After, TxMay, TxDo, TxRun, TxAfter, Answers, Takings, Sendings, Hearings, Replies, TxActs, RxActs, Joint;
    JointFits(cfg, front);
    JointFits(cfg, front + [OfSender(t)]);
    SenderMoment(cfg, front, t);
    var acts, sent, replies := TxActs(front), Sendings(TxActs(front)), Replies(RxActs(front));
    var s := TxAfter(cfg, IDLE, acts);
    TxRunMore(cfg, IDLE, acts, t);
    TxRecordMore(cfg, IDLE, acts, t);
    if t.Read? && Answers(s, t.e) != [] {
      var u := Answers(s, t.e)[0];
      var k := |Hearings(cfg, IDLE, acts)|;
      assert Hearings(cfg, IDLE, acts + [t])[k] == u;
      assert Answers(s, t.e) == [u];
      more := SenderHearsOne(cfg, Beginning(r), events, t.e, u, replies, k);
      assert sent + [] == sent;
    } else {
      more := SenderAlone(cfg, Beginning(r), events, t, sent, |Takings(RxActs(front))|);
      assert t.Read? ==> Hearings(cfg, IDLE, acts) + [] == Hearings(cfg, IDLE, acts);
      assert !t.Read? ==> Hearings(cfg, IDLE, acts) + [] == Hearings(cfg, IDLE, acts);
    }
  }

  /** One more moment of the receiver. */
  lemma ReceiverNext(cfg: Config, r: Receiver, front: seq<Moment>, a: RxAct, events: seq<Session.Event>)
    returns (more: seq<Session.Event>)
    requires Joint(cfg, front) && Joint(cfg, front + [OfReceiver(a)])
    requires RxMay(RxAfter(r, RxActs(front)), a)
    requires RxRun(r, RxActs(front))
    requires Run(cfg, Beginning(r), events)
    requires After(cfg, Beginning(r), events) == StateOf(cfg, r, front)
    ensures Run(cfg, Beginning(r), more)
    ensures After(cfg, Beginning(r), more) == StateOf(cfg, r, front + [OfReceiver(a)])
  {
    hide Run, After, RxDo, RxRun, RxAfter, Takings, Sendings, Hearings, Replies, TxActs, RxActs, Joint;
    JointFits(cfg, front);
    JointFits(cfg, front + [OfReceiver(a)]);
    ReceiverMoment(cfg, front, a);
    var acts, sent, replies := RxActs(front), Sendings(TxActs(front)), Replies(RxActs(front));
    var k := |Takings(acts)|;
    RxRunMore(r, acts, a);
    RxRecordMore(acts, a);
    if a.Purge? {
      more := ReceiverPurges(cfg, Beginning(r), events, a.ms, sent, k);
      assert replies + [] == replies;
    } else if Taken(a) != [] {
      var m := Taken(a)[0];
      OneItem(a);
      assert Takings(acts + [a])[k] == m;
      more := ReceiverTakesOne(cfg, Beginning(r), events, a, m, sent, k);
      assert replies + [] == replies;
    } else {
      more := ReceiverAlone(cfg, Beginning(r), events, a, replies, |Hearings(cfg, IDLE, TxActs(front))|);
      assert Takings(acts) + [] == Takings(acts);
    }
  }

  lemma OneItem(a: RxAct)
    requires !a.Purge? && Taken(a) != []
    ensures Taken(a) == [Taken(a)[0]] && !a.Reply?
  {}

  /** Two histories that fit together are a run of the pair. */
  lemma {:induction false} JointRun(cfg: Config, r: Receiver, h: seq<Moment>) returns (events: seq<Session.Event>)
    requires Joint(cfg, h) && TxRun(cfg, IDLE, TxActs(h)) && RxRun(r, RxActs(h))
    ensures Run(cfg, Beginning(r), events) && After(cfg, Beginning(r), events) == StateOf(cfg, r, h)
    decreases |h|
  {
    hide Takings, Sendings, Hearings, Replies, TxMay, TxDo, RxMay, RxDo, Do, Enabled, CopyDown, CopyUp;
    if h == [] {
      events := [];
      NothingHappened(cfg, r);
    } else {
      var front, last := h[..|h| - 1], h[|h| - 1];
      assert h == front + [last];
      match last {
        case OfSender(t) =>
          SenderMoment(cfg, front, t);
          TxPrefix(cfg, IDLE, TxActs(h), |TxActs(h)|);
          assert TxActs(h)[..|TxActs(h)| - 1] == TxActs(front);
          events := JointRun(cfg, r, front);
          events := SenderNext(cfg, r, front, t, events);
        case OfReceiver(a) =>
          ReceiverMoment(cfg, front, a);
          RxPrefix(r, RxActs(h), |RxActs(h)|);
          assert RxActs(h)[..|RxActs(h)| - 1] == RxActs(front);
          events := JointRun(cfg, r, front);
          events := ReceiverNext(cfg, r, front, a, events);
      }
    }
  }

  lemma NothingHappened(cfg: Config, r: Receiver)
    ensures Joint(cfg, []) && StateOf(cfg, r, []) == Beginning(r)
  {}

  /** An order in which the steps of a sender and of a receiver can have happened, each reading only what the
      other had written. */
  ghost predicate Together(z: Zmtx.Zmtx, x: Zmrx.Zmrx, h: seq<Moment>)
    reads z, x
  {
    TxActs(h) == z.acts && RxActs(h) == x.acts && Joint(z.Cfg(), h)
  }

  /** At every moment of the two programs' work: the file on disk is a prefix of the source, and all of it
      once ZEOF was accepted; what the sender takes for acknowledged is on disk; and a sender that has
      succeeded has delivered the file. */
  lemma ProgramsAreSafe(z: Zmtx.Zmtx, x: Zmrx.Zmrx, h: seq<Moment>)
    requires z.Valid() && x.Valid() && Together(z, x, h) && IsPrefix(x.initial.file, z.source)
    ensures IsPrefix(x.file, z.source) && (x.rx.phase.Done? ==> x.file == z.source)
    ensures z.st.phase.Sending? || z.st.phase.Finishing? ==> z.st.acknowledged <= |x.file|
    ensures z.st.phase.Succeeded? ==> x.rx.phase.Done? && x.file == z.source
  {
    hide Run, After, TxSound, Joint, TxActs, RxActs, Sendings, Hearings, Takings, Replies, TxRun, RxRun, TxAfter,
      RxAfter;
    var cfg, s := z.Cfg(), Beginning(x.initial);
    var events := JointRun(cfg, x.initial, h);
    ReceivedIsPrefix(cfg, s, events);
    AcknowledgedIsCommitted(cfg, s, events);
    SuccessIsDelivery(cfg, s, events);
  }

  /** A sender and a receiver of one file, whatever their lines deliver.  If what they read is what the other
      wrote, in order and perhaps damaged, then what is on disk is a prefix of the source, and a sender that
      reports success has delivered all of it.  A line on which each is answered as it should be is one on
      which the file is delivered. */
  method Transfer(z: Zmtx.Zmtx, x: Zmrx.Zmrx) returns (result: Zmtx.SendResult, closed: bool)
    requires z.Valid() && z.st == IDLE && x.Valid() && x.Idle(false)
    requires x.rx == x.initial && IsPrefix(x.file, z.source)
    modifies z, z.block, x
    ensures z.Valid() && x.Valid()
    ensures old(z.Undisturbed()) ==> result == Zmtx.SEND_SUCCEEDED
    ensures old(x.Healthy()) && old(x.Expected()).Arrived? ==> x.rx.phase.Done?
    ensures forall h :: Together(z, x, h) ==>
              && IsPrefix(x.file, z.source) && (x.rx.phase.Done? ==> x.file == z.source)
              && (result == Zmtx.SEND_SUCCEEDED ==> x.rx.phase.Done? && x.file == z.source)
  {
    result := z.SendFile();
    closed := x.ReceiveSession();
    forall h | Together(z, x, h)
      ensures IsPrefix(x.file, z.source) && (x.rx.phase.Done? ==> x.file == z.source)
      ensures result == Zmtx.SEND_SUCCEEDED ==> x.rx.phase.Done? && x.file == z.source
    {
      ProgramsAreSafe(z, x, h);
    }
  }
}
