/** zmtx.c and zmrx.c together: a sender and a receiver of one file over two channels that may damage
    anything they carry, and what holds in every state the pair can reach.

    The channels are first in, first out.  Damage is always detected.  A purge drops some of what is under
    way, and nothing else drops a subpacket from inside a frame that the receiver is reading.  What goes by
    while the receiver looks for a header is not taken for one. */
module Session {
  import opened Peers
  import Bytes

  datatype System = System(tx: Sender, down: seq<Down>, up: seq<Up>, rx: Receiver)

  /** What can happen next: a step of the sender, either on its own or by taking an answer off its channel;
      a step of the receiver, by taking an item or on its own; a purge by the receiver; damage. */
  datatype Event =
    | SenderActs(step: TxAct)
    | SenderHears
    | ReceiverTakes(a: RxAct)
    | ReceiverActs(a: RxAct)
    | Purges(count: nat)
    | DamageDown(i: nat)
    | DamageUp(i: nat)

  predicate Enabled(cfg: Config, s: System, e: Event) {
    match e
    case SenderActs(a) => (a.Read? ==> Answers(s.tx, a.e) == []) && TxMay(cfg, s.tx, a)
    case SenderHears => s.up != []
    case ReceiverTakes(a) => s.down != [] && !a.Purge? && Taken(a) == [s.down[0]] && RxMay(s.rx, a)
    case ReceiverActs(a) => !a.Purge? && Taken(a) == [] && RxMay(s.rx, a)
    case Purges(count) => count <= |s.down| && !s.rx.phase.InFrame?
    case DamageDown(i) => i < |s.down|
    case DamageUp(i) => i < |s.up|
  }

  function Do(cfg: Config, s: System, e: Event): System {
    match e
    case SenderActs(a) =>
      System(TxDo(cfg, s.tx, a), s.down + (if a.Send? then [a.m] else []), s.up, s.rx)
    case SenderHears =>
      if s.up == [] then s else System(TxDo(cfg, s.tx, Read(Answer(s.up[0]))), s.down, s.up[1..], s.rx)
    case ReceiverTakes(a) => if s.down == [] then s else System(s.tx, s.down[1..], s.up, RxDo(s.rx, a))
    case ReceiverActs(a) =>
      System(s.tx, s.down, s.up + (if a.Reply? then [a.u] else []), RxDo(s.rx, a))
    case Purges(count) => if count <= |s.down| then s.(down := s.down[count..]) else s
    case DamageDown(i) => if i < |s.down| then s.(down := s.down[i := Noise]) else s
    case DamageUp(i) => if i < |s.up| then s.(up := s.up[i := Lost]) else s
  }

  /** A run of the pair. */
  predicate Run(cfg: Config, s: System, events: seq<Event>)
    decreases |events|
  {
    events == []
    || (Run(cfg, s, events[..|events| - 1])
        && Enabled(cfg, After(cfg, s, events[..|events| - 1]), events[|events| - 1]))
  }

  function After(cfg: Config, s: System, events: seq<Event>): System
    decreases |events|
  {
    if events == [] then s else Do(cfg, After(cfg, s, events[..|events| - 1]), events[|events| - 1])
  }

  predicate IsPrefix(a: File, b: File) {
    |a| <= |b| && a == b[..|a|]
  }

  /** Nothing said yet; the destination is a prefix of the source, perhaps an empty one. */
  predicate Initial(cfg: Config, s: System) {
    && s.tx == IDLE && s.down == [] && s.up == []
    && s.rx.phase.Before? && s.rx.owes.Nothing? && IsPrefix(s.rx.file, cfg.source)
  }

  // ---------- What is under way ----------

  /** Where the next subpacket belongs, if that is known: in a frame, or in none that counts. */
  datatype Place = Nowhere | At(pos: nat)

  /** What is under way agrees with the source: frames start inside it, the subpackets of a frame continue
      it, and ZEOF stands at its end. */
  ghost predicate Coherent(source: File, down: seq<Down>, at: Place)
    decreases down
  {
    down == []
    || match down[0]
       case Data(p) => p <= |source| && Coherent(source, down[1..], At(p))
       case Sub(b, t) =>
         if at.Nowhere? then Coherent(source, down[1..], Nowhere)
         else
           && at.pos + |b| <= |source| && b == source[at.pos..at.pos + |b|]
           && Coherent(source, down[1..], if Continues(t) then At(at.pos + |b|) else Nowhere)
       case Eof(p) => p == |source| && Coherent(source, down[1..], Nowhere)
       case _ => Coherent(source, down[1..], Nowhere)
  }

  /** Where the subpacket behind one item would belong. */
  function PlaceBehind(m: Down, at: Place): Place {
    match m
    case Data(p) => At(p)
    case Sub(b, t) => if at.At? && Continues(t) then At(at.pos + |b|) else Nowhere
    case _ => Nowhere
  }

  /** Where the subpacket behind all of it would belong. */
  ghost function PlaceAfter(down: seq<Down>, at: Place): Place
    decreases down
  {
    if down == [] then at else PlaceAfter(down[1..], PlaceBehind(down[0], at))
  }

  /** Knowing less keeps coherence, and leaves the end unknown or the same. */
  lemma {:induction false} Forgetting(source: File, down: seq<Down>, at: Place)
    requires Coherent(source, down, at)
    ensures Coherent(source, down, Nowhere)
    ensures PlaceAfter(down, Nowhere).Nowhere? || PlaceAfter(down, Nowhere) == PlaceAfter(down, at)
    decreases down
  {
    if down != [] {
      match down[0]
      case Data(_) =>
      case Sub(b, t) =>
        if at.At? {
          Forgetting(source, down[1..], PlaceBehind(down[0], at));
        }
      case _ =>
    }
  }

  lemma {:induction false} Dropping(source: File, down: seq<Down>, at: Place, count: nat)
    requires Coherent(source, down, at) && count <= |down|
    ensures Coherent(source, down[count..], Nowhere)
    ensures PlaceAfter(down[count..], Nowhere).Nowhere? || PlaceAfter(down[count..], Nowhere) == PlaceAfter(down, at)
    decreases down
  {
    if count == 0 {
      assert down[0..] == down;
      Forgetting(source, down, at);
    } else {
      var at' := PlaceBehind(down[0], at);
      assert down[count..] == down[1..][count - 1..];
      Dropping(source, down[1..], at', count - 1);
    }
  }

  lemma {:induction false} Damaging(source: File, down: seq<Down>, at: Place, i: nat)
    requires Coherent(source, down, at) && i < |down|
    ensures Coherent(source, down[i := Noise], at)
    ensures PlaceAfter(down[i := Noise], at).Nowhere? || PlaceAfter(down[i := Noise], at) == PlaceAfter(down, at)
    decreases down
  {
    var at' := PlaceBehind(down[0], at);
    if i == 0 {
      assert down[0 := Noise][1..] == down[1..];
      Forgetting(source, down[1..], at');
    } else {
      assert down[i := Noise][1..] == down[1..][i - 1 := Noise];
      Damaging(source, down[1..], at', i - 1);
    }
  }

  lemma {:induction false} Appending(source: File, down: seq<Down>, at: Place, m: Down)
    requires Coherent(source, down, at) && Coherent(source, [m], PlaceAfter(down, at))
    ensures Coherent(source, down + [m], at) && PlaceAfter(down + [m], at) == PlaceAfter([m], PlaceAfter(down, at))
    decreases down
  {
    if down == [] {
      assert down + [m] == [m];
    } else {
      var at' := PlaceBehind(down[0], at);
      assert (down + [m])[1..] == down[1..] + [m];
      Appending(source, down[1..], at', m);
    }
  }

  /** Without ZDATA there is no frame. */
  lemma {:induction false} NoFrame(down: seq<Down>)
    requires forall i :: 0 <= i < |down| ==> !down[i].Data?
    ensures PlaceAfter(down, Nowhere) == Nowhere
    decreases down
  {
    if down != [] {
      assert forall i :: 0 <= i < |down[1..]| ==> down[1..][i] == down[i + 1];
      NoFrame(down[1..]);
    }
  }

  // ---------- The invariant ----------

  function Reading(r: Receiver): Place {
    if r.phase.InFrame? then At(|r.file|) else Nowhere
  }

  /** The receiver's side: a prefix of the source, all of it once ZEOF was accepted; what is under way
      agrees with the source from where the receiver reads; and the sender's open frame, if anything, is
      where it ends. */
  ghost predicate DownSound(cfg: Config, s: System) {
    && IsPrefix(s.rx.file, cfg.source)
    && (s.rx.phase.Done? ==> s.rx.file == cfg.source)
    && Coherent(cfg.source, s.down, Reading(s.rx))
    && (s.tx.open && s.tx.phase.Sending? ==>
          PlaceAfter(s.down, Reading(s.rx)).Nowhere? || PlaceAfter(s.down, Reading(s.rx)) == At(s.tx.position))
  }

  /** The sender's side: every position on its way back is committed already, and so is what the sender
      takes for acknowledged. */
  ghost predicate UpSound(cfg: Config, s: System) {
    && (forall i :: 0 <= i < |s.up| && (s.up[i].Ack? || s.up[i].Rpos?) ==> s.up[i].pos <= |s.rx.file|)
    && (s.tx.phase.Sending? || s.tx.phase.Finishing? ==>
        s.tx.acknowledged <= |s.rx.file| && s.tx.requested <= |s.rx.file|)
  }

  /** An invitation behind the first ZRPOS, or heard by a sender that has one, was sent after ZEOF. */
  ghost predicate InvitesSound(s: System) {
    && (s.rx.phase.Before? ==> s.tx.phase.Offering? || s.tx.phase.Dismissed? || s.tx.phase.Stopped?)
    && (s.rx.phase.Before? ==> s.rx.owes.Nothing? && forall i :: 0 <= i < |s.up| ==> !s.up[i].Rpos? && !s.up[i].Ack?)
    && (s.tx.phase.Succeeded? ==> s.rx.phase.Done?)
    && (!s.rx.phase.Done? && (s.tx.phase.Sending? || s.tx.phase.Finishing?) ==>
          forall i :: 0 <= i < |s.up| ==> !s.up[i].Init?)
    && (!s.rx.phase.Done? ==> forall i, j :: 0 <= i < j < |s.up| && s.up[i].Rpos? ==> !s.up[j].Init?)
  }

  predicate IsFileData(m: Down) {
    m.Data? || m.Eof?
  }

  /** The file is offered before any of it is sent, and never again. */
  ghost predicate OffersSound(s: System) {
    && (s.tx.phase.Offering? ==> !s.rx.phase.InFrame? && forall i :: 0 <= i < |s.down| ==> !IsFileData(s.down[i]))
    && (forall i, j :: 0 <= i < j < |s.down| && IsFileData(s.down[i]) ==> !s.down[j].Offer?)
    && (s.rx.phase.Done? ==> !s.tx.phase.Offering? && forall i :: 0 <= i < |s.down| ==> !s.down[i].Offer?)
  }

  ghost predicate Sound(cfg: Config, s: System) {
    TxSound(cfg, s.tx) && DownSound(cfg, s) && UpSound(cfg, s) && InvitesSound(s) && OffersSound(s)
  }

  lemma InitialSound(cfg: Config, s: System)
    requires Initial(cfg, s)
    ensures Sound(cfg, s)
  {}

  lemma TxInFile(cfg: Config, s: Sender)
    requires TxSound(cfg, s) && (s.phase.Sending? || s.phase.Finishing?)
    ensures s.position <= |cfg.source| && s.acknowledged <= s.position && s.requested <= |cfg.source|
  {}

  lemma SendKeepsDown(cfg: Config, s: System, m: Down)
    requires TxSound(cfg, s.tx) && DownSound(cfg, s) && OffersSound(s) && MaySend(cfg, s.tx, m)
    ensures DownSound(cfg, Do(cfg, s, SenderActs(Send(m))))
  {
    hide TxSound;
    if s.tx.phase.Sending? {
      TxInFile(cfg, s.tx);
    }
    assert [m][1..] == [];
    if s.tx.phase.Offering? {
      NoFrame(s.down);
    }
    Appending(cfg.source, s.down, Reading(s.rx), m);
  }

  lemma SendKeepsRest(cfg: Config, s: System, m: Down)
    requires UpSound(cfg, s) && InvitesSound(s) && OffersSound(s) && MaySend(cfg, s.tx, m)
    ensures UpSound(cfg, Do(cfg, s, SenderActs(Send(m)))) && InvitesSound(Do(cfg, s, SenderActs(Send(m))))
    ensures OffersSound(Do(cfg, s, SenderActs(Send(m))))
  {}

  lemma SendKeeps(cfg: Config, s: System, m: Down)
    requires Sound(cfg, s) && MaySend(cfg, s.tx, m)
    ensures Sound(cfg, Do(cfg, s, SenderActs(Send(m))))
  {
    hide TxSound, DownSound, UpSound, InvitesSound, OffersSound, MaySend;
    TxKeepsSound(cfg, s.tx, Send(m));
    SendKeepsDown(cfg, s, m);
    SendKeepsRest(cfg, s, m);
  }

  lemma SenderKeeps(cfg: Config, s: System, a: TxAct)
    requires Sound(cfg, s) && Enabled(cfg, s, SenderActs(a))
    ensures Sound(cfg, Do(cfg, s, SenderActs(a)))
  {
    if a.Send? {
      SendKeeps(cfg, s, a.m);
    } else {
      assert s.down + [] == s.down;
      TxKeepsSound(cfg, s.tx, a);
    }
  }

  lemma HearKeepsUp(cfg: Config, s: System)
    requires UpSound(cfg, s) && s.up != [] && TxSound(cfg, s.tx)
    ensures UpSound(cfg, Do(cfg, s, SenderHears))
  {
    hide Heard;
    var s', u := Do(cfg, s, SenderHears), s.up[0];
    assert forall i :: 0 <= i < |s'.up| ==> s'.up[i] == s.up[i + 1];
    HeardWithin(cfg, s.tx.(alarm := false), u, |s.rx.file|);
  }

  /** What the sender has been told of stays within what has been committed. */
  lemma HeardWithin(cfg: Config, s: Sender, u: Up, n: nat)
    requires s.phase.Sending? || s.phase.Finishing? ==> s.acknowledged <= n && s.requested <= n
    requires u.Ack? || u.Rpos? ==> u.pos <= n
    ensures var t := Heard(cfg, s, u);
            t.phase.Sending? || t.phase.Finishing? ==> t.acknowledged <= n && t.requested <= n
  {
    hide Unanswered, Requested;
  }

  lemma HearKeepsInvites(cfg: Config, s: System)
    requires InvitesSound(s) && s.up != []
    ensures InvitesSound(Do(cfg, s, SenderHears))
  {
    var s' := Do(cfg, s, SenderHears);
    assert forall i :: 0 <= i < |s'.up| ==> s'.up[i] == s.up[i + 1];
  }

  lemma HearKeepsRest(cfg: Config, s: System)
    requires DownSound(cfg, s) && OffersSound(s) && s.up != []
    ensures DownSound(cfg, Do(cfg, s, SenderHears)) && OffersSound(Do(cfg, s, SenderHears))
  {
    hide Heard, Coherent, PlaceAfter;
    HeardKeepsFrame(cfg, s.tx.(alarm := false), s.up[0]);
  }

  /** An answer opens no frame and moves none, and leads nobody back to the offer. */
  lemma HeardKeepsFrame(cfg: Config, s: Sender, u: Up)
    ensures var t := Heard(cfg, s, u);
            && (t.phase.Offering? ==> s.phase.Offering?)
            && (t.open && t.phase.Sending? ==> s.open && s.phase.Sending? && t.position == s.position)
  {
    hide Unanswered, Requested;
  }

  lemma HearKeeps(cfg: Config, s: System)
    requires Sound(cfg, s) && s.up != []
    ensures Sound(cfg, Do(cfg, s, SenderHears))
  {
    hide UpSound, InvitesSound, DownSound, OffersSound, TxSound;
    HearKeepsUp(cfg, s);
    HearKeepsInvites(cfg, s);
    HearKeepsRest(cfg, s);
    TxKeepsSound(cfg, s.tx, Read(Answer(s.up[0])));
  }

  lemma TakeKeepsDown(cfg: Config, s: System, a: RxAct)
    requires DownSound(cfg, s) && Enabled(cfg, s, ReceiverTakes(a))
    ensures DownSound(cfg, Do(cfg, s, ReceiverTakes(a)))
  {
    if a.Commit? {
      CommitKeepsPrefix(cfg.source, s.rx.file, a.bytes, |a.bytes|);
    } else if !a.Enter? {
      Dropping(cfg.source, s.down, Reading(s.rx), 1);
      if a.Part? {
        CommitKeepsPrefix(cfg.source, s.rx.file, a.bytes, a.count);
      }
    }
  }

  lemma TakeKeepsRest(cfg: Config, s: System, a: RxAct)
    requires UpSound(cfg, s) && InvitesSound(s) && OffersSound(s) && Enabled(cfg, s, ReceiverTakes(a))
    ensures UpSound(cfg, Do(cfg, s, ReceiverTakes(a))) && InvitesSound(Do(cfg, s, ReceiverTakes(a)))
    ensures OffersSound(Do(cfg, s, ReceiverTakes(a)))
  {}

  lemma TakeKeeps(cfg: Config, s: System, a: RxAct)
    requires Sound(cfg, s) && Enabled(cfg, s, ReceiverTakes(a))
    ensures Sound(cfg, Do(cfg, s, ReceiverTakes(a)))
  {
    hide TxSound, DownSound, UpSound, InvitesSound, OffersSound;
    TakeKeepsDown(cfg, s, a);
    TakeKeepsRest(cfg, s, a);
  }

  lemma CommitKeepsPrefix(source: File, file: File, bytes: File, count: nat)
    requires IsPrefix(file, source) && |file| + |bytes| <= |source| && bytes == source[|file|..|file| + |bytes|]
    requires count <= |bytes|
    ensures IsPrefix(file + bytes[..count], source) && bytes[..|bytes|] == bytes
  {}

  lemma ReceiverKeeps(cfg: Config, s: System, a: RxAct)
    requires Sound(cfg, s) && Enabled(cfg, s, ReceiverActs(a))
    ensures Sound(cfg, Do(cfg, s, ReceiverActs(a)))
  {
    hide TxSound;
    if !a.Reply? {
      Forgetting(cfg.source, s.down, Reading(s.rx));
    }
  }

  lemma PurgeKeeps(cfg: Config, s: System, count: nat)
    requires Sound(cfg, s) && count <= |s.down| && !s.rx.phase.InFrame?
    ensures Sound(cfg, Do(cfg, s, Purges(count)))
  {
    Dropping(cfg.source, s.down, Nowhere, count);
  }

  lemma DamageKeeps(cfg: Config, s: System, e: Event)
    requires Sound(cfg, s) && Enabled(cfg, s, e) && (e.DamageDown? || e.DamageUp?)
    ensures Sound(cfg, Do(cfg, s, e))
  {
    if e.DamageDown? {
      Damaging(cfg.source, s.down, Reading(s.rx), e.i);
    }
  }

  lemma StepKeeps(cfg: Config, s: System, e: Event)
    requires Sound(cfg, s) && Enabled(cfg, s, e)
    ensures Sound(cfg, Do(cfg, s, e))
  {
    hide Sound;
    match e
    case SenderActs(a) => SenderKeeps(cfg, s, a);
    case SenderHears => HearKeeps(cfg, s);
    case ReceiverTakes(a) => TakeKeeps(cfg, s, a);
    case ReceiverActs(a) => ReceiverKeeps(cfg, s, a);
    case Purges(count) => PurgeKeeps(cfg, s, count);
    case DamageDown(_) => DamageKeeps(cfg, s, e);
    case DamageUp(_) => DamageKeeps(cfg, s, e);
  }

  lemma {:induction false} RunKeeps(cfg: Config, s: System, events: seq<Event>)
    requires Initial(cfg, s) && Run(cfg, s, events)
    ensures Sound(cfg, After(cfg, s, events))
    decreases |events|
  {
    hide Sound, Initial, Do, Enabled;
    if events == [] {
      InitialSound(cfg, s);
    } else {
      var front := events[..|events| - 1];
      RunKeeps(cfg, s, front);
      StepKeeps(cfg, After(cfg, s, front), events[|events| - 1]);
    }
  }

  // ---------- What it is worth ----------

  /** In every state the pair can reach, the received file is a prefix of the source; and once the receiver
      has accepted ZEOF, the two are equal. */
  lemma ReceivedIsPrefix(cfg: Config, s: System, events: seq<Event>)
    requires Initial(cfg, s) && Run(cfg, s, events)
    ensures var rx := After(cfg, s, events).rx;
            IsPrefix(rx.file, cfg.source) && (rx.phase.Done? ==> rx.file == cfg.source)
  {
    RunKeeps(cfg, s, events);
  }

  /** What the sender takes for acknowledged has been committed, whatever stale answers are under way. */
  lemma AcknowledgedIsCommitted(cfg: Config, s: System, events: seq<Event>)
    requires Initial(cfg, s) && Run(cfg, s, events)
    ensures var t := After(cfg, s, events);
            t.tx.phase.Sending? || t.tx.phase.Finishing? ==> t.tx.acknowledged <= |t.rx.file|
  {
    RunKeeps(cfg, s, events);
  }

  /** The sender reports success only when the receiver has committed the whole file. */
  lemma SuccessIsDelivery(cfg: Config, s: System, events: seq<Event>)
    requires Initial(cfg, s) && Run(cfg, s, events)
    ensures var t := After(cfg, s, events);
            t.tx.phase.Succeeded? ==> t.rx.phase.Done? && t.rx.file == cfg.source
  {
    RunKeeps(cfg, s, events);
  }

  /** A receiver that is done is never offered the file again, so it never opens it a second time. */
  lemma NeverOfferedAgain(cfg: Config, s: System, events: seq<Event>)
    requires Initial(cfg, s) && Run(cfg, s, events)
    ensures var t := After(cfg, s, events);
            t.rx.phase.Done? ==> forall i :: 0 <= i < |t.down| ==> !t.down[i].Offer?
  {
    RunKeeps(cfg, s, events);
  }

  // ---------- It can succeed ----------

  lemma More(cfg: Config, s: System, events: seq<Event>, e: Event)
    requires Run(cfg, s, events) && Enabled(cfg, After(cfg, s, events), e)
    ensures Run(cfg, s, events + [e]) && After(cfg, s, events + [e]) == Do(cfg, After(cfg, s, events), e)
  {
    assert (events + [e])[..|events|] == events;
  }

  /** The pair between two blocks: p bytes are sent and committed, and nothing is under way. */
  predicate Between(cfg: Config, t: System, p: nat) {
    && t.down == [] && t.up == [] && p <= |cfg.source|
    && t.rx == Receiver(if t.tx.open then InFrame else Hunting, cfg.source[..p], 0, false, Nothing)
    && t.tx.phase.Sending? && t.tx.position == p && !t.tx.waiting && !t.tx.recovering && t.tx.pending == []
    && t.tx.lastRequest <= p
    && (cfg.window > 0 ==> t.tx.acknowledged == t.tx.lastRequest
                           && (p == t.tx.lastRequest || p - t.tx.lastRequest < cfg.window / 4))
    && (cfg.buffer > 0 ==> t.tx.segment < cfg.buffer) && t.tx.eofs == 0
  }

  /** What the next block holds: at most the standard size, and what is left of the file, of the window and of
      the receiver's buffer. */
  function BlockSize(cfg: Config, t: System, p: nat): (n: nat)
    requires Between(cfg, t, p) && p < |cfg.source|
    ensures 1 <= n <= 1024 && p + n <= |cfg.source|
    ensures (cfg.window > 0 ==> p + n <= t.tx.acknowledged + cfg.window)
              && (cfg.buffer > 0 ==> t.tx.segment + n <= cfg.buffer)
  {
    var n := if |cfg.source| - p < 1024 then |cfg.source| - p else 1024;
    var room := if cfg.window > 0 then cfg.window - (p - t.tx.acknowledged) else n;
    var m := if room < n then room else n;
    if 0 < cfg.buffer < t.tx.segment + m then cfg.buffer - t.tx.segment else m
  }

  /** How it ends: with a wait where every block is waited for or the buffer is full, with a request at a
      quarter of the window, and else the frame goes on. */
  function BlockEnd(cfg: Config, t: System, x: nat, n: nat): End {
    if cfg.wait || (cfg.buffer > 0 && t.tx.segment + n == cfg.buffer) then CrcW
    else if cfg.window > 0 && x - t.tx.lastRequest >= cfg.window / 4 then CrcQ
    else CrcG
  }

  /** One block, and its answer if it asks for one. */
  lemma OneBlock(cfg: Config, s: System, events: seq<Event>, p: nat) returns (more: seq<Event>, x: nat)
    requires p < |cfg.source| < POSITIONS && Run(cfg, s, events) && Between(cfg, After(cfg, s, events), p)
    ensures Run(cfg, s, more) && p < x <= |cfg.source| && Between(cfg, After(cfg, s, more), x)
  {
    hide Run, After;
    more := OpenedFrame(cfg, s, events, p);
    var was := After(cfg, s, more);
    var n := BlockSize(cfg, was, p);
    x := p + n;
    var b, t := cfg.source[p..x], BlockEnd(cfg, was, x, n);
    more := Step(cfg, s, more, SenderActs(Send(Sub(b, t))));
    hide MaySendBlock;
    more := Step(cfg, s, more, ReceiverTakes(Commit(b, t)));
    hide MayCommit;
    assert cfg.source[..p] + b == cfg.source[..x];
    if t != CrcG {
      more := Step(cfg, s, more, ReceiverActs(Reply(Ack(x), false, false)));
      Answered(x);
      more := Step(cfg, s, more, SenderHears);
    }
  }

  lemma Answered(x: nat)
    ensures Unanswered([x], x) == [] && [] + [x] == [x]
  {
    assert [x][1..] == [];
  }

  /** ZDATA, taken, unless a frame is open. */
  lemma OpenedFrame(cfg: Config, s: System, events: seq<Event>, p: nat) returns (more: seq<Event>)
    requires Run(cfg, s, events) && Between(cfg, After(cfg, s, events), p)
    ensures Run(cfg, s, more) && Between(cfg, After(cfg, s, more), p) && After(cfg, s, more).tx.open
  {
    hide Run, After;
    more := events;
    if !After(cfg, s, events).tx.open {
      more := Step(cfg, s, events, SenderActs(Send(Data(p))));
      more := Step(cfg, s, more, ReceiverTakes(Enter(p)));
    }
  }

  lemma Step(cfg: Config, s: System, events: seq<Event>, e: Event) returns (more: seq<Event>)
    requires Run(cfg, s, events) && Enabled(cfg, After(cfg, s, events), e)
    ensures Run(cfg, s, more) && After(cfg, s, more) == Do(cfg, After(cfg, s, events), e)
  {
    More(cfg, s, events, e);
    more := events + [e];
  }

  /** The sender has sent the whole file, and the receiver has it. */
  predicate AllSent(cfg: Config, t: System) {
    && t.tx.position == |cfg.source| && t.tx.pending == [] && t.down == [] && t.up == []
    && (if t.tx.phase.Finishing? then t.tx.eofs == 0 else t.tx.phase.Sending? && !t.tx.open && !t.tx.waiting)
    && t.rx == Receiver(Hunting, cfg.source, 0, false, Nothing)
  }

  /** Block after block, and an empty subpacket behind the last. */
  lemma {:induction false} AllBlocks(cfg: Config, s: System, events: seq<Event>, p: nat) returns (more: seq<Event>)
    requires p <= |cfg.source| < POSITIONS && Run(cfg, s, events) && Between(cfg, After(cfg, s, events), p)
    ensures Run(cfg, s, more) && AllSent(cfg, After(cfg, s, more))
    decreases |cfg.source| - p
  {
    hide Run, After;
    if p == |cfg.source| {
      assert cfg.source[..p] == cfg.source && cfg.source[p..p] == [];
      more := OpenedFrame(cfg, s, events, p);
      more := Step(cfg, s, more, SenderActs(Send(Sub([], CrcE))));
      more := Step(cfg, s, more, ReceiverTakes(Commit([], CrcE)));
      assert cfg.source + [] == cfg.source;
    } else {
      var x;
      more, x := OneBlock(cfg, s, events, p);
      more := AllBlocks(cfg, s, more, x);
    }
  }

  /** The file offered and accepted, to go on where it ends, and the first ZRPOS heard. */
  lemma Opened(cfg: Config, s: System) returns (events: seq<Event>)
    requires Initial(cfg, s) && IsFileInfo(cfg.info) && |cfg.info| <= Bytes.ZMAXSPLEN
    ensures Run(cfg, s, events) && Between(cfg, After(cfg, s, events), |s.rx.file|)
  {
    events := [];
    hide Run, After;
    NothingYet(cfg, s);
    events := Step(cfg, s, events, SenderActs(Send(Offer)));
    events := Step(cfg, s, events, ReceiverTakes(Ignore(Offer)));
    events := Step(cfg, s, events, SenderActs(Send(Sub(cfg.info, CrcW))));
    events := Step(cfg, s, events, ReceiverTakes(Accept(cfg.info, true)));
    events := Step(cfg, s, events, ReceiverActs(Reply(Rpos(|s.rx.file|), false, false)));
    events := Step(cfg, s, events, SenderHears);
  }

  lemma NothingYet(cfg: Config, s: System)
    ensures Run(cfg, s, []) && After(cfg, s, []) == s
  {}

  /** Whatever the window, the buffer and the mode, and from any beginning of the file that the receiver has, the pair
      can deliver every file of fewer than 2^32 bytes, by steps that the programs take. */
  lemma DeliveryIsPossible(cfg: Config, s: System) returns (events: seq<Event>)
    requires Initial(cfg, s) && |cfg.source| < POSITIONS && IsFileInfo(cfg.info) && |cfg.info| <= Bytes.ZMAXSPLEN
    ensures Run(cfg, s, events)
    ensures After(cfg, s, events).tx.phase.Succeeded? && After(cfg, s, events).rx.file == cfg.source
  {
    hide Run, After;
    events := Opened(cfg, s);
    events := AllBlocks(cfg, s, events, |s.rx.file|);
    events := Step(cfg, s, events, SenderActs(Send(Eof(|cfg.source|))));
    events := Step(cfg, s, events, ReceiverTakes(Finish(|cfg.source|)));
    events := Step(cfg, s, events, ReceiverActs(Reply(Init, false, false)));
    events := Step(cfg, s, events, SenderHears);
  }
}
