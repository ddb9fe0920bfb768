/** zmrx.c: receiving one file, and the session around it.  Every answer that goes out and every byte that
    is written is a step the receiver of Peers may take for what has arrived. */
module Zmrx {
  import opened Peers
  import opened Bytes

  /** What arrives: something the sender put on the line, perhaps damaged; silence; or the end of the line. */
  datatype Arrival = Item(m: Down) | Silent | Dead

  /** The result of rx_header: a header, none in time, or the end of the line. */
  datatype Header = Head(m: Down) | NoHeader | HeaderDead

  /** The result of rx_data: a whole subpacket, something else, nothing in time, or the end of the line. */
  datatype Data = Whole(bytes: File, t: End) | Bad(m: Down) | NoData | Terminal

  /** What file policy makes of an offer. */
  datatype Choice = Overwrite | Resume | Decline

  /** How receive_file_data ends: at ZEOF, with ZFERR, or with any other result. */
  datatype Ending = AtEof | FileError | Failure

  /** What has arrived, without the pauses. */
  function Items(script: seq<Arrival>): seq<Down>
    decreases script
  {
    if script == [] then [] else (if script[0].Item? then [script[0].m] else []) + Items(script[1..])
  }

  lemma {:induction false} ItemsSplit(script: seq<Arrival>, n: nat)
    requires n <= |script|
    ensures Items(script) == Items(script[..n]) + Items(script[n..])
    decreases n
  {
    if n == 0 {
      assert script[0..] == script && Items(script[..0]) == [];
    } else {
      ItemsSplit(script[1..], n - 1);
      assert script[..n][1..] == script[1..][..n - 1] && script[n..] == script[1..][n - 1..];
    }
  }

  predicate IsHeader(m: Down) {
    !m.Sub? && !m.Noise?
  }

  /** A line on which nothing goes wrong: frames that start at the committed length, subpackets that fit,
      and ZEOF at the end of them. */
  predicate Undisturbed(script: seq<Arrival>, pos: nat, inFrame: bool)
    decreases script
  {
    script != [] &&
    match script[0]
    case Item(Data(p)) => !inFrame && p == pos && Undisturbed(script[1..], pos, true)
    case Item(Eof(p)) => !inFrame && p == pos
    case Item(Sub(b, t)) =>
      inFrame && |b| <= ZMAXSPLEN && pos + |b| < POSITIONS && Undisturbed(script[1..], pos + |b|, Continues(t))
    case _ => false
  }

  /** The bytes of the subpackets in front of the first ZEOF. */
  function Payload(script: seq<Arrival>): File
    decreases script
  {
    if script == [] || (script[0].Item? && script[0].m.Eof?) then []
    else (if script[0].Item? && script[0].m.Sub? then script[0].m.bytes else []) + Payload(script[1..])
  }

  // ---------- What comes of a line ----------

  /** What comes of receiving a file: the bytes to come, and the line behind them; or failure. */
  datatype Gain = All(bytes: File, rest: seq<Arrival>, purges: seq<nat>) | Fails

  /** Behind some bytes that have come already. */
  function Behind(bytes: File, gain: Gain): Gain {
    if gain.All? then gain.(bytes := bytes + gain.bytes) else Fails
  }

  lemma BehindBoth(a: File, b: File, gain: Gain)
    ensures Behind(a + b, gain) == Behind(a, Behind(b, gain))
  {
    if gain.All? {
      assert a + b + gain.bytes == a + (b + gain.bytes);
    }
  }

  lemma BehindFails(bytes: File)
    ensures Behind(bytes, Fails) == Fails
  {}

  /** What a purge leaves: how much it throws away is up to the line. */
  function Purged(script: seq<Arrival>, purges: seq<nat>): (r: seq<Arrival>)
    ensures |r| <= |script|
  {
    if purges == [] then script else if purges[0] <= |script| then script[purges[0]..] else []
  }

  function Later(purges: seq<nat>): seq<nat> {
    if purges == [] then [] else purges[1..]
  }

  /** What comes of a line when what is sent back goes out and the disk takes everything.  Between frames,
      what is no header goes by, ZDATA at the committed length opens a frame, ZEOF there ends the file, and a
      ZFILE again takes one more thing off the line.  In a frame, each subpacket that fits is kept, and
      forgives all faults so far.  A timeout, ZDATA at another position, and anything else in a frame are
      faults; MAX_RETRIES of them are too many. */
  function Fate(script: seq<Arrival>, purges: seq<nat>, pos: nat, faults: nat, inFrame: bool): Gain
    decreases |script|
  {
    if faults >= MAX_RETRIES || script == [] || script[0].Dead? then Fails
    else
      var rest := script[1..];
      match script[0]
      case Silent =>
        if inFrame then Fate(Purged(rest, purges), Later(purges), pos, faults + 1, false)
        else Fate(rest, purges, pos, faults + 1, false)
      case Item(m) =>
        if inFrame then
          if !m.Sub? || |m.bytes| > ZMAXSPLEN then Fate(Purged(rest, purges), Later(purges), pos, faults + 1, false)
          else if pos + |m.bytes| >= POSITIONS then Fails
          else Behind(m.bytes, Fate(rest, purges, pos + |m.bytes|, 0, Continues(m.t)))
        else if !IsHeader(m) then Fate(rest, purges, pos, faults, false)
        else
          match m
          case Data(p) =>
            if p == pos then Fate(rest, purges, pos, faults, true)
            else Fate(Purged(rest, purges), Later(purges), pos, faults + 1, false)
          case Eof(p) => if p == pos then All([], rest, purges) else Fate(rest, purges, pos, faults, false)
          case Offer => if rest == [] || rest[0].Dead? then Fails else Fate(rest[1..], purges, pos, faults, false)
          case _ => Fails
  }

  /** Fate in a frame, one thing at a time. */
  lemma FateInFrame(script: seq<Arrival>, purges: seq<nat>, pos: nat, faults: nat)
    requires script != [] && faults < MAX_RETRIES
    ensures var fate, rest := Fate(script, purges, pos, faults, true), script[1..];
            match script[0]
            case Dead => fate.Fails?
            case Silent => fate == Fate(Purged(rest, purges), Later(purges), pos, faults + 1, false)
            case Item(m) =>
              if !m.Sub? || |m.bytes| > ZMAXSPLEN then
                fate == Fate(Purged(rest, purges), Later(purges), pos, faults + 1, false)
              else if pos + |m.bytes| >= POSITIONS then fate.Fails?
              else fate == Behind(m.bytes, Fate(rest, purges, pos + |m.bytes|, 0, Continues(m.t)))
  {}

  /** Fate at a header. */
  lemma FateOfHeader(m: Down, rest: seq<Arrival>, purges: seq<nat>, pos: nat, faults: nat)
    requires IsHeader(m) && faults < MAX_RETRIES
    ensures var fate := Fate([Item(m)] + rest, purges, pos, faults, false);
            match m
            case Data(p) =>
              if p == pos then fate == Fate(rest, purges, pos, faults, true)
              else fate == Fate(Purged(rest, purges), Later(purges), pos, faults + 1, false)
            case Eof(p) =>
              if p == pos then fate == All([], rest, purges) else fate == Fate(rest, purges, pos, faults, false)
            case Offer =>
              if rest == [] || rest[0].Dead? then fate.Fails? else fate == Fate(rest[1..], purges, pos, faults, false)
            case _ => fate.Fails?
  {
    assert ([Item(m)] + rest)[1..] == rest;
  }

  /** Fate between frames, when no header comes. */
  lemma FateOfTheRest(script: seq<Arrival>, purges: seq<nat>, pos: nat, faults: nat)
    requires faults < MAX_RETRIES
    ensures var fate := Fate(script, purges, pos, faults, false);
            if script == [] || script[0].Dead? then fate.Fails? && Fate([], purges, pos, faults + 1, false).Fails?
            else script[0].Silent? ==> fate == Fate(script[1..], purges, pos, faults + 1, false)
  {}

  lemma NoMore(purges: seq<nat>, pos: nat, faults: nat, inFrame: bool)
    ensures Fate([], purges, pos, faults, inFrame).Fails?
    ensures Purged([], purges) == []
  {}

  lemma TooMany(script: seq<Arrival>, purges: seq<nat>, pos: nat, faults: nat, inFrame: bool)
    requires faults >= MAX_RETRIES
    ensures Fate(script, purges, pos, faults, inFrame).Fails?
  {}

  /** What goes by while a header is looked for. */
  function AtHeader(script: seq<Arrival>): (r: seq<Arrival>)
    ensures |r| <= |script| && (r != [] && r[0].Item? ==> IsHeader(r[0].m))
    decreases script
  {
    if script != [] && script[0].Item? && !IsHeader(script[0].m) then AtHeader(script[1..]) else script
  }

  lemma {:induction false} FateAtHeader(script: seq<Arrival>, purges: seq<nat>, pos: nat, faults: nat)
    ensures Fate(AtHeader(script), purges, pos, faults, false) == Fate(script, purges, pos, faults, false)
    decreases script
  {
    if script != [] && script[0].Item? && !IsHeader(script[0].m) {
      FateAtHeader(script[1..], purges, pos, faults);
    }
  }

  /** A line on which nothing goes wrong delivers the bytes of its subpackets. */
  lemma {:induction false} UndisturbedArrives(script: seq<Arrival>, purges: seq<nat>, pos: nat, faults: nat,
                                              inFrame: bool)
    requires Undisturbed(script, pos, inFrame) && faults < MAX_RETRIES
    ensures var fate := Fate(script, purges, pos, faults, inFrame); fate.All? && fate.bytes == Payload(script)
    decreases script
  {
    match script[0]
    case Item(Data(_)) => UndisturbedArrives(script[1..], purges, pos, faults, true);
    case Item(Sub(b, t)) => UndisturbedArrives(script[1..], purges, pos + |b|, 0, Continues(t));
    case Item(Eof(_)) =>
  }

  /** Fewer faults before change nothing for the worse. */
  lemma {:induction false} FewerFaults(script: seq<Arrival>, purges: seq<nat>, pos: nat, faults: nat, fewer: nat,
                                       inFrame: bool)
    requires fewer <= faults && Fate(script, purges, pos, faults, inFrame).All?
    ensures Fate(script, purges, pos, fewer, inFrame) == Fate(script, purges, pos, faults, inFrame)
    decreases |script|
  {
    var rest := script[1..];
    if script[0].Silent? {
      FewerFaults(if inFrame then Purged(rest, purges) else rest, if inFrame then Later(purges) else purges,
                  pos, faults + 1, fewer + 1, false);
    } else if !inFrame && script[0].m == Offer {
      FewerFaults(rest[1..], purges, pos, faults, fewer, false);
    } else if inFrame && script[0].m.Sub? && |script[0].m.bytes| <= ZMAXSPLEN {
    } else if inFrame || (script[0].m.Data? && script[0].m.pos != pos) {
      FewerFaults(Purged(rest, purges), Later(purges), pos, faults + 1, fewer + 1, false);
    } else if script[0].m != Eof(pos) {
      FewerFaults(rest, purges, pos, faults, fewer, script[0].m.Data?);
    }
  }

  // ---------- The session around a file ----------

  /** What receive_file takes for the information of a file. */
  predicate Acceptable(m: Down) {
    m.Sub? && |m.bytes| <= ZMAXSPLEN && m.t == CrcW && IsFileInfo(m.bytes)
  }

  /** The outcome of waiting for a header that leads on: the header and the line behind it, or none. */
  datatype Sight = Seen(m: Down, rest: seq<Arrival>) | Unseen

  /** A silence, or a ZRQINIT at the first contact, takes up one of the tries; what is no header takes up none. */
  function Sought(script: seq<Arrival>, tries: nat, first: bool): (t: Sight)
    ensures t.Seen? ==> |t.rest| < |script| && IsHeader(t.m)
    decreases script
  {
    if tries == 0 || script == [] || script[0].Dead? then Unseen
    else if script[0].Silent? then Sought(script[1..], tries - 1, first)
    else if !IsHeader(script[0].m) then Sought(script[1..], tries, first)
    else if first && script[0].m == Rqinit then Sought(script[1..], tries - 1, first)
    else Seen(script[0].m, script[1..])
  }

  /** How many tries are taken up in front of that header. */
  function Pauses(script: seq<Arrival>, tries: nat, first: bool): nat
    decreases script
  {
    if tries == 0 || script == [] || script[0].Dead? then 0
    else if script[0].Silent? then 1 + Pauses(script[1..], tries - 1, first)
    else if !IsHeader(script[0].m) then Pauses(script[1..], tries, first)
    else if first && script[0].m == Rqinit then 1 + Pauses(script[1..], tries - 1, first)
    else 0
  }

  /** Whether the session is closed by ZFIN, behind its file; another ZFILE is beyond a session of one file. */
  function Closing(t: Sight): bool
    decreases if t.Seen? then |t.rest| + 1 else 0
  {
    t.Seen? && (t.m.Fin? || (!t.m.Offer? && Closing(Sought(t.rest, MAX_RETRIES, false))))
  }

  /** What comes of a session: the file, if one arrives, and whether ZFIN closes it. */
  datatype Course = Arrived(file: File, closed: bool) | NotArrived(closed: bool)

  /** What comes of a session, from a header on, when what is sent back goes out and the disk takes everything.
      ZFIN ends it.  ZFILE brings a file, if its information is whole and it is not declined.  Any other header
      is answered, and the next one is waited for. */
  function Proceeds(t: Sight, purges: seq<nat>, policy: seq<Choice>, file: File): Course
    decreases if t.Seen? then |t.rest| + 1 else 0
  {
    if t.Unseen? || t.m.Fin? then NotArrived(t.Seen?)
    else if !t.m.Offer? then Proceeds(Sought(t.rest, MAX_RETRIES, false), purges, policy, file)
    else if t.rest == [] || t.rest[0].Dead? then NotArrived(false)
    else
      var next := Sought(t.rest[1..], MAX_RETRIES, false);
      if t.rest[0].Silent? || !Acceptable(t.rest[0].m) then Proceeds(next, purges, policy, file)
      else if policy != [] && policy[0].Decline? then Proceeds(next, purges, policy[1..], file)
      else Receives(t.rest[1..], purges, if policy != [] && policy[0].Resume? then file else [])
  }

  /** What comes of a session whose file has been accepted. */
  function Receives(script: seq<Arrival>, purges: seq<nat>, kept: File): Course {
    if |kept| >= POSITIONS then NotArrived(false)
    else
      var g := Behind(kept, Fate(script, purges, |kept|, 0, false));
      if g.Fails? then NotArrived(false) else Arrived(g.bytes, Closing(Sought(g.rest, MAX_RETRIES, false)))
  }

  lemma {:induction false} SoughtAtHeader(script: seq<Arrival>, tries: nat, first: bool)
    ensures tries > 0 ==> Sought(AtHeader(script), tries, first) == Sought(script, tries, first)
    ensures tries > 0 ==> Pauses(AtHeader(script), tries, first) == Pauses(script, tries, first)
    decreases script
  {
    if script != [] && script[0].Item? && !IsHeader(script[0].m) {
      SoughtAtHeader(script[1..], tries, first);
    }
  }

  /** Silences, and ZRQINITs before the first contact, and what is no header. */
  predicate IsOverture(prefix: seq<Arrival>, first: bool) {
    forall i :: 0 <= i < |prefix| ==>
      prefix[i].Silent? || (prefix[i].Item? && (!IsHeader(prefix[i].m) || (first && prefix[i].m == Rqinit)))
  }

  function Breaks(prefix: seq<Arrival>): nat
    decreases prefix
  {
    if prefix == [] then 0
    else (if prefix[0].Silent? || prefix[0] == Item(Rqinit) then 1 else 0) + Breaks(prefix[1..])
  }

  /** Each of them takes up a try, but nothing else changes. */
  lemma {:induction false} SoughtBehind(prefix: seq<Arrival>, script: seq<Arrival>, tries: nat, first: bool)
    requires IsOverture(prefix, first) && Breaks(prefix) < tries
    ensures Sought(prefix + script, tries, first) == Sought(script, tries - Breaks(prefix), first)
    ensures Pauses(prefix + script, tries, first) == Breaks(prefix) + Pauses(script, tries - Breaks(prefix), first)
    decreases prefix
  {
    if prefix == [] {
      assert prefix + script == script;
    } else {
      assert (prefix + script)[1..] == prefix[1..] + script;
      SoughtBehind(prefix[1..], script, if prefix[0].Silent? || prefix[0] == Item(Rqinit) then tries - 1 else tries,
                   first);
    }
  }

  /** A ZFILE behind fewer than ten ZRQINITs and silences leads to what it would lead to at once. */
  lemma LateOffer(prefix: seq<Arrival>, script: seq<Arrival>, purges: seq<nat>, policy: seq<Choice>, file: File)
    requires IsOverture(prefix, true) && Breaks(prefix) < 10 && script != [] && script[0] == Item(Offer)
    ensures Sought(prefix + script, 10, true) == Seen(Offer, script[1..])
    ensures Pauses(prefix + script, 10, true) == Breaks(prefix)
    ensures Proceeds(Sought(prefix + script, 10, true), purges, policy, file)
         == Proceeds(Seen(Offer, script[1..]), purges, policy, file)
  {
    SoughtBehind(prefix, script, 10, true);
  }

  /** A file that is welcome, on a line on which nothing goes wrong, arrives. */
  lemma WelcomeArrives(info: File, script: seq<Arrival>, purges: seq<nat>, file: File)
    requires IsFileInfo(info) && |info| <= ZMAXSPLEN && Undisturbed(script, 0, false)
    ensures var course := Proceeds(Seen(Offer, [Item(Sub(info, CrcW))] + script), purges, [], file);
            course.Arrived? && course.file == Payload(script)
  {
    hide Fate, Undisturbed, IsFileInfo, Closing;
    assert ([Item(Sub(info, CrcW))] + script)[1..] == script;
    UndisturbedArrives(script, purges, 0, 0, false);
    assert [] + Payload(script) == Payload(script);
  }

  const INVITATION := Peers.Reply(Init, false, false)

  /** Some invitations, nothing else sent, and what was read ignored. */
  predicate Invitations(acts: seq<RxAct>) {
    forall i :: 0 <= i < |acts| ==> acts[i] == INVITATION || acts[i].Ignore?
  }

  function CountInvitations(acts: seq<RxAct>): nat {
    if acts == [] then 0 else CountInvitations(acts[1..]) + if acts[0] == INVITATION then 1 else 0
  }

  class Zmrx {
    const mobyturbo: bool
    const pack7: bool

    var script: seq<Arrival>
    var purges: seq<nat>
    var writes: seq<bool>
    var disk: seq<nat>
    var policy: seq<Choice>

    var file: File
    var extendedZrposSent: bool

    /** What has been read and answered, in order. */
    ghost var acts: seq<RxAct>
    ghost const arrivals: seq<Arrival>
    ghost const initial: Receiver
    ghost var rx: Receiver

    constructor (file: File, mobyturbo: bool, pack7: bool, script: seq<Arrival>, purges: seq<nat>, writes: seq<bool>,
                 disk: seq<nat>, policy: seq<Choice>)
      ensures Valid() && this.file == file && acts == [] && rx == initial == Receiver(Before, file, 0, false, Nothing)
      ensures this.script == script == arrivals
    {
      this.file, this.mobyturbo, this.pack7, this.script, this.purges := file, mobyturbo, pack7, script, purges;
      this.writes, this.disk, this.policy := writes, disk, policy;
      extendedZrposSent := false;
      arrivals := script;
      initial, acts, rx := Receiver(Before, file, 0, false, Nothing), [], Receiver(Before, file, 0, false, Nothing);
    }

    /** All that has been done was allowed; what is on disk is what the steps put there; and what they took
        off the line, with what is still in hand, is what had arrived, item by item. */
    ghost predicate Holding(ms: seq<Down>)
      reads this
    {
      && initial.phase.Before? && initial.owes.Nothing?
      && RxRun(initial, acts) && rx == RxAfter(initial, acts) && file == rx.file
      && Takings(acts) + ms + Items(script) == Items(arrivals)
      && (rx.phase.Hunting? || rx.phase.InFrame? ==> extendedZrposSent == rx.extended && rx.errors < MAX_RETRIES)
    }

    ghost predicate Valid()
      reads this
    {
      Holding([])
    }

    // ---------- Steps ----------

    lemma Recording(a: RxAct)
      requires Holding(Taken(a)) && RxMay(rx, a)
      ensures RxRun(initial, acts + [a]) && RxAfter(initial, acts + [a]) == RxDo(rx, a)
      ensures Takings(acts + [a]) + [] + Items(script) == Items(arrivals)
    {
      hide RxRun, RxAfter, RxMay, RxDo, Taken, Takings;
      RxRunMore(initial, acts, a);
      RxRecordMore(acts, a);
    }

    /** A step, which uses up what is in hand. */
    ghost method Act(a: RxAct)
      requires Holding(Taken(a)) && RxMay(rx, a)
      requires !a.Commit? && !a.Part? && !a.Accept? && !(a.Reply? && a.extended)
      modifies this`acts, this`rx
      ensures Valid() && acts == old(acts) + [a] && rx == RxDo(old(rx), a)
    {
      hide RxRun, RxAfter, Takings, Items;
      Recording(a);
      acts, rx := acts + [a], RxDo(rx, a);
    }

    method Write() returns (ok: bool)
      modifies this`writes
      ensures old(writes) == [] ==> ok && writes == []
    {
      ok := true;
      if writes != [] {
        ok, writes := writes[0], writes[1..];
      }
    }

    /** tx_pos_header and tx_hex_header; a line that fails ends the transfer. */
    method Tx(u: Up) returns (ok: bool)
      requires Valid() && MayReply(rx, u, false, false)
      modifies this`acts, this`rx, this`writes
      ensures Valid()
      ensures ok ==> acts == old(acts) + [Peers.Reply(u, false, false)] && rx == old(rx).(owes := Nothing)
      ensures !ok ==> rx.phase == RxDo(old(rx), Fail).phase && rx.owes.Nothing? && rx.file == old(rx).file
      ensures old(writes) == [] ==> ok && writes == []
    {
      hide RxRun, RxAfter, Takings, Items;
      Act(Peers.Reply(u, false, false));
      ok := Write();
      if !ok {
        Act(Fail);
      }
    }

    /** An answer whose failure to go out is ignored. */
    method TryTx(u: Up)
      requires Valid() && MayReply(rx, u, false, false)
      modifies this`acts, this`rx, this`writes
      ensures Valid() && acts == old(acts) + [Peers.Reply(u, false, false)] && rx == old(rx).(owes := Nothing)
      ensures old(writes) == [] ==> writes == []
    {
      hide RxRun, RxAfter, Takings, Items;
      Act(Peers.Reply(u, false, false));
      var _ := Write();
    }

    /** The transfer fails, and the sender is told. */
    method FailLoudly()
      requires Valid() && !rx.phase.Done?
      modifies this`acts, this`rx, this`writes
      ensures Valid() && rx.phase.Failed? && rx.owes.Nothing? && rx.file == old(rx.file)
      ensures acts == old(acts) + [Fail, Peers.Reply(OtherUp, false, false)]
    {
      hide RxRun, RxAfter, Takings, Items;
      Act(Fail);
      TryTx(OtherUp);
    }

    /** tx_zrpos: the extended form, which asks for MobyTurbo or Pack-7, goes out at most once a file. */
    method TxZrpos(position: nat, ghost counted: bool) returns (ok: bool)
      requires Valid() && position == |rx.file| && MayReply(rx, Rpos(position), counted, false)
      modifies this`acts, this`rx, this`writes, this`extendedZrposSent
      ensures Valid()
      ensures ok ==> && acts == old(acts) +
                               [Peers.Reply(Rpos(position), counted, !old(extendedZrposSent) && (mobyturbo || pack7))]
                     && rx.phase.Hunting? && rx.file == old(rx.file) && rx.owes.Nothing?
                     && rx.errors == old(rx.errors) + (if counted then 1 else 0)
      ensures !ok ==> rx.phase.Failed? && rx.owes.Nothing? && rx.file == old(rx.file)
      ensures old(writes) == [] ==> ok && writes == []
    {
      hide RxRun, RxAfter, Takings, Items;
      var extended := false;
      if !extendedZrposSent {
        extended := mobyturbo || pack7;
      }
      ghost var a := Peers.Reply(Rpos(position), counted, extended);
      Recording(a);
      acts, rx := acts + [a], RxDo(rx, a);
      extendedZrposSent := extendedZrposSent || extended;
      ok := Write();
      if !ok {
        Act(Fail);
      }
    }

    /** What a wait for a header makes of the line, once what is none has gone by. */
    ghost predicate Found(line: seq<Arrival>, reply: Header)
      reads this
    {
      if line == [] then reply.NoHeader? && script == []
      else match line[0]
           case Item(m) => reply == Head(m) && script == line[1..]
           case Silent => reply.NoHeader? && script == line[1..]
           case Dead => reply.HeaderDead?
    }

    /** rx_header: what is no header goes by.  The header is in hand then. */
    method RxHeader() returns (reply: Header)
      requires Valid() && !rx.phase.InFrame?
      modifies this`script, this`acts, this`rx
      ensures rx == old(rx) && old(acts) <= acts && Invitations(acts[|old(acts)|..])
      ensures CountInvitations(acts[|old(acts)|..]) == 0
      ensures if reply.Head? then IsHeader(reply.m) && Holding([reply.m]) else Valid()
      ensures |script| <= |old(script)| && (old(script) != [] ==> |script| < |old(script)|)
      ensures !reply.NoHeader? ==> |script| < |old(script)|
      ensures old(script) != [] && old(script)[0].Item? && IsHeader(old(script)[0].m) ==>
                reply == Head(old(script)[0].m) && script == old(script)[1..] && acts == old(acts)
      ensures Found(AtHeader(old(script)), reply)
    {
      hide RxRun, RxAfter, Takings, Items, IsHeader;
      ghost var ignored: seq<RxAct> := [];
      while script != []
        invariant Valid() && rx == old(rx) && |script| <= |old(script)|
        invariant acts == old(acts) + ignored && Invitations(ignored) && CountInvitations(ignored) == 0
        invariant AtHeader(script) == AtHeader(old(script))
        invariant (script == old(script) && ignored == [])
                  || (|script| < |old(script)| && !(old(script)[0].Item? && IsHeader(old(script)[0].m)))
        decreases |script|
      {
        var arrival := script[0];
        NextItem();
        script := script[1..];
        match arrival {
          case Item(m) =>
            if IsHeader(m) {
              return Head(m);
            }
            Act(Ignore(m));
            IgnoredMore(ignored, Ignore(m));
            ignored := ignored + [Ignore(m)];
          case Silent => return NoHeader;
          case Dead => return HeaderDead;
        }
      }
      reply := NoHeader;
    }

    /** rx_data: anything but a whole subpacket that fits is a failure.  What was read is in hand then. */
    method RxData() returns (data: Data)
      requires Valid()
      modifies this`script
      ensures match data
              case Whole(b, t) => |b| <= ZMAXSPLEN && Holding([Sub(b, t)])
              case Bad(m) => Holding([m]) && (m.Sub? ==> |m.bytes| > ZMAXSPLEN)
              case _ => Valid()
      ensures old(script) == [] ==> data.NoData? && script == []
      ensures old(script) != [] && old(script)[0].Silent? ==> data.NoData? && script == old(script)[1..]
      ensures old(script) != [] && old(script)[0].Dead? ==> data.Terminal?
      ensures |script| <= |old(script)| && (data.Whole? || data.Bad? ==> |script| < |old(script)|)
      ensures old(script) != [] && old(script)[0].Item? ==>
                var m := old(script)[0].m;
                && script == old(script)[1..]
                && data == if m.Sub? && |m.bytes| <= ZMAXSPLEN then Whole(m.bytes, m.t) else Bad(m)
    {
      hide RxRun, RxAfter, Takings, Items;
      if script == [] {
        return NoData;
      }
      var arrival := script[0];
      NextItem();
      script := script[1..];
      match arrival {
        case Item(m) =>
          data := if m.Sub? && |m.bytes| <= ZMAXSPLEN then Whole(m.bytes, m.t) else Bad(m);
        case Dead =>
          data := Terminal;
        case Silent =>
          data := NoData;
      }
    }

    /** rx_purge throws away some of what has arrived. */
    method RxPurge()
      requires Valid() && !rx.phase.InFrame?
      modifies this`script, this`purges, this`acts, this`rx
      ensures Valid() && rx == old(rx) && |script| <= |old(script)|
      ensures exists ms :: acts == old(acts) + [Purge(ms)]
      ensures script == Purged(old(script), old(purges)) && purges == Later(old(purges))
    {
      hide RxRun, RxAfter, Takings, Items;
      var n := 0;
      if purges != [] {
        n, purges := if purges[0] <= |script| then purges[0] else |script|, purges[1..];
      }
      ItemsSplit(script, n);
      assert script[0..] == script;
      ghost var ms := Items(script[..n]);
      script := script[n..];
      Act(Purge(ms));
    }

    // ---------- receive_file_data ----------

    /** A recovery request that counts, or the end of the retries. */
    method Recover(pos: nat, errors: nat) returns (ok: bool, errors': nat)
      requires Valid() && rx.phase.Hunting? && pos == |rx.file| && errors == rx.errors < MAX_RETRIES
      requires rx.owes.Nothing? || rx.owes == Request(true)
      modifies this`acts, this`rx, this`writes, this`extendedZrposSent
      ensures Valid() && rx.file == old(rx.file) && rx.owes.Nothing?
      ensures errors' == errors + 1
      ensures ok ==> rx.phase.Hunting? && errors' == rx.errors < MAX_RETRIES
      ensures !ok ==> rx.phase.Failed?
      ensures old(writes) == [] ==> writes == [] && (ok <==> errors' < MAX_RETRIES)
    {
      hide RxRun, RxAfter, Takings, Items;
      errors' := errors + 1;
      if errors' >= MAX_RETRIES {
        Act(Fail);
        return false, errors';
      }
      ok := TxZrpos(pos, true);
    }

    /** A whole subpacket, all of it on disk. */
    method Store(bytes: File, t: End)
      requires Holding([Sub(bytes, t)]) && MayCommit(rx, bytes)
      modifies this`acts, this`rx, this`file
      ensures Valid() && rx == RxDo(old(rx), Commit(bytes, t)) && acts == old(acts) + [Commit(bytes, t)]
    {
      hide RxRun, RxAfter, Takings, Items;
      file := file + bytes;
      StoreRecording(Commit(bytes, t));
      acts, rx := acts + [Commit(bytes, t)], RxDo(rx, Commit(bytes, t));
    }

    lemma StoreRecording(a: RxAct)
      requires initial.phase.Before? && RxRun(initial, acts) && rx == RxAfter(initial, acts) && RxMay(rx, a)
      requires Takings(acts) + Taken(a) + Items(script) == Items(arrivals)
      ensures RxRun(initial, acts + [a]) && RxAfter(initial, acts + [a]) == RxDo(rx, a)
      ensures Takings(acts + [a]) + [] + Items(script) == Items(arrivals)
    {
      hide RxRun, RxAfter, RxMay, RxDo, Taken, Takings;
      RxRunMore(initial, acts, a);
      RxRecordMore(acts, a);
    }

    /** The disk takes only a part of a subpacket: it is not committed, and the transfer is over. */
    method StorePart(bytes: File, t: End, count: nat)
      requires Holding([Sub(bytes, t)]) && MayCommit(rx, bytes) && count < |bytes|
      modifies this`acts, this`rx, this`file
      ensures Valid() && rx == RxDo(old(rx), Part(bytes, t, count)) && acts == old(acts) + [Part(bytes, t, count)]
    {
      hide RxRun, RxAfter, Takings, Items;
      file := file + bytes[..count];
      StoreRecording(Part(bytes, t, count));
      acts, rx := acts + [Part(bytes, t, count)], RxDo(rx, Part(bytes, t, count));
    }

    /** A whole subpacket goes to the file, and is acknowledged if it asks for that. */
    method CommitData(bytes: File, t: End, pos: nat) returns (ok: bool, pos': nat)
      requires Holding([Sub(bytes, t)]) && |bytes| <= ZMAXSPLEN
      requires rx.phase.InFrame? && rx.owes.Nothing? && pos == |rx.file| < POSITIONS
      modifies this`acts, this`rx, this`writes, this`disk, this`file
      ensures Valid()
      ensures ok ==> && rx.file == old(rx.file) + bytes && rx.errors == 0 && pos' == |rx.file| < POSITIONS
                     && rx.phase == (if Continues(t) then InFrame else Hunting) && rx.owes.Nothing?
                     && acts == old(acts) + [Commit(bytes, t)]
                                + if t == CrcQ || t == CrcW then [Peers.Reply(Ack(pos'), false, false)] else []
      ensures old(writes) == [] && old(disk) == [] && pos + |bytes| < POSITIONS ==> ok && writes == [] && disk == []
      ensures !ok ==> rx.phase.Failed? && rx.owes.Nothing?
    {
      hide RxRun, RxAfter, Takings, Items;
      ok, pos' := false, pos;
      if pos + |bytes| >= POSITIONS {
        Act(Spoil(Sub(bytes, t)));
        FailLoudly();
        return;
      }
      if disk != [] {
        var written := disk[0];
        disk := disk[1..];
        if written < |bytes| {
          StorePart(bytes, t, written);
          FailLoudly();
          return;
        }
      }
      Store(bytes, t);
      pos' := pos + |bytes|;
      ok := true;
      if t == CrcQ || t == CrcW {
        ok := Tx(Ack(pos'));
      }
    }

    /** The line and the disk work from here on. */
    predicate Healthy()
      reads this
    {
      writes == [] && disk == []
    }

    /** Between two frames, with nothing left to answer. */
    ghost predicate Settled(pos: nat, errors: nat)
      reads this
    {
      Valid() && rx.phase.Hunting? && rx.owes.Nothing? && pos == |rx.file| < POSITIONS
        && errors == rx.errors < MAX_RETRIES
    }

    /** The file as it will be, if the line and the disk work from here on. */
    ghost function Coming(line: seq<Arrival>, pos: nat, errors: nat, inFrame: bool): Gain
      reads this
    {
      Behind(rx.file, Fate(line, purges, pos, errors, inFrame))
    }

    /** A fault: what was read is given up, a purge, and a recovery request. */
    method Fault(ghost a: RxAct, pos: nat, errors: nat) returns (ok: bool, errors': nat)
      requires Holding(Taken(a)) && RxMay(rx, a) && (a.Spoil? || a.Lapse? || a.Refuse?)
      requires pos == |rx.file| < POSITIONS && errors == rx.errors < MAX_RETRIES
      modifies this`acts, this`rx, this`script, this`purges, this`writes, this`extendedZrposSent
      ensures Valid() && |script| <= |old(script)| && rx.file == old(rx.file) && rx.owes.Nothing?
      ensures if ok then Settled(pos, errors') else rx.phase.Failed?
      ensures old(Healthy()) ==>
                var g := Behind(rx.file, Fate(Purged(old(script), old(purges)), Later(old(purges)), pos,
                                              errors + 1, false));
                if ok then Healthy() && Coming(script, pos, errors', false) == g else g.Fails?
    {
      hide RxRun, RxAfter, Takings, Items, Fate;
      Act(a);
      RxPurge();
      ok, errors' := Recover(pos, errors);
      if errors' >= MAX_RETRIES {
        TooMany(script, purges, pos, errors', false);
      }
    }

    /** One turn of the inner loop of receive_file_data: a subpacket, or a fault. */
    method ReceivePacket(pos: nat, errors: nat) returns (ok: bool, more: bool, pos': nat, errors': nat, ending: Ending)
      requires Valid() && rx.phase.InFrame? && rx.owes.Nothing? && pos == |rx.file| < POSITIONS && errors == rx.errors
      modifies this`acts, this`rx, this`script, this`purges, this`writes, this`disk, this`file, this`extendedZrposSent
      ensures Valid() && |script| <= |old(script)| && rx.owes.Nothing? && !ending.AtEof?
      ensures ok ==> pos' == |rx.file| < POSITIONS && errors' == rx.errors < MAX_RETRIES
      ensures if ok then rx.phase == (if more then InFrame else Hunting) else rx.phase.Failed? && !more
      ensures more ==> |script| < |old(script)|
      ensures old(Healthy()) ==>
                var g := old(Coming(script, pos, errors, true));
                if ok then Healthy() && Coming(script, pos', errors', more) == g else g.Fails?
    {
      BehindFails(rx.file);
      hide RxRun, RxAfter, MayReply, Takings, Items, Fate, Behind, Purged, Later;
      ok, more, pos', errors', ending := false, false, pos, errors, Failure;
      if script == [] {
        NoMore(purges, pos, errors, true);
        NoMore(Later(purges), pos, errors + 1, false);
      } else {
        FateInFrame(script, purges, pos, errors);
      }
      var data := RxData();
      if data.Terminal? {
        Act(Fail);
      } else if !data.Whole? {
        ok, errors' := Fault(if data.Bad? then Spoil(data.m) else Lapse, pos, errors);
      } else {
        ok, pos' := KeepPacket(data.bytes, data.t, pos);
        ending, errors', more := FileError, 0, ok && Continues(data.t);
      }
    }

    /** A whole subpacket, kept. */
    method KeepPacket(bytes: File, t: End, pos: nat) returns (ok: bool, pos': nat)
      requires Holding([Sub(bytes, t)]) && |bytes| <= ZMAXSPLEN
      requires rx.phase.InFrame? && rx.owes.Nothing? && pos == |rx.file| < POSITIONS
      modifies this`acts, this`rx, this`writes, this`disk, this`file
      ensures Valid() && rx.owes.Nothing? && (!ok ==> rx.phase.Failed?)
      ensures ok ==> pos' == |rx.file| < POSITIONS && rx.errors == 0
      ensures ok ==> rx.phase == if Continues(t) then InFrame else Hunting
      ensures old(Healthy()) ==>
                var more := if pos + |bytes| >= POSITIONS then Fails
                            else Behind(bytes, Fate(script, purges, pos + |bytes|, 0, Continues(t)));
                var g := Behind(old(rx).file, more);
                if ok then Healthy() && Coming(script, pos', 0, Continues(t)) == g else g.Fails?
    {
      BehindFails(rx.file);
      hide RxRun, RxAfter, MayReply, Takings, Items, Fate, Behind;
      BehindBoth(rx.file, bytes, Fate(script, purges, pos + |bytes|, 0, Continues(t)));
      ok, pos' := CommitData(bytes, t, pos);
    }

    /** The inner loop of receive_file_data: one frame. */
    method ReceiveFrame(pos: nat, errors: nat) returns (ok: bool, pos': nat, errors': nat, ending: Ending)
      requires Valid() && rx.phase.InFrame? && rx.owes.Nothing? && pos == |rx.file| < POSITIONS && errors == rx.errors
      modifies this`acts, this`rx, this`script, this`purges, this`writes, this`disk, this`file, this`extendedZrposSent
      ensures Valid() && |script| <= |old(script)|
      ensures ok ==> Settled(pos', errors')
      ensures !ok ==> rx.phase.Failed? && rx.owes.Nothing? && !ending.AtEof?
      ensures old(Healthy()) ==>
                var g := old(Coming(script, pos, errors, true));
                if ok then Healthy() && Coming(script, pos', errors', false) == g else g.Fails?
    {
      hide RxRun, RxAfter, Takings, Items, Fate;
      ok, pos', errors', ending := true, pos, errors, Failure;
      var more := true;
      while more
        invariant Valid() && |script| <= |old(script)| && rx.owes.Nothing? && !ending.AtEof?
        invariant ok ==> pos' == |rx.file| < POSITIONS && errors' == rx.errors < MAX_RETRIES
        invariant if ok then rx.phase == (if more then InFrame else Hunting) else rx.phase.Failed? && !more
        invariant old(Healthy()) ==>
                    var g := old(Coming(script, pos, errors, true));
                    if ok then Healthy() && Coming(script, pos', errors', more) == g else g.Fails?
        decreases more, |script|
      {
        ok, more, pos', errors', ending := ReceivePacket(pos', errors');
      }
    }

    lemma OwedInitially()
      requires rx.phase.Hunting? && rx.owes == Request(false)
      ensures MayReply(rx, Rpos(|rx.file|), false, false)
    {}

    /** ZFILE again: its information is read and not used, and the position is named again. */
    method OfferedAgain(pos: nat) returns (ok: bool, ending: Ending)
      requires Holding([Offer]) && rx.phase.Hunting? && rx.owes.Nothing? && pos == |rx.file| && rx.errors < MAX_RETRIES
      modifies this`acts, this`rx, this`script, this`writes, this`extendedZrposSent
      ensures Valid() && |script| <= |old(script)| && rx.file == old(rx.file) && rx.owes.Nothing? && !ending.AtEof?
      ensures if ok then rx.phase.Hunting? && rx.errors == old(rx.errors) else rx.phase.Failed?
      ensures old(writes) == [] ==> writes == [] && (ok <==> old(script) == [] || !old(script)[0].Dead?)
      ensures old(writes) == [] && ok ==> script == if old(script) == [] then [] else old(script)[1..]
    {
      hide RxRun, RxAfter, Takings, Items;
      Act(Reoffer);
      var data := RxData();
      if data.Terminal? {
        Act(Fail);
        return false, Failure;
      }
      if data.Whole? {
        Act(Ignore(Sub(data.bytes, data.t)));
      } else if data.Bad? {
        Act(Ignore(data.m));
      }
      ending := FileError;
      ok := TxZrpos(pos, false);
    }

    /** What receive_file_data does with a header: ok if it goes on. */
    method Dispatch(m: Down, pos: nat, errors: nat) returns (ok: bool, pos': nat, errors': nat, ending: Ending)
      requires Holding([m]) && IsHeader(m)
      requires rx.phase.Hunting? && rx.owes.Nothing? && pos == |rx.file| < POSITIONS
               && errors == rx.errors < MAX_RETRIES
      modifies this`acts, this`rx, this`script, this`purges, this`writes, this`disk, this`file, this`extendedZrposSent
      ensures Valid() && |script| <= |old(script)|
      ensures ok ==> Settled(pos', errors')
      ensures !ok ==> rx.phase == (if ending.AtEof? then Done else Failed) && rx.owes.Nothing?
      ensures m == Eof(pos) <==> !ok && ending.AtEof?
      ensures m == Eof(pos) ==> rx.file == old(rx.file)
      ensures old(Healthy()) ==>
                var g := old(Coming([Item(m)] + script, pos, errors, false));
                if ok then Healthy() && Coming(script, pos', errors', false) == g
                else if ending.AtEof? then Healthy() && g == All(rx.file, script, purges) else g.Fails?
    {
      hide RxRun, RxAfter, Takings, Items, Fate;
      FateOfHeader(m, script, purges, pos, errors);
      NoMore(purges, pos, errors, false);
      ok, pos', errors', ending := true, pos, errors, Failure;
      if m.Eof? {
        if m.pos == pos {
          Act(Finish(m.pos));
          return false, pos', errors', AtEof;
        }
        Act(Ignore(m));
      } else if m.Offer? {
        ok, ending := OfferedAgain(pos);
      } else if m.Data? {
        if m.pos != pos {
          ok, errors' := Fault(Refuse(m.pos), pos, errors);
        } else {
          Act(Enter(m.pos));
          ok, pos', errors', ending := ReceiveFrame(pos, errors);
        }
      } else {
        Act(Ignore(m));
        Act(Fail);
        return false, pos', errors', ending;
      }
    }

    /** One turn of the outer loop of receive_file_data: a header, and what it leads to, or none in time. */
    method ReceiveHeader(pos: nat, errors: nat) returns (ok: bool, pos': nat, errors': nat, ending: Ending)
      requires Settled(pos, errors)
      modifies this`acts, this`rx, this`script, this`purges, this`writes, this`disk, this`file, this`extendedZrposSent
      ensures Valid() && |script| <= |old(script)| && (ok && |script| == |old(script)| ==> errors' > errors)
      ensures if ok then Settled(pos', errors')
              else rx.phase == (if ending.AtEof? then Done else Failed) && rx.owes.Nothing?
      ensures old(Healthy()) ==>
                var g := old(Coming(script, pos, errors, false));
                if ok then Healthy() && Coming(script, pos', errors', false) == g
                else if ending.AtEof? then Healthy() && g == All(rx.file, script, purges) else g.Fails?
    {
      hide RxRun, RxAfter, MayReply, Takings, Items, Fate;
      ok, pos', errors', ending := false, pos, errors, Failure;
      ghost var line := AtHeader(script);
      FateAtHeader(script, purges, pos, errors);
      FateOfTheRest(line, purges, pos, errors);
      TooMany(if line == [] then [] else line[1..], purges, pos, MAX_RETRIES, false);
      var reply := RxHeader();
      match reply {
        case HeaderDead => Act(Fail);
        case NoHeader => ok, errors' := Recover(pos, errors);
        case Head(m) =>
          assert line == [Item(m)] + script;
          ok, pos', errors', ending := Dispatch(m, pos, errors);
      }
    }

    /** receive_file_data: to the ZEOF that names the committed length, or until something goes wrong.  On
        a line and a disk that work, what comes of it is exactly what Fate says, faults and recoveries included. */
    method ReceiveFileData() returns (ending: Ending)
      requires Valid() && rx.phase.Hunting? && rx.errors == 0 && rx.owes == Request(false)
      modifies this`acts, this`rx, this`script, this`purges, this`writes, this`disk, this`file, this`extendedZrposSent
      ensures Valid() && |script| <= |old(script)| && rx.owes.Nothing?
      ensures rx.phase == if ending.AtEof? then Done else Failed
      ensures |old(file)| >= POSITIONS ==> !ending.AtEof?
      ensures old(Healthy()) && |old(file)| < POSITIONS ==>
                var g := old(Behind(file, Fate(script, purges, |file|, 0, false)));
                if ending.AtEof? then Healthy() && g == All(file, script, purges) else g.Fails?
    {
      hide RxRun, RxAfter, MayReply, Takings, Items, Fate;
      ending := FileError;
      var errors := 0;
      var pos: nat := |file|;
      if pos >= POSITIONS {
        FailLoudly();
        return;
      }
      OwedInitially();
      var ok := TxZrpos(pos, false);
      while ok
        invariant Valid() && |script| <= |old(script)|
        invariant if ok then Settled(pos, errors)
                  else rx.phase == (if ending.AtEof? then Done else Failed) && rx.owes.Nothing?
        invariant old(Healthy()) ==>
                    var g := old(Behind(file, Fate(script, purges, |file|, 0, false)));
                    if ok then Healthy() && Coming(script, pos, errors, false) == g
                    else if ending.AtEof? then Healthy() && g == All(rx.file, script, purges) else g.Fails?
        decreases ok, |script|, MAX_RETRIES - errors
      {
        ok, pos, errors, ending := ReceiveHeader(pos, errors);
      }
    }

    // ---------- The session ----------

    /** tx_zrinit: an invitation goes out only before the file has been accepted, or when all of it is there. */
    method TxZrinit() returns (ok: bool)
      requires Valid() && (rx.phase.Before? || rx.phase.Done?) && rx.owes.Nothing?
      modifies this`acts, this`rx, this`writes
      ensures Valid() && rx.owes.Nothing? && rx.file == old(rx).file && (old(rx).phase.Done? <==> rx.phase.Done?)
      ensures ok ==> rx == old(rx) && acts == old(acts) + [INVITATION]
      ensures old(writes) == [] ==> ok && writes == []
    {
      ok := Tx(Init);
    }

    /** Before a file is accepted, or when all of it is there, and nothing is left to answer. */
    ghost predicate Idle(delivered: bool)
      reads this
    {
      rx.owes.Nothing? && rx.phase == if delivered then Done else Before
    }

    /** One invitation, if there is to be one, and the wait for a header. */
    method InviteAndListen(invite: bool, ghost delivered: bool) returns (reply: Header)
      requires Valid() && Idle(delivered)
      modifies this`acts, this`rx, this`writes, this`script
      ensures |script| <= |old(script)| && (reply.Head? ==> |script| < |old(script)|)
      ensures if reply.Head? then IsHeader(reply.m) && Holding([reply.m]) else Valid()
      ensures rx.owes.Nothing? && rx.file == old(rx).file && (delivered <==> rx.phase.Done?)
      ensures old(writes) == [] ==> writes == [] && Found(AtHeader(old(script)), reply)
      ensures !reply.HeaderDead? ==>
                && rx == old(rx) && old(acts) <= acts && Invitations(acts[|old(acts)|..])
                && CountInvitations(acts[|old(acts)|..]) == if invite then 1 else 0
    {
      hide RxRun, RxAfter, Takings, Items;
      if invite {
        var ok := TxZrinit();
        if !ok {
          return HeaderDead;
        }
      }
      ghost var sent := acts[|old(acts)|..];
      reply := RxHeader();
      assert acts[|old(acts)|..] == sent + acts[|old(acts)| + |sent|..];
      CountSplit(sent, acts[|old(acts)| + |sent|..]);
    }

    /** What one try does to the wait for a header: it is found, or the line is dead, or a try is used up. */
    ghost predicate Tried(line: seq<Arrival>, tries: nat, first: bool, reply: Header)
      requires tries > 0
      reads this
    {
      var sight := Sought(line, tries, first);
      match reply
      case Head(m) => sight == Seen(m, script) && Pauses(line, tries, first) == 0
      case HeaderDead => sight.Unseen?
      case NoHeader =>
        && sight == Sought(script, tries - 1, first)
        && (sight.Seen? ==> Pauses(line, tries, first) == 1 + Pauses(script, tries - 1, first))
    }

    lemma TryAtHeader(line: seq<Arrival>, tries: nat, first: bool, reply: Header)
      requires tries > 0 && Found(AtHeader(line), reply)
      ensures Tried(line, tries, first, if first && reply == Head(Rqinit) then NoHeader else reply)
    {
      hide AtHeader;
      SoughtAtHeader(line, tries, first);
    }

    /** One ZRINIT of the first contact; a ZRQINIT that arrives then is passed over. */
    method InviteOnce(ghost tries: nat) returns (reply: Header)
      requires Valid() && Idle(false) && tries > 0
      modifies this`acts, this`rx, this`writes, this`script
      ensures |script| <= |old(script)| && rx.owes.Nothing? && rx.file == old(rx).file && !rx.phase.Done?
      ensures if reply.Head? then IsHeader(reply.m) && reply.m != Rqinit && Holding([reply.m]) else Valid()
      ensures reply.Head? ==> |script| < |old(script)|
      ensures old(writes) == [] ==> writes == [] && Tried(old(script), tries, true, reply)
      ensures !reply.HeaderDead? ==>
                && rx == old(rx) && old(acts) <= acts && Invitations(acts[|old(acts)|..])
                && CountInvitations(acts[|old(acts)|..]) == 1
    {
      hide RxRun, RxAfter, Takings, Items, Invitations, CountInvitations, Sought, Pauses, AtHeader;
      reply := InviteAndListen(true, false);
      if old(writes) == [] {
        TryAtHeader(old(script), tries, true, reply);
      }
      if reply == Head(Rqinit) {
        ghost var sent := acts[|old(acts)|..];
        Act(Ignore(Rqinit));
        IgnoredMore(sent, Ignore(Rqinit));
        assert acts[|old(acts)|..] == sent + [Ignore(Rqinit)];
        reply := NoHeader;
      }
    }

    /** The first contact: ZRINIT, up to ten times, until something other than ZRQINIT arrives. */
    method Establish() returns (reply: Header)
      requires Valid() && Idle(false)
      modifies this`acts, this`rx, this`writes, this`script
      ensures |script| <= |old(script)| && !reply.NoHeader?
      ensures rx.owes.Nothing? && rx.file == old(rx).file && !rx.phase.Done?
      ensures if reply.Head? then IsHeader(reply.m) && Holding([reply.m]) else Valid()
      ensures reply.Head? ==>
                && Idle(false) && |script| < |old(script)| && reply.m != Rqinit
                && old(acts) <= acts && Invitations(acts[|old(acts)|..])
                && 1 <= CountInvitations(acts[|old(acts)|..]) <= 10
      ensures old(writes) == [] ==>
                && writes == []
                && (if reply.Head? then
                      && Sought(old(script), 10, true) == Seen(reply.m, script)
                      && CountInvitations(acts[|old(acts)|..]) == Pauses(old(script), 10, true) + 1
                    else Sought(old(script), 10, true).Unseen?)
    {
      hide RxRun, RxAfter, Takings, Items, IsHeader, Invitations, CountInvitations, Sought, Pauses;
      reply := NoHeader;
      ghost var sent: seq<RxAct> := [];
      NoInvitations();
      NoTries(true);
      var i := 0;
      while i < 10
        invariant Valid() && rx == old(rx) && |script| <= |old(script)|
        invariant acts == old(acts) + sent && Invitations(sent) && CountInvitations(sent) == i <= 10
        invariant old(writes) == [] ==>
                    && writes == [] && Sought(old(script), 10, true) == Sought(script, 10 - i, true)
                    && (Sought(old(script), 10, true).Seen? ==>
                          Pauses(old(script), 10, true) == i + Pauses(script, 10 - i, true))
      {
        ghost var before := acts;
        reply := InviteOnce(10 - i);
        i := i + 1;
        if reply.HeaderDead? {
          return;
        }
        CountSplit(sent, acts[|before|..]);
        sent := sent + acts[|before|..];
        assert acts[|old(acts)|..] == sent;
        if reply.Head? {
          return;
        }
      }
      NoTries(true);
      reply := HeaderDead;
    }

    lemma NoTries(first: bool)
      ensures Sought(script, 0, first).Unseen? && Pauses(script, 0, first) == 0
    {}

    /** receive_file.  What is no file information is answered by ZNAK, a file that is declined by ZSKIP, and
        nothing by nothing; a file that is accepted is received to its end, or the session is over.  On
        a line and a disk that work, what comes of it is what Fate says. */
    method ReceiveFile() returns (ok: bool, invite: bool)
      requires Valid() && Idle(false)
      modifies this`acts, this`rx, this`script, this`purges, this`writes
      modifies this`disk, this`file, this`extendedZrposSent, this`policy
      ensures Valid() && |script| <= |old(script)|
      ensures rx.owes.Nothing? && (ok ==> Idle(invite)) && (!ok ==> !invite && !rx.phase.Done?)
      ensures old(script) == [] || old(script)[0].Silent? ==> ok && !invite && acts == old(acts)
      ensures old(script) != [] && old(script)[0].Dead? ==> !ok
      ensures old(script) != [] && old(script)[0].Item? ==>
                var m := old(script)[0].m;
                if !Acceptable(m) then
                  ok && !invite && acts == old(acts) + [Ignore(m), Peers.Reply(Nak, false, false)]
                else if old(policy) != [] && old(policy)[0].Decline? then
                  ok && !invite && acts == old(acts) + [Ignore(m), Peers.Reply(Skip, false, false)]
                else
                  (ok <==> invite) && (!ok ==> rx.phase.Failed?)
      ensures old(Healthy()) ==>
                (ok ==> Healthy()) && Leads(old(script), old(purges), old(policy), old(file), ok, invite)
    {
      hide RxRun, RxAfter, Takings, Items, IsFileInfo, Fate, Closing, Proceeds, Receives;
      ok, invite := true, false;
      LeadsOn(script, purges, policy, file);
      var data := RxData();
      if data.Terminal? {
        return false, false;
      }
      if data.NoData? {
        return;
      }
      var m := if data.Whole? then Sub(data.bytes, data.t) else data.m;
      if !Acceptable(m) {
        Act(Ignore(m));
        TryTx(Nak);
        return;
      }
      var choice := Overwrite;
      if policy != [] {
        choice, policy := policy[0], policy[1..];
      }
      if choice.Decline? {
        Act(Ignore(m));
        TryTx(Skip);
        return;
      }
      ok := ReceiveAccepted(m.bytes, choice.Resume?);
      invite := ok;
    }

    /** Where receive_file leads to, as a session with this line would: to a file that has arrived, to the end of
        the session, or on to the next header. */
    ghost predicate Leads(line: seq<Arrival>, was: seq<nat>, choices: seq<Choice>, before: File, ok: bool,
                          arrived: bool)
      reads this
    {
      Proceeds(Seen(Offer, line), was, choices, before) == Prospect(ok, Sought(script, MAX_RETRIES, false), arrived)
    }

    /** What the session comes to from here on. */
    ghost function Prospect(ok: bool, next: Sight, arrived: bool): Course
      reads this
    {
      if arrived then Arrived(file, ok && Closing(next))
      else if ok then Proceeds(next, purges, policy, file)
      else NotArrived(false)
    }

    /** Proceeds at a ZFILE, case by case. */
    lemma LeadsOn(line: seq<Arrival>, purges: seq<nat>, policy: seq<Choice>, file: File)
      ensures var course := Proceeds(Seen(Offer, line), purges, policy, file);
              if line == [] || line[0].Dead? then course == NotArrived(false)
              else
                var next := Sought(line[1..], MAX_RETRIES, false);
                if line[0].Silent? || !Acceptable(line[0].m) then course == Proceeds(next, purges, policy, file)
                else if policy != [] && policy[0].Decline? then course == Proceeds(next, purges, policy[1..], file)
                else course == Receives(line[1..], purges, if policy != [] && policy[0].Resume? then file else [])
      ensures Proceeds(Sought([], MAX_RETRIES, false), purges, policy, file) == NotArrived(false)
    {
      hide Receives;
    }

    /** A file that has been accepted: opened, received, and ZFERR if that does not end well. */
    method ReceiveAccepted(info: File, resume: bool) returns (ok: bool)
      requires Holding([Sub(info, CrcW)]) && Idle(false) && IsFileInfo(info)
      modifies this`acts, this`rx, this`script, this`purges, this`writes, this`disk, this`file, this`extendedZrposSent
      ensures Valid() && |script| <= |old(script)| && rx.owes.Nothing? && rx.phase == if ok then Done else Failed
      ensures old(Healthy()) ==>
                && (ok ==> Healthy())
                && Receives(old(script), old(purges), if resume then old(file) else [])
                   == if ok then Arrived(file, Closing(Sought(script, MAX_RETRIES, false))) else NotArrived(false)
    {
      hide RxRun, RxAfter, Takings, Items, IsFileInfo, Fate, Closing, Sought;
      AcceptFile(info, resume);
      var ending := ReceiveFileData();
      if ending.Failure? {
        TryTx(OtherUp);
      }
      ok := ending.AtEof?;
    }

    /** The file is opened, and a new account of it begins. */
    method AcceptFile(info: File, resume: bool)
      requires Holding([Sub(info, CrcW)]) && rx.phase.Before? && rx.owes.Nothing? && IsFileInfo(info)
      modifies this`acts, this`rx, this`file, this`extendedZrposSent
      ensures Valid() && rx == RxDo(old(rx), Accept(info, resume)) && file == (if resume then old(file) else [])
      ensures acts == old(acts) + [Accept(info, resume)]
    {
      hide RxRun, RxAfter, Takings, Items, IsFileInfo;
      if !resume {
        file := [];
      }
      extendedZrposSent := false;
      StoreRecording(Accept(info, resume));
      acts, rx := acts + [Accept(info, resume)], RxDo(rx, Accept(info, resume));
    }

    /** The wait for the next header, with an invitation before it where one is due, and before every further
        try. */
    method NextHeader(first: bool, ghost delivered: bool) returns (reply: Header)
      requires Valid() && Idle(delivered)
      modifies this`acts, this`rx, this`script, this`writes
      ensures |script| <= |old(script)| && !reply.NoHeader? && rx.owes.Nothing? && rx.file == old(rx).file
      ensures delivered <==> rx.phase.Done?
      ensures if reply.Head? then IsHeader(reply.m) && Holding([reply.m]) else Valid()
      ensures reply.Head? ==>
                && |script| < |old(script)| && rx == old(rx) && old(acts) <= acts && Invitations(acts[|old(acts)|..])
                && (if first then 1 else 0) <= CountInvitations(acts[|old(acts)|..]) <= MAX_RETRIES
      ensures old(writes) == [] ==>
                && writes == []
                && (if reply.Head? then
                      && Sought(old(script), MAX_RETRIES, false) == Seen(reply.m, script)
                      && CountInvitations(acts[|old(acts)|..])
                         == Pauses(old(script), MAX_RETRIES, false) + if first then 1 else 0
                    else Sought(old(script), MAX_RETRIES, false).Unseen?)
    {
      hide RxRun, RxAfter, Takings, Items, IsHeader, Invitations, CountInvitations, Sought, Pauses;
      var invite := first;
      ghost var sent: seq<RxAct> := [];
      NoInvitations();
      for attempts := 0 to MAX_RETRIES
        invariant Valid() && rx == old(rx) && |script| <= |old(script)|
        invariant acts == old(acts) + sent && Invitations(sent)
        invariant CountInvitations(sent) == if first || attempts == 0 then attempts else attempts - 1
        invariant invite == (first || attempts > 0)
        invariant old(writes) == [] ==>
                    && writes == []
                    && Sought(old(script), MAX_RETRIES, false) == Sought(script, MAX_RETRIES - attempts, false)
                    && (Sought(old(script), MAX_RETRIES, false).Seen? ==>
                          Pauses(old(script), MAX_RETRIES, false)
                          == attempts + Pauses(script, MAX_RETRIES - attempts, false))
      {
        ghost var before := acts;
        reply := ListenOnce(invite, delivered, MAX_RETRIES - attempts);
        if reply.HeaderDead? {
          return;
        }
        CountSplit(sent, acts[|before|..]);
        sent := sent + acts[|before|..];
        assert acts[|old(acts)|..] == sent;
        if reply.Head? {
          return;
        }
        invite := true;
      }
      NoTries(false);
      reply := HeaderDead;
    }

    /** One try of that wait. */
    method ListenOnce(invite: bool, ghost delivered: bool, ghost tries: nat) returns (reply: Header)
      requires Valid() && Idle(delivered) && tries > 0
      modifies this`acts, this`rx, this`writes, this`script
      ensures |script| <= |old(script)| && (reply.Head? ==> |script| < |old(script)|)
      ensures if reply.Head? then IsHeader(reply.m) && Holding([reply.m]) else Valid()
      ensures rx.owes.Nothing? && rx.file == old(rx).file && (delivered <==> rx.phase.Done?)
      ensures old(writes) == [] ==> writes == [] && Tried(old(script), tries, false, reply)
      ensures !reply.HeaderDead? ==>
                && rx == old(rx) && old(acts) <= acts && Invitations(acts[|old(acts)|..])
                && CountInvitations(acts[|old(acts)|..]) == if invite then 1 else 0
    {
      hide RxRun, RxAfter, Takings, Items, Invitations, CountInvitations, Sought, Pauses, AtHeader;
      reply := InviteAndListen(invite, delivered);
      if old(writes) == [] {
        TryAtHeader(old(script), tries, false, reply);
      }
    }

    /** One header in the dispatch loop of main; a second ZFILE is beyond a session of one file. */
    method Serve(m: Down, delivered: bool) returns (ok: bool, invite: bool, delivered': bool)
      requires Holding([m]) && IsHeader(m) && !m.Fin? && Idle(delivered)
      modifies this`acts, this`rx, this`script, this`purges, this`writes
      modifies this`disk, this`file, this`extendedZrposSent, this`policy
      ensures Valid() && |script| <= |old(script)| && rx.owes.Nothing?
      ensures (ok ==> Idle(delivered')) && (delivered' <==> rx.phase.Done?)
      ensures delivered ==> delivered' && file == old(file)
      ensures m == Rqinit || m.Eof? ==> ok && invite && acts == old(acts) + [Ignore(m)]
      ensures old(Healthy()) ==>
                && (ok ==> Healthy())
                && old(Prospect(true, Seen(m, script), delivered))
                   == Prospect(ok, Sought(script, MAX_RETRIES, false), delivered')
    {
      hide RxRun, RxAfter, Takings, Items, Sought;
      ok, invite, delivered' := true, false, delivered;
      ServeCases(m);
      hide Proceeds, Closing;
      Act(Ignore(m));
      if m == Offer {
        if delivered {
          return false, false, delivered;
        }
        ok, invite := ReceiveFile();
        delivered' := invite;
      } else if m == Rqinit || m.Eof? {
        invite := true;
      } else {
        ok := Tx(OtherUp);
      }
    }

    /** A header that brings no file and is not the last. */
    lemma ServeCases(m: Down)
      requires !m.Fin?
      ensures var next := Sought(script, MAX_RETRIES, false);
              && (!m.Offer? ==> Closing(Seen(m, script)) == Closing(next)
                                && Proceeds(Seen(m, script), purges, policy, file)
                                  == Proceeds(next, purges, policy, file))
              && !Closing(Seen(Offer, script))
    {}

    /** The session of main, for one file: contact, the dispatch loop, and ZFIN, which ends every session in
        which there was contact.  On a line and a disk that work, the file that arrives, and whether ZFIN closes
        the session, are exactly what Proceeds says. */
    method ReceiveSession() returns (closed: bool)
      requires Valid() && Idle(false)
      modifies this`acts, this`rx, this`script, this`purges, this`writes
      modifies this`disk, this`file, this`extendedZrposSent, this`policy
      ensures Valid()
      ensures closed ==> rx.phase.Before? || rx.phase.Done?
      ensures old(Healthy()) ==>
                old(Expected()) == if rx.phase.Done? then Arrived(file, closed) else NotArrived(closed)
    {
      hide RxRun, RxAfter, Takings, Items, Proceeds, Sought, Closing;
      ghost var expected := Expected();
      NoFile();
      var reply := Contact();
      if !reply.Head? {
        return false;
      }
      var delivered, ok := false, true;
      while ok && reply.Head? && reply.m != Fin
        invariant rx.owes.Nothing? && (delivered <==> rx.phase.Done?)
        invariant if ok && reply.Head? then Holding([reply.m]) && IsHeader(reply.m) && Idle(delivered) else Valid()
        invariant old(Healthy()) ==>
                    && (ok ==> Healthy())
                    && expected == Prospect(ok, if reply.Head? then Seen(reply.m, script) else Unseen, delivered)
        decreases ok, |script|, reply.Head?
      {
        ok, reply, delivered := Turn(reply.m, delivered);
      }
      AtFin(purges, policy, file, script);
      closed := ok && reply.Head?;
      if closed {
        Act(Ignore(reply.m));
      }
      TryTx(OtherUp);
    }

    /** One turn of the dispatch loop: a header served, and the next one. */
    method Turn(m: Down, delivered: bool) returns (ok: bool, reply: Header, delivered': bool)
      requires Holding([m]) && IsHeader(m) && !m.Fin? && Idle(delivered)
      modifies this`acts, this`rx, this`script, this`purges, this`writes
      modifies this`disk, this`file, this`extendedZrposSent, this`policy
      ensures rx.owes.Nothing? && (delivered' <==> rx.phase.Done?)
      ensures |script| <= |old(script)| && (reply.Head? ==> |script| < |old(script)|)
      ensures if ok && reply.Head? then Holding([reply.m]) && IsHeader(reply.m) && Idle(delivered') else Valid()
      ensures old(Healthy()) ==>
                && (ok ==> Healthy())
                && old(Prospect(true, Seen(m, script), delivered))
                   == Prospect(ok, if reply.Head? then Seen(reply.m, script) else Unseen, delivered')
    {
      hide RxRun, RxAfter, Takings, Items, Proceeds, Sought, Closing, Pauses;
      var invite;
      reply := HeaderDead;
      ok, invite, delivered' := Serve(m, delivered);
      if ok {
        reply := NextHeader(invite, delivered');
      }
    }

    /** What comes of this line as a session, behind the purge that it begins with. */
    function Expected(): Course
      reads this
    {
      Proceeds(Sought(Purged(script, purges), 10, true), Later(purges), policy, file)
    }

    lemma NoFile()
      ensures forall p, c, f :: Proceeds(Unseen, p, c, f) == NotArrived(false)
      ensures !Closing(Unseen)
    {}

    lemma AtFin(purges: seq<nat>, policy: seq<Choice>, file: File, script: seq<Arrival>)
      ensures Proceeds(Seen(Fin, script), purges, policy, file) == NotArrived(true) && Closing(Seen(Fin, script))
      ensures Proceeds(Unseen, purges, policy, file) == NotArrived(false) && !Closing(Unseen)
    {}

    /** Old input goes, and the first contact is made. */
    method Contact() returns (reply: Header)
      requires Valid() && Idle(false)
      modifies this`acts, this`rx, this`script, this`purges, this`writes
      ensures rx.owes.Nothing? && file == old(file) && (if reply.Head? then Idle(false) else !rx.phase.Done?)
      ensures if reply.Head? then IsHeader(reply.m) && Holding([reply.m]) else Valid()
      ensures old(writes) == [] ==>
                && writes == [] && purges == Later(old(purges))
                && Sought(Purged(old(script), old(purges)), 10, true)
                   == if reply.Head? then Seen(reply.m, script) else Unseen
    {
      hide RxRun, RxAfter, Takings, Items, Sought;
      RxPurge();
      reply := Establish();
    }

    lemma NoInvitations()
      ensures Invitations([]) && CountInvitations([]) == 0
    {}

    lemma IgnoredMore(ignored: seq<RxAct>, a: RxAct)
      requires Invitations(ignored) && (a.Ignore? || a == INVITATION)
      ensures Invitations(ignored + [a])
      ensures CountInvitations(ignored + [a]) == CountInvitations(ignored) + if a == INVITATION then 1 else 0
    {
      CountMore(ignored, a);
    }

    /** What the next arrival leaves of the items to come. */
    lemma NextItem()
      requires script != []
      ensures Items(script) == (if script[0].Item? then [script[0].m] else []) + Items(script[1..])
    {}
  }

  lemma {:induction false} CountSplit(a: seq<RxAct>, b: seq<RxAct>)
    ensures CountInvitations(a + b) == CountInvitations(a) + CountInvitations(b)
    ensures Invitations(a) && Invitations(b) ==> Invitations(a + b)
    decreases a
  {
    if a == [] {
      assert a + b == b;
    } else {
      assert (a + b)[1..] == a[1..] + b;
      CountSplit(a[1..], b);
    }
  }

  lemma {:induction false} CountMore(acts: seq<RxAct>, a: RxAct)
    ensures CountInvitations(acts + [a]) == CountInvitations(acts) + if a == INVITATION then 1 else 0
    decreases acts
  {
    if acts == [] {
      assert acts + [a] == [a] && [a][1..] == [];
    } else {
      assert (acts + [a])[1..] == acts[1..] + [a];
      CountMore(acts[1..], a);
    }
  }
}
