/** Two established endpoints, one direction of data, and a network that drops,
    duplicates, delays and reorders packets. `net` holds every packet ever sent:
    a packet that never arrives was dropped, one that arrives twice was duplicated. */
module SctpSystem {
  import opened SctpTypes
  import opened SctpHistory
  import opened SctpReceiver
  import opened SctpDelivery
  import opened SctpDeliverStep
  import opened SctpSender
  import opened SctpSending
  import opened SctpSubmit
  import opened SctpAcks
  import opened SctpSack

  datatype Packet =
    | DataPacket(chunk: Chunk)
    | ForwardPacket(newTsn: int, skips: seq<Stream>)
    | SackPacket(cum: int, gaps: seq<Gap>)

  /** `history`, `received` (TSNs the receiver ever stored) and `out` (messages
      handed to the receiving application) only record what happened. */
  datatype System = System(
    tx: Sender, rx: Receiver, net: set<Packet>,
    history: History, received: set<int>, out: seq<Message>)

  datatype Step =
    | Submit(request: Request)        // the application sends a message
    | Transmit                        // the sender emits its next packet
    | Tick(now: nat)                  // the sender's timers run
    | Arrive(packet: Packet)          // any packet sent so far reaches its endpoint
    | Acknowledge                     // the receiver emits a SACK
    | Poll                            // the receiving application polls
    | SenderStream(sid: nat)          // the other direction registers a stream
    | ReceiverStream(sid: nat)

  function Initial(peerForward: bool, peerMaxMessage: nat, now: nat, rto: nat): System {
    System(
      Sender(true, false, peerForward, peerMaxMessage, [], 0, [], 0, now, rto, 0, false),
      Receiver(-1, seq(MAX_RECV_GAP, i => None), [], false),
      {}, History([], [], []), {}, [])
  }

  predicate Enabled(s: System, step: Step) {
    step.Arrive? ==> step.packet in s.net
  }

  function Next(s: System, step: Step): System
    requires Enabled(s, step)
  {
    match step
    case Submit(r) => s.(tx := Send(s.tx, r).0, history := SubmitHistory(s.history, s.tx, r))
    case Transmit =>
      (match PollOutput(s.tx)
       case (tx, SendData(c)) => s.(tx := tx, net := s.net + {DataPacket(c)})
       case (tx, SendForward(newTsn, skips)) => s.(tx := tx, net := s.net + {ForwardPacket(newTsn, skips)})
       case (tx, Silence) => s.(tx := tx))
    case Tick(now) => s.(tx := HandleTimeout(s.tx, now).0)
    case Arrive(DataPacket(c)) =>
      s.(rx := HandleData(s.rx, c).0,
         received := if Accepts(s.rx, c) then s.received + {c.tsn} else s.received)
    case Arrive(ForwardPacket(newTsn, skips)) => s.(rx := HandleForward(s.rx, newTsn, skips).0)
    case Arrive(SackPacket(cum, gaps)) => s.(tx := HandleSack(s.tx, cum, gaps).0)
    case Acknowledge => s.(rx := s.rx.(sackNeeded := false), net := s.net + {SackPacket(s.rx.cum, SackGaps(s.rx))})
    case Poll =>
      var (rx, _, message) := PollDelivery(s.rx);
      s.(rx := rx, out := s.out + if message.Some? then [message.value] else [])
    case SenderStream(sid) => s.(tx := s.tx.(streams := Register(s.tx.streams, sid)))
    case ReceiverStream(sid) => s.(rx := s.rx.(streams := Register(s.rx.streams, sid)))
  }

  /** `steps` can be taken one after the other from `s`. */
  predicate Runnable(s: System, steps: seq<Step>)
    decreases |steps|
  {
    steps == [] || (Enabled(s, steps[0]) && Runnable(Next(s, steps[0]), steps[1..]))
  }

  function Run(s: System, steps: seq<Step>): System
    requires Runnable(s, steps)
    decreases |steps|
  {
    if steps == [] then s else Run(Next(s, steps[0]), steps[1..])
  }

  // ----- the invariant -----

  ghost predicate PacketOk(s: System, abandoned: set<nat>, p: Packet) {
    match p
    case DataPacket(c) => 0 <= c.tsn < |s.history.chunks| && c == s.history.chunks[c.tsn]
    case ForwardPacket(newTsn, skips) => ForwardOk(s.history, abandoned, s.rx.cum + 1, newTsn, skips)
    case SackPacket(cum, gaps) => cum <= s.rx.cum
  }

  /** Acknowledged TSNs were stored or belong to abandoned messages. */
  ghost predicate CoverageOk(s: System, abandoned: set<nat>) {
    forall t | 0 <= t < |s.history.owner| && Acked(s.rx, t) :: t in s.received || s.history.owner[t] in abandoned
  }

  ghost predicate OutOk(s: System, log: seq<nat>) {
    && |log| == |s.out|
    && (forall k | 0 <= k < |log| :: log[k] < |s.history.accepted| &&
          s.out[k] == Message(s.history.accepted[log[k]].sid, s.history.accepted[log[k]].ppid, s.history.accepted[log[k]].data))
  }

  ghost predicate Inv(s: System, abandoned: set<nat>, log: seq<nat>) {
    && SenderOk(s.history, abandoned, s.tx)
    && ReceiverOk(s.history, Skippable(s.history, abandoned), s.rx, log)
    && Base(s.history, s.tx.queue) <= s.rx.cum + 1
    && (forall p | p in s.net :: PacketOk(s, abandoned, p))
    && CoverageOk(s, abandoned)
    && OutOk(s, log)
  }

  lemma InitialInv(peerForward: bool, peerMaxMessage: nat, now: nat, rto: nat)
    ensures Inv(Initial(peerForward, peerMaxMessage, now, rto), {}, [])
  {
    var s := Initial(peerForward, peerMaxMessage, now, rto);
    assert forall sid: nat :: OrderedOn([], sid) == [] && LogOn(s.history, [], sid) == [];
  }

  // ----- frame lemmas -----

  lemma SkippableGrows(h: History, g: History, abandoned: set<nat>, more: set<nat>)
    requires Extends(h, g) && abandoned <= more
    ensures Skippable(h, abandoned) <= Skippable(g, more)
  {
    forall sid | sid in Skippable(h, abandoned) ensures sid in Skippable(g, more) {
      var m :| m in abandoned && m < |h.accepted| && !h.accepted[m].unordered && h.accepted[m].sid == sid;
      assert g.accepted[..|h.accepted|][m] == g.accepted[m];
    }
  }

  lemma ForwardOkGrows(h: History, g: History, abandoned: set<nat>, more: set<nat>, base: int, later: int, newTsn: int, skips: seq<Stream>)
    requires HistoryOk(h) && HistoryOk(g) && Extends(h, g) && abandoned <= more && base <= later
    requires ForwardOk(h, abandoned, base, newTsn, skips)
    ensures ForwardOk(g, more, later, newTsn, skips)
  {
    SkippableGrows(h, g, abandoned, more);
    assert g.chunks[..|h.chunks|][newTsn] == g.chunks[newTsn];
    forall t | later <= t <= newTsn && 0 <= t ensures g.owner[t] in more {
      assert g.owner[..|h.owner|][t] == h.owner[t];
    }
    forall k | 0 <= k < |skips| ensures SkipOk(g, Skippable(g, more), newTsn, skips[k]) {
      assert SkipOk(h, Skippable(h, abandoned), newTsn, skips[k]);
      var m :| 0 <= m < |h.accepted| && OnStream(h, m, skips[k].sid) && h.accepted[m].ssn == skips[k].ssn && h.accepted[m].last <= newTsn;
      MessageKept(h, g, m);
      assert OnStream(g, m, skips[k].sid);
    }
  }

  /** Packets stay good while the history, the abandoned set and the cumulative TSN grow. */
  lemma PacketsKept(s: System, t: System, abandoned: set<nat>, more: set<nat>)
    requires HistoryOk(s.history) && HistoryOk(t.history) && Extends(s.history, t.history)
    requires abandoned <= more && s.rx.cum <= t.rx.cum
    requires forall p | p in s.net :: PacketOk(s, abandoned, p)
    ensures forall p | p in s.net :: PacketOk(t, more, p)
  {
    forall p | p in s.net ensures PacketOk(t, more, p) {
      assert PacketOk(s, abandoned, p);
      match p
      case DataPacket(c) => assert t.history.chunks[..|s.history.chunks|][c.tsn] == t.history.chunks[c.tsn];
      case ForwardPacket(newTsn, skips) =>
        ForwardOkGrows(s.history, t.history, abandoned, more, s.rx.cum + 1, t.rx.cum + 1, newTsn, skips);
      case SackPacket(_, _) =>
    }
  }

  lemma ExtendsSelf(h: History)
    ensures Extends(h, h)
  {
  }

  /** Abandoning more messages disturbs neither the receiver nor the network. */
  lemma SenderMoves(s: System, tx: Sender, abandoned: set<nat>, more: set<nat>, log: seq<nat>)
    requires Inv(s, abandoned, log) && abandoned <= more && SenderOk(s.history, more, tx)
    requires Base(s.history, tx.queue) <= s.rx.cum + 1
    ensures Inv(s.(tx := tx), more, log)
  {
    ExtendsSelf(s.history);
    SkippableGrows(s.history, s.history, abandoned, more);
    ExtendKeeps(s.history, s.history, Skippable(s.history, abandoned), Skippable(s.history, more), s.rx, log);
    PacketsKept(s, s.(tx := tx), abandoned, more);
  }

  // ----- the steps -----

  lemma SubmitStep(s: System, r: Request, abandoned: set<nat>, log: seq<nat>)
    requires Inv(s, abandoned, log)
    ensures Inv(Next(s, Submit(r)), abandoned, log)
  {
    var t := Next(s, Submit(r));
    SubmitKeeps(s.history, abandoned, s.tx, r);
    SkippableGrows(s.history, t.history, abandoned, abandoned);
    ExtendKeeps(s.history, t.history, Skippable(s.history, abandoned), Skippable(t.history, abandoned), s.rx, log);
    PacketsKept(s, t, abandoned, abandoned);
    CoverageExtended(s, t, abandoned, log);
    forall k | 0 <= k < |log| ensures t.history.accepted[log[k]] == s.history.accepted[log[k]] {
      MessageKept(s.history, t.history, log[k]);
    }
  }

  lemma CoverageExtended(s: System, t: System, abandoned: set<nat>, log: seq<nat>)
    requires Inv(s, abandoned, log) && Extends(s.history, t.history) && t.rx == s.rx && t.received == s.received
    ensures CoverageOk(t, abandoned)
  {
    forall u | 0 <= u < |t.history.owner| && Acked(t.rx, u)
      ensures u in t.received || t.history.owner[u] in abandoned
    {
      if u > s.rx.cum {
        var i :| 0 <= i < |s.rx.slots| && s.rx.slots[i].Some? && s.rx.slots[i].value.tsn == u;
        assert EntryOk(s.history, s.rx.cum, s.rx.slots[i].value);
      }
      assert t.history.owner[..|s.history.owner|][u] == s.history.owner[u];
    }
  }

  lemma TransmitStep(s: System, abandoned: set<nat>, log: seq<nat>)
    requires Inv(s, abandoned, log)
    ensures Inv(Next(s, Transmit), abandoned, log)
  {
    var t := Next(s, Transmit);
    PollOutputOk(s.history, abandoned, s.tx);
    SenderMoves(s, t.tx, abandoned, abandoned, log);
    ExtendsSelf(s.history);
    var out := PollOutput(s.tx).1;
    if out.SendForward? {
      ForwardOkGrows(s.history, s.history, abandoned, abandoned, Base(s.history, s.tx.queue), s.rx.cum + 1, out.newTsn, out.skips);
    }
  }

  lemma PollOutputOk(h: History, abandoned: set<nat>, v: Sender)
    requires SenderOk(h, abandoned, v)
    ensures SenderOk(h, abandoned, PollOutput(v).0) && |PollOutput(v).0.queue| == |v.queue|
    ensures PollOutput(v).1.SendForward? ==>
              ForwardOk(h, abandoned, Base(h, v.queue), PollOutput(v).1.newTsn, PollOutput(v).1.skips)
    ensures PollOutput(v).1.SendData? ==>
              0 <= PollOutput(v).1.chunk.tsn < |h.chunks| && PollOutput(v).1.chunk == h.chunks[PollOutput(v).1.chunk.tsn]
  {
    ForwardOutputOk(h, abandoned, v);
    DataOutputOk(h, abandoned, v);
    DataOutputOk(h, abandoned, ForwardOutput(v).0);
  }

  lemma TickStep(s: System, now: nat, abandoned: set<nat>, log: seq<nat>) returns (more: set<nat>)
    requires Inv(s, abandoned, log)
    ensures abandoned <= more && Inv(Next(s, Tick(now)), more, log)
  {
    more := HandleTimeoutKeeps(s.history, abandoned, s.tx, now);
    SenderMoves(s, HandleTimeout(s.tx, now).0, abandoned, more, log);
  }

  lemma SackStep(s: System, cum: int, gaps: seq<Gap>, abandoned: set<nat>, log: seq<nat>) returns (more: set<nat>)
    requires Inv(s, abandoned, log) && SackPacket(cum, gaps) in s.net
    ensures abandoned <= more && Inv(Next(s, Arrive(SackPacket(cum, gaps))), more, log)
  {
    assert PacketOk(s, abandoned, SackPacket(cum, gaps));
    more := HandleSackKeeps(s.history, abandoned, s.tx, cum, gaps);
    SenderMoves(s, HandleSack(s.tx, cum, gaps).0, abandoned, more, log);
  }

  /** Receiver steps that deliver nothing. */
  lemma ReceiverMoves(s: System, t: System, abandoned: set<nat>, log: seq<nat>)
    requires Inv(s, abandoned, log) && t == s.(rx := t.rx, received := t.received)
    requires ReceiverOk(s.history, Skippable(s.history, abandoned), t.rx, log)
    requires s.rx.cum <= t.rx.cum && CoverageOk(t, abandoned)
    ensures Inv(t, abandoned, log)
  {
    ExtendsSelf(s.history);
    PacketsKept(s, t, abandoned, abandoned);
  }

  lemma DataStep(s: System, c: Chunk, abandoned: set<nat>, log: seq<nat>)
    requires Inv(s, abandoned, log) && DataPacket(c) in s.net
    ensures Inv(Next(s, Arrive(DataPacket(c))), abandoned, log)
  {
    var t := Next(s, Arrive(DataPacket(c)));
    assert PacketOk(s, abandoned, DataPacket(c));
    HandleDataKeeps(s.history, Skippable(s.history, abandoned), s.rx, log, c);
    DataAcked(s.rx, c);
    ReceiverMoves(s, t, abandoned, log);
  }

  lemma ForwardStep(s: System, newTsn: int, skips: seq<Stream>, abandoned: set<nat>, log: seq<nat>)
    requires Inv(s, abandoned, log) && ForwardPacket(newTsn, skips) in s.net
    ensures Inv(Next(s, Arrive(ForwardPacket(newTsn, skips))), abandoned, log)
  {
    var t := Next(s, Arrive(ForwardPacket(newTsn, skips)));
    assert PacketOk(s, abandoned, ForwardPacket(newTsn, skips));
    HandleForwardKeeps(s.history, Skippable(s.history, abandoned), s.rx, log, newTsn, skips);
    ForwardAcked(s.rx, newTsn, skips);
    ReceiverMoves(s, t, abandoned, log);
  }

  lemma PollFrame(s: System, abandoned: set<nat>, log: seq<nat>)
    requires Inv(s, abandoned, log)
    ensures forall p | p in s.net :: PacketOk(Next(s, Poll), abandoned, p)
    ensures CoverageOk(Next(s, Poll), abandoned)
    ensures s.rx.cum == Next(s, Poll).rx.cum
  {
    PollAcked(s.rx);
    ExtendsSelf(s.history);
    PacketsKept(s, Next(s, Poll), abandoned, abandoned);
  }

  /** What a poll leaves behind: the receiver after delivery and one more message, if any. */
  function Polled(s: System): System {
    s.(rx := PollDelivery(s.rx).0,
       out := s.out + if PollDelivery(s.rx).2.Some? then [PollDelivery(s.rx).2.value] else [])
  }

  lemma PolledIsNext(s: System)
    ensures Next(s, Poll) == Polled(s)
  {
  }

  lemma OutGrows(s: System, log: seq<nat>, m: nat, message: Message, out: seq<Message>)
    requires OutOk(s, log) && Hands(s.history, log, m, message) && out == s.out + [message]
    ensures OutOk(s.(out := out), log + [m])
  {
  }

  lemma PollStep(s: System, abandoned: set<nat>, log: seq<nat>) returns (more: seq<nat>)
    requires Inv(s, abandoned, log)
    ensures log <= more && Inv(Next(s, Poll), abandoned, more)
  {
    PolledIsNext(s);
    PollFrame(s, abandoned, log);
    var m := PollDeliveryKeeps(s.history, Skippable(s.history, abandoned), s.rx, log);
    var message, t := PollDelivery(s.rx).2, Polled(s);
    if message.Some? {
      more := log + [m];
      OutGrows(s, log, m, message.value, t.out);
    } else {
      more := log;
      assert t.out == s.out;
    }
    assert OutOk(t, more);
  }

  lemma StreamStep(s: System, step: Step, abandoned: set<nat>, log: seq<nat>)
    requires Inv(s, abandoned, log) && (step.SenderStream? || step.ReceiverStream? || step.Acknowledge?)
    ensures Inv(Next(s, step), abandoned, log)
  {
    match step {
      case SenderStream(sid) =>
        forall other: nat ensures SsnOf(Register(s.tx.streams, sid), other) == SsnOf(s.tx.streams, other) {
          RegisterKeepsSsn(s.tx.streams, sid, other);
        }
        SenderMoves(s, Next(s, step).tx, abandoned, abandoned, log);
      case ReceiverStream(sid) =>
        RegisterKeeps(s.history, Skippable(s.history, abandoned), s.rx, log, sid);
        assert forall t :: Acked(Next(s, step).rx, t) <==> Acked(s.rx, t);
        ReceiverMoves(s, Next(s, step), abandoned, log);
      case Acknowledge =>
        var u := s.(rx := s.rx.(sackNeeded := false));
        SameSsnKeeps(s.history, Skippable(s.history, abandoned), s.rx, u.rx, log);
        assert forall t :: Acked(u.rx, t) <==> Acked(s.rx, t);
        ReceiverMoves(s, u, abandoned, log);
        assert forall p | p in Next(s, step).net :: PacketOk(u, abandoned, p);
        assert forall p | PacketOk(u, abandoned, p) :: PacketOk(Next(s, step), abandoned, p);
    }
  }

  lemma StepKeeps(s: System, step: Step, abandoned: set<nat>, log: seq<nat>) returns (more: set<nat>, longer: seq<nat>)
    requires Inv(s, abandoned, log) && Enabled(s, step)
    ensures abandoned <= more && log <= longer && Inv(Next(s, step), more, longer)
  {
    more, longer := abandoned, log;
    match step {
      case Submit(r) => SubmitStep(s, r, abandoned, log);
      case Transmit => TransmitStep(s, abandoned, log);
      case Tick(now) => more := TickStep(s, now, abandoned, log);
      case Arrive(DataPacket(c)) => DataStep(s, c, abandoned, log);
      case Arrive(ForwardPacket(newTsn, skips)) => ForwardStep(s, newTsn, skips, abandoned, log);
      case Arrive(SackPacket(cum, gaps)) => more := SackStep(s, cum, gaps, abandoned, log);
      case Poll => longer := PollStep(s, abandoned, log);
      case Acknowledge => StreamStep(s, step, abandoned, log);
      case SenderStream(_) => StreamStep(s, step, abandoned, log);
      case ReceiverStream(_) => StreamStep(s, step, abandoned, log);
    }
  }

  /** The invariant holds along every run. */
  lemma {:induction false} RunKeeps(s: System, steps: seq<Step>, abandoned: set<nat>, log: seq<nat>) returns (more: set<nat>, longer: seq<nat>)
    requires Inv(s, abandoned, log) && Runnable(s, steps)
    ensures abandoned <= more && log <= longer && Inv(Run(s, steps), more, longer)
    decreases |steps|
  {
    more, longer := abandoned, log;
    if steps != [] {
      more, longer := StepKeeps(s, steps[0], abandoned, log);
      more, longer := RunKeeps(Next(s, steps[0]), steps[1..], more, longer);
    }
  }
}
