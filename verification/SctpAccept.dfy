/** Which messages the sender takes, and what a peer without FORWARD TSN support is spared. */
module SctpAccept {
  import opened SctpTypes
  import opened SctpSender
  import opened SctpSystem

  // ----- accepting a message -----

  /** The limit is -1, for a reliable message, or at most 65535, for a peer that supports FORWARD TSN. */
  predicate LimitFits(v: Sender, r: Request) {
    r.maxRetransmits == -1 || (0 <= r.maxRetransmits < WRAP && v.peerForward)
  }

  /** An idle sender could take that many bytes, and the peer wants them. */
  predicate SizeFits(v: Sender, len: nat) {
    && len <= MAX_MESSAGE_SIZE && len <= SEND_BUF_SIZE && len <= MAX_SEND_QUEUE * MTU_PAYLOAD
    && (v.peerMaxMessage == 0 || len <= v.peerMaxMessage)
  }

  /** There is room now: full fragments in the free entries, and the bytes in the buffer. */
  predicate RoomFor(v: Sender, len: nat) {
    && |v.queue| < MAX_SEND_QUEUE && len <= (MAX_SEND_QUEUE - |v.queue|) * MTU_PAYLOAD
    && len <= SEND_BUF_SIZE - v.bufUsed
  }

  predicate StreamFits(streams: seq<Stream>, sid: nat) {
    |streams| < MAX_DATACHANNELS || exists k | 0 <= k < |streams| :: streams[k].sid == sid
  }

  lemma CountFits(len: nat, room: int)
    ensures FragmentCount(len) <= room <==> room > 0 && len <= room * MTU_PAYLOAD
  {
  }

  lemma RegisteredIff(streams: seq<Stream>, sid: nat)
    ensures Known(Register(streams, sid), sid) <==> StreamFits(streams, sid)
  {
    RowOfAppend(streams, Stream(sid, 0), sid);
  }

  /** A message is taken exactly when it can ever be sent to this peer and there is room for it now;
      a refused one changes nothing. */
  lemma AcceptedIff(v: Sender, r: Request)
    ensures Send(v, r).1 == Ok <==>
              v.established && LimitFits(v, r) && SizeFits(v, |r.data|) && RoomFor(v, |r.data|) && StreamFits(v.streams, r.sid)
    ensures Send(v, r).1 != Ok ==> Send(v, r).0 == v
  {
    CountFits(|r.data|, MAX_SEND_QUEUE);
    CountFits(|r.data|, MAX_SEND_QUEUE - |v.queue|);
    RegisteredIff(v.streams, r.sid);
  }

  /** "Would block" means that nothing but room is missing, and a place for the stream perhaps. */
  lemma BlockedIff(v: Sender, r: Request)
    ensures Send(v, r).1 == WouldBlock <==>
              v.established && LimitFits(v, r) && SizeFits(v, |r.data|) && !RoomFor(v, |r.data|)
  {
    CountFits(|r.data|, MAX_SEND_QUEUE);
    CountFits(|r.data|, MAX_SEND_QUEUE - |v.queue|);
  }

  // ----- a peer without FORWARD TSN -----

  /** Nothing queued may ever be given up. */
  predicate AllReliable(v: Sender) {
    !v.peerForward && !v.forwardPending && Reliable(v.queue)
  }

  predicate Reliable(queue: Queue) {
    forall k | 0 <= k < |queue| :: queue[k].maxRetransmits == -1 && !queue[k].abandoned
  }

  predicate NeverForwarded(x: System) {
    AllReliable(x.tx) && forall p | p in x.net :: !p.ForwardPacket?
  }

  lemma {:induction false} FragmentsReliable(p: Plan, rest: seq<Byte>, i: nat)
    requires i <= p.count && p.maxRetransmits == -1
    ensures Reliable(Fragments(p, rest, i))
    decreases p.count - i
  {
    if i < p.count { FragmentsReliable(p, rest[if |rest| > MTU_PAYLOAD then MTU_PAYLOAD else |rest|..], i + 1); }
  }

  lemma SendReliable(v: Sender, r: Request)
    requires AllReliable(v)
    ensures AllReliable(Send(v, r).0)
  {
    AcceptedIff(v, r);
    if Send(v, r).1 == Ok { FragmentsReliable(PlanFor(v, r), r.data, 0); }
  }

  lemma {:induction false} NoneOvertaken(queue: Queue, i: nat, cum: int, highest: int, gaps: seq<Gap>)
    requires i <= |queue| && Reliable(queue)
    ensures AbandonOvertaken(queue, i, cum, highest, gaps) == queue && !AnyOvertaken(queue, i, cum, highest, gaps)
    decreases |queue| - i
  {
    if i < |queue| { NoneOvertaken(queue, i + 1, cum, highest, gaps); }
  }

  lemma PopReliable(queue: Queue, r: Queue)
    requires Reliable(queue) && r == PopAcked(queue)
    ensures Reliable(r)
  {
    assert forall k | 0 <= k < |r| :: r[k] == queue[|queue| - |r|..][k];
  }

  lemma SackReliable(v: Sender, cum: int, gaps: seq<Gap>)
    requires AllReliable(v)
    ensures AllReliable(HandleSack(v, cum, gaps).0)
  {
    if ValidGaps(gaps, 0) {
      var marked := MarkAcked(v.queue, cum);
      NoneOvertaken(v.queue, 0, cum, HighestAcked(v.queue, 0, cum, cum, gaps), gaps);
      PopReliable(marked, PopAcked(marked));
    }
  }

  lemma {:induction false} ScanReliable(v: Sender, i: nat)
    requires AllReliable(v) && i <= |v.queue|
    ensures AllReliable(TimeoutFrom(v, i).0)
    decreases |v.queue| - i
  {
    if i < |v.queue| {
      var e := v.queue[i];
      if !TimedOut(e, v.now, v.rto) {
        ScanReliable(v, i + 1);
      } else if e.retransmits < MAX_RETRANSMITS {
        ScanReliable(v.(queue := v.queue[i := e.(inFlight := false, retransmits := e.retransmits + 1, sentAt := v.now)],
                        rto := Min(v.rto * 2, RTO_MAX_MS)), i + 1);
      }
    }
  }

  lemma TickReliable(v: Sender, now: nat)
    requires AllReliable(v)
    ensures AllReliable(HandleTimeout(v, now).0)
  {
    if v.established { ScanReliable(v.(now := now), 0); }
  }

  lemma StepReliable(x: System, step: Step)
    requires NeverForwarded(x) && Enabled(x, step)
    ensures NeverForwarded(Next(x, step))
  {
    match step
    case Submit(r) => SendReliable(x.tx, r);
    case Tick(now) => TickReliable(x.tx, now);
    case Arrive(SackPacket(cum, gaps)) => SackReliable(x.tx, cum, gaps);
    case _ =>
  }

  /** A peer that does not support FORWARD TSN never gets one, and every message for it is reliable: none
      is ever given up. */
  lemma {:induction false} NoForwardWithoutSupport(peerMax: nat, now: nat, rto: nat, steps: seq<Step>)
    requires Runnable(Initial(false, peerMax, now, rto), steps)
    ensures NeverForwarded(Run(Initial(false, peerMax, now, rto), steps))
  {
    ReliableRun(Initial(false, peerMax, now, rto), steps);
  }

  lemma {:induction false} ReliableRun(x: System, steps: seq<Step>)
    requires NeverForwarded(x) && Runnable(x, steps)
    ensures NeverForwarded(Run(x, steps))
    decreases |steps|
  {
    if steps != [] {
      StepReliable(x, steps[0]);
      ReliableRun(Next(x, steps[0]), steps[1..]);
    }
  }
}
