/** What the association promises, over every run of two endpoints and a network
    that drops, duplicates and reorders. */
module SctpTheorems {
  import opened SctpTypes
  import opened SctpHistory
  import opened SctpReceiver
  import opened SctpDelivery
  import opened SctpSender
  import opened SctpSending
  import opened SctpSubmit
  import opened SctpAcks
  import opened SctpSack
  import opened SctpSystem

  /** Some run of an association leads to `s`. */
  ghost predicate Reachable(s: System) {
    exists peerForward: bool, peerMax: nat, now: nat, rto: nat, steps: seq<Step> ::
      Leads(peerForward, peerMax, now, rto, steps, s)
  }

  predicate Leads(peerForward: bool, peerMax: nat, now: nat, rto: nat, steps: seq<Step>, s: System) {
    Runnable(Initial(peerForward, peerMax, now, rto), steps) && Run(Initial(peerForward, peerMax, now, rto), steps) == s
  }

  lemma ReachableInv(s: System) returns (abandoned: set<nat>, log: seq<nat>)
    requires Reachable(s)
    ensures Inv(s, abandoned, log)
  {
    var peerForward: bool, peerMax: nat, now: nat, rto: nat, steps: seq<Step> :| Leads(peerForward, peerMax, now, rto, steps, s);
    InitialInv(peerForward, peerMax, now, rto);
    abandoned, log := RunKeeps(Initial(peerForward, peerMax, now, rto), steps, {}, []);
  }

  lemma {:induction false} RunMore(x: System, steps: seq<Step>, step: Step)
    requires Runnable(x, steps) && Enabled(Run(x, steps), step)
    ensures Runnable(x, steps + [step]) && Run(x, steps + [step]) == Next(Run(x, steps), step)
    decreases |steps|
  {
    var all := steps + [step];
    if steps == [] {
      assert all == [step];
      assert all[1..] == [];
    } else {
      RunMore(Next(x, steps[0]), steps[1..], step);
      assert all[1..] == steps[1..] + [step];
    }
  }

  lemma ReachableMore(s: System, step: Step)
    requires Reachable(s) && Enabled(s, step)
    ensures Reachable(Next(s, step))
  {
    var peerForward: bool, peerMax: nat, now: nat, rto: nat, steps: seq<Step> :| Leads(peerForward, peerMax, now, rto, steps, s);
    RunMore(Initial(peerForward, peerMax, now, rto), steps, step);
    assert Leads(peerForward, peerMax, now, rto, steps + [step], Next(s, step));
  }

  // ----- streams as the application sees them -----

  /** Messages delivered on stream `sid`, in delivery order. */
  function DeliveredOn(out: seq<Message>, sid: nat): seq<Message> {
    if out == [] then []
    else DeliveredOn(out[..|out| - 1], sid) + if out[|out| - 1].sid == sid then [out[|out| - 1]] else []
  }

  function AsMessage(a: Accepted): Message {
    Message(a.sid, a.ppid, a.data)
  }

  /** Messages accepted for sending on stream `sid`, in sending order. */
  function AcceptedOn(accepted: seq<Accepted>, sid: nat): seq<Message> {
    if accepted == [] then []
    else AcceptedOn(accepted[..|accepted| - 1], sid) +
         if accepted[|accepted| - 1].sid == sid then [AsMessage(accepted[|accepted| - 1])] else []
  }

  predicate OrderedStream(accepted: seq<Accepted>, sid: nat) {
    forall m | 0 <= m < |accepted| && accepted[m].sid == sid :: !accepted[m].unordered
  }

  predicate ReliableStream(accepted: seq<Accepted>, sid: nat) {
    forall m | 0 <= m < |accepted| && accepted[m].sid == sid :: accepted[m].reliable
  }

  function Contents(accepted: seq<Accepted>, ms: seq<nat>): (r: seq<Message>)
    requires forall k | 0 <= k < |ms| :: ms[k] < |accepted|
    ensures |r| == |ms|
  {
    seq(|ms|, k requires 0 <= k < |ms| => AsMessage(accepted[ms[k]]))
  }

  lemma {:induction false} AcceptedOnContents(accepted: seq<Accepted>, n: nat, sid: nat)
    requires n <= |accepted| && OrderedStream(accepted, sid)
    ensures var ms := OrderedOn(accepted[..n], sid);
            (forall k | 0 <= k < |ms| :: ms[k] < n) && AcceptedOn(accepted[..n], sid) == Contents(accepted, ms)
  {
    if n > 0 {
      AcceptedOnContents(accepted, n - 1, sid);
      assert accepted[..n][..n - 1] == accepted[..n - 1];
    }
  }

  lemma {:induction false} DeliveredOnContents(s: System, log: seq<nat>, n: nat, sid: nat)
    requires OutOk(s, log) && n <= |log| && OrderedStream(s.history.accepted, sid)
    ensures var ms := LogOn(s.history, log[..n], sid);
            (forall k | 0 <= k < |ms| :: ms[k] < |s.history.accepted|) &&
            DeliveredOn(s.out[..n], sid) == Contents(s.history.accepted, ms)
  {
    if n > 0 {
      DeliveredOnContents(s, log, n - 1, sid);
      assert log[..n][..n - 1] == log[..n - 1] && s.out[..n][..n - 1] == s.out[..n - 1];
    }
  }

  lemma NotSkippable(h: History, abandoned: set<nat>, sid: nat)
    requires AbandonedOk(h, abandoned) && ReliableStream(h.accepted, sid)
    ensures sid !in Skippable(h, abandoned)
  {
  }

  /** On an ordered, reliable stream the messages delivered so far are, byte for
      byte, the first of those accepted: none lost in between, none twice, none altered. */
  lemma ReliableStreamIsPrefix(s: System, sid: nat)
    requires Reachable(s)
    requires OrderedStream(s.history.accepted, sid) && ReliableStream(s.history.accepted, sid)
    ensures DeliveredOn(s.out, sid) <= AcceptedOn(s.history.accepted, sid)
  {
    var h := s.history;
    var abandoned, log := ReachableInv(s);
    NotSkippable(h, abandoned, sid);
    assert PrefixOk(h, s.rx.streams, log, sid);
    assert s.out[..|s.out|] == s.out && log[..|log|] == log && h.accepted[..|h.accepted|] == h.accepted;
    DeliveredOnContents(s, log, |log|, sid);
    AcceptedOnContents(h.accepted, |h.accepted|, sid);
    var n := SsnOf(s.rx.streams, sid);
    assert Contents(h.accepted, OrderedOn(h.accepted, sid)[..n]) == Contents(h.accepted, OrderedOn(h.accepted, sid))[..n];
  }

  /** `from` says which accepted message each delivery is. */
  ghost predicate Explains(s: System, from: seq<nat>) {
    && |from| == |s.out|
    && (forall k | 0 <= k < |from| :: from[k] < |s.history.accepted| && s.out[k] == AsMessage(s.history.accepted[from[k]]))
    && (forall j, k | 0 <= j < k < |from| :: from[j] != from[k])
    && (forall j, k | 0 <= j < k < |from| && !s.history.accepted[from[j]].unordered && !s.history.accepted[from[k]].unordered
          && s.history.accepted[from[j]].sid == s.history.accepted[from[k]].sid :: from[j] < from[k])
  }

  /** On every stream, reliable or not, each delivery is one accepted message,
      unchanged; no message is delivered twice; ordered messages of one stream
      come out in the order in which they were accepted. */
  lemma DeliveriesAreExplained(s: System)
    requires Reachable(s)
    ensures exists from :: Explains(s, from)
  {
    var abandoned, log := ReachableInv(s);
    ExplainedBy(s, abandoned, log);
  }

  /** The delivery log explains the output. */
  lemma ExplainedBy(s: System, abandoned: set<nat>, log: seq<nat>)
    requires Inv(s, abandoned, log)
    ensures Explains(s, log)
  {
    forall j, k | 0 <= j < k < |log| && !s.history.accepted[log[j]].unordered && !s.history.accepted[log[k]].unordered
      && s.history.accepted[log[j]].sid == s.history.accepted[log[k]].sid
      ensures log[j] < log[k]
    {
      assert OnStream(s.history, log[j], s.history.accepted[log[j]].sid);
      assert OnStream(s.history, log[k], s.history.accepted[log[j]].sid);
    }
  }

  /** A TSN of a reliable message is never acknowledged unless its bytes arrived. */
  lemma ReliableNeverSkipped(s: System, t: nat)
    requires Reachable(s) && t < |s.history.owner| && s.history.owner[t] < |s.history.accepted|
    requires s.history.accepted[s.history.owner[t]].reliable && Acked(s.rx, t)
    ensures t in s.received
  {
    var abandoned, log := ReachableInv(s);
  }

  // ----- partial reliability -----

  /** Queue positions `j` and `k` hold fragments of one message. */
  predicate SameMessage(s: System, j: nat, k: nat)
    requires j < |s.tx.queue| && k < |s.tx.queue|
  {
    && 0 <= s.tx.queue[j].chunk.tsn < |s.history.owner| && 0 <= s.tx.queue[k].chunk.tsn < |s.history.owner|
    && s.history.owner[s.tx.queue[j].chunk.tsn] == s.history.owner[s.tx.queue[k].chunk.tsn]
  }

  /** Queued TSNs are consecutive, a message is abandoned whole, and a message
      sent without a retry limit is never abandoned. */
  lemma AbandonmentIsWhole(s: System, j: nat, k: nat)
    requires Reachable(s) && j < |s.tx.queue| && k < |s.tx.queue|
    ensures s.tx.queue[k].chunk.tsn - s.tx.queue[j].chunk.tsn == k - j
    ensures SameMessage(s, j, k) ==> s.tx.queue[j].abandoned == s.tx.queue[k].abandoned
    ensures s.tx.queue[j].maxRetransmits == -1 ==> !s.tx.queue[j].abandoned
  {
    var abandoned, log := ReachableInv(s);
    QueuedTsn(s.history, abandoned, s.tx.queue, j);
    QueuedTsn(s.history, abandoned, s.tx.queue, k);
    assert QueuedOk(s.history, abandoned, s.tx.queue, j) && QueuedOk(s.history, abandoned, s.tx.queue, k);
  }

  /** The first queued fragment that is neither acknowledged nor abandoned. */
  predicate Unsettled(s: System, k: nat) {
    k < |s.tx.queue| && !s.tx.queue[k].acked && !s.tx.queue[k].abandoned
  }

  /** Every FORWARD TSN about to be sent stops at a message end, before the first
      fragment that is neither acknowledged nor abandoned. */
  lemma ForwardStopsAtMessageEnd(s: System)
    requires Reachable(s) && PollOutput(s.tx).1.SendForward?
    ensures var t := PollOutput(s.tx).1.newTsn;
            && 0 <= t < |s.history.chunks| && s.history.chunks[t].end
            && forall k: nat | Unsettled(s, k) :: t < s.tx.queue[k].chunk.tsn
  {
    var abandoned, log := ReachableInv(s);
    ForwardOutputOk(s.history, abandoned, s.tx);
    DataOutputOk(s.history, abandoned, s.tx);
    DataOutputOk(s.history, abandoned, ForwardOutput(s.tx).0);
    var t := PollOutput(s.tx).1.newTsn;
    forall k: nat | Unsettled(s, k) ensures t < s.tx.queue[k].chunk.tsn {
      QueuedTsn(s.history, abandoned, s.tx.queue, k);
      assert QueuedOk(s.history, abandoned, s.tx.queue, k);
    }
  }

  /** A FORWARD TSN in the network never passes a reliable message that the
      receiver has not acknowledged. */
  lemma ForwardSkipsOnlyAbandoned(s: System, newTsn: int, skips: seq<Stream>, t: nat)
    requires Reachable(s) && ForwardPacket(newTsn, skips) in s.net
    requires t <= newTsn && t < |s.history.owner| && s.history.owner[t] < |s.history.accepted|
    requires s.history.accepted[s.history.owner[t]].reliable
    ensures t <= s.rx.cum
  {
    var abandoned, log := ReachableInv(s);
    assert PacketOk(s, abandoned, ForwardPacket(newTsn, skips));
  }

  // ----- acknowledgements -----

  /** Between these endpoints every SACK passes the peer's validation and
      reports held TSNs only. */
  lemma SacksAreGenuine(s: System)
    requires Reachable(s)
    ensures ValidGaps(SackGaps(s.rx), 0) && Genuine(s.rx.slots, s.rx.cum, SackGaps(s.rx))
  {
    var abandoned, log := ReachableInv(s);
    forall i, j | 0 <= i < j < |s.rx.slots| && s.rx.slots[i].Some? && s.rx.slots[j].Some? && s.rx.slots[i].value.tsn > s.rx.cum
      ensures s.rx.slots[i].value.tsn != s.rx.slots[j].value.tsn
    {
      assert Apart(s.rx.slots[i].value, s.rx.slots[j].value);
      assert EntryOk(s.history, s.rx.cum, s.rx.slots[i].value) && EntryOk(s.history, s.rx.cum, s.rx.slots[j].value);
    }
    HeldSorted(s.rx);
    forall k | 0 <= k < |Held(s.rx)| ensures Held(s.rx)[k] - s.rx.cum < WRAP {
      assert Held(s.rx)[k] in Held(s.rx);
      var i :| 0 <= i < |s.rx.slots| && s.rx.slots[i].Some? && s.rx.slots[i].value.tsn == Held(s.rx)[k];
      assert EntryOk(s.history, s.rx.cum, s.rx.slots[i].value);
    }
    SackInWindow(s.rx);
  }

  // ----- the leading chunk -----

  predicate PayloadsFit(chunks: seq<Chunk>) {
    forall t | 0 <= t < |chunks| :: |chunks[t].payload| <= MTU_PAYLOAD
  }

  lemma {:induction false} FragmentsFit(p: Plan, rest: seq<Byte>, i: nat, q: Queue)
    requires i <= p.count && q == Fragments(p, rest, i)
    ensures forall k | 0 <= k < |q| :: |q[k].chunk.payload| <= MTU_PAYLOAD
    decreases p.count - i
  {
    if i < p.count {
      var n := if |rest| > MTU_PAYLOAD then MTU_PAYLOAD else |rest|;
      FragmentsFit(p, rest[n..], i + 1, q[1..]);
      assert forall k | 0 < k < |q| :: q[k] == q[1..][k - 1];
    }
  }

  lemma SubmitFits(s: System, r: Request)
    requires PayloadsFit(s.history.chunks)
    ensures PayloadsFit(SubmitHistory(s.history, s.tx, r).chunks)
  {
    if Send(s.tx, r).1 == Ok {
      FragmentsFit(PlanFor(s.tx, r), r.data, 0, Fragments(PlanFor(s.tx, r), r.data, 0));
    }
  }

  /** No chunk is ever larger than a packet can carry. */
  lemma {:induction false} RunFits(s: System, steps: seq<Step>)
    requires Runnable(s, steps) && PayloadsFit(s.history.chunks)
    ensures PayloadsFit(Run(s, steps).history.chunks)
    decreases |steps|
  {
    if steps != [] {
      if steps[0].Submit? { SubmitFits(s, steps[0].request); }
      RunFits(Next(s, steps[0]), steps[1..]);
    }
  }

  lemma ReachableFits(s: System)
    requires Reachable(s)
    ensures PayloadsFit(s.history.chunks)
  {
    var peerForward: bool, peerMax: nat, now: nat, rto: nat, steps: seq<Step> :| Leads(peerForward, peerMax, now, rto, steps, s);
    RunFits(Initial(peerForward, peerMax, now, rto), steps);
  }

  /** A held predecessor of the sender's chunk belongs to the same message. */
  lemma PredecessorFollows(h: History, cum: int, e: Entry, c: Chunk)
    requires HistoryOk(h) && EntryOk(h, cum, e) && !e.end && e.tsn + 1 == c.tsn
    requires 0 <= c.tsn < |h.chunks| && c == h.chunks[c.tsn]
    ensures Follows(e, Incoming(c)) && h.owner[c.tsn] == h.owner[e.tsn]
  {
    var a := h.accepted[h.owner[e.tsn]];
    NextOwner(h, e.tsn);
    assert ChunkOk(a, h.chunks[e.tsn], e.tsn) && ChunkOk(a, c, c.tsn);
  }

  /** A run of fragments of one message is no longer than the message. */
  lemma PartFits(h: History, lo: int, hi: int)
    requires HistoryOk(h) && 0 <= lo <= hi < |h.chunks| && h.owner[lo] == h.owner[hi]
    ensures |Payloads(h.chunks, lo, hi + 1)| <= MAX_MESSAGE_SIZE
  {
    var m := h.owner[lo];
    var a := h.accepted[m];
    assert MessageOk(h, m) && ChunkOk(a, h.chunks[lo], lo) && ChunkOk(a, h.chunks[hi], hi);
    PayloadsSplit(h.chunks, a.first, lo, a.last + 1);
    PayloadsSplit(h.chunks, lo, hi + 1, a.last + 1);
  }

  lemma PredecessorFits(h: History, cum: int, e: Entry, c: Chunk)
    requires HistoryOk(h) && EntryOk(h, cum, e) && !e.end && !e.delivered && e.tsn + 1 == c.tsn
    requires 0 <= c.tsn < |h.chunks| && c == h.chunks[c.tsn]
    ensures Follows(e, Incoming(c)) && |e.data| + |c.payload| <= MAX_MESSAGE_SIZE
  {
    PredecessorFollows(h, cum, e, c);
    PartFits(h, e.first, c.tsn);
    assert Payloads(h.chunks, e.first, c.tsn + 1) == Payloads(h.chunks, e.first, c.tsn) + c.payload;
  }

  /** The sender's own chunks never contradict a held fragment. */
  lemma GenuineNeverFails(h: History, v: Receiver, c: Chunk)
    requires HistoryOk(h) && TableOk(h, v) && 0 <= c.tsn < |h.chunks| && c == h.chunks[c.tsn]
    ensures FragmentError(v.slots, Incoming(c), 0) == Ok
  {
    forall k | 0 <= k < |v.slots| && Precedes(v.slots, k, Incoming(c))
      ensures Follows(v.slots[k].value, Incoming(c)) && |v.slots[k].value.data| + |Incoming(c).data| <= MAX_MESSAGE_SIZE
    {
      PredecessorFits(h, v.cum, v.slots[k].value, c);
    }
  }

  /** The window stays open for the packet that everything waits for: once an out-of-order chunk was
      stored, the chunk after the cumulative TSN is stored and acknowledged when it arrives next. */
  lemma LeadingChunkIsStored(s: System, c: Chunk, next: Chunk, t: System)
    requires Reachable(s) && DataPacket(c) in s.net && Accepts(s.rx, c) && c.tsn != s.rx.cum + 1
    requires t == Next(s, Arrive(DataPacket(c)))
    requires DataPacket(next) in t.net && next.tsn == t.rx.cum + 1 && Known(t.rx.streams, next.sid)
    ensures Accepts(t.rx, next) && Acked(Next(t, Arrive(DataPacket(next))).rx, next.tsn)
  {
    ReachableMore(s, Arrive(DataPacket(c)));
    var abandoned, log := ReachableInv(t);
    ReachableFits(t);
    assert PacketOk(t, abandoned, DataPacket(next));
    NeverFailsReclaimed(t, abandoned, log, next);
    LeadingChunkFits(s.rx, c, next);
  }

  lemma NeverFailsReclaimed(s: System, abandoned: set<nat>, log: seq<nat>, c: Chunk)
    requires Inv(s, abandoned, log) && 0 <= c.tsn < |s.history.chunks| && c == s.history.chunks[c.tsn]
    ensures FragmentError(Reclaim(s.rx.(sackNeeded := true)).slots, Incoming(c), 0) == Ok
  {
    var v := s.rx.(sackNeeded := true);
    SameSsnKeeps(s.history, Skippable(s.history, abandoned), s.rx, v, log);
    ReclaimKeeps(s.history, Skippable(s.history, abandoned), v, log);
    GenuineNeverFails(s.history, Reclaim(v), c);
  }
}
