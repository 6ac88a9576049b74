/** The wire numbers of a run: as long as what arrives and what is held is recent, every comparison
    of TSNs and of stream sequence numbers in a step has its unbounded meaning. */
module SctpWindow {
  import opened SctpTypes
  import opened SctpHistory
  import opened SctpReceiver
  import opened SctpDelivery
  import opened SctpDeliverStep
  import opened SctpSender
  import opened SctpSending
  import opened SctpSystem
  import opened SctpTheorems
  import opened SctpSerial

  const TSN_HALF: nat := 0x8000_0000
  const SSN_HALF: nat := 0x8000

  // ----- TSNs -----

  /** The TSN comes in from the network, */
  predicate Arriving(step: Step, t: int) {
    step.Arrive? && t == match step.packet
                         case DataPacket(c) => c.tsn
                         case ForwardPacket(newTsn, _) => newTsn
                         case SackPacket(cum, _) => cum
  }

  /** or it is queued for sending. */
  predicate Queued(v: Sender, t: int) {
    exists k | 0 <= k < |v.queue| :: v.queue[k].chunk.tsn == t
  }

  /** The TSNs that a step compares, or their successors: every cumulative and merged TSN that it
      passes through is one of these. */
  predicate Compared(x: System, step: Step, t: int) {
    t == x.rx.cum || Holds(x.rx.slots, t) || Arriving(step, t) || Queued(x.tx, t)
  }

  /** What arrives and what is held is less than half the number space behind the sender. */
  ghost predicate RecentTsns(x: System, step: Step) {
    forall t | Holds(x.rx.slots, t) || Arriving(step, t) :: x.tx.nextTsn - t < TSN_HALF
  }

  lemma ComparedBounds(x: System, step: Step, abandoned: set<nat>, log: seq<nat>, t: int)
    requires Inv(x, abandoned, log) && Enabled(x, step) && RecentTsns(x, step) && Compared(x, step, t)
    ensures t < x.tx.nextTsn && x.tx.nextTsn - t < TSN_HALF
  {
    if t == x.rx.cum {
    } else if Holds(x.rx.slots, t) {
      var i :| 0 <= i < |x.rx.slots| && x.rx.slots[i].Some? && x.rx.slots[i].value.tsn == t;
      assert EntryOk(x.history, x.rx.cum, x.rx.slots[i].value);
    } else if Arriving(step, t) {
      assert PacketOk(x, abandoned, step.packet);
    } else {
      var k :| 0 <= k < |x.tx.queue| && x.tx.queue[k].chunk.tsn == t;
      QueuedTsn(x.history, abandoned, x.tx.queue, k);
    }
  }

  /** Every TSN comparison of a step agrees with that of the low 32 bits: difference,
      equality, and equality of successors. */
  lemma TsnsAgree(x: System, step: Step, s: int, t: int)
    requires Reachable(x) && Enabled(x, step) && RecentTsns(x, step) && Compared(x, step, s) && Compared(x, step, t)
    ensures TsnDiff(s % 0x1_0000_0000, t % 0x1_0000_0000) == s - t
    ensures s % 0x1_0000_0000 == t % 0x1_0000_0000 <==> s == t
    ensures (s + 1) % 0x1_0000_0000 == t % 0x1_0000_0000 <==> s + 1 == t
  {
    var abandoned, log := ReachableInv(x);
    ComparedBounds(x, step, abandoned, log, s);
    ComparedBounds(x, step, abandoned, log, t);
    TsnDiffIff(s, t);
    TsnOrder(s, t);
    TsnOrder(s + 1, t);
  }

  // ----- stream sequence numbers -----

  predicate HeldSsn(v: Receiver, sid: nat, n: nat) {
    exists i | 0 <= i < |v.slots| ::
      v.slots[i].Some? && !v.slots[i].value.unordered && v.slots[i].value.sid == sid && v.slots[i].value.ssn == n
  }

  predicate SkippedSsn(step: Step, sid: nat, n: nat) {
    step.Arrive? && step.packet.ForwardPacket? && exists k | 0 <= k < |step.packet.skips| :: step.packet.skips[k] == Stream(sid, n)
  }

  /** The sequence numbers of stream `sid` that a step compares. */
  predicate ComparedSsn(x: System, step: Step, sid: nat, n: nat) {
    n == SsnOf(x.rx.streams, sid) || HeldSsn(x.rx, sid, n) || SkippedSsn(step, sid, n)
  }

  /** These are less than half the number space behind the sender. */
  ghost predicate RecentSsns(x: System, step: Step, sid: nat) {
    forall n: nat | ComparedSsn(x, step, sid, n) :: SsnOf(x.tx.streams, sid) - n < SSN_HALF
  }

  /** A message's sequence number is below its stream's count. */
  lemma SsnBelowCount(h: History, m: nat)
    requires HistoryOk(h) && m < |h.accepted| && !h.accepted[m].unordered
    ensures h.accepted[m].ssn < |OrderedOn(h.accepted, h.accepted[m].sid)|
  {
    assert MessageOk(h, m);
    OrderedOnPosition(h.accepted, m);
  }

  lemma ComparedSsnBound(x: System, step: Step, abandoned: set<nat>, log: seq<nat>, sid: nat, n: nat)
    requires Inv(x, abandoned, log) && Enabled(x, step) && ComparedSsn(x, step, sid, n)
    ensures n <= SsnOf(x.tx.streams, sid)
  {
    var h := x.history;
    assert BoundOk(h, x.rx.streams, sid);
    if n != SsnOf(x.rx.streams, sid) {
      if HeldSsn(x.rx, sid, n) {
        var i :| 0 <= i < |x.rx.slots| && x.rx.slots[i].Some? && !x.rx.slots[i].value.unordered
                 && x.rx.slots[i].value.sid == sid && x.rx.slots[i].value.ssn == n;
        HeldBelowCount(h, x.rx.cum, x.rx.slots[i].value);
      } else {
        assert PacketOk(x, abandoned, step.packet);
        var k :| 0 <= k < |step.packet.skips| && step.packet.skips[k] == Stream(sid, n);
        assert SkipOk(h, Skippable(h, abandoned), step.packet.newTsn, step.packet.skips[k]);
        var m :| 0 <= m < |h.accepted| && OnStream(h, m, sid) && h.accepted[m].ssn == n && h.accepted[m].last <= step.packet.newTsn;
        SsnBelowCount(h, m);
      }
    }
  }

  lemma HeldBelowCount(h: History, cum: int, e: Entry)
    requires HistoryOk(h) && EntryOk(h, cum, e) && !e.unordered
    ensures e.ssn < |OrderedOn(h.accepted, e.sid)|
  {
    var m := h.owner[e.tsn];
    assert ChunkOk(h.accepted[m], h.chunks[e.tsn], e.tsn);
    SsnBelowCount(h, m);
  }

  /** Every comparison of sequence numbers of one stream in a step agrees with that of the low 16 bits. */
  lemma SsnsAgree(x: System, step: Step, sid: nat, m: nat, n: nat)
    requires Reachable(x) && Enabled(x, step) && RecentSsns(x, step, sid)
    requires ComparedSsn(x, step, sid, m) && ComparedSsn(x, step, sid, n)
    ensures SsnDiff(m % 0x1_0000, n % 0x1_0000) == m - n
    ensures m % 0x1_0000 == n % 0x1_0000 <==> m == n
  {
    var abandoned, log := ReachableInv(x);
    ComparedSsnBound(x, step, abandoned, log, sid, m);
    ComparedSsnBound(x, step, abandoned, log, sid, n);
    SsnDiffIff(m, n);
    SctpSerial.SsnOrder(m, n);
  }
}
