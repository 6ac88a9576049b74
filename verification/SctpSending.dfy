/** Invariants of the sender against the history of accepted messages.
    `abandoned` holds the messages the sender has given up on. */
module SctpSending {
  import opened SctpTypes
  import opened SctpHistory
  import opened SctpSender
  import opened SctpDelivery
  import opened SctpDeliverStep

  /** The TSN of the first queued fragment. */
  function Base(h: History, queue: Queue): int {
    |h.chunks| - |queue|
  }

  /** Queued fragment `k` is the chunk of its TSN; its flags say what became of its message. */
  ghost predicate QueuedOk(h: History, abandoned: set<nat>, queue: Queue, k: nat)
    requires |h.owner| == |h.chunks| && |queue| <= |h.chunks| && k < |queue|
  {
    var t := Base(h, queue) + k;
    && queue[k].chunk == h.chunks[t] && !queue[k].acked && -1 <= queue[k].maxRetransmits
    && h.owner[t] < |h.accepted|
    && (queue[k].abandoned <==> h.owner[t] in abandoned)
    && (queue[k].maxRetransmits == -1 <==> h.accepted[h.owner[t]].reliable)
  }

  ghost predicate QueueOk(h: History, abandoned: set<nat>, queue: Queue) {
    && |h.owner| == |h.chunks| && |queue| <= |h.chunks|
    && (forall k | 0 <= k < |queue| :: QueuedOk(h, abandoned, queue, k))
  }

  ghost predicate AbandonedOk(h: History, abandoned: set<nat>) {
    forall m | m in abandoned :: m < |h.accepted| && !h.accepted[m].reliable
  }

  ghost predicate SenderOk(h: History, abandoned: set<nat>, v: Sender) {
    && HistoryOk(h) && v.nextTsn == |h.chunks|
    && QueueOk(h, abandoned, v.queue) && |v.queue| <= MAX_SEND_QUEUE && AbandonedOk(h, abandoned)
    && (forall sid: nat :: SsnOf(v.streams, sid) == |OrderedOn(h.accepted, sid)|)
  }

  /** Streams on which an ordered message has been abandoned. */
  ghost function Skippable(h: History, abandoned: set<nat>): set<nat> {
    set m | m in abandoned && m < |h.accepted| && !h.accepted[m].unordered :: h.accepted[m].sid
  }

  // ----- abandoning -----

  /** Two TSNs belong to one message exactly when no last fragment separates them. */
  lemma {:induction false} SameOwnerIff(h: History, lo: int, hi: int)
    requires HistoryOk(h) && 0 <= lo <= hi < |h.chunks|
    ensures h.owner[lo] == h.owner[hi] <==> forall t | lo <= t < hi :: !h.chunks[t].end
    decreases hi - lo
  {
    if lo < hi {
      assert ChunkOk(h.accepted[h.owner[lo]], h.chunks[lo], lo);
      assert ChunkOk(h.accepted[h.owner[hi]], h.chunks[hi], hi);
      if h.chunks[lo].end {
        assert h.owner[lo] != h.owner[hi];
      } else {
        NextOwner(h, lo);
        SameOwnerIff(h, lo + 1, hi);
      }
    }
  }

  lemma {:induction false} AbandonRunAt(queue: Queue, i: nat, k: nat)
    requires i <= |queue| && k < |queue|
    ensures AbandonRun(queue, i)[k] ==
            queue[k].(abandoned := queue[k].abandoned || (i <= k && forall l | i <= l < k :: !queue[l].chunk.end))
    decreases |queue| - i
  {
    if i < |queue| {
      var q := queue[i := queue[i].(abandoned := true)];
      if !queue[i].chunk.end {
        AbandonRunAt(q, i + 1, k);
        assert forall l | i < l < k :: q[l] == queue[l];
      }
    }
  }

  /** Position `f` is where the queued part of fragment i's message begins. */
  lemma FirstOfMessage(h: History, abandoned: set<nat>, queue: Queue, i: nat)
    requires HistoryOk(h) && QueueOk(h, abandoned, queue) && i < |queue|
    ensures var b, f := Base(h, queue), FirstOf(queue, i);
            h.owner[b + f] == h.owner[b + i] && (f == 0 || h.chunks[b + f].begin)
  {
    var b, f := Base(h, queue), FirstOf(queue, i);
    assert QueuedOk(h, abandoned, queue, f);
    forall t | b + f < t <= b + i ensures !h.chunks[t].begin { assert QueuedOk(h, abandoned, queue, t - b); }
    NoEndBefore(h, b + f, b + i);
    SameOwnerIff(h, b + f, b + i);
  }

  /** A fragment behind `f` is of the same message when no queued last fragment lies between. */
  lemma SameMessageAfter(h: History, abandoned: set<nat>, queue: Queue, f: nat, k: nat)
    requires HistoryOk(h) && QueueOk(h, abandoned, queue) && f <= k < |queue|
    ensures h.owner[Base(h, queue) + f] == h.owner[Base(h, queue) + k] <==> forall l | f <= l < k :: !queue[l].chunk.end
  {
    var b := Base(h, queue);
    forall l | f <= l < k ensures queue[l].chunk == h.chunks[b + l] { assert QueuedOk(h, abandoned, queue, l); }
    assert forall t | b + f <= t < b + k :: h.chunks[t] == queue[t - b].chunk;
    SameOwnerIff(h, b + f, b + k);
  }

  lemma OtherMessageBefore(h: History, abandoned: set<nat>, queue: Queue, f: nat, k: nat)
    requires HistoryOk(h) && QueueOk(h, abandoned, queue) && k < f < |queue| && h.chunks[Base(h, queue) + f].begin
    ensures h.owner[Base(h, queue) + f] != h.owner[Base(h, queue) + k]
  {
    var b := Base(h, queue);
    assert ChunkOk(h.accepted[h.owner[b + f]], h.chunks[b + f], b + f);
    assert ChunkOk(h.accepted[h.owner[b + k]], h.chunks[b + k], b + k);
  }

  /** Abandoning flags exactly the queued fragments of one message. */
  lemma AbandonAt(h: History, abandoned: set<nat>, queue: Queue, i: nat, k: nat)
    requires HistoryOk(h) && QueueOk(h, abandoned, queue) && i < |queue| && k < |queue|
    ensures Abandon(queue, i)[k] == queue[k].(abandoned := queue[k].abandoned ||
              h.owner[Base(h, queue) + k] == h.owner[Base(h, queue) + i])
  {
    var f := FirstOf(queue, i);
    AbandonRunAt(queue, f, k);
    FirstOfMessage(h, abandoned, queue, i);
    if f <= k { SameMessageAfter(h, abandoned, queue, f, k); } else { OtherMessageBefore(h, abandoned, queue, f, k); }
  }

  /** The fragment after a last one is a first one. */
  lemma BeginAfterEnd(h: History, t: int)
    requires HistoryOk(h) && 0 <= t && t + 1 < |h.chunks| && h.chunks[t].end
    ensures h.chunks[t + 1].begin
  {
    var a := h.accepted[h.owner[t + 1]];
    assert ChunkOk(h.accepted[h.owner[t]], h.chunks[t], t) && ChunkOk(a, h.chunks[t + 1], t + 1);
    assert MessageOk(h, h.owner[t + 1]);
    assert forall u | a.first <= u <= a.last :: h.owner[u] == h.owner[t + 1];
  }

  /** Without a first fragment after `lo`, no last fragment lies before `hi`. */
  lemma NoEndBefore(h: History, lo: int, hi: int)
    requires HistoryOk(h) && 0 <= lo <= hi < |h.chunks|
    requires forall t | lo < t <= hi :: !h.chunks[t].begin
    ensures forall t | lo <= t < hi :: !h.chunks[t].end
  {
    forall t | lo <= t < hi ensures !h.chunks[t].end {
      assert !h.chunks[t + 1].begin;
      if h.chunks[t].end { BeginAfterEnd(h, t); assert false; }
    }
  }

  lemma AbandonKeeps(h: History, abandoned: set<nat>, queue: Queue, i: nat)
    requires HistoryOk(h) && QueueOk(h, abandoned, queue) && i < |queue|
    ensures QueueOk(h, abandoned + {h.owner[Base(h, queue) + i]}, Abandon(queue, i))
  {
    var q, more := Abandon(queue, i), abandoned + {h.owner[Base(h, queue) + i]};
    forall k | 0 <= k < |q| ensures QueuedOk(h, more, q, k) {
      assert QueuedOk(h, abandoned, queue, k);
      AbandonAt(h, abandoned, queue, i, k);
    }
  }

  /** Changing the transmission fields of one queued fragment. */
  lemma TouchKeeps(h: History, abandoned: set<nat>, queue: Queue, i: nat, e: SendEntry)
    requires QueueOk(h, abandoned, queue) && i < |queue|
    requires e.chunk == queue[i].chunk && e.maxRetransmits == queue[i].maxRetransmits
    requires e.acked == queue[i].acked && e.abandoned == queue[i].abandoned
    ensures QueueOk(h, abandoned, queue[i := e])
  {
    var q := queue[i := e];
    forall k | 0 <= k < |q| ensures QueuedOk(h, abandoned, q, k) {
      assert QueuedOk(h, abandoned, queue, k);
    }
  }

  // ----- SACK -----

  lemma {:induction false} OvertakenKeeps(h: History, abandoned: set<nat>, queue: Queue, i: nat, cum: int, highest: int, gaps: seq<Gap>)
    returns (more: set<nat>)
    requires HistoryOk(h) && QueueOk(h, abandoned, queue) && AbandonedOk(h, abandoned) && i <= |queue|
    ensures abandoned <= more && AbandonedOk(h, more)
    ensures QueueOk(h, more, AbandonOvertaken(queue, i, cum, highest, gaps))
    decreases |queue| - i
  {
    more := abandoned;
    if i < |queue| {
      if Overtaken(queue[i], cum, highest, gaps) {
        assert QueuedOk(h, abandoned, queue, i);
        AbandonKeeps(h, abandoned, queue, i);
        more := OvertakenKeeps(h, abandoned + {h.owner[Base(h, queue) + i]}, Abandon(queue, i), i + 1, cum, highest, gaps);
      } else {
        more := OvertakenKeeps(h, abandoned, queue, i + 1, cum, highest, gaps);
      }
    }
  }

  lemma QueuedTsn(h: History, abandoned: set<nat>, queue: Queue, k: nat)
    requires HistoryOk(h) && QueueOk(h, abandoned, queue) && k < |queue|
    ensures queue[k].chunk.tsn == Base(h, queue) + k && !queue[k].acked
  {
    var t := Base(h, queue) + k;
    assert QueuedOk(h, abandoned, queue, k);
    assert ChunkOk(h.accepted[h.owner[t]], h.chunks[t], t);
  }

  /** A queued suffix without acknowledged fragments is a consistent queue. */
  lemma SuffixKeeps(h: History, abandoned: set<nat>, queue: Queue, n: nat)
    requires QueueOk(h, abandoned, queue) && n <= |queue|
    ensures QueueOk(h, abandoned, queue[n..])
  {
    var r := queue[n..];
    forall k | 0 <= k < |r| ensures QueuedOk(h, abandoned, r, k) {
      assert QueuedOk(h, abandoned, queue, n + k);
    }
  }

  /** The queued fragments carry consecutive TSNs from `b` on and are not acknowledged. */
  predicate Numbered(queue: Queue, b: int) {
    forall k | 0 <= k < |queue| :: queue[k].chunk.tsn == b + k && !queue[k].acked
  }

  lemma NumberedTail(queue: Queue, b: int, cum: int)
    requires Numbered(queue, b) && queue != []
    ensures Numbered(queue[1..], b + 1) && MarkAcked(queue, cum)[1..] == MarkAcked(queue[1..], cum)
    ensures MarkAcked(queue, cum)[0].acked <==> b <= cum
  {
    forall k | 0 <= k < |queue[1..]| ensures queue[1..][k].chunk.tsn == b + 1 + k && !queue[1..][k].acked {
      assert queue[1..][k] == queue[k + 1];
    }
  }

  lemma NoneAcked(queue: Queue, b: int, cum: int)
    requires Numbered(queue, b) && b > cum
    ensures MarkAcked(queue, cum) == queue
  {
  }

  /** Acknowledging and popping a queue of consecutive TSNs leaves exactly those past `cum`. */
  lemma {:induction false} PoppedShape(queue: Queue, b: int, cum: int, marked: Queue) returns (n: nat)
    requires Numbered(queue, b) && marked == MarkAcked(queue, cum)
    ensures n <= |queue| && PopAcked(marked) == queue[n..] && (n == 0 || b + n <= cum + 1)
    decreases |queue|
  {
    n := 0;
    if queue != [] {
      NumberedTail(queue, b, cum);
      if b <= cum {
        n := PoppedShape(queue[1..], b + 1, cum, marked[1..]);
        assert queue[1..][n..] == queue[n + 1..];
        n := n + 1;
      } else {
        NoneAcked(queue, b, cum);
      }
    }
  }

  lemma AckedPrefix(h: History, abandoned: set<nat>, queue: Queue, cum: int) returns (n: nat)
    requires HistoryOk(h) && QueueOk(h, abandoned, queue)
    ensures n <= |queue| && PopAcked(MarkAcked(queue, cum)) == queue[n..] && QueueOk(h, abandoned, queue[n..])
    ensures n == 0 || Base(h, queue) + n <= cum + 1
  {
    forall k | 0 <= k < |queue| ensures queue[k].chunk.tsn == Base(h, queue) + k && !queue[k].acked {
      QueuedTsn(h, abandoned, queue, k);
    }
    n := PoppedShape(queue, Base(h, queue), cum, MarkAcked(queue, cum));
    SuffixKeeps(h, abandoned, queue, n);
  }

  lemma HandleSackKeeps(h: History, abandoned: set<nat>, v: Sender, cum: int, gaps: seq<Gap>) returns (more: set<nat>)
    requires SenderOk(h, abandoned, v) && cum < |h.chunks|
    ensures abandoned <= more && SenderOk(h, more, HandleSack(v, cum, gaps).0)
    ensures |HandleSack(v, cum, gaps).0.queue| == |v.queue| || Base(h, HandleSack(v, cum, gaps).0.queue) <= cum + 1
  {
    more := abandoned;
    if ValidGaps(gaps, 0) {
      var highest := HighestAcked(v.queue, 0, cum, cum, gaps);
      more := OvertakenKeeps(h, abandoned, v.queue, 0, cum, highest, gaps);
      var n := AckedPrefix(h, more, AbandonOvertaken(v.queue, 0, cum, highest, gaps), cum);
    }
  }

  // ----- timers -----

  lemma {:induction false} TimeoutKeeps(h: History, abandoned: set<nat>, v: Sender, i: nat) returns (more: set<nat>)
    requires SenderOk(h, abandoned, v) && i <= |v.queue|
    ensures abandoned <= more && SenderOk(h, more, TimeoutFrom(v, i).0)
    decreases |v.queue| - i
  {
    more := abandoned;
    if i < |v.queue| {
      var e := v.queue[i];
      if !TimedOut(e, v.now, v.rto) {
        more := TimeoutKeeps(h, abandoned, v, i + 1);
      } else if e.maxRetransmits >= 0 && e.retransmits >= e.maxRetransmits {
        assert QueuedOk(h, abandoned, v.queue, i);
        AbandonKeeps(h, abandoned, v.queue, i);
        more := TimeoutKeeps(h, abandoned + {h.owner[Base(h, v.queue) + i]},
                             v.(queue := Abandon(v.queue, i), forwardPending := true), i + 1);
      } else if !(e.maxRetransmits < 0 && e.retransmits >= MAX_RETRANSMITS) {
        var f := e.(inFlight := false, retransmits := e.retransmits + 1, sentAt := v.now);
        TouchKeeps(h, abandoned, v.queue, i, f);
        more := TimeoutKeeps(h, abandoned, v.(queue := v.queue[i := f], rto := Min(v.rto * 2, RTO_MAX_MS)), i + 1);
      }
    }
  }

  lemma HandleTimeoutKeeps(h: History, abandoned: set<nat>, v: Sender, now: nat) returns (more: set<nat>)
    requires SenderOk(h, abandoned, v)
    ensures abandoned <= more && SenderOk(h, more, HandleTimeout(v, now).0)
    ensures |HandleTimeout(v, now).0.queue| == |v.queue|
  {
    more := abandoned;
    if v.established { more := TimeoutKeeps(h, abandoned, v.(now := now), 0); }
  }

  // ----- output -----

  /** A FORWARD TSN stops at the end of a message, passes only acknowledged TSNs
      below `base` and abandoned ones, and names skips the receiver may trust. */
  ghost predicate ForwardOk(h: History, abandoned: set<nat>, base: int, newTsn: int, skips: seq<Stream>) {
    && |h.owner| == |h.chunks| && 0 <= newTsn < |h.chunks| && h.chunks[newTsn].end
    && (forall t | base <= t <= newTsn && 0 <= t :: h.owner[t] in abandoned)
    && (forall k | 0 <= k < |skips| :: SkipOk(h, Skippable(h, abandoned), newTsn, skips[k]))
  }

  lemma AddSkipOk(h: History, skippable: set<nat>, newTsn: int, skips: seq<Stream>, sid: nat, ssn: nat)
    requires forall k | 0 <= k < |skips| :: SkipOk(h, skippable, newTsn, skips[k])
    requires SkipOk(h, skippable, newTsn, Stream(sid, ssn))
    ensures var r := AddSkip(skips, sid, ssn); forall k | 0 <= k < |r| :: SkipOk(h, skippable, newTsn, r[k])
  {
  }

  lemma {:induction false} SkipRunOk(h: History, abandoned: set<nat>, queue: Queue, i: nat, skips: seq<Stream>, newTsn: int)
    requires HistoryOk(h) && QueueOk(h, abandoned, queue) && i <= |queue|
    requires newTsn == Base(h, queue) + SkipRun(queue, i, skips).0 - 1
    requires newTsn >= 0 ==> newTsn < |h.chunks| && h.chunks[newTsn].end
    requires forall k | 0 <= k < |skips| :: SkipOk(h, Skippable(h, abandoned), newTsn, skips[k])
    ensures var r := SkipRun(queue, i, skips).1;
            forall k | 0 <= k < |r| :: SkipOk(h, Skippable(h, abandoned), newTsn, r[k])
    decreases |queue| - i
  {
    if i < |queue| && (queue[i].acked || queue[i].abandoned) {
      var e := queue[i];
      if e.abandoned && !e.chunk.unordered {
        AbandonedSkip(h, abandoned, queue, i, newTsn);
        AddSkipOk(h, Skippable(h, abandoned), newTsn, skips, e.chunk.sid, e.chunk.ssn);
        SkipRunOk(h, abandoned, queue, i + 1, AddSkip(skips, e.chunk.sid, e.chunk.ssn), newTsn);
      } else {
        SkipRunOk(h, abandoned, queue, i + 1, skips, newTsn);
      }
    }
  }

  /** The message of an abandoned fragment that a FORWARD TSN passes. */
  lemma AbandonedSkip(h: History, abandoned: set<nat>, queue: Queue, i: nat, newTsn: int)
    requires HistoryOk(h) && QueueOk(h, abandoned, queue) && i < |queue| && queue[i].abandoned && !queue[i].chunk.unordered
    requires Base(h, queue) + i <= newTsn < |h.chunks| && h.chunks[newTsn].end
    ensures SkipOk(h, Skippable(h, abandoned), newTsn, Stream(queue[i].chunk.sid, queue[i].chunk.ssn))
  {
    assert QueuedOk(h, abandoned, queue, i);
    var t := Base(h, queue) + i;
    var m := h.owner[t];
    assert ChunkOk(h.accepted[m], h.chunks[t], t);
    EndsWithin(h, t, newTsn);
    assert OnStream(h, m, queue[i].chunk.sid);
  }

  /** A message with a fragment at or before a last fragment ends there at the latest. */
  lemma EndsWithin(h: History, t: int, end: int)
    requires HistoryOk(h) && 0 <= t <= end < |h.chunks| && h.chunks[end].end
    ensures h.accepted[h.owner[t]].last <= end
  {
    var m, n := h.owner[t], h.owner[end];
    assert ChunkOk(h.accepted[m], h.chunks[t], t) && ChunkOk(h.accepted[n], h.chunks[end], end);
    assert MessageOk(h, m);
    var l := h.accepted[m].last;
    assert h.owner[l] == m;
    assert h.owner[t] <= h.owner[end];
    assert forall u | end <= u < |h.chunks| :: h.owner[end] <= h.owner[u];
  }

  /** The run of abandoned fragments at the front of the queue ends with a last fragment. */
  lemma RunEndsMessage(h: History, abandoned: set<nat>, queue: Queue, n: nat)
    requires HistoryOk(h) && QueueOk(h, abandoned, queue) && 0 < n <= |queue|
    requires queue[n - 1].abandoned && (n < |queue| ==> !queue[n].abandoned)
    ensures h.chunks[Base(h, queue) + n - 1].end
  {
    var t := Base(h, queue) + n - 1;
    assert QueuedOk(h, abandoned, queue, n - 1);
    if n < |queue| { assert QueuedOk(h, abandoned, queue, n); }
    EndOrNext(h, t);
  }

  lemma EndOrNext(h: History, t: int)
    requires HistoryOk(h) && 0 <= t < |h.chunks|
    ensures h.chunks[t].end || (t + 1 < |h.chunks| && h.owner[t + 1] == h.owner[t])
  {
    if !h.chunks[t].end { NextOwner(h, t); }
  }

  lemma SkippedAreAbandoned(h: History, abandoned: set<nat>, v: Sender, t: int)
    requires SenderOk(h, abandoned, v)
    requires Base(h, v.queue) <= t < Base(h, v.queue) + SkipRun(v.queue, 0, []).0
    ensures 0 <= t < |h.owner| && h.owner[t] in abandoned
  {
    assert QueuedOk(h, abandoned, v.queue, t - Base(h, v.queue));
  }

  lemma ForwardRunOk(h: History, abandoned: set<nat>, v: Sender, n: nat, skips: seq<Stream>)
    requires SenderOk(h, abandoned, v) && SkipRun(v.queue, 0, []) == (n, skips) && n > 0
    requires exists k | 0 <= k < n :: v.queue[k].abandoned
    ensures v.queue[n - 1].chunk.tsn == Base(h, v.queue) + n - 1
    ensures ForwardOk(h, abandoned, Base(h, v.queue), Base(h, v.queue) + n - 1, skips)
  {
    var b := Base(h, v.queue);
    var t := b + n - 1;
    assert QueuedOk(h, abandoned, v.queue, n - 1);
    QueuedTsn(h, abandoned, v.queue, n - 1);
    RunEndsMessage(h, abandoned, v.queue, n);
    SkipRunOk(h, abandoned, v.queue, 0, [], t);
    forall u | b <= u <= t ensures h.owner[u] in abandoned { SkippedAreAbandoned(h, abandoned, v, u); }
  }

  lemma ForwardOutputOk(h: History, abandoned: set<nat>, v: Sender)
    requires SenderOk(h, abandoned, v)
    ensures SenderOk(h, abandoned, ForwardOutput(v).0) && ForwardOutput(v).0.queue == v.queue
    ensures !ForwardOutput(v).1.SendData?
    ensures ForwardOutput(v).1.SendForward? ==>
              ForwardOk(h, abandoned, Base(h, v.queue), ForwardOutput(v).1.newTsn, ForwardOutput(v).1.skips)
  {
    var (n, skips) := SkipRun(v.queue, 0, []);
    if exists k | 0 <= k < n :: v.queue[k].abandoned { ForwardRunOk(h, abandoned, v, n, skips); }
  }

  lemma DataOutputOk(h: History, abandoned: set<nat>, v: Sender)
    requires SenderOk(h, abandoned, v)
    ensures SenderOk(h, abandoned, DataOutput(v).0) && |DataOutput(v).0.queue| == |v.queue|
    ensures !DataOutput(v).1.SendForward?
    ensures DataOutput(v).1.SendData? ==>
              var c := DataOutput(v).1.chunk; 0 <= c.tsn < |h.chunks| && c == h.chunks[c.tsn] && h.owner[c.tsn] !in abandoned
  {
    var i := FirstSendable(v.queue, 0);
    if v.established && i < |v.queue| {
      var t := Base(h, v.queue) + i;
      assert QueuedOk(h, abandoned, v.queue, i);
      assert ChunkOk(h.accepted[h.owner[t]], h.chunks[t], t);
      TouchKeeps(h, abandoned, v.queue, i, v.queue[i].(inFlight := true, sentAt := v.now));
    }
  }
}
