/** What a SACK does to the send queue, entry by entry: the acknowledged front leaves it, and a message
    sent without retries is given up exactly when a gap block shows a later fragment overtaking it. */
module SctpSackExact {
  import opened SctpTypes
  import opened SctpHistory
  import opened SctpSender
  import opened SctpSending

  /** A gap block reports TSN `t`. */
  predicate Reported(gaps: seq<Gap>, cum: int, t: int) {
    0 < t - cum < WRAP && exists b | 0 <= b < |gaps| :: gaps[b].start <= t - cum <= gaps[b].end
  }

  /** A gap block reports an in-flight fragment behind TSN `t`. */
  predicate LaterReported(queue: Queue, cum: int, gaps: seq<Gap>, t: int) {
    exists j | 0 <= j < |queue| :: queue[j].inFlight && t < queue[j].chunk.tsn && Reported(gaps, cum, queue[j].chunk.tsn)
  }

  /** Fragment `j`, sent without retries, is in flight and unreported while a later one is reported. */
  predicate PassedBy(queue: Queue, j: nat, cum: int, gaps: seq<Gap>) {
    && j < |queue| && queue[j].inFlight && !queue[j].abandoned && queue[j].maxRetransmits == 0
    && cum < queue[j].chunk.tsn && !Reported(gaps, cum, queue[j].chunk.tsn)
    && LaterReported(queue, cum, gaps, queue[j].chunk.tsn)
  }

  /** Queued fragments `j` and `k` are of one message. */
  predicate SameOwner(h: History, queue: Queue, j: nat, k: nat) {
    && j < |queue| && k < |queue| && |queue| <= |h.owner| == |h.chunks|
    && h.owner[Base(h, queue) + j] == h.owner[Base(h, queue) + k]
  }

  /** A fragment of the message of fragment `k` is passed by. */
  predicate GivenUp(h: History, queue: Queue, k: nat, cum: int, gaps: seq<Gap>) {
    exists j | 0 <= j < |queue| :: PassedBy(queue, j, cum, gaps) && SameOwner(h, queue, j, k)
  }

  /** Block `b` starts behind the one before and does not end before it starts. */
  predicate BlockOk(gaps: seq<Gap>, previousEnd: nat, b: nat)
    requires b < |gaps|
  {
    (if b == 0 then previousEnd else gaps[b - 1].end) < gaps[b].start <= gaps[b].end
  }

  predicate Ascending(gaps: seq<Gap>, previousEnd: nat) {
    forall b | 0 <= b < |gaps| :: BlockOk(gaps, previousEnd, b)
  }

  lemma {:induction false} ValidGapsIff(gaps: seq<Gap>, previousEnd: nat)
    ensures ValidGaps(gaps, previousEnd) <==> Ascending(gaps, previousEnd)
    decreases |gaps|
  {
    if gaps != [] {
      var rest, end := gaps[1..], gaps[0].end;
      ValidGapsIff(rest, end);
      forall b: nat | b < |rest| ensures BlockOk(rest, end, b) <==> BlockOk(gaps, previousEnd, b + 1) {
        assert rest[b] == gaps[b + 1];
      }
      assert BlockOk(gaps, previousEnd, 0) <==> previousEnd < gaps[0].start <= gaps[0].end;
      if Ascending(gaps, previousEnd) {
        forall b | 0 <= b < |rest| ensures BlockOk(rest, end, b) { assert BlockOk(gaps, previousEnd, b + 1); }
      }
      if Ascending(rest, end) && BlockOk(gaps, previousEnd, 0) {
        forall b | 0 <= b < |gaps| ensures BlockOk(gaps, previousEnd, b) {
          if b > 0 { assert BlockOk(rest, end, b - 1); }
        }
      }
    }
  }

  /** A SACK is refused as a whole exactly when its blocks are not ascending. */
  lemma RefusedIff(v: Sender, cum: int, gaps: seq<Gap>)
    ensures HandleSack(v, cum, gaps).1 == Ok <==> Ascending(gaps, 0)
    ensures !Ascending(gaps, 0) ==> HandleSack(v, cum, gaps) == (v, Parse)
  {
    ValidGapsIff(gaps, 0);
  }

  // ----- the highest reported TSN -----

  lemma {:induction false} HighestIs(queue: Queue, i: nat, highest: int, cum: int, gaps: seq<Gap>, t: int)
    requires i <= |queue|
    ensures t < HighestAcked(queue, i, highest, cum, gaps) <==>
            t < highest || exists j | i <= j < |queue| ::
              queue[j].inFlight && t < queue[j].chunk.tsn && highest < queue[j].chunk.tsn && Reported(gaps, cum, queue[j].chunk.tsn)
    decreases |queue| - i
  {
    if i < |queue| {
      var e := queue[i];
      var up := if e.inFlight && e.chunk.tsn > highest && GapAcked(gaps, e.chunk.tsn - cum) then e.chunk.tsn else highest;
      HighestIs(queue, i + 1, up, cum, gaps, t);
    }
  }

  /** The scan's test is the one on queue entries. */
  lemma OvertakenIff(queue: Queue, j: nat, cum: int, gaps: seq<Gap>)
    requires j < |queue| && !queue[j].acked
    ensures Overtaken(queue[j], cum, HighestAcked(queue, 0, cum, cum, gaps), gaps) <==> PassedBy(queue, j, cum, gaps)
  {
    HighestIs(queue, 0, cum, cum, gaps, queue[j].chunk.tsn);
    assert GapAcked(gaps, queue[j].chunk.tsn - cum) <==> Reported(gaps, cum, queue[j].chunk.tsn);
  }

  // ----- the messages given up -----

  /** Fragment `j`, at or behind `i`, is overtaken and of the message of fragment `k`. */
  predicate HitAt(h: History, queue: Queue, i: nat, j: nat, k: nat, cum: int, highest: int, gaps: seq<Gap>) {
    i <= j < |queue| && Overtaken(queue[j], cum, highest, gaps) && SameOwner(h, queue, j, k)
  }

  predicate HitFrom(h: History, queue: Queue, i: nat, k: nat, cum: int, highest: int, gaps: seq<Gap>) {
    exists j | 0 <= j < |queue| :: HitAt(h, queue, i, j, k, cum, highest, gaps)
  }

  /** Giving up one message changes who is hit only within it. */
  lemma HitMoves(h: History, queue: Queue, i: nat, k: nat, cum: int, highest: int, gaps: seq<Gap>, q: Queue)
    requires i < |queue| && k < |queue| == |q| && Overtaken(queue[i], cum, highest, gaps) && |queue| <= |h.owner| == |h.chunks|
    requires forall j | 0 <= j < |queue| :: q[j] == queue[j].(abandoned := queue[j].abandoned || SameOwner(h, queue, j, i))
    ensures HitFrom(h, queue, i, k, cum, highest, gaps) <==> SameOwner(h, queue, i, k) || HitFrom(h, q, i + 1, k, cum, highest, gaps)
  {
    if SameOwner(h, queue, i, k) {
      assert HitAt(h, queue, i, i, k, cum, highest, gaps);
    } else if HitFrom(h, queue, i, k, cum, highest, gaps) {
      var j :| 0 <= j < |queue| && HitAt(h, queue, i, j, k, cum, highest, gaps);
      assert q[j] == queue[j];
      assert HitAt(h, q, i + 1, j, k, cum, highest, gaps);
    } else if HitFrom(h, q, i + 1, k, cum, highest, gaps) {
      var j :| 0 <= j < |q| && HitAt(h, q, i + 1, j, k, cum, highest, gaps);
      assert q[j] == queue[j];
      assert HitAt(h, queue, i, j, k, cum, highest, gaps);
    }
  }

  lemma AbandonedEntries(h: History, abandoned: set<nat>, queue: Queue, i: nat)
    requires HistoryOk(h) && QueueOk(h, abandoned, queue) && i < |queue|
    ensures forall j | 0 <= j < |queue| :: Abandon(queue, i)[j] == queue[j].(abandoned := queue[j].abandoned || SameOwner(h, queue, j, i))
  {
    forall j | 0 <= j < |queue|
      ensures Abandon(queue, i)[j] == queue[j].(abandoned := queue[j].abandoned || SameOwner(h, queue, j, i))
    {
      AbandonAt(h, abandoned, queue, i, j);
    }
  }

  lemma HitSkips(h: History, queue: Queue, i: nat, k: nat, cum: int, highest: int, gaps: seq<Gap>)
    requires i < |queue| && !Overtaken(queue[i], cum, highest, gaps)
    ensures HitFrom(h, queue, i, k, cum, highest, gaps) <==> HitFrom(h, queue, i + 1, k, cum, highest, gaps)
  {
    if HitFrom(h, queue, i, k, cum, highest, gaps) {
      var j :| 0 <= j < |queue| && HitAt(h, queue, i, j, k, cum, highest, gaps);
      assert HitAt(h, queue, i + 1, j, k, cum, highest, gaps);
    }
    if HitFrom(h, queue, i + 1, k, cum, highest, gaps) {
      var j :| 0 <= j < |queue| && HitAt(h, queue, i + 1, j, k, cum, highest, gaps);
      assert HitAt(h, queue, i, j, k, cum, highest, gaps);
    }
  }

  /** One turn that gives up a message, and the rest of the scan. */
  lemma HitTurn(h: History, abandoned: set<nat>, queue: Queue, i: nat, k: nat, cum: int, highest: int, gaps: seq<Gap>, q: Queue, e: SendEntry)
    requires HistoryOk(h) && QueueOk(h, abandoned, queue) && i < |queue| && k < |queue| && Overtaken(queue[i], cum, highest, gaps)
    requires q == Abandon(queue, i) && e == q[k].(abandoned := q[k].abandoned || HitFrom(h, q, i + 1, k, cum, highest, gaps))
    ensures e == queue[k].(abandoned := queue[k].abandoned || HitFrom(h, queue, i, k, cum, highest, gaps))
  {
    AbandonedEntries(h, abandoned, queue, i);
    HitMoves(h, queue, i, k, cum, highest, gaps, q);
  }

  lemma {:induction false} OvertakenExact(h: History, abandoned: set<nat>, queue: Queue, i: nat, k: nat, cum: int, highest: int, gaps: seq<Gap>, q: Queue)
    requires HistoryOk(h) && QueueOk(h, abandoned, queue) && i <= |queue| && k < |queue|
    requires q == AbandonOvertaken(queue, i, cum, highest, gaps)
    ensures |q| == |queue| && q[k] == queue[k].(abandoned := queue[k].abandoned || HitFrom(h, queue, i, k, cum, highest, gaps))
    decreases |queue| - i
  {
    if i < |queue| {
      if Overtaken(queue[i], cum, highest, gaps) {
        var u, more := Abandon(queue, i), abandoned + {h.owner[Base(h, queue) + i]};
        AbandonKeeps(h, abandoned, queue, i);
        OvertakenExact(h, more, u, i + 1, k, cum, highest, gaps, q);
        HitTurn(h, abandoned, queue, i, k, cum, highest, gaps, u, q[k]);
      } else {
        HitSkips(h, queue, i, k, cum, highest, gaps);
        OvertakenExact(h, abandoned, queue, i + 1, k, cum, highest, gaps, q);
      }
    }
  }

  lemma HitIsGivenUp(h: History, abandoned: set<nat>, queue: Queue, k: nat, cum: int, gaps: seq<Gap>)
    requires HistoryOk(h) && QueueOk(h, abandoned, queue) && k < |queue|
    ensures HitFrom(h, queue, 0, k, cum, HighestAcked(queue, 0, cum, cum, gaps), gaps) <==> GivenUp(h, queue, k, cum, gaps)
  {
    var highest := HighestAcked(queue, 0, cum, cum, gaps);
    forall j: nat | j < |queue| ensures Overtaken(queue[j], cum, highest, gaps) <==> PassedBy(queue, j, cum, gaps) {
      assert QueuedOk(h, abandoned, queue, j);
      OvertakenIff(queue, j, cum, gaps);
    }
    if HitFrom(h, queue, 0, k, cum, highest, gaps) {
      var j :| 0 <= j < |queue| && HitAt(h, queue, 0, j, k, cum, highest, gaps);
      assert PassedBy(queue, j, cum, gaps) && SameOwner(h, queue, j, k);
    }
    if GivenUp(h, queue, k, cum, gaps) {
      var j :| 0 <= j < |queue| && PassedBy(queue, j, cum, gaps) && SameOwner(h, queue, j, k);
      assert HitAt(h, queue, 0, j, k, cum, highest, gaps);
    }
  }

  // ----- the whole SACK -----

  /** The first `n` entries are those up to TSN `cum`. */
  predicate Split(queue: Queue, n: nat, cum: int) {
    && n <= |queue|
    && (forall k | 0 <= k < n :: queue[k].chunk.tsn <= cum)
    && (forall k | n <= k < |queue| :: queue[k].chunk.tsn > cum)
  }

  lemma PoppedSplit(h: History, abandoned: set<nat>, queue: Queue, cum: int) returns (n: nat)
    requires HistoryOk(h) && QueueOk(h, abandoned, queue)
    ensures Split(queue, n, cum) && PopAcked(MarkAcked(queue, cum)) == queue[n..]
  {
    n := AckedPrefix(h, abandoned, queue, cum);
    var b, left := Base(h, queue), PopAcked(MarkAcked(queue, cum));
    forall k | 0 <= k < |queue| ensures queue[k].chunk.tsn == b + k && !queue[k].acked { QueuedTsn(h, abandoned, queue, k); }
    if left != [] {
      assert left == MarkAcked(queue, cum)[|queue| - |left|..];
      assert left[0] == MarkAcked(queue, cum)[n];
    }
  }

  /** Entry `e` after the SACK, as entry `f`. */
  predicate LeftAs(h: History, queue: Queue, j: nat, cum: int, gaps: seq<Gap>, f: SendEntry) {
    j < |queue| && f == queue[j].(abandoned := queue[j].abandoned || GivenUp(h, queue, j, cum, gaps))
  }

  /** The entries that are left. */
  lemma SackEntries(h: History, abandoned: set<nat>, v: Sender, cum: int, gaps: seq<Gap>, w: Sender) returns (n: nat)
    requires HistoryOk(h) && QueueOk(h, abandoned, v.queue) && AbandonedOk(h, abandoned) && Ascending(gaps, 0) && w == HandleSack(v, cum, gaps).0
    ensures Split(v.queue, n, cum) && |w.queue| == |v.queue| - n
    ensures forall k | 0 <= k < |w.queue| :: LeftAs(h, v.queue, n + k, cum, gaps, w.queue[k])
    ensures w.forwardPending <==> v.forwardPending || AnyOvertaken(v.queue, 0, cum, HighestAcked(v.queue, 0, cum, cum, gaps), gaps)
    ensures w == v.(queue := w.queue, forwardPending := w.forwardPending, bufUsed := if w.queue == [] then 0 else v.bufUsed)
  {
    ValidGapsIff(gaps, 0);
    var highest := HighestAcked(v.queue, 0, cum, cum, gaps);
    var q := AbandonOvertaken(v.queue, 0, cum, highest, gaps);
    GivenUpEntries(h, abandoned, v.queue, cum, gaps, q);
    n := LeftEntries(h, abandoned, v.queue, cum, highest, gaps, q);
    SackShape(v, cum, gaps, w, q, n);
  }

  /** An accepted SACK takes exactly the entries up to its cumulative TSN out of the queue, and gives up
      exactly the messages that a reported fragment has passed by. Everything else stays. */
  lemma SackExact(h: History, abandoned: set<nat>, v: Sender, cum: int, gaps: seq<Gap>, w: Sender) returns (n: nat)
    requires SenderOk(h, abandoned, v) && Ascending(gaps, 0) && w == HandleSack(v, cum, gaps).0
    ensures Split(v.queue, n, cum) && |w.queue| == |v.queue| - n
    ensures forall k | 0 <= k < |w.queue| :: LeftAs(h, v.queue, n + k, cum, gaps, w.queue[k])
    ensures w.forwardPending <==> v.forwardPending || exists j | 0 <= j < |v.queue| :: PassedBy(v.queue, j, cum, gaps)
    ensures w == v.(queue := w.queue, forwardPending := w.forwardPending, bufUsed := if w.queue == [] then 0 else v.bufUsed)
  {
    n := SackEntries(h, abandoned, v, cum, gaps, w);
    PendingExact(h, abandoned, v.queue, cum, gaps);
  }

  /** One entry that is left. */
  lemma SackEntryIs(h: History, abandoned: set<nat>, v: Sender, cum: int, gaps: seq<Gap>, w: Sender, l: nat) returns (j: nat)
    requires HistoryOk(h) && QueueOk(h, abandoned, v.queue) && AbandonedOk(h, abandoned) && Ascending(gaps, 0)
    requires w == HandleSack(v, cum, gaps).0 && l < |w.queue|
    ensures LeftAs(h, v.queue, j, cum, gaps, w.queue[l])
  {
    var n := SackEntries(h, abandoned, v, cum, gaps, w);
    j := n + l;
  }

  lemma SackShape(v: Sender, cum: int, gaps: seq<Gap>, w: Sender, q: Queue, n: nat)
    requires ValidGaps(gaps, 0) && w == HandleSack(v, cum, gaps).0 && n <= |q|
    requires q == AbandonOvertaken(v.queue, 0, cum, HighestAcked(v.queue, 0, cum, cum, gaps), gaps) && PopAcked(MarkAcked(q, cum)) == q[n..]
    ensures w.queue == q[n..]
    ensures w.forwardPending <==> v.forwardPending || AnyOvertaken(v.queue, 0, cum, HighestAcked(v.queue, 0, cum, cum, gaps), gaps)
    ensures w == v.(queue := w.queue, forwardPending := w.forwardPending, bufUsed := if w.queue == [] then 0 else v.bufUsed)
  {
  }

  lemma GivenUpEntries(h: History, abandoned: set<nat>, queue: Queue, cum: int, gaps: seq<Gap>, q: Queue)
    requires HistoryOk(h) && QueueOk(h, abandoned, queue)
    requires q == AbandonOvertaken(queue, 0, cum, HighestAcked(queue, 0, cum, cum, gaps), gaps)
    ensures forall k | 0 <= k < |q| :: q[k] == queue[k].(abandoned := queue[k].abandoned || GivenUp(h, queue, k, cum, gaps))
  {
    var highest := HighestAcked(queue, 0, cum, cum, gaps);
    forall k | 0 <= k < |q| ensures q[k] == queue[k].(abandoned := queue[k].abandoned || GivenUp(h, queue, k, cum, gaps)) {
      OvertakenExact(h, abandoned, queue, 0, k, cum, highest, gaps, q);
      HitIsGivenUp(h, abandoned, queue, k, cum, gaps);
    }
  }

  lemma LeftEntries(h: History, abandoned: set<nat>, queue: Queue, cum: int, highest: int, gaps: seq<Gap>, q: Queue) returns (n: nat)
    requires HistoryOk(h) && QueueOk(h, abandoned, queue) && AbandonedOk(h, abandoned) && q == AbandonOvertaken(queue, 0, cum, highest, gaps)
    requires forall k | 0 <= k < |queue| :: q[k].chunk == queue[k].chunk
    ensures Split(queue, n, cum) && PopAcked(MarkAcked(q, cum)) == q[n..]
  {
    var more := OvertakenKeeps(h, abandoned, queue, 0, cum, highest, gaps);
    n := PoppedSplit(h, more, q, cum);
  }

  lemma PendingExact(h: History, abandoned: set<nat>, queue: Queue, cum: int, gaps: seq<Gap>)
    requires HistoryOk(h) && QueueOk(h, abandoned, queue)
    ensures AnyOvertaken(queue, 0, cum, HighestAcked(queue, 0, cum, cum, gaps), gaps) <==>
            exists j | 0 <= j < |queue| :: PassedBy(queue, j, cum, gaps)
  {
    var highest := HighestAcked(queue, 0, cum, cum, gaps);
    forall j: nat | j < |queue| ensures Overtaken(queue[j], cum, highest, gaps) <==> PassedBy(queue, j, cum, gaps) {
      assert QueuedOk(h, abandoned, queue, j);
      OvertakenIff(queue, j, cum, gaps);
    }
    AnyIs(queue, 0, cum, highest, gaps);
  }

  lemma {:induction false} AnyIs(queue: Queue, i: nat, cum: int, highest: int, gaps: seq<Gap>)
    requires i <= |queue|
    ensures AnyOvertaken(queue, i, cum, highest, gaps) <==> exists j | i <= j < |queue| :: Overtaken(queue[j], cum, highest, gaps)
    decreases |queue| - i
  {
    if i < |queue| { AnyIs(queue, i + 1, cum, highest, gaps); }
  }
}
