/** What a FORWARD TSN says: how far it goes, and which stream numbers it names. */
module SctpForward {
  import opened SctpTypes
  import opened SctpHistory
  import opened SctpSender
  import opened SctpSending
  import opened SctpSystem
  import opened SctpTheorems

  // ----- how far it goes -----

  /** The first `n` fragments of the queue are acknowledged or abandoned, and the next one is neither. */
  predicate Settled(queue: Queue, n: nat) {
    && n <= |queue|
    && (forall k | 0 <= k < n :: queue[k].acked || queue[k].abandoned)
    && (n < |queue| ==> !queue[n].acked && !queue[n].abandoned)
  }

  /** Some of the first `n` fragments is abandoned. */
  predicate AnyGivenUp(queue: Queue, n: nat) {
    n <= |queue| && exists k | 0 <= k < n :: queue[k].abandoned
  }

  /** A FORWARD TSN goes out exactly when one is pending and an abandoned fragment is among the settled ones
      at the front of the queue, and it passes exactly these. */
  lemma ForwardSentIff(v: Sender, n: nat)
    requires Settled(v.queue, n)
    ensures PollOutput(v).1.SendForward? <==> v.forwardPending && AnyGivenUp(v.queue, n)
    ensures PollOutput(v).1.SendForward? ==>
              n > 0 && PollOutput(v).1.newTsn == v.queue[n - 1].chunk.tsn &&
              PollOutput(v).0 == v.(forwardPending := false, forwardSentAt := v.now)
  {
    SettledIsRun(v.queue, n, 0, []);
  }

  lemma {:induction false} SettledIsRun(queue: Queue, n: nat, i: nat, skips: seq<Stream>)
    requires Settled(queue, n) && i <= n
    ensures SkipRun(queue, i, skips).0 == n
    decreases n - i
  {
    if i < n { SettledIsRun(queue, n, i + 1, SkipNext(queue[i], skips)); }
  }

  /** The rows after one more settled fragment. */
  function SkipNext(e: SendEntry, skips: seq<Stream>): seq<Stream> {
    if e.abandoned && !e.chunk.unordered then AddSkip(skips, e.chunk.sid, e.chunk.ssn) else skips
  }

  // ----- the streams it names -----

  /** An abandoned fragment of an ordered message of stream `sid`. */
  predicate Skips(e: SendEntry, sid: nat) {
    e.abandoned && !e.chunk.unordered && e.chunk.sid == sid
  }

  /** The last of the first `n` fragments that skips a number of stream `sid`. */
  predicate LastSkip(queue: Queue, n: nat, sid: nat, k: nat) {
    k < n <= |queue| && Skips(queue[k], sid) && forall j | k < j < n :: !Skips(queue[j], sid)
  }

  predicate NoSkip(queue: Queue, n: nat, sid: nat) {
    n <= |queue| && forall j | 0 <= j < n :: !Skips(queue[j], sid)
  }

  /** The rows name each skipped stream once, with the number of its last skipped fragment. */
  predicate Recorded(queue: Queue, n: nat, skips: seq<Stream>, sid: nat) {
    if Known(skips, sid) then exists k | 0 <= k < n :: LastSkip(queue, n, sid, k) && queue[k].chunk.ssn == SsnOf(skips, sid)
    else NoSkip(queue, n, sid)
  }

  predicate OneRowEach(skips: seq<Stream>) {
    forall a, b | 0 <= a < b < |skips| :: skips[a].sid != skips[b].sid
  }

  lemma AddSkipRow(skips: seq<Stream>, sid: nat, ssn: nat, other: nat)
    ensures Known(AddSkip(skips, sid, ssn), other) <==> other == sid || Known(skips, other)
    ensures SsnOf(AddSkip(skips, sid, ssn), other) == if other == sid then ssn else SsnOf(skips, other)
  {
    if Known(skips, sid) { SetSsnFrame(skips, sid, ssn, other); } else { RowOfAppend(skips, Stream(sid, ssn), other); }
  }

  lemma AddSkipOneRow(skips: seq<Stream>, sid: nat, ssn: nat)
    requires OneRowEach(skips)
    ensures OneRowEach(AddSkip(skips, sid, ssn))
  {
  }

  /** The next fragment skips nothing of the stream. */
  lemma RecordedPasses(queue: Queue, n: nat, skips: seq<Stream>, sid: nat)
    requires n < |queue| && Recorded(queue, n, skips, sid) && !Skips(queue[n], sid)
    ensures Recorded(queue, n + 1, skips, sid)
  {
    if Known(skips, sid) {
      var k :| 0 <= k < n && LastSkip(queue, n, sid, k) && queue[k].chunk.ssn == SsnOf(skips, sid);
      assert LastSkip(queue, n + 1, sid, k);
    }
  }

  lemma RecordedNext(queue: Queue, n: nat, skips: seq<Stream>, sid: nat, next: seq<Stream>)
    requires n < |queue| && Recorded(queue, n, skips, sid) && next == SkipNext(queue[n], skips)
    ensures Recorded(queue, n + 1, next, sid)
  {
    var e := queue[n];
    if e.abandoned && !e.chunk.unordered { AddSkipRow(skips, e.chunk.sid, e.chunk.ssn, sid); }
    if Skips(e, sid) {
      assert LastSkip(queue, n + 1, sid, n);
    } else {
      RecordedPasses(queue, n, skips, sid);
    }
  }

  lemma {:induction false} RunRecords(queue: Queue, i: nat, skips: seq<Stream>, r: (nat, seq<Stream>), sid: nat)
    requires i <= |queue| && Recorded(queue, i, skips, sid) && r == SkipRun(queue, i, skips)
    ensures Recorded(queue, r.0, r.1, sid)
    decreases |queue| - i
  {
    if i < |queue| && (queue[i].acked || queue[i].abandoned) {
      RecordedNext(queue, i, skips, sid, SkipNext(queue[i], skips));
      RunRecords(queue, i + 1, SkipNext(queue[i], skips), r, sid);
    }
  }

  lemma {:induction false} RunOneRow(queue: Queue, i: nat, skips: seq<Stream>, r: (nat, seq<Stream>))
    requires i <= |queue| && OneRowEach(skips) && r == SkipRun(queue, i, skips)
    ensures OneRowEach(r.1)
    decreases |queue| - i
  {
    if i < |queue| && (queue[i].acked || queue[i].abandoned) {
      AddSkipOneRow(skips, queue[i].chunk.sid, queue[i].chunk.ssn);
      RunOneRow(queue, i + 1, SkipNext(queue[i], skips), r);
    }
  }

  // ----- numbers grow along the queue -----

  lemma NumbersGrow(h: History, abandoned: set<nat>, queue: Queue, j: nat, k: nat)
    requires HistoryOk(h) && QueueOk(h, abandoned, queue) && j <= k < |queue|
    requires !queue[j].chunk.unordered && !queue[k].chunk.unordered && queue[j].chunk.sid == queue[k].chunk.sid
    ensures queue[j].chunk.ssn <= queue[k].chunk.ssn
  {
    assert QueuedOk(h, abandoned, queue, j) && QueuedOk(h, abandoned, queue, k);
    var a, b := Base(h, queue) + j, Base(h, queue) + k;
    assert ChunkOk(h.accepted[h.owner[a]], h.chunks[a], a) && ChunkOk(h.accepted[h.owner[b]], h.chunks[b], b);
    SctpHistory.SsnOrder(h, h.owner[a], h.owner[b]);
  }

  // ----- the theorem -----

  /** `ssn` is the highest number of an abandoned ordered message of stream `sid` with a queued fragment
      up to `newTsn`. */
  predicate HighestSkipped(queue: Queue, newTsn: int, sid: nat, ssn: nat) {
    && (exists k | 0 <= k < |queue| :: Skips(queue[k], sid) && queue[k].chunk.tsn <= newTsn && queue[k].chunk.ssn == ssn)
    && (forall k | 0 <= k < |queue| && Skips(queue[k], sid) && queue[k].chunk.tsn <= newTsn :: queue[k].chunk.ssn <= ssn)
  }

  lemma RecordedIsHighest(h: History, abandoned: set<nat>, queue: Queue, n: nat, newTsn: int, skips: seq<Stream>, sid: nat)
    requires HistoryOk(h) && QueueOk(h, abandoned, queue) && n <= |queue| && newTsn == Base(h, queue) + n - 1
    requires Recorded(queue, n, skips, sid)
    ensures forall ssn: nat :: HighestSkipped(queue, newTsn, sid, ssn) <==> Known(skips, sid) && SsnOf(skips, sid) == ssn
  {
    forall k | 0 <= k < |queue| ensures queue[k].chunk.tsn <= newTsn <==> k < n { QueuedTsn(h, abandoned, queue, k); }
    if Known(skips, sid) {
      var last :| 0 <= last < n && LastSkip(queue, n, sid, last) && queue[last].chunk.ssn == SsnOf(skips, sid);
      forall k | 0 <= k < n && Skips(queue[k], sid) ensures queue[k].chunk.ssn <= queue[last].chunk.ssn {
        NumbersGrow(h, abandoned, queue, k, last);
      }
    }
  }

  /** A stream is named exactly with its row's number. */
  lemma RowIsNamed(skips: seq<Stream>, sid: nat, ssn: nat)
    requires OneRowEach(skips)
    ensures Stream(sid, ssn) in skips <==> Known(skips, sid) && SsnOf(skips, sid) == ssn
  {
  }

  /** A FORWARD TSN names, once per stream, exactly the highest ordered number that it skips there. */
  lemma ForwardNamesHighest(s: System, sid: nat, ssn: nat)
    requires Reachable(s) && PollOutput(s.tx).1.SendForward?
    ensures OneRowEach(PollOutput(s.tx).1.skips)
    ensures Stream(sid, ssn) in PollOutput(s.tx).1.skips <==> HighestSkipped(s.tx.queue, PollOutput(s.tx).1.newTsn, sid, ssn)
  {
    var abandoned, log := ReachableInv(s);
    NamesHighest(s.history, abandoned, s.tx, sid, ssn, PollOutput(s.tx).1);
  }

  lemma NamesHighest(h: History, abandoned: set<nat>, v: Sender, sid: nat, ssn: nat, out: Output)
    requires SenderOk(h, abandoned, v) && out == PollOutput(v).1 && out.SendForward?
    ensures OneRowEach(out.skips) && (Stream(sid, ssn) in out.skips <==> HighestSkipped(v.queue, out.newTsn, sid, ssn))
  {
    var r := SkipRun(v.queue, 0, []);
    RunRecords(v.queue, 0, [], r, sid);
    RunOneRow(v.queue, 0, [], r);
    QueuedTsn(h, abandoned, v.queue, r.0 - 1);
    RecordedIsHighest(h, abandoned, v.queue, r.0, out.newTsn, out.skips, sid);
    RowIsNamed(out.skips, sid, ssn);
  }
}
