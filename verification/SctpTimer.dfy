/** What the retransmission timer does, entry by entry: which fragments wait for another transmission,
    which messages are given up, and when the association fails. */
module SctpTimer {
  import opened SctpTypes
  import opened SctpHistory
  import opened SctpSender
  import opened SctpSending
  import opened SctpSackExact

  /** The queue as the timer finds it, the messages of its fragments, the time and the first timeout. */
  datatype Scan = Scan(h: History, q: Queue, now: nat, rto: nat)

  function Doubled(rto: nat): nat {
    if 2 * rto < RTO_MAX_MS then 2 * rto else RTO_MAX_MS
  }

  /** The timeout at the turn of fragment `k`: doubled by every earlier fragment that is sent again. */
  ghost function TimeoutAt(s: Scan, k: nat): nat
    requires k <= |s.q|
    decreases k, 0
  {
    if k == 0 then s.rto else if SentAgain(s, k - 1) then Doubled(TimeoutAt(s, k - 1)) else TimeoutAt(s, k - 1)
  }

  /** Fragment `k` is in flight and neither acknowledged nor abandoned, also not by an earlier fragment
      of its message, and its timeout has passed. */
  ghost predicate Late(s: Scan, k: nat)
    requires k < |s.q|
    decreases k, 1
  {
    && s.q[k].inFlight && !s.q[k].acked && !s.q[k].abandoned
    && (forall j | 0 <= j < k && SameOwner(s.h, s.q, j, k) :: !UsedUp(s, j))
    && (s.now - s.q[k].sentAt) % 0x1_0000_0000 >= TimeoutAt(s, k)
  }

  /** Its message has a retry limit, and no retries are left. */
  ghost predicate UsedUp(s: Scan, k: nat)
    requires k < |s.q|
    decreases k, 2
  {
    Late(s, k) && s.q[k].maxRetransmits >= 0 && s.q[k].retransmits >= s.q[k].maxRetransmits
  }

  /** Its message is reliable, and the association's limit is reached. */
  ghost predicate Dead(s: Scan, k: nat)
    requires k < |s.q|
    decreases k, 2
  {
    Late(s, k) && s.q[k].maxRetransmits < 0 && s.q[k].retransmits >= MAX_RETRANSMITS
  }

  /** Retries are left. */
  ghost predicate SentAgain(s: Scan, k: nat)
    requires k < |s.q|
    decreases k, 3
  {
    Late(s, k) && !UsedUp(s, k) && !Dead(s, k)
  }

  /** One of the first `n` fragments used up the retries of the message of fragment `k`. */
  ghost predicate GivenUpBy(s: Scan, k: nat, n: nat)
    requires n <= |s.q|
  {
    exists j | 0 <= j < n :: UsedUp(s, j) && SameOwner(s.h, s.q, j, k)
  }

  /** Fragment `k` after the turns of the first `n` fragments. */
  ghost function After(s: Scan, k: nat, n: nat): SendEntry
    requires k < |s.q| && n <= |s.q|
  {
    var e := s.q[k];
    if k < n && SentAgain(s, k)
    then e.(inFlight := false, retransmits := e.retransmits + 1, sentAt := s.now, abandoned := e.abandoned || GivenUpBy(s, k, n))
    else e.(abandoned := e.abandoned || GivenUpBy(s, k, n))
  }

  /** The sender after the turns of the first `n` fragments. */
  ghost predicate At(s: Scan, v: Sender, n: nat) {
    && n <= |s.q| == |v.queue| <= |s.h.owner| == |s.h.chunks| && v.now == s.now && v.rto == TimeoutAt(s, n)
    && (forall k | 0 <= k < |s.q| :: v.queue[k] == After(s, k, n))
    && (forall j | 0 <= j < n :: !Dead(s, j))
  }

  lemma AgainHasRetries(s: Scan, k: nat)
    requires k < |s.q| && SentAgain(s, k)
    ensures s.q[k].inFlight && s.q[k].retransmits < if s.q[k].maxRetransmits >= 0 then s.q[k].maxRetransmits else MAX_RETRANSMITS
  {
  }

  /** A fragment in flight without retries left gave the message up. */
  lemma GivenUpWitness(s: Scan, k: nat, n: nat) returns (j: nat)
    requires n <= |s.q| && GivenUpBy(s, k, n)
    ensures j < |s.q| && SameOwner(s.h, s.q, j, k) && s.q[j].inFlight && 0 <= s.q[j].maxRetransmits <= s.q[j].retransmits
  {
    j :| 0 <= j < n && UsedUp(s, j) && SameOwner(s.h, s.q, j, k);
    assert Late(s, j);
  }

  // ----- one turn -----

  /** The scan's test is the one on the queue as it was found. */
  lemma TurnIff(s: Scan, v: Sender, i: nat)
    requires At(s, v, i) && i < |s.q|
    ensures TimedOut(v.queue[i], v.now, v.rto) <==> Late(s, i)
    ensures v.queue[i].maxRetransmits == s.q[i].maxRetransmits && v.queue[i].retransmits == s.q[i].retransmits
  {
    assert v.queue[i] == After(s, i, i);
    if GivenUpBy(s, i, i) {
      var j :| 0 <= j < i && UsedUp(s, j) && SameOwner(s.h, s.q, j, i);
    } else {
      forall j | 0 <= j < i && SameOwner(s.h, s.q, j, i) ensures !UsedUp(s, j) { }
    }
  }

  lemma GivenUpMore(s: Scan, k: nat, n: nat)
    requires n < |s.q|
    ensures GivenUpBy(s, k, n + 1) <==> GivenUpBy(s, k, n) || (UsedUp(s, n) && SameOwner(s.h, s.q, n, k))
  {
  }

  lemma TimeoutStep(s: Scan, i: nat)
    requires i < |s.q|
    ensures TimeoutAt(s, i + 1) == if SentAgain(s, i) then Doubled(TimeoutAt(s, i)) else TimeoutAt(s, i)
    ensures !Late(s, i) ==> !UsedUp(s, i) && !Dead(s, i) && !SentAgain(s, i)
    ensures UsedUp(s, i) ==> !Dead(s, i) && !SentAgain(s, i)
    ensures SentAgain(s, i) ==> !UsedUp(s, i) && !Dead(s, i)
  {
  }

  /** The state after one more turn. */
  lemma NextTurn(s: Scan, v: Sender, i: nat, w: Sender)
    requires At(s, v, i) && i < |s.q| && !Dead(s, i) && |w.queue| == |s.q| && w.now == s.now && w.rto == TimeoutAt(s, i + 1)
    requires forall k | 0 <= k < |s.q| ::
               var e := v.queue[k];
               w.queue[k] == if SentAgain(s, i) && k == i then e.(inFlight := false, retransmits := e.retransmits + 1, sentAt := s.now)
                             else e.(abandoned := e.abandoned || (UsedUp(s, i) && SameOwner(s.h, s.q, i, k)))
    ensures At(s, w, i + 1)
  {
    TimeoutStep(s, i);
    forall k | 0 <= k < |s.q| ensures w.queue[k] == After(s, k, i + 1) {
      assert v.queue[k] == After(s, k, i);
      GivenUpMore(s, k, i);
    }
  }

  /** A turn that leaves fragment `i` alone. */
  lemma IdleTurn(s: Scan, v: Sender, i: nat)
    requires At(s, v, i) && i < |s.q| && !Late(s, i)
    ensures At(s, v, i + 1)
  {
    TimeoutStep(s, i);
    NextTurn(s, v, i, v);
  }

  /** A turn that gives up the message of fragment `i`. */
  lemma UsedUpTurn(s: Scan, abandoned: set<nat>, v: Sender, i: nat, w: Sender)
    requires At(s, v, i) && i < |s.q| && UsedUp(s, i) && HistoryOk(s.h) && QueueOk(s.h, abandoned, v.queue)
    requires w == v.(queue := Abandon(v.queue, i), forwardPending := true)
    ensures At(s, w, i + 1)
  {
    TimeoutStep(s, i);
    AbandonedEntries(s.h, abandoned, v.queue, i);
    NextTurn(s, v, i, w);
  }

  /** A turn that has fragment `i` sent again. */
  lemma AgainTurn(s: Scan, v: Sender, i: nat, w: Sender)
    requires At(s, v, i) && i < |s.q| && SentAgain(s, i)
    requires w == v.(queue := v.queue[i := v.queue[i].(inFlight := false, retransmits := v.queue[i].retransmits + 1, sentAt := v.now)],
                     rto := Min(v.rto * 2, RTO_MAX_MS))
    ensures At(s, w, i + 1)
  {
    TimeoutStep(s, i);
    NextTurn(s, v, i, w);
  }

  // ----- the scan -----

  ghost predicate AnyUsedUp(s: Scan, n: nat)
    requires n <= |s.q|
  {
    exists j | 0 <= j < n :: UsedUp(s, j)
  }

  /** What a scan that began with `s` and has reached fragment `i` comes to. */
  ghost predicate Ended(s: Scan, was: bool, r: (Sender, Status), n: nat) {
    && n <= |s.q|
    && At(s, r.0, n)
    && (r.0.forwardPending <==> was || AnyUsedUp(s, n))
    && (if r.1 == Ok then n == |s.q| else r.1 == Protocol && n < |s.q| && Dead(s, n))
  }

  lemma AnyMore(s: Scan, n: nat)
    requires n < |s.q|
    ensures AnyUsedUp(s, n + 1) <==> AnyUsedUp(s, n) || UsedUp(s, n)
  {
  }

  /** One turn of the scan: it stops at a dead fragment, or goes on with `w`. */
  lemma OneTurn(s: Scan, abandoned: set<nat>, was: bool, v: Sender, i: nat) returns (w: Sender, more: set<nat>)
    requires At(s, v, i) && i < |s.q| && HistoryOk(s.h) && QueueOk(s.h, abandoned, v.queue)
    requires v.forwardPending <==> was || AnyUsedUp(s, i)
    ensures Dead(s, i) ==> TimeoutFrom(v, i) == (v.(established := false, failed := true), Protocol)
    ensures !Dead(s, i) ==> At(s, w, i + 1) && TimeoutFrom(v, i) == TimeoutFrom(w, i + 1) && QueueOk(s.h, more, w.queue)
    ensures !Dead(s, i) ==> (w.forwardPending <==> was || AnyUsedUp(s, i + 1))
    ensures w == v.(queue := w.queue, rto := w.rto, forwardPending := w.forwardPending)
  {
    TurnIff(s, v, i);
    TimeoutStep(s, i);
    AnyMore(s, i);
    w, more := v, abandoned;
    var e := v.queue[i];
    if !Late(s, i) {
      IdleTurn(s, v, i);
    } else if UsedUp(s, i) {
      w := v.(queue := Abandon(v.queue, i), forwardPending := true);
      UsedUpTurn(s, abandoned, v, i, w);
      AbandonKeeps(s.h, abandoned, v.queue, i);
      more := abandoned + {s.h.owner[Base(s.h, v.queue) + i]};
    } else if !Dead(s, i) {
      var f := e.(inFlight := false, retransmits := e.retransmits + 1, sentAt := v.now);
      w := v.(queue := v.queue[i := f], rto := Min(v.rto * 2, RTO_MAX_MS));
      AgainTurn(s, v, i, w);
      TouchKeeps(s.h, abandoned, v.queue, i, f);
    }
  }

  lemma {:induction false} ScanExact(s: Scan, abandoned: set<nat>, was: bool, v: Sender, i: nat, r: (Sender, Status)) returns (n: nat)
    requires At(s, v, i) && HistoryOk(s.h) && QueueOk(s.h, abandoned, v.queue) && r == TimeoutFrom(v, i)
    requires v.forwardPending <==> was || AnyUsedUp(s, i)
    ensures Ended(s, was, r, n) && Only(v, r)
    decreases |s.q| - i
  {
    n := i;
    if i < |s.q| {
      var w, more := OneTurn(s, abandoned, was, v, i);
      if !Dead(s, i) {
        n := ScanExact(s, more, was, w, i + 1, r);
      }
    }
  }

  /** What else the scan changes. */
  predicate Only(v: Sender, r: (Sender, Status)) {
    r.0 == v.(queue := r.0.queue, rto := r.0.rto, forwardPending := r.0.forwardPending,
              established := v.established && r.1 == Ok, failed := v.failed || r.1 != Ok)
  }

  // ----- the whole timeout -----

  /** An abandoned fragment with only acknowledged or abandoned ones before it. */
  predicate AbandonedInFront(queue: Queue, k: nat) {
    k < |queue| && queue[k].abandoned && forall j | 0 <= j < k :: queue[j].acked || queue[j].abandoned
  }

  lemma ForwardDueIff(queue: Queue)
    ensures ForwardDue(queue) <==> exists k | 0 <= k < |queue| :: AbandonedInFront(queue, k)
  {
    var n := SkipRun(queue, 0, []).0;
    if ForwardDue(queue) {
      var k :| 0 <= k < n && queue[k].abandoned;
      assert AbandonedInFront(queue, k);
    }
    if k :| 0 <= k < |queue| && AbandonedInFront(queue, k) {
      assert k < n;
    }
  }

  /** The FORWARD TSN is due again. */
  predicate Repeats(w: Sender, now: nat) {
    (now - w.forwardSentAt) % 0x1_0000_0000 >= w.rto && exists k | 0 <= k < |w.queue| :: AbandonedInFront(w.queue, k)
  }

  lemma BeforeFirst(s: Scan, v: Sender)
    requires s.q == v.queue && s.now == v.now && s.rto == v.rto && |s.q| <= |s.h.owner| == |s.h.chunks|
    ensures At(s, v, 0) && !AnyUsedUp(s, 0)
  {
    forall k | 0 <= k < |s.q| ensures v.queue[k] == After(s, k, 0) { }
  }

  ghost predicate AnyDead(s: Scan) {
    exists k | 0 <= k < |s.q| :: Dead(s, k)
  }

  lemma DeadAt(s: Scan, n: nat)
    requires n < |s.q| && Dead(s, n)
    ensures AnyDead(s)
  {
  }

  lemma NoneDead(s: Scan, v: Sender)
    requires At(s, v, |s.q|)
    ensures !AnyDead(s)
  {
  }

  /** The timer of an established sender. It fails exactly when a reliable fragment has used up the
      association's limit. Otherwise the late fragments with retries left wait for transmission again, one
      retry further; the messages with a late fragment without retries are given up; and nothing else changes. */
  lemma TimerExact(h: History, abandoned: set<nat>, v: Sender, now: nat, s: Scan, w: Sender, status: Status) returns (n: nat)
    requires SenderOk(h, abandoned, v) && v.established && s == Scan(h, v.queue, now, v.rto) && HandleTimeout(v, now) == (w, status)
    ensures (status == Ok || status == Protocol) && (status == Protocol <==> AnyDead(s))
    ensures n <= |s.q| == |w.queue| && (status == Ok ==> n == |s.q|) && (status != Ok ==> n < |s.q| && Dead(s, n))
    ensures forall k | 0 <= k < |s.q| :: w.queue[k] == After(s, k, n)
    ensures w.rto == TimeoutAt(s, n) && w.now == now && w.established == (status == Ok) && w.failed == (v.failed || status != Ok)
    ensures w.forwardPending <==> v.forwardPending || AnyUsedUp(s, n) || (status == Ok && Repeats(w, now))
    ensures w == v.(queue := w.queue, rto := w.rto, now := now, established := w.established, failed := w.failed, forwardPending := w.forwardPending)
  {
    var v1 := v.(now := now);
    BeforeFirst(s, v1);
    var r := TimeoutFrom(v1, 0);
    n := ScanExact(s, abandoned, v.forwardPending, v1, 0, r);
    TimerShape(v, now, r, w, status);
    if r.1 == Ok { NoneDead(s, r.0); } else { DeadAt(s, n); }
  }

  /** The scan, and the repetition of the FORWARD TSN. */
  lemma TimerShape(v: Sender, now: nat, r: (Sender, Status), w: Sender, status: Status)
    requires v.established && r == TimeoutFrom(v.(now := now), 0) && HandleTimeout(v, now) == (w, status)
    requires Only(v.(now := now), r)
    ensures status == r.1 && w == r.0.(forwardPending := w.forwardPending)
    ensures w.forwardPending <==> r.0.forwardPending || (status == Ok && Repeats(w, now))
  {
    ForwardDueIff(r.0.queue);
  }

  /** Any other sender only takes note of the time. */
  lemma TimerIdle(v: Sender, now: nat)
    requires !v.established
    ensures HandleTimeout(v, now) == (v.(now := now), Ok)
  {
  }

  // ----- a fragment that waits is sent -----

  /** The fragment waits for transmission. */
  predicate Waits(e: SendEntry) {
    !e.inFlight && !e.acked && !e.abandoned
  }

  /** The first waiting fragment goes out and is in flight from now on. */
  lemma SendsFirst(v: Sender, k: nat)
    requires v.established && k < |v.queue| && Waits(v.queue[k]) && forall j | 0 <= j < k :: !Waits(v.queue[j])
    ensures DataOutput(v) == (v.(queue := v.queue[k := v.queue[k].(inFlight := true, sentAt := v.now)]), SendData(v.queue[k].chunk))
  {
    assert FirstSendable(v.queue, 0) == k;
  }

  lemma SendsNothing(v: Sender)
    requires !v.established || forall j | 0 <= j < |v.queue| :: !Waits(v.queue[j])
    ensures DataOutput(v) == (v, Silence)
  {
  }

  /** The sender after `n` polls. */
  function Polled(v: Sender, n: nat): Sender
    decreases n
  {
    if n == 0 then v else Polled(PollOutput(v).0, n - 1)
  }

  lemma {:induction false} FirstWaiting(queue: Queue, from: nat, k: nat) returns (r: nat)
    requires from <= k < |queue| && Waits(queue[k]) && forall j | 0 <= j < from :: !Waits(queue[j])
    ensures from <= r <= k && Waits(queue[r]) && forall j | 0 <= j < r :: !Waits(queue[j])
    decreases k - from
  {
    r := from;
    if !Waits(queue[from]) { r := FirstWaiting(queue, from + 1, k); }
  }

  /** Polls without a FORWARD TSN to send: none of the first `from` fragments waits. */
  lemma {:induction false} SentInTurn(v: Sender, from: nat, k: nat) returns (n: nat)
    requires v.established && !v.forwardPending && from <= k < |v.queue| && Waits(v.queue[k])
    requires forall j | 0 <= j < from :: !Waits(v.queue[j])
    ensures n <= k - from && PollOutput(Polled(v, n)).1 == SendData(v.queue[k].chunk)
    decreases k - from
  {
    var i := FirstWaiting(v.queue, from, k);
    SendsFirst(v, i);
    n := 0;
    if i < k {
      n := SentInTurn(PollOutput(v).0, i + 1, k);
      n := n + 1;
    }
  }

  /** A fragment that waits is sent by one of the next polls: one for each fragment before it, one for
      a FORWARD TSN, and its own. */
  lemma WaitingIsSent(v: Sender, k: nat) returns (n: nat)
    requires v.established && k < |v.queue| && Waits(v.queue[k])
    ensures n <= k + 1 && PollOutput(Polled(v, n)).1 == SendData(v.queue[k].chunk)
  {
    if v.forwardPending {
      var w := ForwardOutput(v).0;
      assert w.queue == v.queue && !w.forwardPending;
      n := SentInTurn(w, 0, k);
      if ForwardOutput(v).1 != Silence {
        n := n + 1;
      } else {
        SameOutput(v, w, n);
      }
    } else {
      n := SentInTurn(v, 0, k);
    }
  }

  /** With nothing to skip, a pending FORWARD TSN only costs its flag. */
  lemma SameOutput(v: Sender, w: Sender, n: nat)
    requires v.forwardPending && ForwardOutput(v) == (w, Silence) && !w.forwardPending
    ensures PollOutput(v) == PollOutput(w) && (n > 0 ==> Polled(v, n) == Polled(w, n))
  {
  }

  // ----- a fragment just sent -----

  /** What a poll that sends a fragment leaves in the queue: the fragment in flight, with the time. */
  lemma SentStamp(v: Sender, w: Sender, c: Chunk) returns (k: nat)
    requires PollOutput(v) == (w, SendData(c))
    ensures k < |v.queue| && Waits(v.queue[k]) && v.queue[k].chunk == c
    ensures w.queue == v.queue[k := v.queue[k].(inFlight := true, sentAt := v.now)] && w.now == v.now && w.rto == v.rto
  {
    k := FirstSendable(v.queue, 0);
  }

  lemma {:induction false} TimeoutGrows(s: Scan, k: nat)
    requires s.rto <= RTO_MAX_MS && k <= |s.q|
    ensures s.rto <= TimeoutAt(s, k) <= RTO_MAX_MS
    decreases k
  {
    if k > 0 { TimeoutGrows(s, k - 1); }
  }

  /** It is not late before one timeout has passed. */
  lemma NotLateYet(s: Scan, k: nat)
    requires k < |s.q| && s.rto <= RTO_MAX_MS && (s.now - s.q[k].sentAt) % 0x1_0000_0000 < s.rto
    ensures !Late(s, k) && !SentAgain(s, k) && !UsedUp(s, k) && !Dead(s, k)
  {
    TimeoutGrows(s, k);
  }
}
