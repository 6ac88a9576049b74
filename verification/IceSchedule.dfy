/** The queue of triggered checks is a permutation; the schedule wakes up when it said
    it would, serves queued checks first come first served, and never overflows the
    four-bit retry count. */
module IceSchedule {
  import opened IceModel

  // ----- the queue -----

  /** Queue positions are pairwise different and below the number of queued entries. */
  predicate QueueOk(pending: seq<Slot>) {
    && (forall i | 0 <= i < |pending| && pending[i].queued :: pending[i].sentAt < CountQueued(pending, |pending|))
    && forall i, j | 0 <= i < j < |pending| && pending[i].queued && pending[j].queued :: pending[i].sentAt != pending[j].sentAt
  }

  /** The table with one entry replaced counts one more, one less or the same. */
  lemma {:induction false} CountUpdate(pending: seq<Slot>, i: nat, p: Slot, n: nat)
    requires i < |pending| && n <= |pending|
    ensures CountQueued(pending[i := p], n) ==
            CountQueued(pending, n) + if i < n then (if p.queued then 1 else 0) - (if pending[i].queued then 1 else 0) else 0
  {
    if n > 0 { CountUpdate(pending, i, p, n - 1); }
  }

  lemma {:induction false} CountSame(a: seq<Slot>, b: seq<Slot>, n: nat)
    requires n <= |a| == |b| && forall j | 0 <= j < n :: a[j].queued == b[j].queued
    ensures CountQueued(a, n) == CountQueued(b, n)
  {
    if n > 0 { CountSame(a, b, n - 1); }
  }

  lemma EnqueueKeeps(pending: seq<Slot>, i: nat)
    requires QueueOk(pending) && i < |pending| && !pending[i].queued
    ensures QueueOk(Enqueue(pending, i))
    ensures CountQueued(Enqueue(pending, i), |pending|) == CountQueued(pending, |pending|) + 1
    ensures Enqueue(pending, i)[i].sentAt == CountQueued(pending, |pending|)
  {
    CountUpdate(pending, i, Enqueue(pending, i)[i], |pending|);
  }

  lemma DistinctPositions(pending: seq<Slot>, j: nat, k: nat)
    requires QueueOk(pending) && j < |pending| && k < |pending| && j != k && pending[j].queued && pending[k].queued
    ensures pending[j].sentAt != pending[k].sentAt
  {
  }

  /** Two other queued entries keep different positions. */
  lemma StillApart(pending: seq<Slot>, i: nat, j: nat, k: nat)
    requires i < |pending| && j < |pending| && k < |pending| && pending[j].queued && pending[k].queued && j != i && k != i
    requires pending[j].sentAt != pending[k].sentAt && pending[j].sentAt != pending[i].sentAt && pending[k].sentAt != pending[i].sentAt
    ensures Advanced(pending, i, j).sentAt != Advanced(pending, i, k).sentAt
  {
  }

  lemma DequeueCount(pending: seq<Slot>, i: nat)
    requires i < |pending| && pending[i].queued
    ensures CountQueued(Dequeue(pending, i), |pending|) == CountQueued(pending, |pending|) - 1
  {
    CountSame(Dequeue(pending, i), pending[i := pending[i].(queued := false)], |pending|);
    CountUpdate(pending, i, pending[i].(queued := false), |pending|);
  }

  lemma DequeueQueue(pending: seq<Slot>, i: nat, r: seq<Slot>)
    requires QueueOk(pending) && i < |pending| && pending[i].queued && r == Dequeue(pending, i)
    ensures QueueOk(r)
  {
    DequeueCount(pending, i);
    forall j | 0 <= j < |r| && r[j].queued ensures r[j].sentAt < CountQueued(r, |r|) {
      DistinctPositions(pending, i, j);
    }
    forall j, k | 0 <= j < k < |r| && r[j].queued && r[k].queued ensures r[j].sentAt != r[k].sentAt {
      DistinctPositions(pending, j, k);
      DistinctPositions(pending, i, j);
      DistinctPositions(pending, i, k);
      StillApart(pending, i, j, k);
    }
  }

  lemma DequeueKeeps(pending: seq<Slot>, i: nat)
    requires QueueOk(pending) && i < |pending|
    ensures QueueOk(Dequeue(pending, i)) && !Dequeue(pending, i)[i].queued
    ensures forall j | 0 <= j < |pending| && j != i ::
              Dequeue(pending, i)[j].queued == pending[j].queued &&
              Dequeue(pending, i)[j] == pending[j].(sentAt := Dequeue(pending, i)[j].sentAt) &&
              (!pending[j].queued ==> Dequeue(pending, i)[j] == pending[j])
  {
    if pending[i].queued { DequeueQueue(pending, i, Dequeue(pending, i)); }
  }

  /** Replacing an entry that is not queued by one that is not queued. */
  lemma ReplaceKeeps(pending: seq<Slot>, i: nat, p: Slot)
    requires QueueOk(pending) && i < |pending| && !pending[i].queued && !p.queued
    ensures QueueOk(pending[i := p])
  {
    CountUpdate(pending, i, p, |pending|);
  }

  /** Replacing an entry without touching its place in the queue. */
  lemma RetouchKeeps(pending: seq<Slot>, i: nat, p: Slot)
    requires QueueOk(pending) && i < |pending| && p.queued == pending[i].queued && p.sentAt == pending[i].sentAt
    ensures QueueOk(pending[i := p])
  {
    CountUpdate(pending, i, p, |pending|);
  }

  /** Positions of the queued ones among the first `n` entries. */
  ghost function Positions(pending: seq<Slot>, n: nat): set<nat>
    requires n <= |pending|
  {
    if n == 0 then {}
    else Positions(pending, n - 1) + if pending[n - 1].queued then {pending[n - 1].sentAt} else {}
  }

  predicate At(pending: seq<Slot>, n: nat, position: nat)
    requires n <= |pending|
  {
    exists i | 0 <= i < n :: pending[i].queued && pending[i].sentAt == position
  }

  lemma {:induction false} PositionsMean(pending: seq<Slot>, n: nat, position: nat)
    requires n <= |pending|
    ensures position in Positions(pending, n) <==> At(pending, n, position)
  {
    if n > 0 { PositionsMean(pending, n - 1, position); }
  }

  lemma {:induction false} PositionsSize(pending: seq<Slot>, n: nat)
    requires n <= |pending| && QueueOk(pending)
    ensures |Positions(pending, n)| == CountQueued(pending, n)
  {
    if n > 0 {
      PositionsSize(pending, n - 1);
      PositionsMean(pending, n - 1, pending[n - 1].sentAt);
    }
  }

  ghost function UpTo(n: nat): (r: set<nat>)
    ensures forall p: nat :: p in r <==> p < n
    ensures |r| == n
  {
    if n == 0 then {} else UpTo(n - 1) + {n - 1}
  }

  lemma SameSizeSubset(a: set<nat>, b: set<nat>)
    requires a <= b && |a| == |b|
    ensures a == b
  {
    assert b == a + (b - a);
    assert |b| == |a| + |b - a|;
  }

  /** The queue positions are exactly 0..k-1, each taken by exactly one of the k queued entries. */
  lemma QueueIsPermutation(pending: seq<Slot>, position: nat)
    requires QueueOk(pending)
    ensures position < CountQueued(pending, |pending|) <==> At(pending, |pending|, position)
    ensures forall i, j | 0 <= i < j < |pending| && pending[i].queued && pending[j].queued :: pending[i].sentAt != pending[j].sentAt
  {
    var n := |pending|;
    PositionsSize(pending, n);
    forall p | p in Positions(pending, n) ensures p in UpTo(CountQueued(pending, n)) {
      PositionsMean(pending, n, p);
    }
    SameSizeSubset(Positions(pending, n), UpTo(CountQueued(pending, n)));
    PositionsMean(pending, n, position);
  }

  // ----- what the scan finds -----

  /** The result is no later than any considered entry's time, nor than the start value. */
  lemma {:induction false} ScanBound(v: Agent, now: Time, relayReady: Option<seq<bool>>, pace: nat, i: nat, best: nat, check: Check)
    requires i <= |v.pending| && Executable(v, check, relayReady)
    ensures Scan(v, now, relayReady, pace, i, best, check).0 <= best
    ensures forall j | i <= j < |v.pending| && Considered(v, v.pending[j], now, relayReady) ::
              Scan(v, now, relayReady, pace, i, best, check).0 <= Delay(v, v.pending[j], now, pace)
    decreases |v.pending| - i
  {
    if i < |v.pending| {
      var p := v.pending[i];
      var delay := Delay(v, p, now, pace);
      if Considered(v, p, now, relayReady) && Beats(v, p, delay, best, check) {
        ScanBound(v, now, relayReady, pace, i + 1, delay, Check(Some(i), p.local, p.remote, p.inFlight, Expired(v, p, now)));
      } else {
        ScanBound(v, now, relayReady, pace, i + 1, best, check);
      }
    }
  }

  /** The check is the entry `j`, due after `best`. */
  predicate Describes(v: Agent, now: Time, relayReady: Option<seq<bool>>, pace: nat, best: nat, check: Check, j: nat) {
    && j < |v.pending|
    && var p := v.pending[j];
       Considered(v, p, now, relayReady) && best == Delay(v, p, now, pace) &&
       check == Check(Some(j), p.local, p.remote, p.inFlight, Expired(v, p, now))
  }

  /** The result describes a considered entry, unless the start value stands. */
  lemma {:induction false} ScanDescribes(v: Agent, now: Time, relayReady: Option<seq<bool>>, pace: nat, i: nat, best: nat, check: Check)
    requires i <= |v.pending| && Executable(v, check, relayReady)
    requires check == NO_CHECK || (exists j: nat :: Describes(v, now, relayReady, pace, best, check, j))
    ensures var r := Scan(v, now, relayReady, pace, i, best, check);
            (r == (best, check)) || exists j: nat :: Describes(v, now, relayReady, pace, r.0, r.1, j)
    decreases |v.pending| - i
  {
    if i < |v.pending| {
      var p := v.pending[i];
      var delay := Delay(v, p, now, pace);
      if Considered(v, p, now, relayReady) && Beats(v, p, delay, best, check) {
        var c := Check(Some(i), p.local, p.remote, p.inFlight, Expired(v, p, now));
        assert Describes(v, now, relayReady, pace, delay, c, i);
        ScanDescribes(v, now, relayReady, pace, i + 1, delay, c);
      } else {
        ScanDescribes(v, now, relayReady, pace, i + 1, best, check);
      }
    }
  }

  // ----- waking up in time -----

  /** What an entry asks for `e` later, when it asked for `e`. */
  lemma DelayGone(v: Agent, p: Slot, now: Time, relayReady: Option<seq<bool>>, pace: nat, e: nat)
    requires Considered(v, p, now, relayReady) && Delay(v, p, now, pace) == e && 0 < e <= 0x8000_0000
    ensures Considered(v, p, Later(now, e), relayReady) && Delay(v, p, Later(now, e), 0) == 0
  {
    var age, due := Elapsed(now, SentTime(p)), RetryDelay(p.retries);
    if p.inFlight {
      assert age < CHECK_TIMEOUT_MS;
      assert Elapsed(Later(now, e), SentTime(p)) == age + e;
    }
  }

  lemma UntilBound(now: Time, deadline: Time)
    ensures Until(now, deadline) <= 0x8000_0000
  {
  }

  /** A pending pacing deadline passes after exactly the time that was left. */
  lemma PaceGone(v: Agent, now: Time)
    requires 0 < Pace(v, now)
    ensures Pace(v, Later(now, Pace(v, now))) == 0
  {
  }

  /** Waiting time of an unexpired entry: the pacing delay or a retransmission delay. */
  lemma DelayShape(v: Agent, p: Slot, now: Time, pace: nat)
    requires Delay(v, p, now, pace) > 0
    ensures Delay(v, p, now, pace) == pace || pace < Delay(v, p, now, pace) <= CHECK_TIMEOUT_MS
  {
    var age, due := Elapsed(now, SentTime(p)), RetryDelay(p.retries);
    if p.inFlight && age >= CHECK_TIMEOUT_MS { assert age >= due; }
  }

  /** Some entry has run out and can be given up. */
  predicate AnyExpired(v: Agent, now: Time, relayReady: Option<seq<bool>>) {
    exists i | 0 <= i < |v.pending| :: Considered(v, v.pending[i], now, relayReady) && Expired(v, v.pending[i], now)
  }

  /** An announced wait is one for the pacing deadline, or for the retransmission of an entry
      that has not run out. */
  predicate WaitsFor(v: Agent, now: Time, relayReady: Option<seq<bool>>, d: nat, j: nat) {
    j < |v.pending| && Considered(v, v.pending[j], now, relayReady) && Delay(v, v.pending[j], now, Pace(v, now)) == d
  }

  lemma AnnouncedWait(v: Agent, now: Time, relayReady: Option<seq<bool>>, d: nat)
    requires 0 < d < NEVER && d == GetCheck(v, now, relayReady).0
    ensures (v.state == New || v.state == Checking) && Startable(v)
    ensures (exists j: nat :: WaitsFor(v, now, relayReady, d, j)) ||
            (d == Pace(v, now) && v.checkCount < MAX_CHECKS && FreeSlot(v.pending, 0) < |v.pending| && FreshPair(v, relayReady, 0).Some?)
  {
    var pace := Pace(v, now);
    var (best, check) := Scan(v, now, relayReady, pace, 0, NEVER, NO_CHECK);
    ScanDescribes(v, now, relayReady, pace, 0, NEVER, NO_CHECK);
    if j: nat :| Describes(v, now, relayReady, pace, best, check, j) {
      assert d == best ==> WaitsFor(v, now, relayReady, d, j);
    }
  }

  /** With no pacing left, the announced action is due. */
  lemma WakesUnpaced(v: Agent, now: Time, relayReady: Option<seq<bool>>, d: nat)
    requires 0 < d < NEVER && d == GetCheck(v, now, relayReady).0 && d <= 0x8000_0000 && Pace(v, Later(now, d)) == 0
    ensures GetCheck(v, Later(now, d), relayReady).0 == 0
  {
    AnnouncedWait(v, now, relayReady, d);
    ScanBound(v, Later(now, d), relayReady, 0, 0, NEVER, NO_CHECK);
    if j: nat :| WaitsFor(v, now, relayReady, d, j) {
      DelayGone(v, v.pending[j], now, relayReady, Pace(v, now), d);
    }
  }

  lemma AnnouncedBound(v: Agent, now: Time, relayReady: Option<seq<bool>>, d: nat)
    requires 0 < d < NEVER && d == GetCheck(v, now, relayReady).0
    ensures d <= 0x8000_0000 && (d == Pace(v, now) || exists j: nat :: WaitsFor(v, now, relayReady, d, j) && d > Pace(v, now))
    ensures d > Pace(v, now) ==> d <= CHECK_TIMEOUT_MS
  {
    AnnouncedWait(v, now, relayReady, d);
    UntilBound(now, v.nextCheck % 0x1_0000_0000);
    if j: nat :| WaitsFor(v, now, relayReady, d, j) {
      DelayShape(v, v.pending[j], now, Pace(v, now));
    }
  }

  /** While pacing lasts, only an entry that ran out is acted on. */
  lemma PacedUnlessExpired(v: Agent, now: Time, relayReady: Option<seq<bool>>)
    requires (v.state == New || v.state == Checking) && Startable(v) && Pace(v, now) > 0
    requires v.checkCount >= MAX_CHECKS ==> AnyWaiting(v.pending)
    ensures GetCheck(v, now, relayReady).0 == 0 <==> AnyExpired(v, now, relayReady)
  {
    var pace := Pace(v, now);
    var (best, check) := Scan(v, now, relayReady, pace, 0, NEVER, NO_CHECK);
    ScanDescribes(v, now, relayReady, pace, 0, NEVER, NO_CHECK);
    ScanBound(v, now, relayReady, pace, 0, NEVER, NO_CHECK);
    if j: nat :| Describes(v, now, relayReady, pace, best, check, j) {
      if best == 0 { assert Expired(v, v.pending[j], now); }
    }
    if AnyExpired(v, now, relayReady) {
      var i :| 0 <= i < |v.pending| && Considered(v, v.pending[i], now, relayReady) && Expired(v, v.pending[i], now);
      ExpiredIsDue(v, v.pending[i], now, pace);
    }
  }

  lemma ExpiredIsDue(v: Agent, p: Slot, now: Time, pace: nat)
    requires Expired(v, p, now)
    ensures Delay(v, p, now, pace) == 0
  {
    assert RetryDelay(p.retries) <= CHECK_TIMEOUT_MS;
  }

  /** When the schedule announces a wait, something is due after exactly that wait, whatever the
      clock's wrap, unless the pacing deadline of the last send has by then grown so old that it
      reads as a future one; and then only an entry that ran out is due. */
  lemma WakesIff(v: Agent, now: Time, relayReady: Option<seq<bool>>, d: nat)
    requires 0 < d < NEVER && d == GetCheck(v, now, relayReady).0
    ensures d <= 0x8000_0000
    ensures GetCheck(v, Later(now, d), relayReady).0 == 0 <==>
            Pace(v, Later(now, d)) == 0 || AnyExpired(v, Later(now, d), relayReady)
  {
    AnnouncedBound(v, now, relayReady, d);
    if Pace(v, Later(now, d)) == 0 {
      WakesUnpaced(v, now, relayReady, d);
    } else {
      AnnouncedWait(v, now, relayReady, d);
      if j: nat :| WaitsFor(v, now, relayReady, d, j) {
        assert v.pending[j].inFlight || v.pending[j].queued;
      }
      PacedUnlessExpired(v, Later(now, d), relayReady);
    }
  }

  // ----- retransmissions -----

  lemma LateRetries(retries: nat)
    requires RetryDelay(retries) < CHECK_TIMEOUT_MS
    ensures retries <= 3
  {
    assert Pow2(4) == 16;
    if 4 <= retries < 15 { PowAtLeast(4, retries); }
  }

  lemma {:induction false} PowAtLeast(m: nat, n: nat)
    requires m <= n
    ensures Pow2(m) <= Pow2(n)
  {
    if m < n { PowAtLeast(m, n - 1); }
  }

  /** A due retransmission belongs to an in-flight entry with at most three earlier ones. */
  lemma DueRetransmission(v: Agent, now: Time, relayReady: Option<seq<bool>>)
    ensures var (wait, check) := GetCheck(v, now, relayReady);
            wait == 0 && check.slot.Some? && !check.expire && check.retransmit ==>
              var p := v.pending[check.slot.value];
              p.inFlight && p.retries <= 3 && check.local == p.local && check.remote == p.remote
  {
    var (wait, check) := GetCheck(v, now, relayReady);
    if wait == 0 && check.slot.Some? && !check.expire && check.retransmit {
      var pace := Pace(v, now);
      ScanDescribes(v, now, relayReady, pace, 0, NEVER, NO_CHECK);
      var j: nat :| Describes(v, now, relayReady, pace, 0, check, j);
      LateRetries(v.pending[j].retries);
    }
  }

  /** A due first transmission is a queued check, or a pair that is new to the table in an unused entry. */
  lemma DueTransmission(v: Agent, now: Time, relayReady: Option<seq<bool>>)
    ensures var (wait, check) := GetCheck(v, now, relayReady);
            wait == 0 && check.slot.Some? && !check.expire && !check.retransmit ==>
              var p := v.pending[check.slot.value];
              || (p.queued && !p.inFlight && check.local == p.local && check.remote == p.remote)
              || (!Active(p) && !Known(v.pending, check.local, check.remote))
  {
    var (wait, check) := GetCheck(v, now, relayReady);
    if wait == 0 && check.slot.Some? && !check.expire && !check.retransmit {
      var pace := Pace(v, now);
      ScanDescribes(v, now, relayReady, pace, 0, NEVER, NO_CHECK);
      if j: nat :| Describes(v, now, relayReady, pace, 0, check, j) { }
    }
  }

  // ----- first come, first served -----

  /** The best check so far is a queued one that no considered queued entry below `i` precedes. */
  predicate Foremost(v: Agent, now: Time, relayReady: Option<seq<bool>>, i: nat, check: Check)
    requires i <= |v.pending|
  {
    && check.slot.Some? && check.slot.value < |v.pending| && !check.expire && !check.retransmit
    && v.pending[check.slot.value].queued
    && forall j | 0 <= j < i && Considered(v, v.pending[j], now, relayReady) && v.pending[j].queued ::
         v.pending[check.slot.value].sentAt <= v.pending[j].sentAt
  }

  /** No entry has run out. */
  predicate NoneExpired(v: Agent, now: Time) {
    forall j | 0 <= j < |v.pending| && (v.pending[j].inFlight || v.pending[j].queued) :: !Expired(v, v.pending[j], now)
  }

  predicate NoQueuedBelow(v: Agent, now: Time, relayReady: Option<seq<bool>>, i: nat)
    requires i <= |v.pending|
  {
    forall j | 0 <= j < i :: !(Considered(v, v.pending[j], now, relayReady) && v.pending[j].queued)
  }

  lemma {:induction false} ScanForemost(v: Agent, now: Time, relayReady: Option<seq<bool>>, i: nat, best: nat, check: Check)
    requires i <= |v.pending| && Executable(v, check, relayReady) && NoneExpired(v, now) && !check.expire
    requires forall j | 0 <= j < |v.pending| && v.pending[j].queued :: !v.pending[j].inFlight
    requires if NoQueuedBelow(v, now, relayReady, i) then best > 0 || check.retransmit
             else best == 0 && Foremost(v, now, relayReady, i, check)
    ensures !NoQueuedBelow(v, now, relayReady, |v.pending|) ==>
              var r := Scan(v, now, relayReady, 0, i, best, check);
              r.0 == 0 && Foremost(v, now, relayReady, |v.pending|, r.1)
    decreases |v.pending| - i
  {
    if i < |v.pending| {
      var p := v.pending[i];
      var delay := Delay(v, p, now, 0);
      assert NoQueuedBelow(v, now, relayReady, i + 1) <==>
             NoQueuedBelow(v, now, relayReady, i) && !(Considered(v, p, now, relayReady) && p.queued);
      if Considered(v, p, now, relayReady) && Beats(v, p, delay, best, check) {
        ScanForemost(v, now, relayReady, i + 1, delay, Check(Some(i), p.local, p.remote, p.inFlight, Expired(v, p, now)));
      } else {
        ScanForemost(v, now, relayReady, i + 1, best, check);
      }
    }
  }

  /** Once pacing allows, the ready queued check that waited longest goes first, before any
      retransmission and any new pair. */
  lemma FirstComeFirstServed(v: Agent, now: Time, relayReady: Option<seq<bool>>)
    requires (v.state == New || v.state == Checking) && Startable(v) && Pace(v, now) == 0 && NoneExpired(v, now)
    requires forall j | 0 <= j < |v.pending| && v.pending[j].queued :: !v.pending[j].inFlight
    requires !NoQueuedBelow(v, now, relayReady, |v.pending|)
    ensures var (wait, check) := GetCheck(v, now, relayReady);
            wait == 0 && Foremost(v, now, relayReady, |v.pending|, check)
  {
    ScanForemost(v, now, relayReady, 0, NEVER, NO_CHECK);
  }
}
