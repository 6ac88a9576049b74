/** What the agent does next, and when: exactly when a timer service acts, what a request on the wire says,
    when the agent gives up, and that requests keep their distance. */
module IceActs {
  import opened IceModel
  import opened IceSchedule
  import opened IceSafety
  import opened IceExact

  // ----- when the agent acts -----

  /** The pair may be checked: one address family, and relay permission if the local candidate is relayed. */
  predicate Allowed(v: Agent, local: nat, remote: nat, relayReady: Option<seq<bool>>) {
    && local < |v.locals| && remote < |v.remotes| && v.locals[local].addr.family == v.remotes[remote].addr.family
    && (v.locals[local].kind == Relay && relayReady.Some? ==> remote < |relayReady.value| && relayReady.value[remote])
  }

  /** The transaction has had its five seconds; or the check has not started and no more may. */
  predicate RanOut(v: Agent, p: Slot, now: Time) {
    if p.inFlight then Elapsed(now, SentTime(p)) >= CHECK_TIMEOUT_MS else !p.valid && v.checkCount >= MAX_CHECKS
  }

  /** Half a second, doubled with every transmission, has passed since the first one: 0.5, 1.5 and 3.5
      seconds, and never more than five. */
  predicate RetryDue(p: Slot, now: Time) {
    var age := Elapsed(now, SentTime(p));
    if p.retries == 0 then true else if p.retries == 1 then age >= 500 else if p.retries == 2 then age >= 1500
    else if p.retries == 3 then age >= 3500 else age >= 5000
  }

  /** The entry is to be dropped or sent now. */
  predicate EntryActs(v: Agent, p: Slot, now: Time, relayReady: Option<seq<bool>>) {
    && Busy(p)
    && (RanOut(v, p, now) ||
        (Allowed(v, p.local, p.remote, relayReady) && Pace(v, now) == 0 && (p.inFlight ==> RetryDue(p, now))))
  }

  /** The pair may be checked and is not in the table. */
  predicate NewPair(v: Agent, local: nat, remote: nat, relayReady: Option<seq<bool>>) {
    && Allowed(v, local, remote, relayReady)
    && forall k | 0 <= k < |v.pending| && Used(v.pending[k]) :: v.pending[k].local != local || v.pending[k].remote != remote
  }

  predicate AnyEntryActs(v: Agent, now: Time, relayReady: Option<seq<bool>>) {
    exists j | 0 <= j < |v.pending| :: EntryActs(v, v.pending[j], now, relayReady)
  }

  predicate AnyNewPair(v: Agent, relayReady: Option<seq<bool>>) {
    exists local, remote | 0 <= local < |v.locals| && 0 <= remote < |v.remotes| :: NewPair(v, local, remote, relayReady)
  }

  predicate AnyUnused(pending: seq<Slot>) {
    exists j | 0 <= j < |pending| :: !Used(pending[j])
  }

  predicate AnyBusy(pending: seq<Slot>) {
    exists j | 0 <= j < |pending| :: Busy(pending[j])
  }

  /** Nobody to check with, or all checks used up and none under way. */
  predicate NothingLeft(v: Agent) {
    (v.endOfCandidates && v.remotes == []) || (Startable(v) && v.checkCount >= MAX_CHECKS && !AnyBusy(v.pending))
  }

  predicate StartsNew(v: Agent, now: Time, relayReady: Option<seq<bool>>) {
    v.checkCount < MAX_CHECKS && Pace(v, now) == 0 && AnyUnused(v.pending) && AnyNewPair(v, relayReady)
  }

  lemma RetryIs(p: Slot, now: Time)
    ensures Elapsed(now, SentTime(p)) >= RetryDelay(p.retries) <==> RetryDue(p, now)
  {
    assert Pow2(0) == 1 && Pow2(1) == 2 && Pow2(2) == 4 && Pow2(3) == 8 && Pow2(4) == 16;
    if p.retries > 4 { PowAtLeast(4, p.retries); }
  }

  lemma EntryActsIff(v: Agent, p: Slot, now: Time, relayReady: Option<seq<bool>>)
    ensures EntryActs(v, p, now, relayReady) <==> Considered(v, p, now, relayReady) && Delay(v, p, now, Pace(v, now)) == 0
  {
    RetryIs(p, now);
  }

  /** The scan finds something to do now exactly when an entry acts. */
  lemma ScanActsIff(v: Agent, now: Time, relayReady: Option<seq<bool>>)
    ensures Scan(v, now, relayReady, Pace(v, now), 0, NEVER, NO_CHECK).0 == 0 <==> AnyEntryActs(v, now, relayReady)
  {
    var pace := Pace(v, now);
    ScanBound(v, now, relayReady, pace, 0, NEVER, NO_CHECK);
    ScanDescribes(v, now, relayReady, pace, 0, NEVER, NO_CHECK);
    forall j | 0 <= j < |v.pending|
      ensures EntryActs(v, v.pending[j], now, relayReady) <==>
              Considered(v, v.pending[j], now, relayReady) && Delay(v, v.pending[j], now, pace) == 0
    {
      EntryActsIff(v, v.pending[j], now, relayReady);
    }
  }

  // ----- every pair has its turn -----

  lemma PlaceIs(local: nat, remote: nat, n: nat)
    requires remote < n
    ensures (local * n + remote) / n == local && (local * n + remote) % n == remote
  {
    OneQuotient(n, (local * n + remote) / n, (local * n + remote) % n, local, remote);
  }

  /** Quotient and remainder are unique. */
  lemma OneQuotient(n: nat, q: nat, r: nat, p: nat, s: nat)
    requires q * n + r == p * n + s && r < n && s < n
    ensures q == p && r == s
  {
    if q < p { TimesMore(q, p, n); }
    if p < q { TimesMore(p, q, n); }
  }

  lemma TimesMore(a: nat, b: nat, n: nat)
    requires a < b
    ensures a * n + n <= b * n
  {
    assert (a + 1) * n <= b * n;
  }

  lemma PlaceBound(local: nat, remote: nat, l: nat, n: nat)
    requires local < l && remote < n
    ensures local * n + remote < l * n
  {
    assert (local + 1) * n <= l * n;
  }

  /** How many steps lead from one place of a circle to another. */
  function StepsTo(from: nat, to: nat, size: nat): (k: nat)
    requires to < size
    ensures k < size && (from + k) % size == to
  {
    var f := from % size;
    var k := if to >= f then to - f else to - f + size;
    Turned(from, k, size);
    k
  }

  lemma Turned(from: nat, k: nat, size: nat)
    requires size > 0 && k < size
    ensures (from + k) % size == if from % size + k < size then from % size + k else from % size + k - size
  {
    var q, f := from / size, from % size;
    assert from == size * q + f;
    if f + k < size {
      Remainder(q, f + k, size);
    } else {
      Remainder(q + 1, f + k - size, size);
      assert size * (q + 1) == size * q + size;
    }
  }

  lemma Remainder(q: nat, r: nat, size: nat)
    requires r < size
    ensures (size * q + r) % size == r
  {
    PlaceIs(q, r, size);
    assert size * q == q * size;
  }

  /** Every pair is at some step of the circle. */
  lemma PairReached(v: Agent, local: nat, remote: nat) returns (k: nat)
    requires local < |v.locals| && remote < |v.remotes|
    ensures k < |v.locals| * |v.remotes| && PairAt(v, k) == (local, remote)
  {
    PlaceBound(local, remote, |v.locals|, |v.remotes|);
    PlaceIs(local, remote, |v.remotes|);
    k := StepsTo(v.curLocal * |v.remotes| + v.curRemote, local * |v.remotes| + remote, |v.locals| * |v.remotes|);
  }

  lemma {:induction false} FreshFound(v: Agent, relayReady: Option<seq<bool>>, k: nat, at: nat)
    requires v.locals != [] && v.remotes != [] && k <= at < |v.locals| * |v.remotes| && Fresh(v, at, relayReady)
    ensures FreshPair(v, relayReady, k).Some?
    decreases at - k
  {
    if !Fresh(v, k, relayReady) { FreshFound(v, relayReady, k + 1, at); }
  }

  lemma NewPairIff(v: Agent, local: nat, remote: nat, relayReady: Option<seq<bool>>)
    ensures NewPair(v, local, remote, relayReady) <==> PairReady(v, local, remote, relayReady) && !Known(v.pending, local, remote)
  {
  }

  lemma FreshIff(v: Agent, relayReady: Option<seq<bool>>)
    requires v.locals != [] && v.remotes != []
    ensures FreshPair(v, relayReady, 0).Some? <==> AnyNewPair(v, relayReady)
  {
    var r := FreshPair(v, relayReady, 0);
    if r.Some? {
      var (local, remote) := PairAt(v, r.value);
      NewPairIff(v, local, remote, relayReady);
    }
    if local, remote :| 0 <= local < |v.locals| && 0 <= remote < |v.remotes| && NewPair(v, local, remote, relayReady) {
      NewPairIff(v, local, remote, relayReady);
      var k := PairReached(v, local, remote);
      FreshFound(v, relayReady, 0, k);
    }
  }

  lemma {:induction false} UnusedFound(pending: seq<Slot>, i: nat)
    requires i <= |pending|
    ensures FreeSlot(pending, i) < |pending| <==> exists j | i <= j < |pending| :: !Used(pending[j])
    decreases |pending| - i
  {
    if i < |pending| && Used(pending[i]) { UnusedFound(pending, i + 1); }
  }

  /** The agent has something to do now exactly when it has nothing left to try, or when an entry is to be
      dropped or sent, or when a new pair can be started. */
  lemma ActsIff(v: Agent, now: Time, relayReady: Option<seq<bool>>)
    requires Open(v)
    ensures GetCheck(v, now, relayReady).0 == 0 <==>
              NothingLeft(v) || (Startable(v) && (AnyEntryActs(v, now, relayReady) || StartsNew(v, now, relayReady)))
  {
    if Startable(v) {
      ScanActsIff(v, now, relayReady);
      FreshIff(v, relayReady);
      UnusedFound(v.pending, 0);
    }
  }

  /** An agent that is not looking for a pair does nothing. */
  lemma OtherwiseIdle(v: Agent, now: Time, relayReady: Option<seq<bool>>, random: nat)
    requires !Open(v)
    ensures GetCheck(v, now, relayReady).0 == NEVER && Poll(v, now, relayReady, random) == (v, Silence)
  {
  }

  // ----- what it does -----

  /** The agent fails exactly when it has nothing left to try. */
  lemma GivesUpIff(v: Agent, now: Time, relayReady: Option<seq<bool>>, random: nat)
    requires Open(v)
    ensures Poll(v, now, relayReady, random).0.state == Failed <==> NothingLeft(v)
    ensures NothingLeft(v) ==> Poll(v, now, relayReady, random) == (v.(state := Failed), Silence)
  {
    if Startable(v) {
      ScanActsIff(v, now, relayReady);
      ScanDescribes(v, now, relayReady, Pace(v, now), 0, NEVER, NO_CHECK);
    }
  }

  /** What stays of an entry when another one leaves the queue: at most its position changes. */
  predicate MovedUp(p: Slot, q: Slot) {
    q == p.(sentAt := q.sentAt) && (!p.queued ==> q == p)
  }

  /** The other entries keep everything but their positions, and those keep their order. */
  predicate OthersMoveUp(a: seq<Slot>, b: seq<Slot>, s: nat) {
    && |a| == |b| && (forall k | 0 <= k < |a| && k != s :: MovedUp(a[k], b[k]))
    && forall j, k | 0 <= j < |a| && 0 <= k < |a| && j != s && k != s && a[j].queued && a[k].queued && a[j].sentAt < a[k].sentAt ::
         b[j].sentAt < b[k].sentAt
  }

  lemma DequeueOrder(pending: seq<Slot>, s: nat, q: Slot, after: seq<Slot>)
    requires QueueOk(pending) && s < |pending| && after == Dequeue(pending, s)[s := q]
    ensures OthersMoveUp(pending, after, s) && after[s] == q
  {
    if pending[s].queued {
      forall k | 0 <= k < |pending| && k != s && pending[k].queued ensures pending[k].sentAt != pending[s].sentAt {
        DistinctPositions(pending, s, k);
      }
    }
  }

  /** The entry after its request went out again: the same transaction with one more transmission. */
  predicate Repeated(p: Slot, q: Slot) {
    p.inFlight && q == p.(retries := p.retries + 1)
  }

  /** The entry of a request that went out for the first time. */
  predicate Started(p: Slot, q: Slot, now: Time, random: nat) {
    && !p.inFlight && q.inFlight && !q.queued && q.txid == random && q.sentAt == now && q.retries == 1
    && q.valid == p.valid && q.nominate == p.nominate && q.triggered == p.triggered
  }

  /** A check that goes out: the request is for an allowed pair, from the entry that is due, and the next
      one may follow 50 ms later. */
  predicate GoesOut(v: Agent, now: Time, relayReady: Option<seq<bool>>, random: nat, w: Agent, out: Output, s: nat) {
    && out.Request? && s < |v.pending| == |w.pending|
    && var p, q := v.pending[s], w.pending[s];
       && (Repeated(p, q) || Started(p, q, now, random))
       && (Busy(p) ==> EntryActs(v, p, now, relayReady) && !RanOut(v, p, now) && q.local == p.local && q.remote == p.remote)
       && (!Busy(p) ==> !Used(p) && StartsNew(v, now, relayReady) && NewPair(v, q.local, q.remote, relayReady))
       && Allowed(v, q.local, q.remote, relayReady)
       && out == Request(q.txid, q.local, v.remotes[q.remote].addr, v.controlling && p.nominate)
       && OthersMoveUp(v.pending, w.pending, s)
       && w.state == Checking && w.remotes == v.remotes && w.selected == v.selected
       && w.checkCount == (if p.inFlight || v.checkCount >= 255 then v.checkCount else v.checkCount + 1)
       && w.nextCheck == Deadline(now, CHECK_INTERVAL_MS)
  }

  /** The entry that the schedule names, when something is to be sent. */
  predicate Named(v: Agent, now: Time, relayReady: Option<seq<bool>>, check: Check) {
    && check.slot.Some? && check.slot.value < |v.pending| && !check.expire && Allowed(v, check.local, check.remote, relayReady)
    && var p := v.pending[check.slot.value];
       check.retransmit == p.inFlight &&
       if Busy(p) then EntryActs(v, p, now, relayReady) && !RanOut(v, p, now) && check.local == p.local && check.remote == p.remote
       else !Used(p) && StartsNew(v, now, relayReady) && NewPair(v, check.local, check.remote, relayReady)
  }

  lemma CheckNamed(v: Agent, now: Time, relayReady: Option<seq<bool>>, check: Check)
    requires Open(v) && GetCheck(v, now, relayReady) == (0, check) && !check.expire && check.slot.Some?
    ensures Named(v, now, relayReady, check)
  {
    var pace := Pace(v, now);
    ScanDescribes(v, now, relayReady, pace, 0, NEVER, NO_CHECK);
    ScanActsIff(v, now, relayReady);
    FreshIff(v, relayReady);
    UnusedFound(v.pending, 0);
    NewPairIff(v, check.local, check.remote, relayReady);
    EntryActsIff(v, v.pending[check.slot.value], now, relayReady);
  }

  /** Whatever a timer service puts on the wire. */
  lemma TransmitExact(v: Agent, log: Log, now: Time, relayReady: Option<seq<bool>>, random: nat) returns (s: nat)
    requires IceOk(v, log) && Poll(v, now, relayReady, random).1.Request?
    ensures var r := Poll(v, now, relayReady, random); GoesOut(v, now, relayReady, random, r.0, r.1, s)
  {
    var (wait, check) := GetCheck(v, now, relayReady);
    CheckNamed(v, now, relayReady, check);
    DueRetransmission(v, now, relayReady);
    s := check.slot.value;
    SentIs(v, log, now, relayReady, check, random, SendCheck(v, now, check, random));
  }

  lemma SentIs(v: Agent, log: Log, now: Time, relayReady: Option<seq<bool>>, check: Check, random: nat, r: (Agent, Output))
    requires IceOk(v, log) && Named(v, now, relayReady, check) && r == SendCheck(v, now, check, random)
    requires check.retransmit ==> v.pending[check.slot.value].retries <= 3
    ensures GoesOut(v, now, relayReady, random, r.0, r.1, check.slot.value)
  {
    var s := check.slot.value;
    assert SlotOk(v, log, v.pending[s]);
    DequeueOrder(v.pending, s, Transmitted(v.pending[s], check, now, random), r.0.pending);
  }

  /** A service that sends nothing although something was to be done: the agent gave up, or one entry that
      ran out was dropped. */
  lemma DropExact(v: Agent, log: Log, now: Time, relayReady: Option<seq<bool>>, random: nat) returns (s: nat)
    requires IceOk(v, log) && Open(v) && GetCheck(v, now, relayReady).0 == 0 && !NothingLeft(v)
    requires Poll(v, now, relayReady, random).1 == Silence
    ensures s < |v.pending| && Busy(v.pending[s]) && RanOut(v, v.pending[s], now)
    ensures var w := Poll(v, now, relayReady, random).0;
            w == v.(pending := w.pending) && OthersMoveUp(v.pending, w.pending, s) && w.pending[s] == IDLE
  {
    var (wait, check) := GetCheck(v, now, relayReady);
    var pace := Pace(v, now);
    ScanDescribes(v, now, relayReady, pace, 0, NEVER, NO_CHECK);
    ScanActsIff(v, now, relayReady);
    s := check.slot.value;
    DequeueOrder(v.pending, s, IDLE, Dequeue(v.pending, s)[s := IDLE]);
  }

  // ----- requests keep their distance -----

  /** Within 50 ms of `at`. */
  predicate Soon(at: Time, now: Time) {
    Elapsed(now, at) < CHECK_INTERVAL_MS
  }

  lemma NotYet(v: Agent, at: Time, now: Time)
    requires v.nextCheck == Deadline(at, CHECK_INTERVAL_MS) && Soon(at, now)
    ensures Pace(v, now) > 0
  {
  }

  /** Before the pace allows it nothing is sent, and the pace stays. */
  lemma SilentBefore(v: Agent, at: Time, now: Time, relayReady: Option<seq<bool>>, random: nat)
    requires v.nextCheck == Deadline(at, CHECK_INTERVAL_MS) && Soon(at, now)
    ensures Poll(v, now, relayReady, random).1 == Silence && Poll(v, now, relayReady, random).0.nextCheck == v.nextCheck
  {
    NotYet(v, at, now);
    if Open(v) {
      var (wait, check) := GetCheck(v, now, relayReady);
      if wait == 0 && !check.expire && check.slot.Some? { CheckNamed(v, now, relayReady, check); }
    }
  }

  /** Every service of the steps happens within 50 ms of `at`, and no generation starts. */
  predicate AllSoon(at: Time, steps: seq<Step>) {
    forall k | 0 <= k < |steps| :: !steps[k].NewGeneration? && (steps[k].Tick? ==> Soon(at, steps[k].now))
  }

  predicate NothingSent(log: Log, from: nat) {
    from <= |log| && forall k | from <= k < |log| :: !log[k].Sent?
  }

  lemma QuietNext(w: World, step: Step, at: Time)
    requires w.agent.nextCheck == Deadline(at, CHECK_INTERVAL_MS) && !step.NewGeneration? && (step.Tick? ==> Soon(at, step.now))
    ensures Next(w, step).agent.nextCheck == w.agent.nextCheck
    ensures |w.log| <= |Next(w, step).log| <= |w.log| + 1 && Next(w, step).log[..|w.log|] == w.log
    ensures NothingSent(Next(w, step).log, |w.log|)
  {
    match step
    case Tick(now, relayReady, random) => SilentBefore(w.agent, at, now, relayReady, random);
    case Incoming(local, src, useCandidate) => TriggerPace(w.agent, local, src, useCandidate && !w.agent.controlling);
    case _ =>
  }

  lemma TriggerPace(v: Agent, local: nat, src: Addr, nominate: bool)
    ensures Trigger(v, local, src, nominate).0.nextCheck == v.nextCheck
  {
  }

  /** After a request that went out at `at` no other follows within 50 ms, whatever arrives. */
  lemma {:induction false} Spaced(w: World, steps: seq<Step>, at: Time)
    requires w.agent.nextCheck == Deadline(at, CHECK_INTERVAL_MS) && AllSoon(at, steps)
    ensures Run(w, steps).agent.nextCheck == w.agent.nextCheck && NothingSent(Run(w, steps).log, |w.log|)
    decreases |steps|
  {
    if steps != [] {
      var front := steps[..|steps| - 1];
      Spaced(w, front, at);
      QuietNext(Run(w, front), steps[|steps| - 1], at);
      SilentLonger(Run(w, front).log, Run(w, steps).log, |w.log|);
    }
  }

  lemma SilentLonger(a: Log, b: Log, from: nat)
    requires NothingSent(a, from) && |a| <= |b| && b[..|a|] == a && NothingSent(b, |a|)
    ensures NothingSent(b, from)
  {
    forall k | from <= k < |b| ensures !b[k].Sent? {
      if k < |a| { assert b[..|a|][k] == a[k]; }
    }
  }

  /** A new generation is a fresh start with the same role and local candidates. */
  lemma RestartIsStart(v: Agent)
    ensures Restart(v) == Start(v.controlling, v.locals, v.srflxBase).agent
  {
  }
}
