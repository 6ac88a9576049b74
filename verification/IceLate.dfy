/** A run after which an announced wait ends without an action: a transaction is left in flight for
    a whole turn of the clock, while triggered checks on another pair keep the pacing deadline
    moving. The transaction then looks young again, and the deadline, 24.8 days old, looks future. */
module IceLate {
  import opened IceModel
  import opened IceSchedule
  import opened IceSafety
  import opened IceClock

  // ----- tables in which two entries are in use -----

  predicate TwoUsed(v: Agent, p: Slot, q: Slot) {
    v.pending == [p, q, IDLE, IDLE]
  }

  function CheckOf(v: Agent, i: nat, p: Slot, now: Time): Check {
    Check(Some(i), p.local, p.remote, p.inFlight, Expired(v, p, now))
  }

  /** Only the first entry waits. */
  lemma ScanFirst(v: Agent, now: Time, pace: nat, p: Slot, q: Slot)
    requires TwoUsed(v, p, q) && Considered(v, p, now, None) && Delay(v, p, now, pace) < NEVER && !q.inFlight && !q.queued
    ensures Scan(v, now, None, pace, 0, NEVER, NO_CHECK) == (Delay(v, p, now, pace), CheckOf(v, 0, p, now))
  {
    ScanIdle(v, now, pace, p, q, 1, Delay(v, p, now, pace), CheckOf(v, 0, p, now));
  }

  /** Nothing else waits from entry `i` on. */
  lemma {:induction false} ScanIdle(v: Agent, now: Time, pace: nat, p: Slot, q: Slot, i: nat, best: nat, check: Check)
    requires TwoUsed(v, p, q) && 1 <= i <= 4 && Executable(v, check, None) && (i == 1 ==> !q.inFlight && !q.queued)
    ensures Scan(v, now, None, pace, i, best, check) == (best, check)
    decreases 4 - i
  {
    if i < 4 { ScanIdle(v, now, pace, p, q, i + 1, best, check); }
  }

  /** Only the second entry waits. */
  lemma ScanSecond(v: Agent, now: Time, pace: nat, p: Slot, q: Slot)
    requires TwoUsed(v, p, q) && Considered(v, q, now, None) && Delay(v, q, now, pace) < NEVER && !p.inFlight && !p.queued
    ensures Scan(v, now, None, pace, 0, NEVER, NO_CHECK) == (Delay(v, q, now, pace), CheckOf(v, 1, q, now))
  {
    ScanIdle(v, now, pace, p, q, 2, Delay(v, q, now, pace), CheckOf(v, 1, q, now));
  }

  /** The first entry is due, and the second one is not queued. */
  lemma ScanFirstDue(v: Agent, now: Time, pace: nat, p: Slot, q: Slot)
    requires TwoUsed(v, p, q) && Considered(v, p, now, None) && Delay(v, p, now, pace) == 0 && !q.queued
    ensures Scan(v, now, None, pace, 0, NEVER, NO_CHECK) == (0, CheckOf(v, 0, p, now))
  {
    ScanIdle(v, now, pace, p, q, 2, 0, CheckOf(v, 0, p, now));
  }

  lemma OneRetry()
    ensures RetryDelay(1) == 500
  {
    assert Pow2(1) == 2 * Pow2(0) && Pow2(0) == 1;
  }

  // ----- the agents along the run -----

  /** One local candidate and two remote ones of its family. */
  predicate Setting(a: Addr, r0: Addr, r1: Addr) {
    a.family == r0.family == r1.family && r0 != r1
  }

  function Asking(a: Addr, r0: Addr, r1: Addr, p: Slot, q: Slot, count: nat, next: nat, remote: nat): Agent {
    Agent(Checking, false, [Candidate(a, Host)], LOCAL_UNKNOWN, [Candidate(r0, Host), Candidate(r1, Host)],
          [p, q, IDLE, IDLE], count, next, 0, remote, false, true, None)
  }

  function Ready(a: Addr, r0: Addr, r1: Addr): Agent {
    Asking(a, r0, r1, IDLE, IDLE, 0, 0, 0).(state := New)
  }

  function InFlight(txid: nat, at: nat, remote: nat, triggered: bool): Slot {
    Slot(txid, at, 0, remote, true, false, false, false, triggered, 1)
  }

  const WAITING := Slot(0, 0, 0, 0, false, true, false, false, true, 0)

  /** The entry of a pair that answered the triggered check sent at `at`. */
  function ValidEntry(txid: nat, at: nat): Slot {
    Slot(txid, at, 0, 0, false, false, true, false, false, 0)
  }

  const FIRST: nat := 1050
  const SECOND: nat := 1073742924
  const THIRD: nat := 2147484849

  /** The moment at which the second transaction looks 100 milliseconds old. */
  const LOOK: nat := 4294968446

  /** The agent along the run, from the first timer service on. */
  function Stage(a: Addr, r0: Addr, r1: Addr, k: nat): Agent {
    var p, q := InFlight(1, 1000, 0, false), InFlight(2, FIRST, 1, false);
    if k == 0 then Ready(a, r0, r1)
    else if k == 1 then Asking(a, r0, r1, p, IDLE, 1, 1050, 1)
    else if k == 2 then Asking(a, r0, r1, p, q, 2, 1100, 0)
    else if k == 3 then Asking(a, r0, r1, IDLE, q, 2, 1100, 0)
    else if k == 4 then Asking(a, r0, r1, WAITING, q, 2, 1100, 0)
    else if k == 5 then Asking(a, r0, r1, InFlight(3, SECOND, 0, true), q, 3, SECOND + 50, 1)
    else if k == 6 then Asking(a, r0, r1, IDLE, q, 3, SECOND + 50, 1)
    else if k == 7 then Asking(a, r0, r1, WAITING, q, 3, SECOND + 50, 1)
    else if k == 8 then Asking(a, r0, r1, InFlight(4, THIRD, 0, true), q, 4, THIRD + 50, 1)
    else Asking(a, r0, r1, ValidEntry(4, THIRD), q, 4, THIRD + 50, 1)
  }

  /** What a step makes of the agent, whatever was logged. */
  function AgentAfter(v: Agent, step: Step): Agent {
    Next(World(v, []), step).agent
  }

  lemma LogDoesNotMatter(v: Agent, log: Log, step: Step)
    ensures Next(World(v, log), step).agent == AgentAfter(v, step)
  {
  }

  /** A timer service that sends on a fresh pair. */
  lemma TickSends(v: Agent, now: Time, txid: nat, check: Check)
    requires GetCheck(v, now, None) == (0, check) && Executable(v, check, None) && check.slot.Some? && !check.expire
    ensures check.slot.value < |v.pending| && check.local < |v.locals| && check.remote < |v.remotes|
    ensures AgentAfter(v, Tick(now, None, txid)) == SendCheck(v, now, check, txid).0
  {
  }

  lemma FirstTick(a: Addr, r0: Addr, r1: Addr, v: Agent)
    requires Setting(a, r0, r1) && v == Stage(a, r0, r1, 0)
    ensures GetCheck(v, 1000, None) == (0, Check(Some(0), 0, 0, false, false))
  {
    ScanIdle(v, 1000, 0, IDLE, IDLE, 1, NEVER, NO_CHECK);
    assert FreeSlot(v.pending, 0) == 0;
    assert PairAt(v, 0) == (0, 0) && Fresh(v, 0, None);
  }

  lemma SecondTick(a: Addr, r0: Addr, r1: Addr, v: Agent)
    requires Setting(a, r0, r1) && v == Stage(a, r0, r1, 1)
    ensures GetCheck(v, FIRST, None) == (0, Check(Some(1), 0, 1, false, false))
  {
    OneRetry();
    assert Delay(v, v.pending[0], FIRST, 0) == 450;
    ScanFirst(v, FIRST, 0, v.pending[0], IDLE);
    assert FreeSlot(v.pending, 0) == 1;
    assert PairAt(v, 0) == (0, 1) && Fresh(v, 0, None);
  }

  /** A triggered check is due before the transaction that ran out. */
  lemma TriggeredTick(v: Agent, q: Slot, now: Time)
    requires TwoUsed(v, WAITING, q) && !q.queued && v.state == Checking && Startable(v) && Pace(v, now) == 0
    requires v.checkCount < MAX_CHECKS && PairReady(v, 0, 0, None) && !(v.endOfCandidates && v.remotes == [])
    ensures GetCheck(v, now, None) == (0, Check(Some(0), 0, 0, false, false))
  {
    ScanFirstDue(v, now, 0, WAITING, q);
  }

  lemma Sends(a: Addr, r0: Addr, r1: Addr, k: nat, now: Time, txid: nat)
    requires Setting(a, r0, r1)
    requires (k == 0 && now == 1000 && txid == 1) || (k == 1 && now == FIRST && txid == 2)
             || (k == 4 && now == SECOND && txid == 3) || (k == 7 && now == THIRD && txid == 4)
    ensures AgentAfter(Stage(a, r0, r1, k), Tick(now, None, txid)) == Stage(a, r0, r1, k + 1)
  {
    var v := Stage(a, r0, r1, k);
    var check := Check(Some(if k == 1 then 1 else 0), 0, if k == 1 then 1 else 0, false, false);
    if k == 0 {
      FirstTick(a, r0, r1, v);
    } else if k == 1 {
      SecondTick(a, r0, r1, v);
    } else {
      TriggeredTick(v, v.pending[1], now);
    }
    TickSends(v, now, txid, check);
    SendIs(v, now, txid, check, Stage(a, r0, r1, k + 1));
  }

  /** What sending does to these tables. */
  lemma SendIs(v: Agent, now: Time, txid: nat, check: Check, w: Agent)
    requires check.slot.Some? && !check.expire && !check.retransmit && check.local == 0 < |v.locals| && check.remote < |v.remotes|
    requires check.slot.value < |v.pending| && |v.locals| == 1 && v.checkCount < 255
    requires forall j | 0 <= j < |v.pending| && j != check.slot.value :: !v.pending[j].queued
    requires w == v.(pending := v.pending[check.slot.value := Transmitted(v.pending[check.slot.value], check, now, txid)],
                     checkCount := v.checkCount + 1, nextCheck := Deadline(now, CHECK_INTERVAL_MS), state := Checking,
                     curRemote := if check.remote + 1 >= |v.remotes| then 0 else check.remote + 1, curLocal := 0)
    ensures SendCheck(v, now, check, txid).0 == w
  {
    var slot := check.slot.value;
    var p := Transmitted(v.pending[slot], check, now, txid);
    assert Dequeue(v.pending, slot)[slot := p] == v.pending[slot := p];
  }

  lemma ErrorEnds(a: Addr, r0: Addr, r1: Addr, k: nat, txid: nat)
    requires Setting(a, r0, r1) && ((k == 2 && txid == 1) || (k == 5 && txid == 3))
    ensures AgentAfter(Stage(a, r0, r1, k), Error(txid)) == Stage(a, r0, r1, k + 1)
  {
    var v := Stage(a, r0, r1, k);
    assert FindTxid(v.pending, txid, 0) == 0;
    assert v.pending[0 := IDLE] == Stage(a, r0, r1, k + 1).pending;
  }

  lemma RequestTriggers(a: Addr, r0: Addr, r1: Addr, k: nat)
    requires Setting(a, r0, r1) && (k == 3 || k == 6)
    ensures AgentAfter(Stage(a, r0, r1, k), Incoming(0, r0, false)) == Stage(a, r0, r1, k + 1)
  {
    var v := Stage(a, r0, r1, k);
    assert FindRemote(v.remotes, r0, 0) == 0;
    FirstIsFree(v, v.pending[1]);
    var q := IDLE.(triggered := true);
    assert PairEntry(v, IDLE, 0, 0, false) == IDLE;
    assert v.pending[0 := IDLE] == v.pending;
    var t := v.pending[0 := q];
    assert CountQueued(t, 4) == 0 by { assert t == [q, v.pending[1], IDLE, IDLE]; NoneQueued(t, 4); }
    assert Enqueue(t, 0) == Stage(a, r0, r1, k + 1).pending;
  }

  lemma {:induction false} NoneQueued(t: seq<Slot>, n: nat)
    requires n <= |t| && forall i | 0 <= i < n :: !t[i].queued
    ensures CountQueued(t, n) == 0
  {
    if n > 0 { NoneQueued(t, n - 1); }
  }

  /** The first entry is unused, and no entry belongs to the pair of the first remote candidate. */
  lemma FirstIsFree(v: Agent, q: Slot)
    requires TwoUsed(v, IDLE, q) && q.remote == 1
    ensures PairSlot(v, 0, 0, 0, 4) == 0
  {
    assert PairSlot(v, 0, 0, 4, 0) == 0;
    assert PairSlot(v, 0, 0, 3, 0) == 0;
    assert PairSlot(v, 0, 0, 2, 0) == 0;
    assert PairSlot(v, 0, 0, 1, 0) == 0;
  }

  lemma ReplyMakesValid(a: Addr, r0: Addr, r1: Addr)
    requires Setting(a, r0, r1)
    ensures AgentAfter(Stage(a, r0, r1, 8), Reply(4, r0, 0, false, None)) == Stage(a, r0, r1, 9)
  {
    var v := Stage(a, r0, r1, 8);
    assert FindTxid(v.pending, 4, 0) == 0;
    assert MappedLocal(v, 0, None, 1) == 0 && MappedLocal(v, 0, None, 0) == 0;
    assert v.pending[0 := ValidEntry(4, THIRD)] == Stage(a, r0, r1, 9).pending;
  }

  // ----- what is announced, and what is due then -----

  lemma BothKnown(a: Addr, r0: Addr, r1: Addr, v: Agent)
    requires Setting(a, r0, r1) && v == Stage(a, r0, r1, 9)
    ensures FreshPair(v, None, 0).None?
  {
    assert PairAt(v, 0) == (0, 1) && PairAt(v, 1) == (0, 0);
    assert Known(v.pending, 0, 1) by { assert Active(v.pending[1]); }
    assert Known(v.pending, 0, 0) by { assert Active(v.pending[0]); }
    assert !Fresh(v, 0, None) && !Fresh(v, 1, None);
    assert FreshPair(v, None, 2).None? && FreshPair(v, None, 1).None?;
  }

  lemma Announced(a: Addr, r0: Addr, r1: Addr, v: Agent)
    requires Setting(a, r0, r1) && v == Stage(a, r0, r1, 9)
    ensures GetCheck(v, 1150, None).0 == 400 && GetCheck(v, 1550, None).0 == 2147483349
  {
    OneRetry();
    BothKnown(a, r0, r1, v);
    assert Pace(v, 1150) == 0 && Pace(v, 1550) == 2147483349;
    assert Delay(v, v.pending[1], 1150, 0) == 400;
    assert Delay(v, v.pending[1], 1550, 2147483349) == 2147483349;
    ScanSecond(v, 1150, 0, v.pending[0], v.pending[1]);
    ScanSecond(v, 1550, 2147483349, v.pending[0], v.pending[1]);
  }

  // ----- the run -----

  predicate Comes(a: Addr, run: seq<Timed>, v: Agent) {
    Run(Start(false, [Candidate(a, Host)], LOCAL_UNKNOWN), Steps(run)).agent == v
  }

  lemma ComesMore(a: Addr, run: seq<Timed>, v: Agent, t: Timed, w: Agent)
    requires Comes(a, run, v) && AgentAfter(v, t.step) == w
    ensures Comes(a, run + [t], w)
  {
    var world := Run(Start(false, [Candidate(a, Host)], LOCAL_UNKNOWN), Steps(run));
    var all := Steps(run + [t]);
    assert all == Steps(run) + [t.step] && all[..|run|] == Steps(run);
    LogDoesNotMatter(v, world.log, t.step);
  }

  function Beginning(r0: Addr, r1: Addr): seq<Timed> {
    [Timed(0, Trickle(Candidate(r0, Host))), Timed(0, Trickle(Candidate(r1, Host))), Timed(0, SetCredentials)]
  }

  lemma BeginningComes(a: Addr, r0: Addr, r1: Addr)
    ensures Comes(a, Beginning(r0, r1), Ready(a, r0, r1))
  {
    var v := Start(false, [Candidate(a, Host)], LOCAL_UNKNOWN).agent;
    var v1 := v.(remotes := [Candidate(r0, Host)]);
    var v2 := v.(remotes := [Candidate(r0, Host), Candidate(r1, Host)]);
    assert v.pending == [IDLE, IDLE, IDLE, IDLE];
    assert v1.remotes + [Candidate(r1, Host)] == v2.remotes;
    var t0, t1 := Timed(0, Trickle(Candidate(r0, Host))), Timed(0, Trickle(Candidate(r1, Host)));
    assert Steps([]) == [];
    assert AgentAfter(v, t0.step) == v1 && AgentAfter(v1, t1.step) == v2;
    ComesMore(a, [], v, t0, v1);
    ComesMore(a, [t0], v1, t1, v2);
    assert [] + [t0] == [t0] && [t0] + [t1] == [t0, t1];
    assert AgentAfter(v2, SetCredentials) == Ready(a, r0, r1);
    ComesMore(a, [t0, t1], v2, Timed(0, SetCredentials), Ready(a, r0, r1));
    assert [t0, t1] + [Timed(0, SetCredentials)] == Beginning(r0, r1);
  }

  /** The steps behind the beginning. */
  function LateStep(r0: Addr, k: nat): Timed {
    if k == 0 then Timed(1000, Tick(1000, None, 1))
    else if k == 1 then Timed(FIRST, Tick(FIRST, None, 2))
    else if k == 2 then Timed(FIRST, Error(1))
    else if k == 3 then Timed(FIRST, Incoming(0, r0, false))
    else if k == 4 then Timed(SECOND, Tick(SECOND, None, 3))
    else if k == 5 then Timed(SECOND, Error(3))
    else if k == 6 then Timed(SECOND, Incoming(0, r0, false))
    else if k == 7 then Timed(THIRD, Tick(THIRD, None, 4))
    else Timed(THIRD, Reply(4, r0, 0, false, None))
  }

  function LateRun(r0: Addr, r1: Addr, n: nat): (r: seq<Timed>)
    requires n <= 9
    ensures |r| == 3 + n
    ensures forall i | 0 <= i < |r| :: r[i] == if i < 3 then Beginning(r0, r1)[i] else LateStep(r0, i - 3)
  {
    if n == 0 then Beginning(r0, r1) else LateRun(r0, r1, n - 1) + [LateStep(r0, n - 1)]
  }

  lemma StageFollows(a: Addr, r0: Addr, r1: Addr, k: nat)
    requires Setting(a, r0, r1) && k < 9
    ensures AgentAfter(Stage(a, r0, r1, k), LateStep(r0, k).step) == Stage(a, r0, r1, k + 1)
  {
    if k == 0 { Sends(a, r0, r1, 0, 1000, 1); }
    else if k == 1 { Sends(a, r0, r1, 1, FIRST, 2); }
    else if k == 4 { Sends(a, r0, r1, 4, SECOND, 3); }
    else if k == 7 { Sends(a, r0, r1, 7, THIRD, 4); }
    else if k == 2 { ErrorEnds(a, r0, r1, 2, 1); }
    else if k == 5 { ErrorEnds(a, r0, r1, 5, 3); }
    else if k == 8 { ReplyMakesValid(a, r0, r1); }
    else { RequestTriggers(a, r0, r1, k); }
  }

  lemma {:induction false} LateRunComes(a: Addr, r0: Addr, r1: Addr, n: nat)
    requires Setting(a, r0, r1) && n <= 9
    ensures Comes(a, LateRun(r0, r1, n), Stage(a, r0, r1, n))
  {
    if n == 0 {
      BeginningComes(a, r0, r1);
    } else {
      LateRunComes(a, r0, r1, n - 1);
      StageFollows(a, r0, r1, n - 1);
      ComesMore(a, LateRun(r0, r1, n - 1), Stage(a, r0, r1, n - 1), LateStep(r0, n - 1), Stage(a, r0, r1, n));
    }
  }

  /** After this run 400 milliseconds are announced; when they are over, nothing is due for 24.8
      more days. The second transaction was in flight for a whole turn of the clock. */
  lemma WaitEndsWithoutAction(a: Addr, r0: Addr, r1: Addr, v: Agent)
    requires Setting(a, r0, r1)
    requires v == Run(Start(false, [Candidate(a, Host)], LOCAL_UNKNOWN), Steps(LateRun(r0, r1, 9))).agent
    ensures Clocked(LateRun(r0, r1, 9)) && LastAt(LateRun(r0, r1, 9)) <= LOOK
    ensures GetCheck(v, Wrap(LOOK), None).0 == 400 && GetCheck(v, Wrap(LOOK + 400), None).0 == 2147483349
  {
    LateRunClocked(r0, r1);
    LateRunComes(a, r0, r1, 9);
    assert Wrap(LOOK) == 1150 && Wrap(LOOK + 400) == 1550;
    Announced(a, r0, r1, v);
  }

  lemma LateRunClocked(r0: Addr, r1: Addr)
    ensures Clocked(LateRun(r0, r1, 9)) && LastAt(LateRun(r0, r1, 9)) <= LOOK
  {
    var run := LateRun(r0, r1, 9);
    forall i | 0 <= i < |run| && run[i].step.Tick? ensures run[i].step.now == Wrap(run[i].at) {
      assert i >= 3;
    }
  }
}
