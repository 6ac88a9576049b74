/** Runs of an agent under a clock that never goes back: the schedule wakes up when it said it
    would, as long as no transaction stays in flight for a whole turn of the 32-bit clock. */
module IceClock {
  import opened IceModel
  import opened IceSchedule
  import opened IceSafety

  /** One turn of the millisecond clock, 49.7 days. */
  const TURN: nat := 0x1_0000_0000

  function Wrap(at: nat): Time {
    at % TURN
  }

  lemma ElapsedIs(at: nat, since: nat)
    requires since <= at < since + TURN
    ensures Elapsed(Wrap(at), Wrap(since)) == at - since
  {
  }

  lemma LaterIs(at: nat, d: nat)
    requires d < TURN
    ensures Later(Wrap(at), d) == Wrap(at + d)
  {
  }

  // ----- timed runs -----

  /** A step at a moment of a clock without the wrap. */
  datatype Timed = Timed(at: nat, step: Step)

  function Steps(run: seq<Timed>): (r: seq<Step>)
    ensures |r| == |run|
  {
    seq(|run|, i requires 0 <= i < |run| => run[i].step)
  }

  /** The clock never goes back, and timer services read it. */
  predicate Clocked(run: seq<Timed>) {
    && (forall i | 0 <= i < |run| && run[i].step.Tick? :: run[i].step.now == Wrap(run[i].at))
    && forall i, j | 0 <= i < j < |run| :: run[i].at <= run[j].at
  }

  function LastAt(run: seq<Timed>): nat {
    if run == [] then 0 else run[|run| - 1].at
  }

  /** When each table entry's transaction was sent first, and when anything was sent last. */
  datatype Notes = Notes(born: seq<nat>, last: nat)

  /** The entry and the kind of the request that a step sends. */
  function SendOf(v: Agent, step: Step): Option<Check> {
    if !step.Tick? then None
    else
      var (wait, check) := GetCheck(v, step.now, step.relayReady);
      if wait == 0 && check.slot.Some? && !check.expire then Some(check) else None
  }

  function Note(notes: Notes, v: Agent, t: Timed): (r: Notes)
    requires |notes.born| == |v.pending|
    ensures |r.born| == |notes.born|
  {
    var sent := SendOf(v, t.step);
    if sent.None? then notes
    else Notes(if sent.value.retransmit then notes.born else notes.born[sent.value.slot.value := t.at], t.at)
  }

  /** In-flight entries carry the time of their first transmission, and the pacing deadline is
      that of the last one, which is not earlier. */
  predicate ClockOk(v: Agent, notes: Notes, at: nat) {
    && |notes.born| == |v.pending| && notes.last <= at
    && forall i | 0 <= i < |v.pending| && v.pending[i].inFlight :: EntryClockOk(v, v.pending[i], notes.born[i], notes.last)
  }

  predicate EntryClockOk(v: Agent, p: Slot, born: nat, last: nat) {
    p.sentAt == Wrap(born) && born <= last && v.nextCheck == Deadline(Wrap(last), CHECK_INTERVAL_MS)
  }

  /** Entries stay as they are, leave the air, or the table grows idle. */
  predicate Lands(v: Agent, w: Agent) {
    && |w.pending| == |v.pending|
    && forall i | 0 <= i < |v.pending| && w.pending[i].inFlight ::
         v.pending[i].inFlight && w.pending[i].sentAt == v.pending[i].sentAt && w.nextCheck == v.nextCheck
  }

  lemma LandsKeeps(v: Agent, w: Agent, notes: Notes, at: nat, later: nat)
    requires ClockOk(v, notes, at) && Lands(v, w) && at <= later
    ensures ClockOk(w, notes, later)
  {
    forall i | 0 <= i < |w.pending| && w.pending[i].inFlight ensures EntryClockOk(w, w.pending[i], notes.born[i], notes.last) {
      assert EntryClockOk(v, v.pending[i], notes.born[i], notes.last);
    }
  }

  /** Only the entry `slot` changes, and it leaves the air or keeps its time. */
  lemma OneLands(v: Agent, w: Agent, slot: nat, p: Slot)
    requires slot < |v.pending| && w.pending == v.pending[slot := p] && w.nextCheck == v.nextCheck
    requires p.inFlight ==> v.pending[slot].inFlight && p.sentAt == v.pending[slot].sentAt
    ensures Lands(v, w)
  {
  }

  /** What a triggered check can do to the table. */
  lemma TriggerShape(v: Agent, local: nat, src: Addr, nominate: bool, w: Agent) returns (slot: nat)
    requires w == Trigger(v, local, src, nominate).0
    ensures w.nextCheck == v.nextCheck
    ensures w.pending == v.pending || (slot < |v.pending| &&
              var p := PairEntry(v, v.pending[slot], local, FindRemote(v.remotes, src, 0), nominate);
              || w.pending == v.pending[slot := p]
              || w.pending == Enqueue(v.pending[slot := p.(inFlight := false, queued := false, triggered := true, retries := 0)], slot))
  {
    slot := PairSlot(v, local, FindRemote(v.remotes, src, 0), 0, |v.pending|);
    if slot < |v.pending| {
      var p := PairEntry(v, v.pending[slot], local, FindRemote(v.remotes, src, 0), nominate);
      var q := p.(inFlight := false, queued := false, triggered := true, retries := 0);
      assert v.pending[slot := p][slot := q] == v.pending[slot := q];
    }
  }

  lemma TriggerLands(v: Agent, local: nat, src: Addr, nominate: bool, w: Agent)
    requires w == Trigger(v, local, src, nominate).0
    ensures Lands(v, w)
  {
    var slot := TriggerShape(v, local, src, nominate, w);
    if w.pending != v.pending { OneLands(v, w, slot, w.pending[slot]); }
  }

  lemma ResponseLands(v: Agent, txid: nat, src: Addr, localIdx: nat, viaTurn: bool, mapped: Option<Addr>)
    ensures Lands(v, Response(v, txid, src, localIdx, viaTurn, mapped).0)
  {
  }

  /** A timer service that sends nothing. */
  lemma QuietTickLands(v: Agent, log: Log, now: Time, relayReady: Option<seq<bool>>, random: nat)
    requires IceOk(v, log) && SendOf(v, Tick(now, relayReady, random)).None?
    ensures Lands(v, Poll(v, now, relayReady, random).0)
  {
    var (wait, check) := GetCheck(v, now, relayReady);
    if wait == 0 && check.slot.Some? {
      InFlightStays(v, log, check.slot.value);
    }
  }

  /** Entries in flight have no place in the queue to lose. */
  lemma InFlightStays(v: Agent, log: Log, slot: nat)
    requires IceOk(v, log) && slot < |v.pending|
    ensures forall i | 0 <= i < |v.pending| && i != slot && Dequeue(v.pending, slot)[i].inFlight ::
              v.pending[i].inFlight && Dequeue(v.pending, slot)[i] == v.pending[i]
  {
    DequeueKeeps(v.pending, slot);
    forall i | 0 <= i < |v.pending| && i != slot && Dequeue(v.pending, slot)[i].inFlight
      ensures v.pending[i].inFlight && Dequeue(v.pending, slot)[i] == v.pending[i]
    {
      assert SlotOk(v, log, v.pending[i]);
    }
  }

  /** A timer service that sends a request. */
  lemma SendKeepsClock(v: Agent, log: Log, notes: Notes, at: nat, t: Timed, w: Agent)
    requires IceOk(v, log) && ClockOk(v, notes, at) && at <= t.at
    requires t.step.Tick? && t.step.now == Wrap(t.at) && SendOf(v, t.step).Some?
    requires w == Poll(v, t.step.now, t.step.relayReady, t.step.random).0
    ensures ClockOk(w, Note(notes, v, t), t.at)
  {
    var check := SendOf(v, t.step).value;
    var slot := check.slot.value;
    var after := Note(notes, v, t);
    InFlightStays(v, log, slot);
    DueRetransmission(v, t.step.now, t.step.relayReady);
    forall i | 0 <= i < |w.pending| && w.pending[i].inFlight ensures EntryClockOk(w, w.pending[i], after.born[i], after.last) {
      if i != slot {
        assert w.pending[i] == Dequeue(v.pending, slot)[i];
        assert EntryClockOk(v, v.pending[i], notes.born[i], notes.last);
      } else if check.retransmit {
        assert EntryClockOk(v, v.pending[i], notes.born[i], notes.last);
      }
    }
  }

  lemma StepKeepsClock(w: World, notes: Notes, at: nat, t: Timed)
    requires IceOk(w.agent, w.log) && ClockOk(w.agent, notes, at) && at <= t.at && (t.step.Tick? ==> t.step.now == Wrap(t.at))
    ensures ClockOk(Next(w, t.step).agent, Note(notes, w.agent, t), t.at)
  {
    var v, next := w.agent, Next(w, t.step).agent;
    match t.step {
      case Tick(now, relayReady, random) =>
        if SendOf(v, t.step).Some? {
          SendKeepsClock(v, w.log, notes, at, t, next);
        } else {
          QuietTickLands(v, w.log, now, relayReady, random);
          LandsKeeps(v, next, notes, at, t.at);
        }
      case Incoming(local, src, useCandidate) =>
        TriggerLands(v, local, src, useCandidate && !v.controlling, next);
        LandsKeeps(v, next, notes, at, t.at);
      case Reply(txid, src, localIdx, viaTurn, mapped) =>
        ResponseLands(v, txid, src, localIdx, viaTurn, mapped);
        LandsKeeps(v, next, notes, at, t.at);
      case _ => LandsKeeps(v, next, notes, at, t.at);
    }
  }

  /** What a timed run leaves noted. */
  function Noted(start: World, run: seq<Timed>): (r: Notes)
    requires |start.agent.pending| == MAX_PENDING
    decreases |run|
  {
    if run == [] then Notes(seq(MAX_PENDING, i => 0), 0)
    else
      var notes := Noted(start, run[..|run| - 1]);
      var v := Run(start, Steps(run[..|run| - 1])).agent;
      if |notes.born| == |v.pending| then Note(notes, v, run[|run| - 1]) else notes
  }

  lemma {:induction false} RunKeepsClock(controlling: bool, locals: seq<Candidate>, srflxBase: nat, run: seq<Timed>)
    requires Clocked(run)
    ensures var start := Start(controlling, locals, srflxBase);
            ClockOk(Run(start, Steps(run)).agent, Noted(start, run), LastAt(run))
    decreases |run|
  {
    var start := Start(controlling, locals, srflxBase);
    if run != [] {
      var front, t := run[..|run| - 1], run[|run| - 1];
      RunKeepsClock(controlling, locals, srflxBase, front);
      RunKeeps(controlling, locals, srflxBase, Steps(front));
      assert Steps(run)[..|run| - 1] == Steps(front);
      StepKeepsClock(Run(start, Steps(front)), Noted(start, front), LastAt(front), t);
    }
  }

  // ----- waking up in time -----

  /** No transaction has been in flight for a whole turn of the clock. */
  predicate NoneTurned(v: Agent, notes: Notes, at: nat) {
    forall i | 0 <= i < |v.pending| && i < |notes.born| && v.pending[i].inFlight :: at - notes.born[i] < TURN
  }

  /** The moment at which the deadline of a send at `last` falls. */
  function DueAt(last: nat): nat {
    if Wrap(last + CHECK_INTERVAL_MS) == 0 then last + CHECK_INTERVAL_MS + 1 else last + CHECK_INTERVAL_MS
  }

  lemma DeadlineIs(last: nat)
    ensures Deadline(Wrap(last), CHECK_INTERVAL_MS) == Wrap(DueAt(last)) != 0
  {
    LaterIs(last, CHECK_INTERVAL_MS);
  }

  /** The time left until a deadline that is near. */
  lemma UntilIs(at: nat, due: nat)
    requires due < at + 0x8000_0000 && at < due + 0x8000_0000
    ensures Until(Wrap(at), Wrap(due)) == if at < due then due - at else 0
  {
    if at < due { ElapsedIs(due, at); } else { ElapsedIs(at, due); }
  }

  /** The pacing deadline of a send less than a check's timeout ago has passed, or will within `d`. */
  lemma RecentDeadline(v: Agent, last: nat, at: nat, d: nat)
    requires v.nextCheck == Deadline(Wrap(last), CHECK_INTERVAL_MS) && last <= at && at + d - last <= CHECK_TIMEOUT_MS
    requires Pace(v, Wrap(at)) < d
    ensures Pace(v, Wrap(at + d)) == 0
  {
    DeadlineIs(last);
    UntilIs(at, DueAt(last));
    UntilIs(at + d, DueAt(last));
  }

  /** By the time of a retransmission the pacing deadline has passed. */
  lemma RetransmissionPasses(v: Agent, notes: Notes, was: nat, at: nat, d: nat, j: nat)
    requires ClockOk(v, notes, was) && was <= at && NoneTurned(v, notes, at)
    requires j < |v.pending| && v.pending[j].inFlight && Pace(v, Wrap(at)) < d
    requires Elapsed(Wrap(at), SentTime(v.pending[j])) + d <= CHECK_TIMEOUT_MS
    ensures Pace(v, Wrap(at + d)) == 0
  {
    assert EntryClockOk(v, v.pending[j], notes.born[j], notes.last);
    ElapsedIs(at, notes.born[j]);
    RecentDeadline(v, notes.last, at, d);
  }

  lemma AgeWithin(v: Agent, now: Time, relayReady: Option<seq<bool>>, d: nat, j: nat)
    requires WaitsFor(v, now, relayReady, d, j) && d > Pace(v, now)
    ensures v.pending[j].inFlight && Elapsed(now, SentTime(v.pending[j])) + d <= CHECK_TIMEOUT_MS
  {
    assert RetryDelay(v.pending[j].retries) <= CHECK_TIMEOUT_MS;
  }

  /** By the end of an announced wait the pacing deadline has passed. */
  lemma PacePasses(v: Agent, notes: Notes, was: nat, at: nat, relayReady: Option<seq<bool>>, d: nat)
    requires ClockOk(v, notes, was) && was <= at && NoneTurned(v, notes, at) && 0 < d <= 0x8000_0000
    requires d == Pace(v, Wrap(at)) || exists j: nat :: WaitsFor(v, Wrap(at), relayReady, d, j) && d > Pace(v, Wrap(at))
    ensures Pace(v, Wrap(at + d)) == 0
  {
    if d == Pace(v, Wrap(at)) {
      PaceGone(v, Wrap(at));
      LaterIs(at, d);
    } else {
      var j: nat :| WaitsFor(v, Wrap(at), relayReady, d, j) && d > Pace(v, Wrap(at));
      AgeWithin(v, Wrap(at), relayReady, d, j);
      RetransmissionPasses(v, notes, was, at, d, j);
    }
  }

  /** Over every timed run: an announced wait `d` ends with an action due, whatever the clock's wrap. */
  lemma WakesInTime(controlling: bool, locals: seq<Candidate>, srflxBase: nat, run: seq<Timed>, at: nat,
                    relayReady: Option<seq<bool>>, v: Agent, d: nat)
    requires Clocked(run) && LastAt(run) <= at && v == Run(Start(controlling, locals, srflxBase), Steps(run)).agent
    requires NoneTurned(v, Noted(Start(controlling, locals, srflxBase), run), at)
    requires 0 < d < NEVER && d == GetCheck(v, Wrap(at), relayReady).0
    ensures d <= 0x8000_0000 && GetCheck(v, Wrap(at + d), relayReady).0 == 0
  {
    RunKeepsClock(controlling, locals, srflxBase, run);
    WakesIff(v, Wrap(at), relayReady, d);
    AnnouncedBound(v, Wrap(at), relayReady, d);
    LaterIs(at, d);
    PacePasses(v, Noted(Start(controlling, locals, srflxBase), run), LastAt(run), at, relayReady, d);
  }
}
