/** Retransmissions over whole runs: a queued fragment was sent as often as its counters say, no fragment
    is sent again beyond its limit, and a message with retries is given up by the timer only, once a
    fragment of it has used them all up. */
module SctpRetries {
  import opened SctpTypes
  import opened SctpHistory
  import opened SctpReceiver
  import opened SctpSender
  import opened SctpSending
  import opened SctpSubmit
  import opened SctpSystem
  import opened SctpTheorems
  import opened SctpSackExact
  import opened SctpTimer

  /** The step puts the fragment with TSN `t` on the network. */
  predicate Emits(x: System, step: Step, t: int) {
    step.Transmit? && PollOutput(x.tx).1.SendData? && PollOutput(x.tx).1.chunk.tsn == t
  }

  /** How often a run sends the fragment with TSN `t`. */
  function SentTimes(x: System, steps: seq<Step>, t: int): nat
    requires Runnable(x, steps)
    decreases |steps|
  {
    if steps == [] then 0
    else (if Emits(x, steps[0], t) then 1 else 0) + SentTimes(Next(x, steps[0]), steps[1..], t)
  }

  /** Transmissions that an entry tells of: those given up, and the one in flight. */
  function Tries(e: SendEntry): nat {
    e.retransmits + if e.inFlight then 1 else 0
  }

  /** Entry `f` is entry `e` after a step that sent it or not. */
  predicate Follows(e: SendEntry, f: SendEntry, sent: bool) {
    && f.chunk == e.chunk && f.maxRetransmits == e.maxRetransmits
    && Tries(f) == Tries(e) + (if sent then 1 else 0)
    && (f.retransmits == e.retransmits || (f.retransmits == e.retransmits + 1 && e.retransmits < Limit(e)))
  }

  /** The retry limit: the message's own, or the association's when it is reliable. */
  function Limit(e: SendEntry): int {
    if e.maxRetransmits >= 0 then e.maxRetransmits else MAX_RETRANSMITS
  }

  /** A fragment just accepted. */
  predicate Fresh(x: System, step: Step, f: SendEntry) {
    step.Submit? && f.chunk.tsn >= |x.history.chunks| && f.retransmits == 0 && !f.inFlight
    && f.maxRetransmits == step.request.maxRetransmits
  }

  // ----- where an entry comes from -----

  lemma FreshEntry(x: System, r: Request, abandoned: set<nat>, i: nat)
    requires SenderOk(x.history, abandoned, x.tx) && i < FragmentCount(|r.data|)
    ensures Fresh(x, Submit(r), Fragments(PlanFor(x.tx, r), r.data, 0)[i])
  {
    CountFits(|r.data|);
    FragmentFields(PlanFor(x.tx, r), r.data, 0, i);
  }

  lemma SubmitEntry(x: System, r: Request, abandoned: set<nat>, k: nat)
    requires SenderOk(x.history, abandoned, x.tx) && k < |Next(x, Submit(r)).tx.queue|
    ensures if k < |x.tx.queue| then Next(x, Submit(r)).tx.queue[k] == x.tx.queue[k]
            else Fresh(x, Submit(r), Next(x, Submit(r)).tx.queue[k])
  {
    var w := Send(x.tx, r).0;
    if Send(x.tx, r).1 == Ok {
      SentFields(x.tx, r, w);
      if k >= |x.tx.queue| { FreshEntry(x, r, abandoned, k - |x.tx.queue|); }
    }
  }

  lemma TransmitEntry(x: System, k: nat)
    requires k < |x.tx.queue| && forall i, j | 0 <= i < j < |x.tx.queue| :: x.tx.queue[i].chunk.tsn != x.tx.queue[j].chunk.tsn
    ensures |Next(x, Transmit).tx.queue| == |x.tx.queue|
    ensures Follows(x.tx.queue[k], Next(x, Transmit).tx.queue[k], Emits(x, Transmit, x.tx.queue[k].chunk.tsn))
  {
    var (w, out) := PollOutput(x.tx);
    assert Next(x, Transmit).tx == w;
    if out.SendData? {
      var j := SentStamp(x.tx, w, out.chunk);
    }
  }

  lemma TickEntry(h: History, abandoned: set<nat>, v: Sender, now: nat, k: nat)
    requires SenderOk(h, abandoned, v) && k < |v.queue|
    ensures |HandleTimeout(v, now).0.queue| == |v.queue|
    ensures Follows(v.queue[k], HandleTimeout(v, now).0.queue[k], false)
  {
    if v.established {
      var (w, status) := HandleTimeout(v, now);
      var s := Scan(h, v.queue, now, v.rto);
      var n := TimerExact(h, abandoned, v, now, s, w, status);
      assert w.queue[k] == After(s, k, n);
      if SentAgain(s, k) { AgainHasRetries(s, k); }
    } else {
      TimerIdle(v, now);
    }
  }

  lemma FlagOnly(e: SendEntry, f: SendEntry)
    requires f == e.(abandoned := f.abandoned)
    ensures Follows(e, f, false)
  {
  }

  lemma SackEntry(h: History, abandoned: set<nat>, v: Sender, cum: int, gaps: seq<Gap>, k: nat) returns (j: nat)
    requires SenderOk(h, abandoned, v) && k < |HandleSack(v, cum, gaps).0.queue|
    ensures j < |v.queue| && Follows(v.queue[j], HandleSack(v, cum, gaps).0.queue[k], false)
  {
    j := k;
    RefusedIff(v, cum, gaps);
    var w := HandleSack(v, cum, gaps).0;
    if Ascending(gaps, 0) {
      j := SackEntryIs(h, abandoned, v, cum, gaps, w, k);
      FlagOnly(v.queue[j], w.queue[k]);
    }
  }

  lemma QueueDistinct(h: History, abandoned: set<nat>, queue: Queue)
    requires HistoryOk(h) && QueueOk(h, abandoned, queue)
    ensures forall i, j | 0 <= i < j < |queue| :: queue[i].chunk.tsn != queue[j].chunk.tsn
    ensures forall i | 0 <= i < |queue| :: queue[i].chunk.tsn == Base(h, queue) + i
  {
    forall i | 0 <= i < |queue| ensures queue[i].chunk.tsn == Base(h, queue) + i { QueuedTsn(h, abandoned, queue, i); }
  }

  /** Entry `k` after a step continues an earlier entry, or was accepted just now. */
  ghost predicate Continues(x: System, step: Step, j: nat, f: SendEntry) {
    j < |x.tx.queue| && Follows(x.tx.queue[j], f, Emits(x, step, f.chunk.tsn))
  }

  lemma StepEntry(x: System, step: Step, abandoned: set<nat>, log: seq<nat>, k: nat) returns (j: nat)
    requires Inv(x, abandoned, log) && Enabled(x, step) && k < |Next(x, step).tx.queue|
    ensures Continues(x, step, j, Next(x, step).tx.queue[k]) || Fresh(x, step, Next(x, step).tx.queue[k])
  {
    j := k;
    match step {
      case Submit(r) => SubmitEntry(x, r, abandoned, k);
      case Transmit =>
        QueueDistinct(x.history, abandoned, x.tx.queue);
        PollOutputOk(x.history, abandoned, x.tx);
        TransmitEntry(x, k);
      case Tick(now) =>
        HandleTimeoutLength(x.history, abandoned, x.tx, now);
        TickEntry(x.history, abandoned, x.tx, now, k);
      case Arrive(SackPacket(cum, gaps)) => j := SackEntry(x.history, abandoned, x.tx, cum, gaps, k);
      case _ =>
    }
  }

  lemma HandleTimeoutLength(h: History, abandoned: set<nat>, v: Sender, now: nat)
    requires SenderOk(h, abandoned, v)
    ensures |HandleTimeout(v, now).0.queue| == |v.queue|
  {
    var more := HandleTimeoutKeeps(h, abandoned, v, now);
  }

  // ----- how often a fragment was sent -----

  /** The fragment with TSN `t`, if it is queued, was sent `c` times; one not accepted yet, never. */
  predicate TimesOk(x: System, t: int, c: nat) {
    && (t >= |x.history.chunks| ==> c == 0)
    && forall k | 0 <= k < |x.tx.queue| && x.tx.queue[k].chunk.tsn == t :: Tries(x.tx.queue[k]) == c
  }

  lemma StepTimes(x: System, step: Step, abandoned: set<nat>, log: seq<nat>, t: int, c: nat)
    requires Inv(x, abandoned, log) && Enabled(x, step) && TimesOk(x, t, c)
    ensures TimesOk(Next(x, step), t, c + if Emits(x, step, t) then 1 else 0)
  {
    var y := Next(x, step);
    PollOutputOk(x.history, abandoned, x.tx);
    HistoryGrows(x, step, abandoned, log);
    forall k | 0 <= k < |y.tx.queue| && y.tx.queue[k].chunk.tsn == t
      ensures Tries(y.tx.queue[k]) == c + if Emits(x, step, t) then 1 else 0
    {
      var j := StepEntry(x, step, abandoned, log, k);
    }
  }

  lemma HistoryGrows(x: System, step: Step, abandoned: set<nat>, log: seq<nat>)
    requires Inv(x, abandoned, log) && Enabled(x, step)
    ensures Extends(x.history, Next(x, step).history)
  {
    match step {
      case Submit(r) => SubmitKeeps(x.history, abandoned, x.tx, r);
      case _ => ExtendsSelf(x.history);
    }
  }

  lemma {:induction false} RunTimes(x: System, steps: seq<Step>, abandoned: set<nat>, log: seq<nat>, t: int, c: nat)
    requires Inv(x, abandoned, log) && Runnable(x, steps) && TimesOk(x, t, c)
    ensures TimesOk(Run(x, steps), t, c + SentTimes(x, steps, t))
    decreases |steps|
  {
    if steps != [] {
      StepTimes(x, steps[0], abandoned, log, t, c);
      var more, longer := StepKeeps(x, steps[0], abandoned, log);
      RunTimes(Next(x, steps[0]), steps[1..], more, longer, t, c + if Emits(x, steps[0], t) then 1 else 0);
    }
  }

  /** Over every run from the start of an association a queued fragment was sent exactly as often as
      its counters say: once for each retry, and once more while it is in flight. */
  lemma SentAsCounted(peerForward: bool, peerMax: nat, now: nat, rto: nat, steps: seq<Step>, k: nat)
    requires Runnable(Initial(peerForward, peerMax, now, rto), steps)
    requires k < |Run(Initial(peerForward, peerMax, now, rto), steps).tx.queue|
    ensures var e := Run(Initial(peerForward, peerMax, now, rto), steps).tx.queue[k];
            SentTimes(Initial(peerForward, peerMax, now, rto), steps, e.chunk.tsn) == e.retransmits + if e.inFlight then 1 else 0
  {
    var x := Initial(peerForward, peerMax, now, rto);
    var t := Run(x, steps).tx.queue[k].chunk.tsn;
    InitialInv(peerForward, peerMax, now, rto);
    RunTimes(x, steps, {}, [], t, 0);
  }

  // ----- retry limits -----

  /** Two queued fragments of one message. */
  predicate Mates(x: System, j: nat, k: nat) {
    && j < |x.tx.queue| && k < |x.tx.queue|
    && 0 <= x.tx.queue[j].chunk.tsn < |x.history.owner| && 0 <= x.tx.queue[k].chunk.tsn < |x.history.owner|
    && x.history.owner[x.tx.queue[j].chunk.tsn] == x.history.owner[x.tx.queue[k].chunk.tsn]
  }

  /** No retry count passes its limit, and the fragments of a message share theirs. */
  ghost predicate LimitsOk(x: System) {
    && (forall k | 0 <= k < |x.tx.queue| :: x.tx.queue[k].retransmits <= Limit(x.tx.queue[k]))
    && (forall j: nat, k: nat | Mates(x, j, k) :: x.tx.queue[j].maxRetransmits == x.tx.queue[k].maxRetransmits)
  }

  /** Who owns an entry of the queue after a step. */
  lemma OwnerAfter(x: System, step: Step, abandoned: set<nat>, log: seq<nat>, j: nat, f: SendEntry)
    requires Inv(x, abandoned, log) && Enabled(x, step) && 0 <= f.chunk.tsn < |Next(x, step).history.owner|
    ensures |x.history.owner| == |x.history.chunks| <= |Next(x, step).history.owner|
    ensures f.chunk.tsn < |x.history.owner| ==> Next(x, step).history.owner[f.chunk.tsn] == x.history.owner[f.chunk.tsn] < |x.history.accepted|
    ensures Fresh(x, step, f) ==> Next(x, step).history.owner[f.chunk.tsn] == |x.history.accepted|
  {
    HistoryGrows(x, step, abandoned, log);
    var t, g := f.chunk.tsn, Next(x, step).history;
    if t < |x.history.owner| { assert g.owner[..|x.history.owner|][t] == g.owner[t]; }
  }

  /** The limit of an entry after a step, by where it comes from. */
  lemma StepLimit(x: System, step: Step, abandoned: set<nat>, log: seq<nat>, k: nat) returns (j: nat)
    requires Inv(x, abandoned, log) && Enabled(x, step) && LimitsOk(x) && k < |Next(x, step).tx.queue|
    ensures var f := Next(x, step).tx.queue[k];
            && f.retransmits <= Limit(f) && 0 <= f.chunk.tsn < |Next(x, step).history.owner|
            && (Fresh(x, step, f) || (j < |x.tx.queue| && Follows(x.tx.queue[j], f, Emits(x, step, f.chunk.tsn))))
  {
    j := StepEntry(x, step, abandoned, log, k);
    var more, longer := StepKeeps(x, step, abandoned, log);
    var y := Next(x, step);
    QueuedTsn(y.history, more, y.tx.queue, k);
    if Fresh(x, step, y.tx.queue[k]) { LimitStarts(x, step, abandoned, log, y.tx.queue[k], k); }
  }

  lemma LimitStarts(x: System, step: Step, abandoned: set<nat>, log: seq<nat>, f: SendEntry, k: nat)
    requires Inv(x, abandoned, log) && Enabled(x, step) && Fresh(x, step, f) && k < |Next(x, step).tx.queue| && f == Next(x, step).tx.queue[k]
    ensures f.retransmits <= Limit(f)
  {
  }

  lemma StepLimits(x: System, step: Step, abandoned: set<nat>, log: seq<nat>)
    requires Inv(x, abandoned, log) && Enabled(x, step) && LimitsOk(x)
    ensures LimitsOk(Next(x, step))
  {
    var y := Next(x, step);
    forall k | 0 <= k < |y.tx.queue| ensures y.tx.queue[k].retransmits <= Limit(y.tx.queue[k]) {
      var j := StepLimit(x, step, abandoned, log, k);
    }
    forall j: nat, k: nat | Mates(y, j, k) ensures y.tx.queue[j].maxRetransmits == y.tx.queue[k].maxRetransmits {
      MatesShare(x, step, abandoned, log, j, k);
    }
  }

  lemma MatesShare(x: System, step: Step, abandoned: set<nat>, log: seq<nat>, j: nat, k: nat)
    requires Inv(x, abandoned, log) && Enabled(x, step) && LimitsOk(x) && Mates(Next(x, step), j, k)
    ensures Next(x, step).tx.queue[j].maxRetransmits == Next(x, step).tx.queue[k].maxRetransmits
  {
    var y := Next(x, step);
    var a := StepLimit(x, step, abandoned, log, j);
    var b := StepLimit(x, step, abandoned, log, k);
    OwnerAfter(x, step, abandoned, log, a, y.tx.queue[j]);
    OwnerAfter(x, step, abandoned, log, b, y.tx.queue[k]);
    if !Fresh(x, step, y.tx.queue[j]) && !Fresh(x, step, y.tx.queue[k]) {
      QueuedTsn(x.history, abandoned, x.tx.queue, a);
      QueuedTsn(x.history, abandoned, x.tx.queue, b);
      assert Mates(x, a, b);
    } else {
      if !Fresh(x, step, y.tx.queue[j]) { QueuedTsn(x.history, abandoned, x.tx.queue, a); }
      if !Fresh(x, step, y.tx.queue[k]) { QueuedTsn(x.history, abandoned, x.tx.queue, b); }
    }
  }

  lemma {:induction false} RunLimits(x: System, steps: seq<Step>, abandoned: set<nat>, log: seq<nat>)
    requires Inv(x, abandoned, log) && Runnable(x, steps) && LimitsOk(x)
    ensures LimitsOk(Run(x, steps))
    decreases |steps|
  {
    if steps != [] {
      StepLimits(x, steps[0], abandoned, log);
      var more, longer := StepKeeps(x, steps[0], abandoned, log);
      RunLimits(Next(x, steps[0]), steps[1..], more, longer);
    }
  }

  /** In every reachable state. */
  lemma ReachableLimits(x: System)
    requires Reachable(x)
    ensures LimitsOk(x)
  {
    var peerForward: bool, peerMax: nat, now: nat, rto: nat, steps: seq<Step> :| Leads(peerForward, peerMax, now, rto, steps, x);
    InitialInv(peerForward, peerMax, now, rto);
    RunLimits(Initial(peerForward, peerMax, now, rto), steps, {}, []);
  }

  // ----- who gives a message up -----

  /** Fragment `j` is in flight and has used up all its retries. */
  predicate Exhausted(x: System, j: nat) {
    j < |x.tx.queue| && x.tx.queue[j].inFlight && x.tx.queue[j].retransmits == x.tx.queue[j].maxRetransmits
  }

  /** The step abandons queued fragment `k`. */
  predicate Abandons(x: System, step: Step, k: nat)
    requires Enabled(x, step)
  {
    && k < |x.tx.queue| && !x.tx.queue[k].abandoned
    && exists l | 0 <= l < |Next(x, step).tx.queue| ::
         Next(x, step).tx.queue[l].chunk.tsn == x.tx.queue[k].chunk.tsn && Next(x, step).tx.queue[l].abandoned
  }

  lemma SackGivesUp(x: System, cum: int, gaps: seq<Gap>, abandoned: set<nat>, k: nat, l: nat, w: Sender)
    requires SenderOk(x.history, abandoned, x.tx) && LimitsOk(x) && k < |x.tx.queue| && !x.tx.queue[k].abandoned
    requires Ascending(gaps, 0) && w == HandleSack(x.tx, cum, gaps).0
    requires l < |w.queue| && w.queue[l].abandoned && w.queue[l].chunk.tsn == x.tx.queue[k].chunk.tsn
    ensures x.tx.queue[k].maxRetransmits == 0
  {
    var j := SackEntryIs(x.history, abandoned, x.tx, cum, gaps, w, l);
    SamePlace(x, abandoned, k, j);
    PassedByLimit(x, abandoned, k, cum, gaps);
  }

  lemma PassedByLimit(x: System, abandoned: set<nat>, k: nat, cum: int, gaps: seq<Gap>)
    requires SenderOk(x.history, abandoned, x.tx) && LimitsOk(x) && k < |x.tx.queue| && GivenUp(x.history, x.tx.queue, k, cum, gaps)
    ensures x.tx.queue[k].maxRetransmits == 0
  {
    QueueDistinct(x.history, abandoned, x.tx.queue);
    var j :| 0 <= j < |x.tx.queue| && PassedBy(x.tx.queue, j, cum, gaps) && SameOwner(x.history, x.tx.queue, j, k);
    assert Mates(x, j, k);
  }

  lemma SackAbandons(x: System, cum: int, gaps: seq<Gap>, abandoned: set<nat>, k: nat, l: nat, w: Sender)
    requires SenderOk(x.history, abandoned, x.tx) && LimitsOk(x) && k < |x.tx.queue| && !x.tx.queue[k].abandoned
    requires w == HandleSack(x.tx, cum, gaps).0
    requires l < |w.queue| && w.queue[l].abandoned && w.queue[l].chunk.tsn == x.tx.queue[k].chunk.tsn
    ensures x.tx.queue[k].maxRetransmits == 0
  {
    RefusedIff(x.tx, cum, gaps);
    if Ascending(gaps, 0) {
      SackGivesUp(x, cum, gaps, abandoned, k, l, w);
    } else {
      SamePlace(x, abandoned, k, l);
    }
  }

  /** Equal TSNs, equal places. */
  lemma SamePlace(x: System, abandoned: set<nat>, k: nat, l: nat)
    requires SenderOk(x.history, abandoned, x.tx) && k < |x.tx.queue| && l < |x.tx.queue|
    ensures x.tx.queue[l].chunk.tsn == x.tx.queue[k].chunk.tsn <==> l == k
    ensures x.tx.queue[k].chunk.tsn < |x.history.chunks|
  {
    QueuedTsn(x.history, abandoned, x.tx.queue, k);
    QueuedTsn(x.history, abandoned, x.tx.queue, l);
  }

  /** The other steps abandon nothing. */
  lemma OthersAbandonNone(x: System, step: Step, abandoned: set<nat>, k: nat, l: nat)
    requires SenderOk(x.history, abandoned, x.tx) && k < |x.tx.queue| && Enabled(x, step)
    requires !step.Tick? && !(step.Arrive? && step.packet.SackPacket?)
    requires l < |Next(x, step).tx.queue| && Next(x, step).tx.queue[l].chunk.tsn == x.tx.queue[k].chunk.tsn
    ensures Next(x, step).tx.queue[l].abandoned == x.tx.queue[k].abandoned
  {
    match step {
      case Submit(r) =>
        SubmitEntry(x, r, abandoned, l);
        if l < |x.tx.queue| { SamePlace(x, abandoned, k, l); } else { SamePlace(x, abandoned, k, k); }
      case Transmit =>
        TransmitAbandonsNone(x, l);
        SamePlace(x, abandoned, k, l);
      case _ =>
        SamePlace(x, abandoned, k, l);
    }
  }

  lemma TickAbandons(x: System, now: nat, abandoned: set<nat>, k: nat) returns (j: nat)
    requires SenderOk(x.history, abandoned, x.tx) && LimitsOk(x) && k < |x.tx.queue| && !x.tx.queue[k].abandoned
    requires |HandleTimeout(x.tx, now).0.queue| == |x.tx.queue| && HandleTimeout(x.tx, now).0.queue[k].abandoned
    ensures Exhausted(x, j) && Mates(x, j, k)
  {
    QueueDistinct(x.history, abandoned, x.tx.queue);
    j := k;
    if x.tx.established {
      var (w, status) := HandleTimeout(x.tx, now);
      var s := Scan(x.history, x.tx.queue, now, x.tx.rto);
      var n := TimerExact(x.history, abandoned, x.tx, now, s, w, status);
      assert w.queue[k] == After(s, k, n);
      assert GivenUpBy(s, k, n);
      j := GivenUpWitness(s, k, n);
      assert Mates(x, j, k);
    } else {
      TimerIdle(x.tx, now);
    }
  }

  /** A message with retries is given up by the timer only, and only when a fragment of it is in flight
      and has used them all up. */
  lemma GivenUpByTimer(x: System, step: Step, k: nat) returns (j: nat)
    requires Reachable(x) && Enabled(x, step) && Abandons(x, step, k) && x.tx.queue[k].maxRetransmits != 0
    ensures step.Tick? && Exhausted(x, j) && Mates(x, j, k) && x.tx.queue[j].maxRetransmits == x.tx.queue[k].maxRetransmits
  {
    var abandoned, log := ReachableInv(x);
    ReachableLimits(x);
    var y := Next(x, step);
    var l :| 0 <= l < |y.tx.queue| && y.tx.queue[l].chunk.tsn == x.tx.queue[k].chunk.tsn && y.tx.queue[l].abandoned;
    j := 0;
    if step.Tick? {
      HandleTimeoutLength(x.history, abandoned, x.tx, step.now);
      TickEntry(x.history, abandoned, x.tx, step.now, l);
      SamePlace(x, abandoned, k, l);
      j := TickAbandons(x, step.now, abandoned, k);
    } else if step.Arrive? && step.packet.SackPacket? {
      SackAbandons(x, step.packet.cum, step.packet.gaps, abandoned, k, l, y.tx);
    } else {
      OthersAbandonNone(x, step, abandoned, k, l);
    }
  }

  lemma TransmitAbandonsNone(x: System, l: nat)
    requires l < |Next(x, Transmit).tx.queue|
    ensures l < |x.tx.queue| && Next(x, Transmit).tx.queue[l].abandoned == x.tx.queue[l].abandoned
    ensures Next(x, Transmit).tx.queue[l].chunk == x.tx.queue[l].chunk
  {
    var (w, out) := PollOutput(x.tx);
    assert Next(x, Transmit).tx == w;
    if out.SendData? { var j := SentStamp(x.tx, w, out.chunk); }
  }
}
