/** Over every run of an ICE generation: the agent connects only on a pair that answered
    one of its own requests, and a controlling agent nominates only such pairs
    (section 8.1.1 of RFC 8445). */
module IceSafety {
  import opened IceModel
  import opened IceSchedule

  /** What happened on the wire in this generation: requests sent, and authenticated
      responses with whether the agent accepted them. */
  datatype Event = Sent(txid: nat, local: nat, to: Addr, useCandidate: bool) | Answered(txid: nat, from: Addr, accepted: bool)

  type Log = seq<Event>

  const NOTHING := Answered(0, Addr([], 0, 0), false)

  /** Request `i` went from the socket `base` to `to`. */
  predicate SentAt(v: Agent, log: Log, i: nat, base: nat, to: Addr) {
    i < |log| && log[i].Sent? && Base(v, log[i].local) == base && log[i].to == to
  }

  /** A request with the transaction went from the socket `base` to `to`. */
  predicate Asked(v: Agent, log: Log, txid: nat, base: nat, to: Addr) {
    exists i | 0 <= i < |log| :: SentAt(v, log, i, base, to) && log[i].txid == txid
  }

  /** Response `j`, which the agent accepted, answers request `i` from the address that was asked. */
  predicate Answers(v: Agent, log: Log, i: nat, j: nat, base: nat, to: Addr) {
    i < j < |log| && SentAt(v, log, i, base, to) && log[j] == Answered(log[i].txid, to, true)
  }

  /** The pair answered one of the agent's own requests. */
  predicate Confirmed(v: Agent, log: Log, base: nat, to: Addr) {
    exists i, j | 0 <= i < |log| && 0 <= j < |log| :: Answers(v, log, i, j, base, to)
  }

  /** Same local candidates, hence the same sockets. */
  predicate SameLocals(v: Agent, w: Agent) {
    v.locals == w.locals && v.srflxBase == w.srflxBase
  }

  lemma AskedStays(v: Agent, w: Agent, log: Log, e: Event, txid: nat, base: nat, to: Addr)
    requires SameLocals(v, w) && Asked(v, log, txid, base, to)
    ensures Asked(w, log, txid, base, to) && Asked(w, log + [e], txid, base, to)
  {
    var i :| 0 <= i < |log| && SentAt(v, log, i, base, to) && log[i].txid == txid;
    assert SentAt(w, log, i, base, to) && SentAt(w, log + [e], i, base, to);
  }

  lemma ConfirmedStays(v: Agent, w: Agent, log: Log, e: Event, base: nat, to: Addr)
    requires SameLocals(v, w) && Confirmed(v, log, base, to)
    ensures Confirmed(w, log, base, to) && Confirmed(w, log + [e], base, to)
  {
    var i, j :| 0 <= i < |log| && 0 <= j < |log| && Answers(v, log, i, j, base, to);
    assert Answers(w, log, i, j, base, to) && Answers(w, log + [e], i, j, base, to);
  }

  lemma AskedNow(v: Agent, log: Log, txid: nat, local: nat, to: Addr, use: bool)
    ensures Asked(v, log + [Sent(txid, local, to, use)], txid, Base(v, local), to)
  {
    assert SentAt(v, log + [Sent(txid, local, to, use)], |log|, Base(v, local), to);
  }

  lemma AnsweredNow(v: Agent, log: Log, txid: nat, base: nat, to: Addr)
    requires Asked(v, log, txid, base, to)
    ensures Confirmed(v, log + [Answered(txid, to, true)], base, to)
  {
    var i :| 0 <= i < |log| && SentAt(v, log, i, base, to) && log[i].txid == txid;
    assert Answers(v, log + [Answered(txid, to, true)], i, |log|, base, to);
  }

  // ----- the invariant -----

  /** One table entry. */
  predicate SlotOk(v: Agent, log: Log, p: Slot) {
    && p.retries <= 4
    && (p.inFlight ==> !p.queued && p.retries > 0)
    && (p.queued ==> p.triggered || p.valid)
    && (v.controlling && p.nominate ==> p.valid)
    && (Active(p) ==> p.local < |v.locals| && p.remote < |v.remotes|)
    && (p.inFlight ==> Asked(v, log, p.txid, Base(v, p.local), v.remotes[p.remote].addr))
    && (p.valid ==> Confirmed(v, log, Base(v, p.local), v.remotes[p.remote].addr))
  }

  /** A local candidate that is not reflexive sends from its own address; a reflexive one from that of
      the host candidate it was mapped from, which may be unknown. */
  predicate SocketOk(locals: seq<Candidate>, srflxBase: nat, s: Selection) {
    && s.local < |locals|
    && (locals[s.local].kind != Srflx ==> s.socket == Some(locals[s.local].addr))
    && (locals[s.local].kind == Srflx ==>
          s.socket == if srflxBase < |locals| && locals[srflxBase].kind == Host then Some(locals[srflxBase].addr) else None)
  }

  /** The selected pair is one that answered, with the socket it was asked from. */
  predicate SelectedOk(v: Agent, log: Log) {
    (v.state == Connected ==> v.selected.Some?) &&
    (v.selected.Some? ==> Confirmed(v, log, Base(v, v.selected.value.local), v.selected.value.peer)
                          && (|v.locals| <= LOCAL_UNKNOWN ==> SocketOk(v.locals, v.srflxBase, v.selected.value)))
  }

  /** Request `k` nominated only a pair that had answered before. */
  predicate NominationOk(v: Agent, log: Log, k: nat)
    requires k < |log|
  {
    log[k].Sent? && log[k].useCandidate ==> v.controlling && Confirmed(v, log[..k], Base(v, log[k].local), log[k].to)
  }

  predicate IceOk(v: Agent, log: Log) {
    && |v.pending| == MAX_PENDING && QueueOk(v.pending)
    && (forall i | 0 <= i < |v.pending| :: SlotOk(v, log, v.pending[i]))
    && SelectedOk(v, log)
    && forall k | 0 <= k < |log| :: NominationOk(v, log, k)
  }

  /** `w` differs from `v` in its table, timers and state, and may know more remote candidates. */
  predicate Extends(v: Agent, w: Agent) {
    SameLocals(v, w) && v.controlling == w.controlling && |v.remotes| <= |w.remotes| && v.remotes == w.remotes[..|v.remotes|]
  }

  lemma SlotStays(v: Agent, w: Agent, log: Log, e: Event, p: Slot)
    requires Extends(v, w) && SlotOk(v, log, p)
    ensures SlotOk(w, log, p) && SlotOk(w, log + [e], p)
  {
    if Active(p) {
      assert v.remotes[p.remote] == w.remotes[p.remote];
      if p.inFlight { AskedStays(v, w, log, e, p.txid, Base(v, p.local), v.remotes[p.remote].addr); }
      if p.valid { ConfirmedStays(v, w, log, e, Base(v, p.local), v.remotes[p.remote].addr); }
    }
  }

  lemma LogStays(v: Agent, w: Agent, log: Log)
    requires SameLocals(v, w) && v.controlling == w.controlling && forall k | 0 <= k < |log| :: NominationOk(v, log, k)
    ensures forall k | 0 <= k < |log| :: NominationOk(w, log, k)
  {
    forall k | 0 <= k < |log| ensures NominationOk(w, log, k) {
      assert NominationOk(v, log, k);
      if log[k].Sent? && log[k].useCandidate {
        ConfirmedStays(v, w, log[..k], log[k], Base(v, log[k].local), log[k].to);
      }
    }
  }

  lemma LogGrows(v: Agent, w: Agent, log: Log, e: Event)
    requires SameLocals(v, w) && v.controlling == w.controlling && forall k | 0 <= k < |log| :: NominationOk(v, log, k)
    requires e.Sent? && e.useCandidate ==> v.controlling && Confirmed(v, log, Base(v, e.local), e.to)
    ensures forall k | 0 <= k < |log + [e]| :: NominationOk(w, log + [e], k)
  {
    LogStays(v, w, log);
    var all := log + [e];
    forall k | 0 <= k < |all| ensures NominationOk(w, all, k) {
      if k < |log| {
        assert NominationOk(w, log, k) && all[..k] == log[..k];
      } else {
        assert all[..k] == log;
        if e.Sent? && e.useCandidate { ConfirmedStays(v, w, log, e, Base(v, e.local), e.to); }
      }
    }
  }

  /** A step that logs nothing, replaces at most the table entry `slot`, and selects at most a confirmed pair. */
  lemma QuietStep(v: Agent, w: Agent, log: Log, slot: nat)
    requires IceOk(v, log) && Extends(v, w) && |w.pending| == MAX_PENDING && QueueOk(w.pending)
    requires forall i | 0 <= i < MAX_PENDING && i != slot :: SlotOk(v, log, w.pending[i])
    requires slot < MAX_PENDING ==> SlotOk(w, log, w.pending[slot])
    requires SelectedOk(w, log)
    ensures IceOk(w, log)
  {
    forall i | 0 <= i < |w.pending| ensures SlotOk(w, log, w.pending[i]) {
      if i != slot { SlotStays(v, w, log, NOTHING, w.pending[i]); }
    }
    LogStays(v, w, log);
  }

  /** The same, with one more event in the log. */
  lemma LoggedStep(v: Agent, w: Agent, log: Log, e: Event, slot: nat)
    requires IceOk(v, log) && Extends(v, w) && |w.pending| == MAX_PENDING && QueueOk(w.pending)
    requires forall i | 0 <= i < MAX_PENDING && i != slot :: SlotOk(v, log, w.pending[i])
    requires slot < MAX_PENDING ==> SlotOk(w, log + [e], w.pending[slot])
    requires SelectedOk(w, log + [e])
    requires e.Sent? && e.useCandidate ==> v.controlling && Confirmed(v, log, Base(v, e.local), e.to)
    ensures IceOk(w, log + [e])
  {
    forall i | 0 <= i < |w.pending| ensures SlotOk(w, log + [e], w.pending[i]) {
      if i != slot { SlotStays(v, w, log, e, w.pending[i]); }
    }
    LogGrows(v, w, log, e);
  }

  lemma SelectedStays(v: Agent, w: Agent, log: Log, e: Event)
    requires SameLocals(v, w) && SelectedOk(v, log) && v.selected == w.selected && (w.state == Connected ==> v.state == Connected)
    ensures SelectedOk(w, log) && SelectedOk(w, log + [e])
  {
    if v.selected.Some? {
      ConfirmedStays(v, w, log, e, Base(v, v.selected.value.local), v.selected.value.peer);
    }
  }

  lemma SelectSocket(v: Agent, local: nat, remote: nat)
    requires local < |v.locals| <= LOCAL_UNKNOWN && remote < |v.remotes|
    ensures Select(v, local, remote).selected.Some?
    ensures SocketOk(v.locals, v.srflxBase, Select(v, local, remote).selected.value)
  {
  }

  // ----- each operation -----

  lemma TriggerKeeps(v: Agent, log: Log, local: nat, src: Addr, nominate: bool)
    requires IceOk(v, log) && (nominate ==> !v.controlling)
    ensures IceOk(Trigger(v, local, src, nominate).0, log)
  {
    var w := Trigger(v, local, src, nominate).0;
    var remote := FindRemote(v.remotes, src, 0);
    var slot := PairSlot(v, local, remote, 0, |v.pending|);
    if w != v {
      var v1 := if remote == |v.remotes| then v.(remotes := v.remotes + [Candidate(src, Prflx)]) else v;
      TriggerTable(v, v1, log, local, src, remote, slot, nominate);
    }
  }

  /** The table change of a trigger on an agent that knows the remote candidate. */
  lemma TriggerTable(v: Agent, v1: Agent, log: Log, local: nat, src: Addr, remote: nat, slot: nat, nominate: bool)
    requires IceOk(v, log) && (nominate ==> !v.controlling) && local < |v.locals|
    requires remote == FindRemote(v.remotes, src, 0) && slot == PairSlot(v, local, remote, 0, |v.pending|) < |v.pending|
    requires v1 == if remote == |v.remotes| then v.(remotes := v.remotes + [Candidate(src, Prflx)]) else v
    ensures var p := PairEntry(v, v.pending[slot], local, remote, nominate);
            var v2 := v1.(pending := v1.pending[slot := p]);
            if p.valid then IceOk(v2, log) && (nominate ==> IceOk(Select(v2, p.local, remote), log))
            else if p.triggered then IceOk(v2, log)
            else IceOk(v2.(pending := Enqueue(v2.pending[slot := p.(inFlight := false, queued := false, triggered := true, retries := 0)], slot)), log)
  {
    var was := v.pending[slot];
    assert SlotOk(v, log, was);
    var p := PairEntry(v, was, local, remote, nominate);
    var v2 := v1.(pending := v1.pending[slot := p]);
    assert Extends(v, v2);
    SelectedStays(v, v2, log, NOTHING);
    if SamePair(v, was, local, remote) {
      RetouchKeeps(v.pending, slot, p);
      SlotStays(v, v2, log, NOTHING, was);
    } else {
      PairSlotFree(v, local, remote, 0, |v.pending|);
      ReplaceKeeps(v.pending, slot, p);
    }
    if p.valid || p.triggered {
      assert SlotOk(v2, log, p);
      QuietStep(v, v2, log, slot);
      if p.valid && nominate {
        var w := Select(v2, p.local, remote);
        SelectKeeps(v2, log, slot, p, remote, w);
      }
    } else {
      var q := p.(inFlight := false, queued := false, triggered := true, retries := 0);
      assert v2.pending[slot := q] == v.pending[slot := q];
      TriggerQueues(v, v2, log, slot, q, v2.(pending := Enqueue(v2.pending[slot := q], slot)));
    }
  }

  /** Selecting a pair that answered. */
  lemma SelectKeeps(v: Agent, log: Log, slot: nat, p: Slot, remote: nat, w: Agent)
    requires IceOk(v, log) && slot < |v.pending| && p == v.pending[slot] && p.valid && remote == p.remote < |v.remotes|
    requires w == Select(v, p.local, remote)
    ensures IceOk(w, log)
  {
    assert SlotOk(v, log, p);
    if |v.locals| <= LOCAL_UNKNOWN { SelectSocket(v, p.local, remote); }
    ConfirmedStays(v, w, log, NOTHING, Base(v, p.local), v.remotes[remote].addr);
    SlotStays(v, w, log, NOTHING, p);
    QuietStep(v, w, log, slot);
  }

  /** A check that is triggered afresh goes to the end of the queue. */
  lemma TriggerQueues(v: Agent, v2: Agent, log: Log, slot: nat, q: Slot, w: Agent)
    requires IceOk(v, log) && Extends(v, v2) && v2.selected == v.selected && v2.state == v.state
    requires slot < |v.pending| && !v.pending[slot].queued && !q.queued && !q.inFlight && !q.valid && q.triggered && SlotOk(v2, log, q)
    requires w == v2.(pending := Enqueue(v.pending[slot := q], slot))
    ensures IceOk(w, log)
  {
    ReplaceKeeps(v.pending, slot, q);
    EnqueueKeeps(v.pending[slot := q], slot);
    SelectedStays(v, w, log, NOTHING);
    assert SlotOk(w, log, w.pending[slot]);
    QuietStep(v, w, log, slot);
  }

  /** An entry taken over from another pair is neither in flight nor queued. */
  lemma {:induction false} PairSlotFree(v: Agent, local: nat, remote: nat, i: nat, free: nat)
    requires i <= |v.pending| && free <= |v.pending|
    requires free < |v.pending| ==> !v.pending[free].inFlight && !v.pending[free].queued
    ensures var r := PairSlot(v, local, remote, i, free);
            r < |v.pending| ==> SamePair(v, v.pending[r], local, remote) || (!v.pending[r].inFlight && !v.pending[r].queued)
    decreases |v.pending| - i
  {
    if i < |v.pending| {
      var p := v.pending[i];
      if !SamePair(v, p, local, remote) {
        PairSlotFree(v, local, remote, i + 1, if !p.inFlight && !p.queued && free == |v.pending| then i else free);
      }
    }
  }

  /** An authenticated response: the log gains the answer. */
  lemma ResponseKeeps(v: Agent, log: Log, txid: nat, src: Addr, localIdx: nat, viaTurn: bool, mapped: Option<Addr>)
    requires IceOk(v, log)
    ensures var (w, accepted) := Response(v, txid, src, localIdx, viaTurn, mapped);
            IceOk(w, log + [Answered(txid, src, accepted)])
  {
    var e := Answered(txid, src, Response(v, txid, src, localIdx, viaTurn, mapped).1);
    var slot := FindTxid(v.pending, txid, 0);
    if slot == |v.pending| || !SymmetricPath(v, v.pending[slot], src, localIdx, viaTurn) {
      SelectedStays(v, v, log, e);
      LoggedStep(v, v, log, e, MAX_PENDING);
    } else {
      ResponseAccepted(v, log, txid, src, mapped, slot);
    }
  }

  lemma ResponseAccepted(v: Agent, log: Log, txid: nat, src: Addr, mapped: Option<Addr>, slot: nat)
    requires IceOk(v, log) && slot < |v.pending| && v.pending[slot].inFlight && v.pending[slot].txid == txid
    requires v.remotes[v.pending[slot].remote].addr == src
    ensures var p := v.pending[slot].(inFlight := false, local := MappedLocal(v, v.pending[slot].local, mapped, 0));
            var valid := p.(queued := false, valid := true, nominate := false, triggered := false, retries := 0);
            var log' := log + [Answered(txid, src, true)];
            if v.state == Connected then IceOk(v.(pending := v.pending[slot := p]), log')
            else if p.nominate then IceOk(Select(v.(pending := v.pending[slot := valid]), p.local, p.remote), log')
            else if v.controlling then IceOk(v.(pending := Enqueue(v.pending[slot := valid.(nominate := true)], slot)), log')
            else IceOk(v.(pending := v.pending[slot := valid]), log')
  {
    var e, was := Answered(txid, src, true), v.pending[slot];
    assert SlotOk(v, log, was);
    var p := was.(inFlight := false, local := MappedLocal(v, was.local, mapped, 0));
    var valid := p.(queued := false, valid := true, nominate := false, triggered := false, retries := 0);
    AnsweredNow(v, log, txid, Base(v, was.local), src);
    if v.state == Connected {
      ReplaceKeeps(v.pending, slot, p);
      AcceptedStep(v, v.(pending := v.pending[slot := p]), log, e, slot);
    } else if p.nominate {
      SelectAccepted(v, log, e, slot, valid);
    } else if v.controlling {
      QueueAccepted(v, log, e, slot, valid.(nominate := true));
    } else {
      ReplaceKeeps(v.pending, slot, valid);
      AcceptedStep(v, v.(pending := v.pending[slot := valid]), log, e, slot);
    }
  }

  /** The answered pair's entry, about to be stored. */
  predicate AcceptedEntry(v: Agent, log: Log, e: Event, p: Slot) {
    && !p.inFlight && p.retries <= 4 && p.local < |v.locals| && p.remote < |v.remotes|
    && (p.queued ==> p.valid || p.triggered) && (v.controlling && p.nominate ==> p.valid)
    && Confirmed(v, log + [e], Base(v, p.local), v.remotes[p.remote].addr)
  }

  /** Storing it. */
  lemma AcceptedStep(v: Agent, w: Agent, log: Log, e: Event, slot: nat)
    requires IceOk(v, log) && slot < MAX_PENDING && e.Answered?
    requires w == v.(pending := w.pending) && |w.pending| == MAX_PENDING && QueueOk(w.pending)
    requires forall i | 0 <= i < MAX_PENDING && i != slot :: w.pending[i] == v.pending[i]
    requires AcceptedEntry(v, log, e, w.pending[slot])
    ensures IceOk(w, log + [e])
  {
    SelectedStays(v, w, log, e);
    AcceptedSlot(v, w, log, e, w.pending[slot]);
    LoggedStep(v, w, log, e, slot);
  }

  lemma SelectAccepted(v: Agent, log: Log, e: Event, slot: nat, p: Slot)
    requires IceOk(v, log) && slot < MAX_PENDING && e.Answered? && !p.queued && !v.pending[slot].queued
    requires AcceptedEntry(v, log, e, p)
    ensures IceOk(Select(v.(pending := v.pending[slot := p]), p.local, p.remote), log + [e])
  {
    var w := Select(v.(pending := v.pending[slot := p]), p.local, p.remote);
    ReplaceKeeps(v.pending, slot, p);
    AcceptedSlot(v, w, log, e, p);
    if |v.locals| <= LOCAL_UNKNOWN { SelectSocket(v.(pending := v.pending[slot := p]), p.local, p.remote); }
    LoggedStep(v, w, log, e, slot);
  }

  lemma QueueAccepted(v: Agent, log: Log, e: Event, slot: nat, p: Slot)
    requires IceOk(v, log) && slot < MAX_PENDING && e.Answered? && !p.queued && p.valid && !v.pending[slot].queued
    requires AcceptedEntry(v, log, e, p)
    ensures IceOk(v.(pending := Enqueue(v.pending[slot := p], slot)), log + [e])
  {
    ReplaceKeeps(v.pending, slot, p);
    EnqueueKeeps(v.pending[slot := p], slot);
    AcceptedStep(v, v.(pending := Enqueue(v.pending[slot := p], slot)), log, e, slot);
  }

  /** An entry whose pair just answered, no longer in flight. */
  lemma AcceptedSlot(v: Agent, w: Agent, log: Log, e: Event, p: Slot)
    requires SameLocals(v, w) && v.remotes == w.remotes && v.controlling == w.controlling
    requires AcceptedEntry(v, log, e, p)
    ensures SlotOk(w, log + [e], p) && Confirmed(w, log + [e], Base(w, p.local), w.remotes[p.remote].addr)
  {
    ConfirmedStays(v, w, log + [e], e, Base(v, p.local), v.remotes[p.remote].addr);
  }

  lemma ErrorKeeps(v: Agent, log: Log, txid: nat)
    requires IceOk(v, log)
    ensures IceOk(ErrorResponse(v, txid), log)
  {
    var slot := FindTxid(v.pending, txid, 0);
    if slot < |v.pending| {
      assert SlotOk(v, log, v.pending[slot]);
      ReplaceKeeps(v.pending, slot, IDLE);
      var w := ErrorResponse(v, txid);
      SelectedStays(v, w, log, NOTHING);
      QuietStep(v, w, log, slot);
    }
  }

  /** Giving up an entry, or the agent. */
  lemma ExpireKeeps(v: Agent, log: Log, slot: Option<nat>)
    requires IceOk(v, log) && v.state != Connected && (slot.Some? ==> slot.value < |v.pending|)
    ensures slot.None? ==> IceOk(v.(state := Failed), log)
    ensures slot.Some? ==> IceOk(v.(pending := Dequeue(v.pending, slot.value)[slot.value := IDLE]), log)
  {
    var none := NOTHING;
    if slot.None? {
      var w := v.(state := Failed);
      SelectedStays(v, w, log, none);
      QuietStep(v, w, log, MAX_PENDING);
    } else {
      var i := slot.value;
      var w := v.(pending := Dequeue(v.pending, i)[i := IDLE]);
      DequeueKeeps(v.pending, i);
      ReplaceKeeps(Dequeue(v.pending, i), i, IDLE);
      OthersOk(v, log, i);
      SelectedStays(v, w, log, none);
      QuietStep(v, w, log, i);
    }
  }

  lemma OthersOk(v: Agent, log: Log, i: nat)
    requires IceOk(v, log) && i < |v.pending|
    ensures forall j | 0 <= j < |v.pending| && j != i :: SlotOk(v, log, Dequeue(v.pending, i)[j])
  {
    forall j | 0 <= j < |v.pending| && j != i ensures SlotOk(v, log, Dequeue(v.pending, i)[j]) {
      assert SlotOk(v, log, v.pending[j]);
    }
  }

  /** The event of a poll. */
  function Logged(log: Log, out: Output): Log {
    match out
    case Silence => log
    case Request(txid, local, to, use) => log + [Sent(txid, local, to, use)]
  }

  lemma PollKeeps(v: Agent, log: Log, now: Time, relayReady: Option<seq<bool>>, txid: nat)
    requires IceOk(v, log)
    ensures var (w, out) := Poll(v, now, relayReady, txid);
            IceOk(w, Logged(log, out))
  {
    var (wait, check) := GetCheck(v, now, relayReady);
    if wait == 0 {
      if check.slot.None? {
        if check.expire { ExpireKeeps(v, log, None); }
      } else if check.expire {
        ExpireKeeps(v, log, check.slot);
      } else {
        DueRetransmission(v, now, relayReady);
        DueTransmission(v, now, relayReady);
        SendKeeps(v, log, now, check, txid);
      }
    }
  }

  /** Sending a due check. */
  lemma SendKeeps(v: Agent, log: Log, now: Time, check: Check, txid: nat)
    requires IceOk(v, log) && v.state != Connected
    requires check.slot.Some? && check.slot.value < |v.pending| && !check.expire
    requires check.local < |v.locals| && check.remote < |v.remotes|
    requires var p := v.pending[check.slot.value];
             if check.retransmit then p.inFlight && p.retries <= 3 && check.local == p.local && check.remote == p.remote
             else (p.queued && !p.inFlight && check.local == p.local && check.remote == p.remote) || !Active(p)
    ensures var (w, out) := SendCheck(v, now, check, txid);
            IceOk(w, Logged(log, out))
  {
    var slot := check.slot.value;
    var was := v.pending[slot];
    assert SlotOk(v, log, was);
    var (w, out) := SendCheck(v, now, check, txid);
    var p := Transmitted(was, check, now, txid);
    var to := v.remotes[check.remote].addr;
    var e := Sent(p.txid, check.local, to, v.controlling && p.nominate);
    DequeueKeeps(v.pending, slot);
    ReplaceKeeps(Dequeue(v.pending, slot), slot, p);
    OthersOk(v, log, slot);
    SelectedStays(v, w, log, e);
    AskedNow(w, log, p.txid, check.local, to, e.useCandidate);
    if was.valid { ConfirmedStays(v, w, log, e, Base(v, was.local), v.remotes[was.remote].addr); }
    LoggedStep(v, w, log, e, slot);
  }

  // ----- runs -----

  /** Everything that can happen to an agent. Requests and responses are authenticated ones. */
  datatype Step =
    | Incoming(local: nat, src: Addr, useCandidate: bool)
    | Reply(txid: nat, src: Addr, localIdx: nat, viaTurn: bool, mapped: Option<Addr>)
    | Error(txid: nat)
    | Tick(now: Time, relayReady: Option<seq<bool>>, random: nat)
    | Trickle(candidate: Candidate)
    | SetCredentials
    | EndOfCandidates
    | ConsentLost
    | NewGeneration

  datatype World = World(agent: Agent, log: Log)

  function Next(w: World, step: Step): World {
    var v := w.agent;
    match step
    case Incoming(local, src, useCandidate) => World(Trigger(v, local, src, useCandidate && !v.controlling).0, w.log)
    case Reply(txid, src, localIdx, viaTurn, mapped) =>
      var (after, accepted) := Response(v, txid, src, localIdx, viaTurn, mapped);
      World(after, w.log + [Answered(txid, src, accepted)])
    case Error(txid) => World(ErrorResponse(v, txid), w.log)
    case Tick(now, relayReady, random) =>
      var (after, out) := Poll(v, now, relayReady, random);
      World(after, Logged(w.log, out))
    case Trickle(candidate) =>
      World(if |v.remotes| < MAX_REMOTES then v.(remotes := v.remotes + [candidate]) else v, w.log)
    case SetCredentials => World(v.(credentials := true), w.log)
    case EndOfCandidates => World(v.(endOfCandidates := true), w.log)
    case ConsentLost => World(if v.state == Connected then v.(state := Disconnected) else v, w.log)
    case NewGeneration => World(Restart(v), [])
  }

  function Run(w: World, steps: seq<Step>): World {
    if steps == [] then w else Next(Run(w, steps[..|steps| - 1]), steps[|steps| - 1])
  }

  function Start(controlling: bool, locals: seq<Candidate>, srflxBase: nat): World {
    World(Agent(New, controlling, locals, srflxBase, [], seq(MAX_PENDING, i => IDLE), 0, 0, 0, 0, false, false, None), [])
  }

  lemma IdleOk(v: Agent)
    requires v.pending == seq(MAX_PENDING, i => IDLE) && v.selected.None? && v.state == New
    ensures IceOk(v, [])
  {
  }

  lemma FieldsKeep(v: Agent, w: Agent, log: Log)
    requires IceOk(v, log) && Extends(v, w) && v.pending == w.pending && v.selected == w.selected
    requires w.state == Connected ==> v.state == Connected
    ensures IceOk(w, log)
  {
    SelectedStays(v, w, log, NOTHING);
    QuietStep(v, w, log, MAX_PENDING);
  }

  lemma StepKeeps(w: World, step: Step)
    requires IceOk(w.agent, w.log)
    ensures IceOk(Next(w, step).agent, Next(w, step).log)
  {
    var v, next := w.agent, Next(w, step).agent;
    match step
    case Incoming(local, src, useCandidate) => TriggerKeeps(v, w.log, local, src, useCandidate && !v.controlling);
    case Reply(txid, src, localIdx, viaTurn, mapped) => ResponseKeeps(v, w.log, txid, src, localIdx, viaTurn, mapped);
    case Error(txid) => ErrorKeeps(v, w.log, txid);
    case Tick(now, relayReady, random) => PollKeeps(v, w.log, now, relayReady, random);
    case Trickle(candidate) => FieldsKeep(v, next, w.log);
    case SetCredentials => FieldsKeep(v, next, w.log);
    case EndOfCandidates => FieldsKeep(v, next, w.log);
    case ConsentLost => FieldsKeep(v, next, w.log);
    case NewGeneration => IdleOk(next);
  }

  lemma {:induction false} RunKeeps(controlling: bool, locals: seq<Candidate>, srflxBase: nat, steps: seq<Step>)
    ensures var w := Run(Start(controlling, locals, srflxBase), steps);
            IceOk(w.agent, w.log)
  {
    if steps == [] {
      IdleOk(Start(controlling, locals, srflxBase).agent);
    } else {
      var front := steps[..|steps| - 1];
      RunKeeps(controlling, locals, srflxBase, front);
      StepKeeps(Run(Start(controlling, locals, srflxBase), front), steps[|steps| - 1]);
    }
  }

  // ----- the promises -----

  /** The entry is in flight with the transaction, on a pair with the answering address. */
  predicate AwaitsAnswer(v: Agent, i: nat, txid: nat, from: Addr) {
    && i < |v.pending| && v.pending[i].inFlight && v.pending[i].txid == txid
    && v.pending[i].remote < |v.remotes| && v.remotes[v.pending[i].remote].addr == from
  }

  /** A response is accepted only while its transaction is in flight in this generation, from
      the address that was asked, and with a request of that transaction in the log. */
  lemma AcceptedWasInFlight(controlling: bool, locals: seq<Candidate>, srflxBase: nat, steps: seq<Step>, reply: Step)
    requires var w := Run(Start(controlling, locals, srflxBase), steps);
             reply.Reply? && Next(w, reply).log == w.log + [Answered(reply.txid, reply.src, true)]
    ensures var w := Run(Start(controlling, locals, srflxBase), steps);
            exists i: nat :: AwaitsAnswer(w.agent, i, reply.txid, reply.src)
              && Asked(w.agent, w.log, reply.txid, Base(w.agent, w.agent.pending[i].local), reply.src)
  {
    RunKeeps(controlling, locals, srflxBase, steps);
    var w := Run(Start(controlling, locals, srflxBase), steps);
    var i := FindTxid(w.agent.pending, reply.txid, 0);
    assert (w.log + [Answered(reply.txid, reply.src, true)])[|w.log|].accepted;
    assert SlotOk(w.agent, w.log, w.agent.pending[i]);
    assert AwaitsAnswer(w.agent, i, reply.txid, reply.src);
  }

  /** A connected agent uses a pair on which it asked and whose answer, from the asked address
      and with its own transaction, it accepted in this generation. */
  lemma ConnectedIsConfirmed(controlling: bool, locals: seq<Candidate>, srflxBase: nat, steps: seq<Step>)
    requires Run(Start(controlling, locals, srflxBase), steps).agent.state == Connected
    ensures var w := Run(Start(controlling, locals, srflxBase), steps);
            w.agent.selected.Some? && Confirmed(w.agent, w.log, Base(w.agent, w.agent.selected.value.local), w.agent.selected.value.peer)
  {
    RunKeeps(controlling, locals, srflxBase, steps);
  }

  lemma StepLocals(w: World, step: Step)
    ensures SameLocals(w.agent, Next(w, step).agent)
  {
    match step
    case Incoming(local, src, useCandidate) => TriggerLocals(w.agent, local, src, useCandidate && !w.agent.controlling);
    case Reply(txid, src, localIdx, viaTurn, mapped) =>
    case _ =>
  }

  lemma TriggerLocals(v: Agent, local: nat, src: Addr, nominate: bool)
    ensures SameLocals(v, Trigger(v, local, src, nominate).0)
  {
  }

  lemma {:induction false} LocalsStay(controlling: bool, locals: seq<Candidate>, srflxBase: nat, steps: seq<Step>)
    ensures var v := Run(Start(controlling, locals, srflxBase), steps).agent;
            v.locals == locals && v.srflxBase == srflxBase
  {
    if steps != [] {
      var front := steps[..|steps| - 1];
      LocalsStay(controlling, locals, srflxBase, front);
      StepLocals(Run(Start(controlling, locals, srflxBase), front), steps[|steps| - 1]);
    }
  }

  /** The socket of a selected pair is always that of the candidate it is sent from, never the mapped
      address of a reflexive one, and it is unknown exactly when the host base is. */
  lemma SelectedSocket(controlling: bool, locals: seq<Candidate>, srflxBase: nat, steps: seq<Step>)
    requires |locals| <= LOCAL_UNKNOWN
    requires Run(Start(controlling, locals, srflxBase), steps).agent.selected.Some?
    ensures SocketOk(locals, srflxBase, Run(Start(controlling, locals, srflxBase), steps).agent.selected.value)
  {
    RunKeeps(controlling, locals, srflxBase, steps);
    LocalsStay(controlling, locals, srflxBase, steps);
  }

  /** Every request that carries USE-CANDIDATE comes from a controlling agent, for a pair that
      had answered before the request was sent. */
  lemma NominatesConfirmedOnly(controlling: bool, locals: seq<Candidate>, srflxBase: nat, steps: seq<Step>, k: nat)
    requires var w := Run(Start(controlling, locals, srflxBase), steps);
             k < |w.log| && w.log[k].Sent? && w.log[k].useCandidate
    ensures var w := Run(Start(controlling, locals, srflxBase), steps);
            w.agent.controlling && Confirmed(w.agent, w.log[..k], Base(w.agent, w.log[k].local), w.log[k].to)
  {
    RunKeeps(controlling, locals, srflxBase, steps);
    var w := Run(Start(controlling, locals, srflxBase), steps);
    assert NominationOk(w.agent, w.log, k);
  }

  /** In every reachable state the queue positions are a permutation of 0..k-1, an in-flight
      entry is not queued, and no retry count passes four. */
  lemma TableStaysSound(controlling: bool, locals: seq<Candidate>, srflxBase: nat, steps: seq<Step>, position: nat)
    ensures var pending := Run(Start(controlling, locals, srflxBase), steps).agent.pending;
            && |pending| == MAX_PENDING
            && (position < CountQueued(pending, |pending|) <==> At(pending, |pending|, position))
            && (forall i | 0 <= i < |pending| :: pending[i].retries <= 4 && !(pending[i].inFlight && pending[i].queued))
  {
    RunKeeps(controlling, locals, srflxBase, steps);
    var w := Run(Start(controlling, locals, srflxBase), steps);
    QueueIsPermutation(w.agent.pending, position);
    assert forall i | 0 <= i < |w.agent.pending| :: SlotOk(w.agent, w.log, w.agent.pending[i]);
  }
}
