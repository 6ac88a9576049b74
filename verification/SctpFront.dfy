/** The acknowledged part of a message whose front waits is all in the receive table, and merging
    either collects it in the front or sticks: lemma FrontOrStuck says so of the reachable states
    without a waiting pair, SettledStep which states these are, and DataDecides what decides. */
module SctpFront {
  import opened SctpTypes
  import opened SctpHistory
  import opened SctpReceiver
  import opened SctpDelivery
  import opened SctpDeliverStep
  import opened SctpSending
  import opened SctpSubmit
  import opened SctpSystem
  import opened SctpTheorems
  import opened SctpAcks
  import opened SctpMergeOrder
  import opened SctpStuck
  import opened SctpWhole
  import opened SctpSteps

  // ----- the acknowledged part of a message -----

  /** Descriptor `f` holds the front of a message that is acknowledged at least in part. */
  predicate FrontAt(v: Receiver, f: nat) {
    Pending(v.slots, f) && v.slots[f].value.begin && v.slots[f].value.first <= v.cum
  }

  /** Where the acknowledged part of the message at TSN `t0` ends: with the message or at the cumulative TSN. */
  function AckedEnd(h: History, v: Receiver, t0: int): int
    requires 0 <= t0 < |h.owner| && h.owner[t0] < |h.accepted|
  {
    if h.accepted[h.owner[t0]].last <= v.cum then h.accepted[h.owner[t0]].last else v.cum
  }

  /** The front starts its message, and the acknowledged part ends at `a`. */
  ghost predicate Acknowledged(h: History, v: Receiver, f: nat, t0: int, a: int) {
    && FrontAt(v, f) && t0 == v.slots[f].value.first
    && 0 <= t0 < |h.owner| && h.owner[t0] < |h.accepted| && h.accepted[h.owner[t0]].first == t0
    && a == AckedEnd(h, v, t0) && v.slots[f].value.tsn <= a && !Taken(h, v, h.owner[t0])
  }

  lemma FrontFacts(h: History, v: Receiver, f: nat) returns (t0: int, a: int)
    requires HistoryOk(h) && TableOk(h, v) && FrontAt(v, f)
    ensures Acknowledged(h, v, f, t0, a)
  {
    var e := v.slots[f].value;
    t0 := e.first;
    assert EntryOk(h, v.cum, e);
    assert ChunkOk(h.accepted[h.owner[t0]], h.chunks[t0], t0);
    assert ChunkOk(h.accepted[h.owner[t0]], h.chunks[e.tsn], e.tsn);
    a := AckedEnd(h, v, t0);
  }

  /** Descriptor `i` holds the single fragment `t` of the message of the front `f`. */
  predicate Piece(slots: Slots, f: nat, i: nat, t: int, a: int) {
    && Pending(slots, f) && Pending(slots, i)
    && var e := slots[i].value;
       e.first == e.tsn == t && !e.begin && (e.end ==> t == a) && Kin(slots[f].value, e)
  }

  /** An acknowledged fragment behind the front waits in a descriptor that starts with it. */
  lemma NextHolder(h: History, v: Receiver, f: nat, t0: int, a: int, q: nat, t: int) returns (s: nat)
    requires HistoryOk(h) && TableOk(h, v) && Whole(h, v) && Acknowledged(h, v, f, t0, a) && t0 < t <= a
    requires Pending(v.slots, q) && v.slots[q].value.tsn == t - 1
    ensures Pending(v.slots, s) && v.slots[s].value.first == t && h.owner[t] == h.owner[t0]
  {
    var m := h.owner[t0];
    assert h.accepted[m].first <= t <= h.accepted[m].last;
    assert h.owner[t] == m;
    assert WholeAt(h, v, t);
    s :| 0 <= s < |v.slots| && Pending(v.slots, s) && InRange(v.slots, s, t);
    assert s != q;
    ApartSymmetric(h, v, s, q);
    assert EntryOk(h, v.cum, v.slots[q].value);
  }

  /** It is a piece, or the message is stuck. */
  lemma PieceOrStuck(h: History, v: Receiver, f: nat, t0: int, a: int, s: nat, t: int, n: nat)
    requires HistoryOk(h) && TableOk(h, v) && Acknowledged(h, v, f, t0, a) && t0 < t <= a && n == a - t0 + 1
    requires Pending(v.slots, s) && v.slots[s].value.first == t && h.owner[t] == h.owner[t0]
    ensures Piece(v.slots, f, s, t, a) || StuckAt(v.slots, t0, n, s, f)
  {
    var m := h.owner[t0];
    assert EntryOk(h, v.cum, v.slots[s].value) && EntryOk(h, v.cum, v.slots[f].value);
    assert ChunkOk(h.accepted[m], h.chunks[t], t);
    if v.slots[s].value.tsn == t {
      EntryOwner(h, v.cum, v.slots[f].value, t0);
      assert ChunkOk(h.accepted[m], h.chunks[v.slots[f].value.tsn], v.slots[f].value.tsn);
    } else {
      TableDisjoint(h, v);
      forall k | 0 <= k < |v.slots| && v.slots[k].Some? && t0 <= v.slots[k].value.first && v.slots[k].value.tsn < t
        ensures !v.slots[k].value.end
      {
        NoEndBetween(h, v.cum, v.slots[k].value, t0, t);
      }
    }
  }

  lemma NoEndBetween(h: History, cum: int, e: Entry, t0: int, t: int)
    requires HistoryOk(h) && EntryOk(h, cum, e) && 0 <= t0 <= e.first && e.tsn < t < |h.owner| && h.owner[t] == h.owner[t0]
    ensures !e.end
  {
    BetweenOwner(h, t0, e.tsn, t);
    var m := h.owner[t0];
    assert ChunkOk(h.accepted[m], h.chunks[e.tsn], e.tsn) && ChunkOk(h.accepted[m], h.chunks[t], t);
  }

  /** `p` is the front followed by single fragments, up to TSN `b`. */
  predicate Collected(slots: Slots, f: nat, p: seq<nat>, b: int, a: int) {
    && p != [] && p[0] == f && Pending(slots, f) && Pending(slots, p[|p| - 1]) && slots[p[|p| - 1]].value.tsn == b
    && b == slots[f].value.tsn + |p| - 1
    && forall k | 0 < k < |p| :: Piece(slots, f, p[k], slots[f].value.tsn + k, a)
  }

  lemma Collect(h: History, v: Receiver, f: nat, t0: int, a: int, n: nat) returns (p: seq<nat>)
    requires HistoryOk(h) && TableOk(h, v) && Whole(h, v) && Acknowledged(h, v, f, t0, a) && n == a - t0 + 1
    ensures Sticks(v.slots, t0, n, f) || Collected(v.slots, f, p, a, a)
  {
    var b := v.slots[f].value.tsn;
    assert EntryOk(h, v.cum, v.slots[f].value);
    p := [f];
    while b < a
      invariant t0 <= b <= a && Collected(v.slots, f, p, b, a)
    {
      var s := NextHolder(h, v, f, t0, a, p[|p| - 1], b + 1);
      PieceOrStuck(h, v, f, t0, a, s, b + 1, n);
      if StuckAt(v.slots, t0, n, s, f) { return; }
      p, b := p + [s], b + 1;
    }
  }

  lemma CollectedIsPart(h: History, v: Receiver, f: nat, t0: int, a: int, p: seq<nat>, m: nat)
    requires HistoryOk(h) && TableOk(h, v) && Acknowledged(h, v, f, t0, a) && Collected(v.slots, f, p, a, a)
    requires m == v.slots[f].value.tsn - t0
    ensures Partly(v, p, t0, m)
  {
    TableDisjoint(h, v);
    forall k | 0 < k < |p| ensures Alone(v.slots, p, t0, m, k) {
      assert Piece(v.slots, f, p[k], v.slots[f].value.tsn + k, a);
    }
    var e, l := v.slots[f].value, v.slots[p[|p| - 1]].value;
    assert EntryOk(h, v.cum, e) && EntryOk(h, v.cum, l);
    var i := h.owner[t0];
    assert ChunkOk(h.accepted[i], h.chunks[e.tsn], e.tsn);
    if a == h.accepted[i].last {
      assert h.accepted[i].first <= a <= h.accepted[i].last;
      assert h.owner[a] == i;
      assert ChunkOk(h.accepted[i], h.chunks[a], a);
    }
  }

  /** The acknowledged part of a message whose front waits, `n` fragments from TSN `t0`: it is stuck, or
      it is the front and single fragments, to which MergeCompletesIff applies. */
  lemma PartOrStuck(h: History, v: Receiver, f: nat) returns (t0: int, n: nat, p: seq<nat>, m: nat)
    requires HistoryOk(h) && TableOk(h, v) && Whole(h, v) && FrontAt(v, f)
    ensures Acknowledged(h, v, f, t0, t0 + n - 1)
    ensures Sticks(v.slots, t0, n, f) || (Partly(v, p, t0, m) && p[0] == f && m + |p| == n)
  {
    var a;
    t0, a := FrontFacts(h, v, f);
    assert EntryOk(h, v.cum, v.slots[f].value);
    n, m := a - t0 + 1, v.slots[f].value.tsn - t0;
    p := Collect(h, v, f, t0, a, n);
    if !Sticks(v.slots, t0, n, f) { CollectedIsPart(h, v, f, t0, a, p, m); }
  }

  // ----- no pair waits -----

  /** The entry that waits is the same but for the mark of a skipped message. */
  predicate SameBytes(a: Option<Entry>, b: Option<Entry>) {
    a.Some? && b.Some? && b.value == a.value.(forwarded := b.value.forwarded)
  }

  lemma SettledFades(v: Receiver, w: Receiver)
    requires Settled(v) && |w.slots| == |v.slots| && w.cum == v.cum
    requires forall i | 0 <= i < |w.slots| && Pending(w.slots, i) :: Pending(v.slots, i) && SameBytes(v.slots[i], w.slots[i])
    ensures Settled(w)
  {
    forall i: nat, j: nat | i < |w.slots| && j < |w.slots| ensures !CanMerge(w, i, j) {
      assert !CanMerge(v, i, j);
    }
  }

  lemma SettledReclaim(v: Receiver)
    requires Settled(v)
    ensures Settled(Reclaim(v))
  {
    assert forall i | 0 <= i < |v.slots| :: Reclaim(v).slots[i] == Reclaimed(v.slots[i], v.cum);
    SettledFades(v, Reclaim(v));
  }

  lemma SettledPoll(v: Receiver)
    requires Settled(v)
    ensures Settled(PollDelivery(v).0)
  {
    SettledReclaim(v);
    var k, parts := PollShape(Reclaim(v), 0, PollDelivery(v));
    SettledFades(Reclaim(v), PollDelivery(v).0);
  }

  /** A chunk that is not stored changes no fragment that waits. */
  lemma SettledRefused(v: Receiver, c: Chunk)
    requires Settled(v) && !Accepts(v, c)
    ensures Settled(HandleData(v, c).0)
  {
    var v1 := v.(sackNeeded := true);
    SettledFades(v, v1);
    SettledReclaim(v1);
  }

  lemma SettledStored(h: History, v: Receiver, c: Chunk)
    requires HistoryOk(h) && TableOk(h, v) && Whole(h, v) && Accepts(v, c) && 0 <= c.tsn < |h.chunks| && c == h.chunks[c.tsn]
    ensures Settled(HandleData(v, c).0)
  {
    StoredTable(h, v, c);
    MergeWhole(h, BeforeMerging(v, c), -1, HandleData(v, c).0);
  }

  /** The table that a stored chunk leaves before merging. */
  function BeforeMerging(v: Receiver, c: Chunk): (r: Receiver)
    requires Accepts(v, c)
    ensures HandleData(v, c) == Merge(r)
  {
    AcceptsFree(v, c);
    Drain(Admit(Reclaim(v.(sackNeeded := true)), Incoming(c)))
  }

  lemma StoredTable(h: History, v: Receiver, c: Chunk)
    requires HistoryOk(h) && TableOk(h, v) && Whole(h, v) && Accepts(v, c) && 0 <= c.tsn < |h.chunks| && c == h.chunks[c.tsn]
    ensures TableOk(h, BeforeMerging(v, c)) && Whole(h, BeforeMerging(v, c))
  {
    var v1 := v.(sackNeeded := true);
    AcceptsFree(v, c);
    SameTable(h, v, v1, -1);
    ReclaimedTable(h, v1);
    ReclaimWhole(h, v1, -1);
    AdmittedTable(h, Reclaim(v1), c, BeforeMerging(v, c));
  }

  lemma SettledData(h: History, v: Receiver, c: Chunk)
    requires HistoryOk(h) && TableOk(h, v) && Whole(h, v) && 0 <= c.tsn < |h.chunks| && c == h.chunks[c.tsn]
    requires Accepts(v, c) || Settled(v)
    ensures Settled(HandleData(v, c).0)
  {
    if Accepts(v, c) { SettledStored(h, v, c); } else { SettledRefused(v, c); }
  }

  predicate StoresData(x: System, step: Step) {
    step.Arrive? && step.packet.DataPacket? && Accepts(x.rx, step.packet.chunk)
  }

  predicate SkipsForward(x: System, step: Step) {
    step.Arrive? && step.packet.ForwardPacket? && step.packet.newTsn > x.rx.cum
  }

  /** No pair waits after a stored DATA chunk, nor after any other step that started without one,
      a FORWARD TSN that raises the cumulative TSN excepted. */
  lemma SettledStep(x: System, step: Step)
    requires Reachable(x) && Enabled(x, step)
    requires StoresData(x, step) || (Settled(x.rx) && !SkipsForward(x, step))
    ensures Settled(Next(x, step).rx)
  {
    ReachableTable(x);
    match step {
      case Arrive(DataPacket(c)) =>
        DataIsGenuine(x, c);
        SettledData(x.history, x.rx, c);
      case Poll =>
        PolledIsNext(x);
        SettledPoll(x.rx);
      case _ =>
        SettledFades(x.rx, Next(x, step).rx);
    }
  }

  predicate NoForward(steps: seq<Step>) {
    forall k | 0 <= k < |steps| && steps[k].Arrive? :: !steps[k].packet.ForwardPacket?
  }

  lemma {:induction false} SettledRun(x: System, steps: seq<Step>)
    requires Reachable(x) && Runnable(x, steps) && NoForward(steps) && Settled(x.rx)
    ensures Settled(Run(x, steps).rx)
    decreases |steps|
  {
    if steps != [] {
      SettledStep(x, steps[0]);
      ReachableMore(x, steps[0]);
      forall k | 0 <= k < |steps[1..]| && steps[1..][k].Arrive? ensures !steps[1..][k].packet.ForwardPacket? {
        assert steps[1..][k] == steps[k + 1];
      }
      SettledRun(Next(x, steps[0]), steps[1..]);
    }
  }

  // ----- a FORWARD TSN -----

  /** Two fragments that wait past `lo` and up to `hi` can be merged. */
  predicate PairBetween(slots: Slots, lo: int, hi: int) {
    exists i, j | 0 <= i < |slots| && 0 <= j < |slots| :: PairAt(slots, i, j, lo, hi)
  }

  predicate PairAt(slots: Slots, i: nat, j: nat, lo: int, hi: int) {
    && Pending(slots, i) && Pending(slots, j) && Follows(slots[i].value, slots[j].value)
    && lo < slots[i].value.tsn && slots[j].value.tsn <= hi
  }

  predicate Past(slot: Option<Entry>, lo: int) {
    slot.Some? && slot.value.tsn > lo
  }

  /** Descriptors past `lo` are the same but for the mark of a skipped message. */
  predicate SamePast(a: Slots, b: Slots, lo: int) {
    |a| == |b| && forall i | 0 <= i < |a| :: (Past(a[i], lo) <==> Past(b[i], lo)) && (Past(a[i], lo) ==> SameBytes(a[i], b[i]))
  }

  lemma {:induction false} MergeSamePast(v: Receiver, w: Receiver)
    requires w == Merge(v).0
    ensures SamePast(v.slots, w.slots, v.cum)
    decreases CountHeld(v.slots)
  {
    match FirstPair(v, 0, 0)
    case None =>
    case Some((i, j)) =>
      if |v.slots[i].value.data| + |v.slots[j].value.data| <= MAX_MESSAGE_SIZE {
        CountHeldMergeAt(v.slots, i, j);
        MergeSamePast(v.(slots := MergeAt(v.slots, i, j)), w);
      }
  }

  lemma MarkSettled(h: History, u: Receiver, s: Stream, r: Receiver, lo: int)
    requires TableOk(h, u) && Settled(u) && r.cum == u.cum && r.slots == MarkForwarded(u.slots, s.sid, s.ssn)
    ensures TableOk(h, r) && Settled(r) && SamePast(u.slots, r.slots, lo)
  {
    SkipKeepsTable(h, u, r, s);
    SettledFades(u, r);
  }

  /** Releasing streams keeps the table but for marks. */
  lemma {:induction false} ReleaseSettled(h: History, v: Receiver, skips: seq<Stream>, w: Receiver, lo: int)
    requires TableOk(h, v) && Settled(v) && w == ReleaseStreams(v, skips).0
    ensures TableOk(h, w) && Settled(w) && w.cum == v.cum && SamePast(v.slots, w.slots, lo)
    decreases |skips|
  {
    if skips != [] {
      var s := skips[0];
      var u := v.(streams := Register(v.streams, s.sid));
      SettledFades(v, u);
      if Known(u.streams, s.sid) {
        if s.ssn < SsnOf(u.streams, s.sid) {
          ReleaseSettled(h, u, skips[1..], w, lo);
        } else {
          var r := u.(slots := MarkForwarded(u.slots, s.sid, s.ssn), streams := SetSsn(u.streams, s.sid, s.ssn + 1));
          MarkSettled(h, u, s, r, lo);
          ReleaseSettled(h, r, skips[1..], w, lo);
        }
      }
    }
  }

  /** The table before the last advance of the cumulative TSN. */
  lemma ForwardStages(h: History, v: Receiver, newTsn: int, skips: seq<Stream>) returns (u: Receiver)
    requires HistoryOk(h) && TableOk(h, v) && Whole(h, v) && v.cum < newTsn < |h.chunks|
    ensures TableOk(h, u) && Settled(u) && u.cum == newTsn && SamePast(v.slots, u.slots, newTsn)
    ensures HandleForward(v, newTsn, skips) == (Drain(u), Ok) || (HandleForward(v, newTsn, skips).0 == u && HandleForward(v, newTsn, skips).1 != Ok)
  {
    var v1 := v.(sackNeeded := true);
    var up := v1.(cum := newTsn);
    SameTable(h, v, v1, -1);
    assert WholePast(h, v1, newTsn) by { assert forall t | t > newTsn :: WholeAt(h, v1, t); }
    RaiseWhole(h, v1, newTsn, newTsn);
    var v2 := Merge(up).0;
    MergeWhole(h, up, newTsn, v2);
    MergeSamePast(up, v2);
    var v3 := v2.(slots := DiscardStranded(v2.slots, newTsn));
    FadeKeepsTable(h, v2, v3);
    SettledFades(v2, v3);
    u := ReleaseStreams(v3, skips).0;
    ReleaseSettled(h, v3, skips, u, newTsn);
  }

  /** Past the new cumulative TSN the same TSNs are held. */
  lemma HoldsPast(a: Slots, b: Slots, lo: int, t: int)
    requires SamePast(a, b, lo) && t > lo
    ensures Holds(a, t) <==> Holds(b, t)
  {
    if i :| 0 <= i < |a| && a[i].Some? && a[i].value.tsn == t { assert Past(a[i], lo) && b[i].Some?; }
    if i :| 0 <= i < |b| && b[i].Some? && b[i].value.tsn == t { assert Past(b[i], lo) && a[i].Some?; }
  }

  lemma SameDrain(a: Slots, b: Slots, lo: int)
    requires SamePast(a, b, lo)
    ensures DrainCum(a, lo) == DrainCum(b, lo)
  {
    var x, y := DrainCum(a, lo), DrainCum(b, lo);
    HoldsPast(a, b, lo, x + 1);
    HoldsPast(a, b, lo, y + 1);
    assert x < y ==> Holds(b, x + 1);
    assert y < x ==> Holds(a, y + 1);
  }

  /** A pair that waits past `lo` in one table waits in the other. */
  lemma SamePair(a: Slots, b: Slots, i: nat, j: nat, lo: int, hi: int)
    requires SamePast(a, b, lo)
    ensures PairAt(a, i, j, lo, hi) <==> PairAt(b, i, j, lo, hi)
  {
    if PairAt(a, i, j, lo, hi) { assert Past(a[i], lo) && Past(a[j], lo); }
    if PairAt(b, i, j, lo, hi) { assert Past(b[i], lo) && Past(b[j], lo); }
  }

  /** No pair reaches over a message end. */
  lemma NoPairAcross(h: History, v: Receiver, end: int, i: nat, j: nat)
    requires TableOk(h, v) && 0 <= end < |h.chunks| && h.chunks[end].end
    requires Pending(v.slots, i) && Pending(v.slots, j) && Follows(v.slots[i].value, v.slots[j].value)
    ensures v.slots[i].value.tsn != end
  {
    assert EntryOk(h, v.cum, v.slots[i].value);
  }

  /** When the cumulative TSN advances from a message end, the pairs between are what waits. */
  lemma DrainSettledIff(h: History, u: Receiver)
    requires HistoryOk(h) && TableOk(h, u) && Settled(u) && 0 <= u.cum && h.chunks[u.cum].end
    ensures Settled(Drain(u)) <==> !PairBetween(u.slots, u.cum, DrainCum(u.slots, u.cum))
  {
    var w, hi := Drain(u), DrainCum(u.slots, u.cum);
    assert forall k | 0 <= k < |u.slots| :: w.slots[k] == Reclaimed(u.slots[k], hi);
    PairsAfterDrain(u, w, hi);
    forall i: nat, j: nat | CanMerge(w, i, j) ensures PairAt(u.slots, i, j, u.cum, hi) {
      NoPairAcross(h, u, u.cum, i, j);
      assert !CanMerge(u, i, j);
    }
  }

  lemma PairsAfterDrain(u: Receiver, w: Receiver, hi: int)
    requires |w.slots| == |u.slots| && w.cum == hi && forall k | 0 <= k < |u.slots| :: w.slots[k] == Reclaimed(u.slots[k], hi)
    ensures forall i: nat, j: nat | CanMerge(w, i, j) :: Pending(u.slots, i) && Pending(u.slots, j) && w.slots[i] == u.slots[i] && w.slots[j] == u.slots[j]
    ensures forall i: nat, j: nat | PairAt(u.slots, i, j, u.cum, hi) :: CanMerge(w, i, j)
  {
    assert forall k: nat :: Pending(w.slots, k) <==> Pending(u.slots, k);
    assert forall k: nat | Pending(u.slots, k) :: w.slots[k] == u.slots[k];
  }

  /** A FORWARD TSN that raises the cumulative TSN leaves a pair waiting exactly when the TSNs held behind
      it hold one: the program advances over them without merging. */
  lemma ForwardSettledIff(h: History, v: Receiver, newTsn: int, skips: seq<Stream>)
    requires HistoryOk(h) && TableOk(h, v) && Whole(h, v) && 0 <= newTsn && v.cum < newTsn < |h.chunks| && h.chunks[newTsn].end
    requires HandleForward(v, newTsn, skips).1 == Ok
    ensures Settled(HandleForward(v, newTsn, skips).0) <==> !PairBetween(v.slots, newTsn, DrainCum(v.slots, newTsn))
  {
    var u := ForwardStages(h, v, newTsn, skips);
    var hi := DrainCum(v.slots, newTsn);
    SameDrain(v.slots, u.slots, newTsn);
    DrainSettledIff(h, u);
    forall i: nat, j: nat ensures PairAt(v.slots, i, j, newTsn, hi) <==> PairAt(u.slots, i, j, newTsn, hi) {
      SamePair(v.slots, u.slots, i, j, newTsn, hi);
    }
  }

  /** Two fragments behind a gap, and a FORWARD TSN over the gap: both are acknowledged and wait apart. */
  lemma ForwardLeavesPair(c1: Chunk, c2: Chunk) returns (v: Receiver)
    requires c1.tsn == 1 && c2.tsn == 2 && c1.begin && Follows(Incoming(c1), Incoming(c2))
    requires |c1.payload| == MTU_PAYLOAD && |c2.payload| == 1
    ensures v == HandleData(HandleData(Receiver(-1, Tab(None, None, None), [], false), c2).0, c1).0
    ensures Settled(v) && HandleForward(v, 0, []).0.cum == 2 && !Settled(HandleForward(v, 0, []).0)
  {
    var x, y := Some(Incoming(c1)), Some(Incoming(c2));
    var w := Receiver(-1, Tab(None, None, y), [Stream(c2.sid, 0)], true);
    v := Receiver(-1, Tab(None, x, y), [Stream(c2.sid, 0)], true);
    FirstArrival(c2, w);
    ArrivesBelow(w, c1, Incoming(c2), v);
    ForwardOverGap(v, Incoming(c1), Incoming(c2));
  }

  lemma ForwardOverGap(v: Receiver, x: Entry, y: Entry)
    requires v == Receiver(-1, Tab(None, Some(x), Some(y)), v.streams, true)
    requires x.tsn == 1 && y.tsn == 2 && !x.delivered && !y.delivered && Follows(x, y)
    ensures Settled(v) && HandleForward(v, 0, []).0.cum == 2 && !Settled(HandleForward(v, 0, []).0)
  {
    var u, w := v.(cum := 0), v.(cum := 2);
    NothingToMerge(u);
    assert DiscardStranded(u.slots, 0) == u.slots;
    GapDrained(u, w);
    assert CanMerge(w, 6, 7);
  }

  lemma GapDrained(u: Receiver, w: Receiver)
    requires u.cum == 0 && w == u.(cum := 2) && |u.slots| == 8 && NoneDelivered(u.slots) && u.sackNeeded
    requires u.slots[6].Some? && u.slots[6].value.tsn == 1 && u.slots[7].Some? && u.slots[7].value.tsn == 2 && !Holds(u.slots, 3)
    ensures Drain(u) == w
  {
    DrainStops(u, 2);
    NothingToReclaim(w);
  }

  lemma ArrivesBelow(v: Receiver, c: Chunk, y: Entry, w: Receiver)
    requires v == Receiver(-1, Tab(None, None, Some(y)), [Stream(c.sid, 0)], true) && c.tsn == 1 && c.begin && |c.payload| == MTU_PAYLOAD
    requires y.tsn == 2 && !y.delivered && |y.data| == 1
    requires w == Receiver(-1, Tab(None, Some(Incoming(c)), Some(y)), [Stream(c.sid, 0)], true)
    ensures HandleData(v, c).0 == w
  {
    TabTotals(None, None, Some(y));
    TabFree(None, None, Some(y));
    assert Register([Stream(c.sid, 0)], c.sid) == [Stream(c.sid, 0)];
    assert v.slots[6 := Some(Incoming(c))] == w.slots;
    Stored(v, c, w);
    NothingToMerge(w);
  }

  // ----- the results -----

  /** In every reachable state without a waiting pair, the acknowledged part of a message whose front
      waits, `n` fragments from TSN `t0`, is all in that front, or else it is stuck. */
  lemma FrontOrStuck(x: System, f: nat) returns (t0: int, n: nat)
    requires Reachable(x) && FrontAt(x.rx, f) && Settled(x.rx)
    ensures Acknowledged(x.history, x.rx, f, t0, t0 + n - 1)
    ensures x.rx.slots[f].value.tsn == t0 + n - 1 <==> !Sticks(x.rx.slots, t0, n, f)
  {
    ReachableTable(x);
    var p, m;
    t0, n, p, m := PartOrStuck(x.history, x.rx, f);
    if Sticks(x.rx.slots, t0, n, f) {
      var s :| 0 <= s < |x.rx.slots| && StuckAt(x.rx.slots, t0, n, s, f);
      StuckIsApart(x.rx.slots, t0, n, s, f);
    } else if |p| > 1 {
      FrontCanMerge(x.rx, p, t0, m);
    }
  }

  /** Then the front holds it all, or the message is never delivered, unless a FORWARD TSN passes it. */
  lemma CollectedOrNeverDelivered(x: System, f: nat, steps: seq<Step>) returns (t0: int, n: nat)
    requires Reachable(x) && FrontAt(x.rx, f) && Settled(x.rx) && Runnable(x, steps)
    ensures Acknowledged(x.history, x.rx, f, t0, t0 + n - 1)
    ensures x.rx.slots[f].value.tsn != t0 + n - 1 && NoForwardPast(steps, t0 + n - 1) ==>
              var y := Run(x, steps);
              t0 < |y.history.owner| && exists from :: Explains(y, from) && y.history.owner[t0] !in from
  {
    t0, n := FrontOrStuck(x, f);
    if x.rx.slots[f].value.tsn != t0 + n - 1 && NoForwardPast(steps, t0 + n - 1) {
      var s :| 0 <= s < |x.rx.slots| && StuckAt(x.rx.slots, t0, n, s, f);
      StuckIsNeverDelivered(x, steps, t0, n, s, f);
    }
  }

  /** Every stored DATA chunk decides this. Before merging, the acknowledged part of a message whose front
      waits is stuck already or is a front and single fragments; and these collect in the front exactly
      when it sits below the middle ones. */
  lemma DataDecides(x: System, c: Chunk, d: Receiver, y: System, f: nat) returns (t0: int, n: nat, p: seq<nat>, m: nat)
    requires Reachable(x) && DataPacket(c) in x.net && Accepts(x.rx, c)
    requires d == BeforeMerging(x.rx, c) && y == Next(x, Arrive(DataPacket(c))) && FrontAt(d, f)
    ensures Acknowledged(x.history, d, f, t0, t0 + n - 1)
    ensures Sticks(d.slots, t0, n, f) || (Partly(d, p, t0, m) && p[0] == f && m + |p| == n)
    ensures !Sticks(d.slots, t0, n, f) ==>
              (Assembled(y.rx.slots, t0, n) <==> FrontFirst(p)) && (!FrontFirst(p) ==> Sticks(y.rx.slots, t0, n, f))
  {
    ReachableTable(x);
    DataIsGenuine(x, c);
    t0, n, p, m := StoredDecides(x.history, x.rx, c, d, f, y.rx);
  }

  lemma StoredDecides(h: History, v: Receiver, c: Chunk, d: Receiver, f: nat, w: Receiver) returns (t0: int, n: nat, p: seq<nat>, m: nat)
    requires HistoryOk(h) && TableOk(h, v) && Whole(h, v) && Accepts(v, c) && 0 <= c.tsn < |h.chunks| && c == h.chunks[c.tsn]
    requires d == BeforeMerging(v, c) && w == HandleData(v, c).0 && FrontAt(d, f)
    ensures Acknowledged(h, d, f, t0, t0 + n - 1)
    ensures Sticks(d.slots, t0, n, f) || (Partly(d, p, t0, m) && p[0] == f && m + |p| == n)
    ensures !Sticks(d.slots, t0, n, f) ==>
              (Assembled(w.slots, t0, n) <==> FrontFirst(p)) && (!FrontFirst(p) ==> Sticks(w.slots, t0, n, f))
  {
    StoredTable(h, v, c);
    MergeWhole(h, d, -1, w);
    t0, n, p, m := PartOrStuck(h, d, f);
    if !Sticks(d.slots, t0, n, f) { MergeCompletesIff(d, p, t0, m, w, n); }
  }
}
