/** Where acknowledged fragments are. Invariant Whole: an acknowledged TSN is covered by an
    undelivered descriptor, or its whole message is gone from the table. It holds in every
    reachable state, by ReachableWhole. */
module SctpWhole {
  import opened SctpTypes
  import opened SctpHistory
  import opened SctpReceiver
  import opened SctpDelivery
  import opened SctpDeliverStep
  import opened SctpSending
  import opened SctpSubmit
  import opened SctpSystem
  import opened SctpTheorems
  import opened SctpAcks
  import opened SctpMergeOrder
  import opened SctpStuck

  /** An undelivered descriptor covers TSN `t`. */
  predicate Covers(slots: Slots, t: int) {
    exists i | 0 <= i < |slots| :: Pending(slots, i) && InRange(slots, i, t)
  }

  /** TSN `t`, if acknowledged or marked delivered, waits in the table or left it with its whole message. */
  ghost predicate WholeAt(h: History, v: Receiver, t: int) {
    0 <= t < |h.owner| && Spent(v, t) ==> Covers(v.slots, t) || Taken(h, v, h.owner[t])
  }

  ghost predicate WholePast(h: History, v: Receiver, lo: int) {
    forall t | t > lo :: WholeAt(h, v, t)
  }

  ghost predicate Whole(h: History, v: Receiver) {
    WholePast(h, v, -1)
  }

  // ----- receiver steps -----

  /** Nothing new is spent uncovered, and what left the table stays out. */
  lemma WholeKept(h: History, v: Receiver, w: Receiver, lo: int)
    requires WholePast(h, v, lo)
    requires forall t | t > lo && Spent(w, t) :: Spent(v, t) || Covers(w.slots, t)
    requires forall t | Covers(v.slots, t) :: Covers(w.slots, t)
    requires forall m: nat | Taken(h, v, m) :: Taken(h, w, m)
    ensures WholePast(h, w, lo)
  {
    forall t | t > lo ensures WholeAt(h, w, t) {
      assert WholeAt(h, v, t);
    }
  }

  /** Only the table and the cumulative TSN matter. */
  lemma SameTable(h: History, v: Receiver, w: Receiver, lo: int)
    requires WholePast(h, v, lo) && w.slots == v.slots && w.cum == v.cum
    ensures WholePast(h, w, lo)
  {
    assert forall t :: Spent(w, t) <==> Spent(v, t);
    assert forall m: nat | Taken(h, v, m) :: Taken(h, w, m);
    WholeKept(h, v, w, lo);
  }

  /** Entries of `w` that wait were waiting in `v`. */
  lemma TakenKept(h: History, v: Receiver, w: Receiver)
    requires forall t | Spent(v, t) :: Spent(w, t)
    requires forall k | 0 <= k < |w.slots| && Pending(w.slots, k) :: k < |v.slots| && Pending(v.slots, k) && w.slots[k].value.tsn == v.slots[k].value.tsn
    ensures forall m: nat | Taken(h, v, m) :: Taken(h, w, m)
  {
    forall m: nat | Taken(h, v, m) ensures Taken(h, w, m) {
      forall t | h.accepted[m].first <= t <= h.accepted[m].last ensures Spent(w, t) {
        assert Spent(v, t);
      }
    }
  }

  lemma ReclaimWhole(h: History, v: Receiver, lo: int)
    requires WholePast(h, v, lo)
    ensures WholePast(h, Reclaim(v), lo)
  {
    var w := Reclaim(v);
    assert forall i | 0 <= i < |v.slots| :: w.slots[i] == Reclaimed(v.slots[i], v.cum);
    assert Fades(v, w);
    FadePending(v, w);
    TakenKept(h, v, w);
    forall t | Covers(v.slots, t) ensures Covers(w.slots, t) {
      var i :| 0 <= i < |v.slots| && Pending(v.slots, i) && InRange(v.slots, i, t);
      assert Pending(w.slots, i) && InRange(w.slots, i, t);
    }
    forall t | Spent(w, t) ensures Spent(v, t) {
      if t > v.cum {
        var i :| 0 <= i < |w.slots| && w.slots[i].Some? && w.slots[i].value.delivered && w.slots[i].value.tsn == t;
        assert v.slots[i].Some?;
      }
    }
    WholeKept(h, v, w, lo);
  }

  /** A held TSN waits in the table or was spent before. */
  lemma HeldIsCovered(h: History, v: Receiver, t: int)
    requires TableOk(h, v) && Holds(v.slots, t)
    ensures Spent(v, t) || Covers(v.slots, t)
  {
    var i :| 0 <= i < |v.slots| && v.slots[i].Some? && v.slots[i].value.tsn == t;
    assert EntryOk(h, v.cum, v.slots[i].value);
    if !v.slots[i].value.delivered { assert Pending(v.slots, i) && InRange(v.slots, i, t); }
  }

  lemma RaiseWhole(h: History, v: Receiver, cum: int, lo: int)
    requires TableOk(h, v) && WholePast(h, v, lo) && v.cum <= cum
    requires forall t | v.cum < t <= cum && t > lo :: Holds(v.slots, t)
    ensures WholePast(h, v.(cum := cum), lo)
  {
    var w := v.(cum := cum);
    TakenKept(h, v, w);
    forall t | t > lo && Spent(w, t) ensures Spent(v, t) || Covers(w.slots, t) {
      if v.cum < t <= cum { HeldIsCovered(h, v, t); }
    }
    WholeKept(h, v, w, lo);
  }

  lemma DrainWhole(h: History, v: Receiver, lo: int)
    requires TableOk(h, v) && WholePast(h, v, lo)
    ensures WholePast(h, Drain(v), lo)
  {
    var cum := DrainCum(v.slots, v.cum);
    RaiseWhole(h, v, cum, lo);
    ReclaimWhole(h, v.(cum := cum), lo);
  }

  /** A chunk that is not acknowledged yet belongs to a message that has not left the table. */
  lemma AdmitTaken(h: History, v: Receiver, c: Chunk, w: Receiver, m: nat)
    requires HistoryOk(h) && v.cum < c.tsn < |h.chunks| && 0 <= c.tsn && c == h.chunks[c.tsn] && !Holds(v.slots, c.tsn)
    requires LastFree(v.slots, |v.slots|) < |v.slots| && w == Admit(v, Incoming(c))
    requires Taken(h, v, m)
    ensures Taken(h, w, m)
  {
    var s := LastFree(v.slots, |v.slots|);
    forall t | h.accepted[m].first <= t <= h.accepted[m].last ensures Spent(w, t) {
      assert Spent(v, t);
      SpentKept(v, w);
    }
    assert ChunkOk(h.accepted[h.owner[c.tsn]], c, c.tsn);
    assert !Spent(v, c.tsn);
    forall k | 0 <= k < |w.slots| && Pending(w.slots, k)
      ensures 0 <= w.slots[k].value.tsn < |h.owner| && h.owner[w.slots[k].value.tsn] != m
    {
      assert k != s ==> Pending(v.slots, k);
    }
  }

  lemma AdmitWhole(h: History, v: Receiver, c: Chunk, w: Receiver)
    requires HistoryOk(h) && Whole(h, v)
    requires v.cum < c.tsn < |h.chunks| && 0 <= c.tsn && c == h.chunks[c.tsn] && !Holds(v.slots, c.tsn)
    requires LastFree(v.slots, |v.slots|) < |v.slots| && w == Admit(v, Incoming(c))
    ensures Whole(h, w)
  {
    var s := LastFree(v.slots, |v.slots|);
    forall m: nat | Taken(h, v, m) ensures Taken(h, w, m) { AdmitTaken(h, v, c, w, m); }
    forall t | Covers(v.slots, t) ensures Covers(w.slots, t) {
      var i :| 0 <= i < |v.slots| && Pending(v.slots, i) && InRange(v.slots, i, t);
      assert Pending(w.slots, i) && InRange(w.slots, i, t);
    }
    forall t | Spent(w, t) ensures Spent(v, t) {
      if t > v.cum {
        var i :| 0 <= i < |w.slots| && w.slots[i].Some? && w.slots[i].value.delivered && w.slots[i].value.tsn == t;
        assert i != s;
        assert v.slots[i].Some?;
      }
    }
    WholeKept(h, v, w, -1);
  }

  lemma MergeAtTaken(h: History, v: Receiver, i: nat, j: nat, w: Receiver, m: nat)
    requires HistoryOk(h) && TableOk(h, v) && CanMerge(v, i, j) && i != j && w == v.(slots := MergeAt(v.slots, i, j))
    requires Taken(h, v, m)
    ensures Taken(h, w, m)
  {
    SpentKept(v, w);
    forall t | h.accepted[m].first <= t <= h.accepted[m].last ensures Spent(w, t) {
      assert Spent(v, t);
    }
    forall k | 0 <= k < |w.slots| && Pending(w.slots, k)
      ensures 0 <= w.slots[k].value.tsn < |h.owner| && h.owner[w.slots[k].value.tsn] != m
    {
      assert Pending(v.slots, if k == i then j else k);
    }
  }

  lemma MergeAtCovers(h: History, v: Receiver, i: nat, j: nat, w: Slots, t: int)
    requires HistoryOk(h) && TableOk(h, v) && CanMerge(v, i, j) && w == MergeAt(v.slots, i, j)
    requires Covers(v.slots, t)
    ensures Covers(w, t)
  {
    FollowerIsSingle(h, v, i, j);
    assert EntryOk(h, v.cum, v.slots[i].value);
    MergedCovers(v.slots, i, j, w, t);
  }

  lemma MergedCovers(slots: Slots, i: nat, j: nat, w: Slots, t: int)
    requires Pending(slots, i) && Pending(slots, j) && i != j && w == MergeAt(slots, i, j) && Covers(slots, t)
    requires slots[i].value.first <= slots[i].value.tsn && slots[j].value.first == slots[j].value.tsn == slots[i].value.tsn + 1
    ensures Covers(w, t)
  {
    var k :| 0 <= k < |slots| && Pending(slots, k) && InRange(slots, k, t);
    var l := if k == j then i else k;
    assert Pending(w, l) && InRange(w, l, t);
  }

  lemma MergeAtWhole(h: History, v: Receiver, i: nat, j: nat, w: Receiver, lo: int)
    requires HistoryOk(h) && TableOk(h, v) && WholePast(h, v, lo) && CanMerge(v, i, j) && i != j
    requires w == v.(slots := MergeAt(v.slots, i, j))
    ensures WholePast(h, w, lo)
  {
    forall m: nat | Taken(h, v, m) ensures Taken(h, w, m) { MergeAtTaken(h, v, i, j, w, m); }
    forall t | Covers(v.slots, t) ensures Covers(w.slots, t) { MergeAtCovers(h, v, i, j, w.slots, t); }
    forall t | Spent(w, t) ensures Spent(v, t) {
      if t > v.cum {
        var k :| 0 <= k < |w.slots| && w.slots[k].Some? && w.slots[k].value.delivered && w.slots[k].value.tsn == t;
        assert k != i && k != j;
        assert v.slots[k] == w.slots[k];
      }
    }
    WholeKept(h, v, w, lo);
  }

  /** Merging never fails on fragments of accepted messages, and leaves no pair. */
  lemma {:induction false} MergeWhole(h: History, v: Receiver, lo: int, w: Receiver)
    requires HistoryOk(h) && TableOk(h, v) && WholePast(h, v, lo) && w == Merge(v).0
    ensures Merge(v).1 == Ok && TableOk(h, w) && WholePast(h, w, lo) && w.cum == v.cum && Settled(w)
    decreases CountHeld(v.slots)
  {
    match FirstPair(v, 0, 0)
    case None =>
      forall i: nat, j: nat | i < |v.slots| && j < |v.slots| ensures !CanMerge(v, i, j) { NoPairLeft(v, 0, 0, i, j); }
    case Some((i, j)) =>
      var u := v.(slots := MergeAt(v.slots, i, j));
      MergedFits(h, v, i, j);
      MergeAtKeepsTable(h, v, i, j);
      MergeAtWhole(h, v, i, j, u, lo);
      CountHeldMergeAt(v.slots, i, j);
      MergeWhole(h, u, lo, w);
  }

  lemma MergedFits(h: History, v: Receiver, i: nat, j: nat)
    requires HistoryOk(h) && TableOk(h, v) && CanMerge(v, i, j)
    ensures i != j && |v.slots[i].value.data| + |v.slots[j].value.data| <= MAX_MESSAGE_SIZE
  {
    FollowerIsSingle(h, v, i, j);
    MergedOk(h, v, i, j);
    PartFits(h, v.slots[i].value.first, v.slots[j].value.tsn);
  }

  lemma ReclaimedTable(h: History, v: Receiver)
    requires TableOk(h, v)
    ensures TableOk(h, Reclaim(v))
  {
    assert forall i | 0 <= i < |v.slots| :: Reclaim(v).slots[i] == Reclaimed(v.slots[i], v.cum);
    FadeKeepsTable(h, v, Reclaim(v));
  }

  lemma DrainedTable(h: History, v: Receiver)
    requires TableOk(h, v)
    ensures TableOk(h, Drain(v))
  {
    var cum := DrainCum(v.slots, v.cum);
    if v.cum < cum { assert Holds(v.slots, cum); }
    ReclaimedTable(h, v.(cum := cum));
  }

  lemma AdmittedTable(h: History, v: Receiver, c: Chunk, d: Receiver)
    requires HistoryOk(h) && TableOk(h, v) && Whole(h, v)
    requires v.cum < c.tsn < |h.chunks| && 0 <= c.tsn && c == h.chunks[c.tsn] && !Holds(v.slots, c.tsn)
    requires LastFree(v.slots, |v.slots|) < |v.slots| && d == Drain(Admit(v, Incoming(c)))
    ensures TableOk(h, d) && Whole(h, d)
  {
    var u := Admit(v, Incoming(c));
    AdmitKeepsTable(h, v, c);
    AdmitWhole(h, v, c, u);
    DrainWhole(h, u, -1);
    DrainedTable(h, u);
  }

  lemma DataWhole(h: History, v: Receiver, c: Chunk, w: Receiver)
    requires HistoryOk(h) && TableOk(h, v) && Whole(h, v) && 0 <= c.tsn < |h.chunks| && c == h.chunks[c.tsn]
    requires w == HandleData(v, c).0
    ensures Whole(h, w)
  {
    var v1 := v.(sackNeeded := true);
    SameTable(h, v, v1, -1);
    if |c.payload| <= MAX_MESSAGE_SIZE && c.tsn > v1.cum {
      ReclaimedTable(h, v1);
      ReclaimWhole(h, v1, -1);
      FreshShape(Reclaim(v1), c, w);
      if w != Reclaim(v1) {
        var d := Drain(Admit(Reclaim(v1), Incoming(c)));
        AdmittedTable(h, Reclaim(v1), c, d);
        MergeWhole(h, d, -1, w);
      }
    }
  }

  // ----- delivering -----

  /** An entry's fragments belong to the message of its last one. */
  lemma EntryOwner(h: History, cum: int, e: Entry, t: int)
    requires HistoryOk(h) && EntryOk(h, cum, e) && e.first <= t <= e.tsn
    ensures 0 <= t < |h.owner| && h.owner[t] == h.owner[e.tsn]
  {
    assert h.owner[e.first] <= h.owner[t] <= h.owner[e.tsn];
  }

  /** Between two TSNs of a message there are only its own. */
  lemma BetweenOwner(h: History, lo: int, t: int, hi: int)
    requires HistoryOk(h) && 0 <= lo <= t <= hi < |h.owner| && h.owner[lo] == h.owner[hi]
    ensures h.owner[t] == h.owner[lo]
  {
    assert h.owner[lo] <= h.owner[t] <= h.owner[hi];
  }

  /** The TSNs of the parts run from that of the first part to that of the last. */
  lemma PartTsn(slots: Slots, i: nat, parts: seq<nat>, k: nat)
    requires Pending(slots, i) && Assemble(slots, slots[i].value.tsn, []) == Complete(parts) && k < |parts|
    ensures AllHeld(slots, parts)
    ensures slots[i].value.tsn <= slots[parts[k]].value.tsn <= slots[parts[|parts| - 1]].value.tsn
  {
    var base := slots[i].value.tsn;
    AssembleTsns(slots, base, []);
    assert slots[parts[k]].value.tsn == base + k && slots[parts[|parts| - 1]].value.tsn == base + (|parts| - 1);
  }

  /** The last part ends the message of the first. */
  lemma LastPart(h: History, v: Receiver, i: nat, parts: seq<nat>) returns (last: int)
    requires HistoryOk(h) && TableOk(h, v) && Pending(v.slots, i) && v.slots[i].value.begin
    requires Assemble(v.slots, v.slots[i].value.tsn, []) == Complete(parts)
    ensures parts != [] && AllHeld(v.slots, parts) && last == v.slots[parts[|parts| - 1]].value.tsn
    ensures 0 <= v.slots[i].value.tsn <= last < |h.owner| && h.owner[last] == h.owner[v.slots[i].value.tsn]
  {
    AssembleMessage(h, v, i, parts);
    PartTsn(v.slots, i, parts, |parts| - 1);
    var m := h.owner[v.slots[i].value.tsn];
    last := h.accepted[m].last;
    assert MessageOk(h, m);
    assert h.accepted[m].first <= last <= h.accepted[m].last;
  }

  /** The parts of a delivered message hold its fragments and no others. */
  lemma PartIsOwned(h: History, v: Receiver, i: nat, parts: seq<nat>, k: nat, t: int)
    requires HistoryOk(h) && TableOk(h, v) && Pending(v.slots, i) && v.slots[i].value.begin
    requires Assemble(v.slots, v.slots[i].value.tsn, []) == Complete(parts) && k < |parts|
    requires InRange(v.slots, parts[k], t)
    ensures 0 <= t < |h.owner| && 0 <= v.slots[i].value.tsn < |h.owner| && h.owner[t] == h.owner[v.slots[i].value.tsn]
  {
    var last := LastPart(h, v, i, parts);
    PartTsn(v.slots, i, parts, k);
    var e := v.slots[parts[k]].value;
    BetweenOwner(h, v.slots[i].value.tsn, e.tsn, last);
    EntryOwner(h, v.cum, e, t);
  }

  lemma MarkedWhole(h: History, v: Receiver, i: nat, parts: seq<nat>, u: Receiver)
    requires HistoryOk(h) && TableOk(h, v) && Whole(h, v) && Pending(v.slots, i) && v.slots[i].value.begin
    requires Assemble(v.slots, v.slots[i].value.tsn, []) == Complete(parts) && u == v.(slots := MarkDelivered(v.slots, parts))
    requires 0 <= v.slots[i].value.tsn < |h.owner| && Taken(h, u, h.owner[v.slots[i].value.tsn])
    ensures Whole(h, u)
  {
    var m := h.owner[v.slots[i].value.tsn];
    assert Fades(v, u);
    FadePending(v, u);
    TakenKept(h, v, u);
    forall t | t > -1 ensures WholeAt(h, u, t) {
      if 0 <= t < |h.owner| && Spent(u, t) && h.owner[t] != m {
        MarkedElsewhere(h, v, i, parts, u, t);
        assert WholeAt(h, v, t);
      }
    }
  }

  lemma MarkedElsewhere(h: History, v: Receiver, i: nat, parts: seq<nat>, u: Receiver, t: int)
    requires HistoryOk(h) && TableOk(h, v) && Pending(v.slots, i) && v.slots[i].value.begin
    requires Assemble(v.slots, v.slots[i].value.tsn, []) == Complete(parts) && u == v.(slots := MarkDelivered(v.slots, parts))
    requires 0 <= t < |h.owner| && 0 <= v.slots[i].value.tsn < |h.owner| && h.owner[t] != h.owner[v.slots[i].value.tsn]
    requires Spent(u, t)
    ensures Spent(v, t)
    ensures Covers(v.slots, t) ==> Covers(u.slots, t)
  {
    forall k | 0 <= k < |parts| ensures !InRange(v.slots, parts[k], t) {
      if InRange(v.slots, parts[k], t) { PartIsOwned(h, v, i, parts, k, t); }
    }
    if t > v.cum {
      var k :| 0 <= k < |u.slots| && u.slots[k].Some? && u.slots[k].value.delivered && u.slots[k].value.tsn == t;
      assert EntryOk(h, v.cum, v.slots[k].value);
      assert InRange(v.slots, k, t);
    }
    if Covers(v.slots, t) {
      var k :| 0 <= k < |v.slots| && Pending(v.slots, k) && InRange(v.slots, k, t);
      assert k !in parts;
      assert Pending(u.slots, k) && InRange(u.slots, k, t);
    }
  }

  /** What a delivery scan does to the table: nothing, or it marks the parts of one message delivered. */
  lemma {:induction false} PollShape(v: Receiver, i: nat, r: (Receiver, Status, Option<Message>)) returns (k: nat, parts: seq<nat>)
    requires i <= |v.slots| && r == PollFrom(v, i)
    ensures r.0.cum == v.cum
    ensures r.0.slots == v.slots ||
            (Pending(v.slots, k) && v.slots[k].value.begin && Assemble(v.slots, v.slots[k].value.tsn, []) == Complete(parts) &&
             AllHeld(v.slots, parts) && r.0.slots == MarkDelivered(v.slots, parts))
    decreases |v.slots| - i
  {
    k, parts := i, [];
    if i < |v.slots| {
      var w, a := PollTurn(v, i, r);
      match a
      case Incomplete => k, parts := PollShape(w, i + 1, r);
      case Broken(_) =>
      case Complete(all) => parts := all;
    }
  }

  lemma PollWhole(h: History, skippable: set<nat>, v: Receiver, log: seq<nat>)
    requires ReceiverOk(h, skippable, v, log) && Whole(h, v)
    ensures Whole(h, PollDelivery(v).0)
  {
    ReclaimKeeps(h, skippable, v, log);
    ReclaimWhole(h, v, -1);
    PolledWhole(h, skippable, Reclaim(v), log, PollFrom(Reclaim(v), 0));
  }

  lemma PolledWhole(h: History, skippable: set<nat>, v: Receiver, log: seq<nat>, r: (Receiver, Status, Option<Message>))
    requires ReceiverOk(h, skippable, v, log) && Whole(h, v) && r == PollFrom(v, 0)
    ensures Whole(h, r.0)
  {
    var k, parts := PollShape(v, 0, r);
    if r.0.slots == v.slots {
      SameTable(h, v, r.0, -1);
    } else {
      var u := v.(slots := MarkDelivered(v.slots, parts));
      AssembleMessage(h, v, k, parts);
      MarkedIsTaken(h, skippable, v, log, parts, h.owner[v.slots[k].value.tsn]);
      MarkedWhole(h, v, k, parts, u);
      SameTable(h, u, r.0, -1);
    }
  }

  // ----- FORWARD TSN -----

  /** Discarding leaves a message that ends at or before `newTsn` either whole or out of the table. */
  lemma DiscardedAt(h: History, v: Receiver, newTsn: int, w: Receiver, t: int)
    requires HistoryOk(h) && TableOk(h, v) && newTsn <= v.cum && 0 <= newTsn < |h.chunks| && h.chunks[newTsn].end
    requires w == v.(slots := DiscardStranded(v.slots, newTsn)) && 0 <= t <= newTsn
    ensures WholeAt(h, w, t)
  {
    var m := h.owner[t];
    var a := h.accepted[m];
    assert ChunkOk(a, h.chunks[t], t);
    EndsBy(h, t, newTsn);
    if k :| 0 <= k < |w.slots| && Pending(w.slots, k) && 0 <= w.slots[k].value.tsn < |h.owner| && h.owner[w.slots[k].value.tsn] == m {
      var e := v.slots[k].value;
      assert EntryOk(h, v.cum, e);
      assert ChunkOk(a, h.chunks[e.tsn], e.tsn) && ChunkOk(a, h.chunks[e.first], e.first);
      assert Pending(w.slots, k) && InRange(w.slots, k, t);
    } else {
      forall k | 0 <= k < |w.slots| && Pending(w.slots, k)
        ensures 0 <= w.slots[k].value.tsn < |h.owner| && h.owner[w.slots[k].value.tsn] != m
      {
        assert EntryOk(h, v.cum, v.slots[k].value);
      }
    }
  }

  /** A message with a TSN at or before a message end ends there or earlier. */
  lemma EndsBy(h: History, t: int, u: int)
    requires HistoryOk(h) && 0 <= t <= u < |h.chunks| && h.chunks[u].end
    ensures h.accepted[h.owner[t]].last <= u
  {
    var m := h.owner[t];
    var a := h.accepted[m];
    assert MessageOk(h, m) && ChunkOk(a, h.chunks[t], t);
    assert ChunkOk(h.accepted[h.owner[u]], h.chunks[u], u);
    assert a.first <= u <= a.last ==> h.owner[u] == m;
  }

  lemma DiscardWhole(h: History, v: Receiver, newTsn: int, w: Receiver)
    requires HistoryOk(h) && TableOk(h, v) && newTsn <= v.cum && 0 <= newTsn < |h.chunks| && h.chunks[newTsn].end
    requires WholePast(h, v, newTsn) && w == v.(slots := DiscardStranded(v.slots, newTsn))
    ensures Whole(h, w)
  {
    assert Fades(v, w);
    FadePending(v, w);
    TakenKept(h, v, w);
    forall t | t > -1 ensures WholeAt(h, w, t) {
      if t <= newTsn {
        DiscardedAt(h, v, newTsn, w, t);
      } else {
        assert WholeAt(h, v, t);
        DiscardSpares(v, newTsn, w, t);
      }
    }
  }

  lemma DiscardSpares(v: Receiver, newTsn: int, w: Receiver, t: int)
    requires newTsn <= v.cum && w == v.(slots := DiscardStranded(v.slots, newTsn)) && t > newTsn
    ensures Spent(w, t) ==> Spent(v, t)
    ensures Covers(v.slots, t) ==> Covers(w.slots, t)
  {
    if t > v.cum && Spent(w, t) {
      var k :| 0 <= k < |w.slots| && w.slots[k].Some? && w.slots[k].value.delivered && w.slots[k].value.tsn == t;
      assert v.slots[k] == w.slots[k];
    }
    if Covers(v.slots, t) {
      var k :| 0 <= k < |v.slots| && Pending(v.slots, k) && InRange(v.slots, k, t);
      assert Pending(w.slots, k) && InRange(w.slots, k, t);
    }
  }

  lemma MarkWhole(h: History, v: Receiver, sid: nat, ssn: nat, w: Receiver)
    requires Whole(h, v) && w.cum == v.cum && w.slots == MarkForwarded(v.slots, sid, ssn)
    ensures Whole(h, w)
  {
    forall t ensures Spent(w, t) <==> Spent(v, t) {
      if t > v.cum && Spent(w, t) {
        var k :| 0 <= k < |w.slots| && w.slots[k].Some? && w.slots[k].value.delivered && w.slots[k].value.tsn == t;
        assert v.slots[k].Some?;
      }
      if t > v.cum && Spent(v, t) {
        var k :| 0 <= k < |v.slots| && v.slots[k].Some? && v.slots[k].value.delivered && v.slots[k].value.tsn == t;
        assert w.slots[k].Some?;
      }
    }
    TakenKept(h, v, w);
    forall t | Covers(v.slots, t) ensures Covers(w.slots, t) {
      var k :| 0 <= k < |v.slots| && Pending(v.slots, k) && InRange(v.slots, k, t);
      assert Pending(w.slots, k) && InRange(w.slots, k, t);
    }
    WholeKept(h, v, w, -1);
  }

  lemma {:induction false} ReleaseWhole(h: History, v: Receiver, skips: seq<Stream>, w: Receiver)
    requires TableOk(h, v) && Whole(h, v) && w == ReleaseStreams(v, skips).0
    ensures TableOk(h, w) && Whole(h, w)
    decreases |skips|
  {
    if skips != [] {
      var s := skips[0];
      var u := v.(streams := Register(v.streams, s.sid));
      SameTable(h, v, u, -1);
      if Known(u.streams, s.sid) {
        if s.ssn < SsnOf(u.streams, s.sid) {
          ReleaseWhole(h, u, skips[1..], w);
        } else {
          var r := u.(slots := MarkForwarded(u.slots, s.sid, s.ssn), streams := SetSsn(u.streams, s.sid, s.ssn + 1));
          SkipKeepsTable(h, u, r, s);
          MarkWhole(h, u, s.sid, s.ssn, r);
          ReleaseWhole(h, r, skips[1..], w);
        }
      }
    }
  }

  lemma ForwardWhole(h: History, v: Receiver, newTsn: int, skips: seq<Stream>, w: Receiver)
    requires HistoryOk(h) && TableOk(h, v) && Whole(h, v) && 0 <= newTsn < |h.chunks| && h.chunks[newTsn].end
    requires w == HandleForward(v, newTsn, skips).0
    ensures Whole(h, w)
  {
    var v1 := v.(sackNeeded := true);
    SameTable(h, v, v1, -1);
    if newTsn > v1.cum {
      var u := v1.(cum := newTsn);
      assert forall t | t > newTsn :: WholeAt(h, v1, t) by { assert WholePast(h, v1, -1); }
      RaiseWhole(h, v1, newTsn, newTsn);
      MergeWhole(h, u, newTsn, Merge(u).0);
      var v2 := Merge(u).0;
      var v3 := v2.(slots := DiscardStranded(v2.slots, newTsn));
      DiscardWhole(h, v2, newTsn, v3);
      FadeKeepsTable(h, v2, v3);
      var v4 := ReleaseStreams(v3, skips).0;
      ReleaseWhole(h, v3, skips, v4);
      DrainWhole(h, v4, -1);
    }
  }

  // ----- a growing history, and runs -----

  lemma ExtendWhole(h: History, g: History, v: Receiver)
    requires HistoryOk(h) && HistoryOk(g) && Extends(h, g) && TableOk(h, v) && Whole(h, v)
    ensures Whole(g, v)
  {
    forall t | t > -1 ensures WholeAt(g, v, t) {
      if 0 <= t < |g.owner| && Spent(v, t) {
        SpentIsKnown(h, v, t);
        assert WholeAt(h, v, t);
        assert g.owner[..|h.owner|][t] == h.owner[t];
        if Taken(h, v, h.owner[t]) { ExtendTaken(h, g, v, h.owner[t]); }
      }
    }
  }

  lemma SpentIsKnown(h: History, v: Receiver, t: int)
    requires TableOk(h, v) && Spent(v, t)
    ensures t < |h.chunks|
  {
    if t > v.cum {
      var i :| 0 <= i < |v.slots| && v.slots[i].Some? && v.slots[i].value.delivered && v.slots[i].value.tsn == t;
      assert EntryOk(h, v.cum, v.slots[i].value);
    }
  }

  lemma ExtendTaken(h: History, g: History, v: Receiver, m: nat)
    requires HistoryOk(h) && HistoryOk(g) && Extends(h, g) && Taken(h, v, m)
    ensures Taken(g, v, m)
  {
    MessageKept(h, g, m);
    forall i | 0 <= i < |v.slots| && Pending(v.slots, i)
      ensures 0 <= v.slots[i].value.tsn < |g.owner| && g.owner[v.slots[i].value.tsn] != m
    {
      assert g.owner[..|h.owner|][v.slots[i].value.tsn] == h.owner[v.slots[i].value.tsn];
    }
  }

  lemma StepWhole(x: System, step: Step, abandoned: set<nat>, log: seq<nat>)
    requires Inv(x, abandoned, log) && Enabled(x, step) && Whole(x.history, x.rx)
    ensures Whole(Next(x, step).history, Next(x, step).rx)
  {
    match step {
      case Submit(r) =>
        SubmitKeeps(x.history, abandoned, x.tx, r);
        ExtendWhole(x.history, Next(x, step).history, x.rx);
      case Arrive(DataPacket(c)) =>
        assert PacketOk(x, abandoned, DataPacket(c));
        DataWhole(x.history, x.rx, c, Next(x, step).rx);
      case Arrive(ForwardPacket(newTsn, skips)) =>
        assert PacketOk(x, abandoned, ForwardPacket(newTsn, skips));
        ForwardWhole(x.history, x.rx, newTsn, skips, Next(x, step).rx);
      case Poll =>
        PolledIsNext(x);
        PollWhole(x.history, Skippable(x.history, abandoned), x.rx, log);
      case _ =>
        SameTable(x.history, x.rx, Next(x, step).rx, -1);
    }
  }

  lemma {:induction false} RunWhole(x: System, steps: seq<Step>, abandoned: set<nat>, log: seq<nat>)
    requires Inv(x, abandoned, log) && Runnable(x, steps) && Whole(x.history, x.rx)
    ensures Whole(Run(x, steps).history, Run(x, steps).rx)
    decreases |steps|
  {
    if steps != [] {
      StepWhole(x, steps[0], abandoned, log);
      var more, longer := StepKeeps(x, steps[0], abandoned, log);
      RunWhole(Next(x, steps[0]), steps[1..], more, longer);
    }
  }

  /** In every reachable state. */
  lemma ReachableWhole(x: System)
    requires Reachable(x)
    ensures Whole(x.history, x.rx)
  {
    var peerForward: bool, peerMax: nat, now: nat, rto: nat, steps: seq<Step> :| Leads(peerForward, peerMax, now, rto, steps, x);
    InitialInv(peerForward, peerMax, now, rto);
    RunWhole(Initial(peerForward, peerMax, now, rto), steps, {}, []);
  }

  lemma ReachableTable(x: System)
    requires Reachable(x)
    ensures HistoryOk(x.history) && TableOk(x.history, x.rx) && Whole(x.history, x.rx)
  {
    var abandoned, log := ReachableInv(x);
    ReachableWhole(x);
  }

  lemma DataIsGenuine(x: System, c: Chunk)
    requires Reachable(x) && DataPacket(c) in x.net
    ensures 0 <= c.tsn < |x.history.chunks| && c == x.history.chunks[c.tsn]
  {
    var abandoned, log := ReachableInv(x);
    assert PacketOk(x, abandoned, DataPacket(c));
  }
}
