/** Invariants of the receiver against the sender's history, and the proof that
    every receiver operation keeps them. `log` lists the accepted messages that
    were delivered, in delivery order; `skippable` holds the streams on which
    the sender has abandoned an ordered message. */
module SctpDelivery {
  import opened SctpTypes
  import opened SctpHistory
  import opened SctpReceiver

  /** An entry holds exactly the sender's fragments first..tsn of one message. */
  predicate EntryOk(h: History, cum: int, e: Entry) {
    && |h.owner| == |h.chunks|
    && 0 <= e.first <= e.tsn < |h.chunks| && h.owner[e.first] == h.owner[e.tsn]
    && e.sid == h.chunks[e.tsn].sid && e.ssn == h.chunks[e.tsn].ssn
    && e.ppid == h.chunks[e.tsn].ppid && e.unordered == h.chunks[e.tsn].unordered
    && e.begin == h.chunks[e.first].begin && e.end == h.chunks[e.tsn].end
    && (!e.delivered ==> e.data == Payloads(h.chunks, e.first, e.tsn + 1))
    && (e.tsn > cum ==> e.first == e.tsn)
    && (e.forwarded ==> !e.unordered)
  }

  predicate Apart(a: Entry, b: Entry) {
    a.tsn < b.first || b.tsn < a.first
  }

  ghost predicate TableOk(h: History, v: Receiver) {
    && v.cum < |h.chunks|
    && (forall i | 0 <= i < |v.slots| && v.slots[i].Some? :: EntryOk(h, v.cum, v.slots[i].value))
    && (forall i, j | 0 <= i < j < |v.slots| && v.slots[i].Some? && v.slots[j].Some? ::
          Apart(v.slots[i].value, v.slots[j].value))
  }

  /** TSN `t` needs no further reception: it is acknowledged or marked delivered. */
  predicate Spent(v: Receiver, t: int) {
    t <= v.cum || exists i | 0 <= i < |v.slots| :: v.slots[i].Some? && v.slots[i].value.delivered && v.slots[i].value.tsn == t
  }

  ghost predicate LogOk(h: History, v: Receiver, log: seq<nat>) {
    && |h.owner| == |h.chunks|
    && (forall k | 0 <= k < |log| :: log[k] < |h.accepted|)
    && (forall j, k | 0 <= j < k < |log| :: log[j] != log[k])
    && (forall k, t | 0 <= k < |log| && h.accepted[log[k]].first <= t <= h.accepted[log[k]].last :: Spent(v, t))
    && (forall i | 0 <= i < |v.slots| && Pending(v.slots, i) ::
          0 <= v.slots[i].value.tsn < |h.owner| && h.owner[v.slots[i].value.tsn] !in log)
  }

  /** Message `m` is ordered and of stream `sid`. */
  predicate OnStream(h: History, m: nat, sid: nat) {
    m < |h.accepted| && !h.accepted[m].unordered && h.accepted[m].sid == sid
  }

  /** Ordered deliveries on stream `sid`, in delivery order. */
  function LogOn(h: History, log: seq<nat>, sid: nat): seq<nat> {
    if log == [] then []
    else
      var n := |log| - 1;
      LogOn(h, log[..n], sid) + if OnStream(h, log[n], sid) then [log[n]] else []
  }

  /** Where a pending ordered entry stands relative to its stream's sequence numbers. */
  ghost predicate PlaceOk(h: History, skippable: set<nat>, streams: seq<Stream>, log: seq<nat>, e: Entry) {
    if e.forwarded then
      && e.ssn < SsnOf(streams, e.sid) && e.sid in skippable
      && forall k | 0 <= k < |log| && OnStream(h, log[k], e.sid) :: h.accepted[log[k]].ssn < e.ssn
    else SsnOf(streams, e.sid) <= e.ssn
  }

  /** A message below its stream's next sequence number is delivered or was skipped. */
  predicate PassedOk(h: History, v: Receiver, log: seq<nat>, m: nat)
    requires m < |h.accepted|
  {
    !h.accepted[m].unordered && h.accepted[m].ssn < SsnOf(v.streams, h.accepted[m].sid) ==>
      m in log || h.accepted[m].last <= v.cum
  }

  predicate LoggedOk(h: History, streams: seq<Stream>, m: nat)
    requires m < |h.accepted|
  {
    !h.accepted[m].unordered ==> h.accepted[m].ssn < SsnOf(streams, h.accepted[m].sid)
  }

  /** A stream's next sequence number never exceeds the number of its accepted messages. */
  predicate BoundOk(h: History, streams: seq<Stream>, sid: nat) {
    SsnOf(streams, sid) <= |OrderedOn(h.accepted, sid)|
  }

  /** Without a skip, a stream's deliveries are exactly its first messages. */
  predicate PrefixOk(h: History, streams: seq<Stream>, log: seq<nat>, sid: nat) {
    && SsnOf(streams, sid) <= |OrderedOn(h.accepted, sid)|
    && LogOn(h, log, sid) == OrderedOn(h.accepted, sid)[..SsnOf(streams, sid)]
  }

  ghost predicate StreamsOk(h: History, skippable: set<nat>, v: Receiver, log: seq<nat>) {
    && (forall k | 0 <= k < |log| :: log[k] < |h.accepted| && LoggedOk(h, v.streams, log[k]))
    && (forall i | 0 <= i < |v.slots| && Pending(v.slots, i) && !v.slots[i].value.unordered ::
          PlaceOk(h, skippable, v.streams, log, v.slots[i].value))
    && (forall m | 0 <= m < |h.accepted| :: PassedOk(h, v, log, m))
    && (forall j, k, sid | 0 <= j < k < |log| && OnStream(h, log[j], sid) && OnStream(h, log[k], sid) :: log[j] < log[k])
    && (forall sid: nat :: BoundOk(h, v.streams, sid))
    && (forall sid: nat | sid !in skippable :: PrefixOk(h, v.streams, log, sid))
  }

  ghost predicate ReceiverOk(h: History, skippable: set<nat>, v: Receiver, log: seq<nat>) {
    HistoryOk(h) && TableOk(h, v) && LogOk(h, v, log) && StreamsOk(h, skippable, v, log)
  }

  // ----- steps that only forget or advance -----

  /** Descriptor `b` is `a` unchanged, or marked delivered, or freed once acknowledged. */
  predicate FadesTo(a: Option<Entry>, b: Option<Entry>, cum: int) {
    || a == b
    || (a.Some? && b.Some? && b.value == a.value.(delivered := true, data := b.value.data))
    || (a.Some? && b.None? && a.value.delivered && a.value.tsn <= cum)
  }

  /** `w` is `v` with some descriptors faded. */
  predicate Fades(v: Receiver, w: Receiver) {
    && |w.slots| == |v.slots| && w.cum == v.cum && w.streams == v.streams
    && forall i | 0 <= i < |v.slots| :: FadesTo(v.slots[i], w.slots[i], v.cum)
  }

  lemma FadeKeepsTable(h: History, v: Receiver, w: Receiver)
    requires TableOk(h, v) && Fades(v, w)
    ensures TableOk(h, w)
  {
    forall i | 0 <= i < |w.slots| && w.slots[i].Some?
      ensures v.slots[i].Some? && EntryOk(h, w.cum, w.slots[i].value)
      ensures w.slots[i].value.first == v.slots[i].value.first && w.slots[i].value.tsn == v.slots[i].value.tsn
    {
      assert FadesTo(v.slots[i], w.slots[i], v.cum);
    }
    forall i, j | 0 <= i < j < |w.slots| && w.slots[i].Some? && w.slots[j].Some?
      ensures Apart(w.slots[i].value, w.slots[j].value)
    {
      assert Apart(v.slots[i].value, v.slots[j].value);
    }
  }

  lemma FadePending(v: Receiver, w: Receiver)
    requires Fades(v, w)
    ensures forall i | 0 <= i < |w.slots| && Pending(w.slots, i) :: Pending(v.slots, i) && w.slots[i] == v.slots[i]
    ensures forall t | Spent(v, t) :: Spent(w, t)
  {
    forall i | 0 <= i < |w.slots| && Pending(w.slots, i) ensures Pending(v.slots, i) && w.slots[i] == v.slots[i] {
      assert FadesTo(v.slots[i], w.slots[i], v.cum);
    }
    forall t | Spent(v, t) ensures Spent(w, t) {
      if t > v.cum {
        var i :| 0 <= i < |v.slots| && v.slots[i].Some? && v.slots[i].value.delivered && v.slots[i].value.tsn == t;
        assert FadesTo(v.slots[i], w.slots[i], v.cum);
        assert w.slots[i].Some?;
      }
    }
  }

  lemma FadeKeeps(h: History, skippable: set<nat>, v: Receiver, w: Receiver, log: seq<nat>)
    requires ReceiverOk(h, skippable, v, log) && Fades(v, w)
    ensures ReceiverOk(h, skippable, w, log)
  {
    FadeKeepsTable(h, v, w);
    FadePending(v, w);
    assert forall m | 0 <= m < |h.accepted| :: PassedOk(h, v, log, m) ==> PassedOk(h, w, log, m);
    assert forall k | 0 <= k < |log| :: LoggedOk(h, v.streams, log[k]);
  }

  lemma ReclaimKeeps(h: History, skippable: set<nat>, v: Receiver, log: seq<nat>)
    requires ReceiverOk(h, skippable, v, log)
    ensures ReceiverOk(h, skippable, Reclaim(v), log)
  {
    assert forall i | 0 <= i < |v.slots| :: Reclaim(v).slots[i] == Reclaimed(v.slots[i], v.cum);
    FadeKeeps(h, skippable, v, Reclaim(v), log);
  }

  lemma DiscardKeeps(h: History, skippable: set<nat>, v: Receiver, log: seq<nat>, tsn: int)
    requires ReceiverOk(h, skippable, v, log)
    ensures ReceiverOk(h, skippable, v.(slots := DiscardStranded(v.slots, tsn)), log)
  {
    FadeKeeps(h, skippable, v, v.(slots := DiscardStranded(v.slots, tsn)), log);
  }

  lemma RaiseCumKeeps(h: History, skippable: set<nat>, v: Receiver, log: seq<nat>, cum: int)
    requires ReceiverOk(h, skippable, v, log)
    requires v.cum <= cum < |h.chunks|
    ensures ReceiverOk(h, skippable, v.(cum := cum), log)
  {
    var w := v.(cum := cum);
    assert forall t | Spent(v, t) :: Spent(w, t);
    assert forall m | 0 <= m < |h.accepted| :: PassedOk(h, v, log, m) ==> PassedOk(h, w, log, m);
  }

  lemma DrainKeeps(h: History, skippable: set<nat>, v: Receiver, log: seq<nat>)
    requires ReceiverOk(h, skippable, v, log)
    ensures ReceiverOk(h, skippable, Drain(v), log)
  {
    var cum := DrainCum(v.slots, v.cum);
    if v.cum < cum { assert Holds(v.slots, cum); }
    RaiseCumKeeps(h, skippable, v, log, cum);
    ReclaimKeeps(h, skippable, v.(cum := cum), log);
  }

  lemma RegisterKeeps(h: History, skippable: set<nat>, v: Receiver, log: seq<nat>, sid: nat)
    requires ReceiverOk(h, skippable, v, log)
    ensures ReceiverOk(h, skippable, v.(streams := Register(v.streams, sid)), log)
  {
    var w := v.(streams := Register(v.streams, sid));
    forall s: nat ensures SsnOf(w.streams, s) == SsnOf(v.streams, s) {
      RegisterKeepsSsn(v.streams, sid, s);
    }
    SameSsnKeeps(h, skippable, v, w, log);
  }

  /** Only the sequence numbers of the stream table matter. */
  lemma SameSsnKeeps(h: History, skippable: set<nat>, v: Receiver, w: Receiver, log: seq<nat>)
    requires ReceiverOk(h, skippable, v, log)
    requires w == v.(streams := w.streams, sackNeeded := w.sackNeeded)
    requires forall s: nat :: SsnOf(w.streams, s) == SsnOf(v.streams, s)
    ensures ReceiverOk(h, skippable, w, log)
  {
    assert forall t | Spent(v, t) :: Spent(w, t);
    assert forall k | 0 <= k < |log| :: LoggedOk(h, v.streams, log[k]) ==> LoggedOk(h, w.streams, log[k]);
    assert forall sid: nat :: BoundOk(h, v.streams, sid) ==> BoundOk(h, w.streams, sid);
    assert forall m | 0 <= m < |h.accepted| :: PassedOk(h, v, log, m) ==> PassedOk(h, w, log, m);
    assert forall sid: nat | sid !in skippable :: PrefixOk(h, v.streams, log, sid) ==> PrefixOk(h, w.streams, log, sid);
  }

  // ----- admitting a chunk -----

  /** A chunk of the history, past the cumulative TSN and not held, belongs to an undelivered message. */
  lemma FreshNotLogged(h: History, skippable: set<nat>, v: Receiver, log: seq<nat>, t: int)
    requires ReceiverOk(h, skippable, v, log)
    requires v.cum < t < |h.chunks| && 0 <= t && !Holds(v.slots, t)
    ensures h.owner[t] !in log
    ensures var a := h.accepted[h.owner[t]]; a.unordered || SsnOf(v.streams, a.sid) <= a.ssn
  {
    var m := h.owner[t];
    assert ChunkOk(h.accepted[m], h.chunks[t], t);
    assert !Spent(v, t);
    assert forall k | 0 <= k < |log| :: log[k] != m;
    assert PassedOk(h, v, log, m);
  }

  lemma AdmitKeepsTable(h: History, v: Receiver, c: Chunk)
    requires HistoryOk(h) && TableOk(h, v)
    requires v.cum < c.tsn < |h.chunks| && 0 <= c.tsn && c == h.chunks[c.tsn] && !Holds(v.slots, c.tsn)
    requires LastFree(v.slots, |v.slots|) < |v.slots|
    ensures TableOk(h, Admit(v, Incoming(c)))
  {
    var e, w := Incoming(c), Admit(v, Incoming(c));
    var s := LastFree(v.slots, |v.slots|);
    PayloadsSplit(h.chunks, c.tsn, c.tsn, c.tsn + 1);
    assert EntryOk(h, v.cum, e);
    forall i | 0 <= i < |v.slots| && v.slots[i].Some? ensures Apart(v.slots[i].value, e) {
      assert EntryOk(h, v.cum, v.slots[i].value);
      assert v.slots[i].value.tsn != c.tsn;
    }
  }

  /** What the log and the stream table ask of an undelivered entry. */
  ghost predicate PendingOk(h: History, skippable: set<nat>, streams: seq<Stream>, log: seq<nat>, e: Entry) {
    && 0 <= e.tsn < |h.owner| && h.owner[e.tsn] !in log
    && (!e.unordered ==> PlaceOk(h, skippable, streams, log, e))
  }

  lemma PendingIsOk(h: History, skippable: set<nat>, v: Receiver, log: seq<nat>, i: nat)
    requires ReceiverOk(h, skippable, v, log) && Pending(v.slots, i)
    ensures PendingOk(h, skippable, v.streams, log, v.slots[i].value)
  {
  }

  /** A changed table is consistent once its pending entries are and nothing spent was lost. */
  lemma RebuildKeeps(h: History, skippable: set<nat>, v: Receiver, w: Receiver, log: seq<nat>)
    requires ReceiverOk(h, skippable, v, log) && TableOk(h, w)
    requires w.cum == v.cum && w.streams == v.streams
    requires forall t | Spent(v, t) :: Spent(w, t)
    requires forall i | 0 <= i < |w.slots| && Pending(w.slots, i) ::
               PendingOk(h, skippable, w.streams, log, w.slots[i].value)
    ensures ReceiverOk(h, skippable, w, log)
  {
    assert forall m | 0 <= m < |h.accepted| :: PassedOk(h, v, log, m) ==> PassedOk(h, w, log, m);
    assert forall k | 0 <= k < |log| :: LoggedOk(h, v.streams, log[k]);
    forall i | 0 <= i < |w.slots| && Pending(w.slots, i)
      ensures 0 <= w.slots[i].value.tsn < |h.owner| && h.owner[w.slots[i].value.tsn] !in log
      ensures !w.slots[i].value.unordered ==> PlaceOk(h, skippable, w.streams, log, w.slots[i].value)
    {
      assert PendingOk(h, skippable, w.streams, log, w.slots[i].value);
    }
  }

  /** Delivered markers survive when only pending or free descriptors change. */
  lemma SpentKept(v: Receiver, w: Receiver)
    requires |w.slots| == |v.slots| && w.cum == v.cum
    requires forall i | 0 <= i < |v.slots| && v.slots[i].Some? && v.slots[i].value.delivered :: w.slots[i] == v.slots[i]
    ensures forall t | Spent(v, t) :: Spent(w, t)
  {
    forall t | Spent(v, t) ensures Spent(w, t) {
      if t > v.cum {
        var i :| 0 <= i < |v.slots| && v.slots[i].Some? && v.slots[i].value.delivered && v.slots[i].value.tsn == t;
        assert w.slots[i] == v.slots[i];
      }
    }
  }

  lemma AdmitKeeps(h: History, skippable: set<nat>, v: Receiver, log: seq<nat>, c: Chunk)
    requires ReceiverOk(h, skippable, v, log)
    requires v.cum < c.tsn < |h.chunks| && 0 <= c.tsn && c == h.chunks[c.tsn] && !Holds(v.slots, c.tsn)
    requires LastFree(v.slots, |v.slots|) < |v.slots|
    ensures ReceiverOk(h, skippable, Admit(v, Incoming(c)), log)
  {
    var s := LastFree(v.slots, |v.slots|);
    var u, w := v.(streams := Register(v.streams, c.sid)), Admit(v, Incoming(c));
    RegisterKeeps(h, skippable, v, log, c.sid);
    AdmitKeepsTable(h, v, c);
    FreshNotLogged(h, skippable, u, log, c.tsn);
    assert ChunkOk(h.accepted[h.owner[c.tsn]], c, c.tsn);
    SpentKept(u, w);
    forall i | 0 <= i < |w.slots| && Pending(w.slots, i)
      ensures PendingOk(h, skippable, w.streams, log, w.slots[i].value)
    {
      if i != s { PendingIsOk(h, skippable, u, log, i); }
    }
    RebuildKeeps(h, skippable, u, w, log);
  }

  // ----- merging -----

  /** In a consistent table, a mergeable follower is a single fragment of the same message. */
  lemma FollowerIsSingle(h: History, v: Receiver, i: nat, j: nat)
    requires HistoryOk(h) && TableOk(h, v) && i < |v.slots| && j < |v.slots|
    requires v.slots[i].Some? && v.slots[j].Some? && Follows(v.slots[i].value, v.slots[j].value)
    ensures i != j
    ensures v.slots[j].value.first == v.slots[j].value.tsn == v.slots[i].value.tsn + 1
    ensures h.owner[v.slots[j].value.tsn] == h.owner[v.slots[i].value.tsn]
  {
    var a, b := v.slots[i].value, v.slots[j].value;
    assert EntryOk(h, v.cum, a) && EntryOk(h, v.cum, b);
    assert Apart(a, b) by { assert i < j || j < i; }
    NextOwner(h, a.tsn);
  }

  lemma MergedOk(h: History, v: Receiver, i: nat, j: nat)
    requires HistoryOk(h) && TableOk(h, v) && CanMerge(v, i, j)
    ensures EntryOk(h, v.cum, Merged(v.slots[i].value, v.slots[j].value))
  {
    var a, b := v.slots[i].value, v.slots[j].value;
    FollowerIsSingle(h, v, i, j);
    assert EntryOk(h, v.cum, a) && EntryOk(h, v.cum, b);
    PayloadsSplit(h.chunks, a.first, a.tsn + 1, b.tsn + 1);
  }

  lemma ApartSymmetric(h: History, v: Receiver, i: nat, j: nat)
    requires TableOk(h, v) && i < |v.slots| && j < |v.slots| && i != j && v.slots[i].Some? && v.slots[j].Some?
    ensures Apart(v.slots[i].value, v.slots[j].value)
  {
    if i < j {
    } else {
      assert Apart(v.slots[j].value, v.slots[i].value);
    }
  }

  lemma MergeAtKeepsTable(h: History, v: Receiver, i: nat, j: nat)
    requires HistoryOk(h) && TableOk(h, v) && CanMerge(v, i, j)
    ensures TableOk(h, v.(slots := MergeAt(v.slots, i, j)))
  {
    FollowerIsSingle(h, v, i, j);
    MergedOk(h, v, i, j);
    var w := v.(slots := MergeAt(v.slots, i, j));
    assert forall k | 0 <= k < |w.slots| && k != i && k != j :: w.slots[k] == v.slots[k];
    forall k, l | 0 <= k < l < |w.slots| && w.slots[k].Some? && w.slots[l].Some?
      ensures Apart(w.slots[k].value, w.slots[l].value)
    {
      ApartSymmetric(h, v, k, l);
      if k == i { ApartSymmetric(h, v, j, l); }
      if l == i { ApartSymmetric(h, v, j, k); }
    }
  }

  lemma MergeAtKeeps(h: History, skippable: set<nat>, v: Receiver, log: seq<nat>, i: nat, j: nat)
    requires ReceiverOk(h, skippable, v, log) && CanMerge(v, i, j)
    ensures ReceiverOk(h, skippable, v.(slots := MergeAt(v.slots, i, j)), log)
  {
    var w := v.(slots := MergeAt(v.slots, i, j));
    FollowerIsSingle(h, v, i, j);
    MergeAtKeepsTable(h, v, i, j);
    SpentKept(v, w);
    forall k | 0 <= k < |w.slots| && Pending(w.slots, k)
      ensures PendingOk(h, skippable, w.streams, log, w.slots[k].value)
    {
      PendingIsOk(h, skippable, v, log, k);
      if k == i { PendingIsOk(h, skippable, v, log, j); }
    }
    RebuildKeeps(h, skippable, v, w, log);
  }

  lemma {:induction false} MergeKeeps(h: History, skippable: set<nat>, v: Receiver, log: seq<nat>)
    requires ReceiverOk(h, skippable, v, log)
    ensures ReceiverOk(h, skippable, Merge(v).0, log) && Merge(v).0.cum == v.cum
    decreases CountHeld(v.slots)
  {
    match FirstPair(v, 0, 0) {
      case None =>
      case Some(pair) =>
        var (i, j) := pair;
        if |v.slots[i].value.data| + |v.slots[j].value.data| <= MAX_MESSAGE_SIZE {
          MergeAtKeeps(h, skippable, v, log, i, j);
          CountHeldMergeAt(v.slots, i, j);
          MergeKeeps(h, skippable, v.(slots := MergeAt(v.slots, i, j)), log);
        }
    }
  }

  /** Any chunk the sender ever emitted, in any order and however often. */
  lemma HandleFreshKeeps(h: History, skippable: set<nat>, v: Receiver, log: seq<nat>, c: Chunk, w: Receiver)
    requires ReceiverOk(h, skippable, v, log) && v.cum < c.tsn && w == HandleFresh(v, c).0
    requires 0 <= c.tsn < |h.chunks| && c == h.chunks[c.tsn]
    ensures ReceiverOk(h, skippable, w, log)
  {
    if !Holds(v.slots, c.tsn) && LastFree(v.slots, |v.slots|) < |v.slots| {
      AdmitKeeps(h, skippable, v, log, c);
      var admitted := Admit(v, Incoming(c));
      DrainKeeps(h, skippable, admitted, log);
      MergeKeeps(h, skippable, Drain(admitted), log);
      assert w == v || w == Merge(Drain(admitted)).0;
    } else {
      FreeSlotIffCount(v.slots, |v.slots|);
      assert v.slots[..|v.slots|] == v.slots;
      assert w == v;
    }
  }

  lemma HandleDataKeeps(h: History, skippable: set<nat>, v: Receiver, log: seq<nat>, c: Chunk)
    requires ReceiverOk(h, skippable, v, log)
    requires 0 <= c.tsn < |h.chunks| && c == h.chunks[c.tsn]
    ensures ReceiverOk(h, skippable, HandleData(v, c).0, log)
  {
    var v1 := v.(sackNeeded := true);
    SameSsnKeeps(h, skippable, v, v1, log);
    ReclaimKeeps(h, skippable, v1, log);
    if |c.payload| <= MAX_MESSAGE_SIZE && c.tsn > v1.cum {
      HandleFreshKeeps(h, skippable, Reclaim(v1), log, c, HandleData(v, c).0);
    }
  }

  // ----- a growing history -----

  lemma ExtendedTable(h: History, g: History, v: Receiver)
    requires HistoryOk(h) && HistoryOk(g) && Extends(h, g) && TableOk(h, v)
    ensures TableOk(g, v)
  {
    forall i | 0 <= i < |v.slots| && v.slots[i].Some? ensures EntryOk(g, v.cum, v.slots[i].value) {
      var e := v.slots[i].value;
      assert EntryOk(h, v.cum, e);
      PayloadsPrefix(h.chunks, g.chunks, e.first, e.tsn + 1);
      assert g.chunks[..|h.chunks|][e.tsn] == g.chunks[e.tsn] && g.chunks[..|h.chunks|][e.first] == g.chunks[e.first];
      assert g.owner[..|h.owner|][e.tsn] == g.owner[e.tsn] && g.owner[..|h.owner|][e.first] == g.owner[e.first];
    }
  }

  lemma ExtendedLog(h: History, g: History, v: Receiver, log: seq<nat>)
    requires HistoryOk(h) && HistoryOk(g) && Extends(h, g) && LogOk(h, v, log)
    ensures LogOk(g, v, log)
  {
    forall k | 0 <= k < |log| ensures g.accepted[log[k]] == h.accepted[log[k]] { MessageKept(h, g, log[k]); }
    forall i | 0 <= i < |v.slots| && Pending(v.slots, i)
      ensures 0 <= v.slots[i].value.tsn < |g.owner| && g.owner[v.slots[i].value.tsn] !in log
    {
      var t := v.slots[i].value.tsn;
      assert g.owner[..|h.owner|][t] == h.owner[t];
    }
  }

  lemma {:induction false} LogOnExtended(h: History, g: History, log: seq<nat>, sid: nat)
    requires HistoryOk(h) && Extends(h, g) && forall k | 0 <= k < |log| :: log[k] < |h.accepted|
    ensures LogOn(g, log, sid) == LogOn(h, log, sid)
  {
    if log != [] {
      LogOnExtended(h, g, log[..|log| - 1], sid);
      MessageKept(h, g, log[|log| - 1]);
    }
  }

  lemma ExtendedPassed(h: History, g: History, v: Receiver, log: seq<nat>, m: nat)
    requires HistoryOk(h) && HistoryOk(g) && Extends(h, g) && m < |g.accepted|
    requires forall sid: nat :: BoundOk(h, v.streams, sid)
    requires m < |h.accepted| ==> PassedOk(h, v, log, m)
    ensures PassedOk(g, v, log, m)
  {
    if m < |h.accepted| {
      MessageKept(h, g, m);
    } else if !g.accepted[m].unordered {
      var sid := g.accepted[m].sid;
      assert MessageOk(g, m) && BoundOk(h, v.streams, sid);
      assert g.accepted[..m][..|h.accepted|] == h.accepted;
      OrderedOnPrefix(g.accepted[..m], |h.accepted|, sid);
    }
  }

  lemma ExtendedPlaces(h: History, g: History, skippable: set<nat>, more: set<nat>, v: Receiver, log: seq<nat>)
    requires ReceiverOk(h, skippable, v, log) && HistoryOk(g) && Extends(h, g) && skippable <= more
    ensures forall i | 0 <= i < |v.slots| && Pending(v.slots, i) && !v.slots[i].value.unordered ::
              PlaceOk(g, more, v.streams, log, v.slots[i].value)
  {
    forall k | 0 <= k < |log| ensures g.accepted[log[k]] == h.accepted[log[k]] { MessageKept(h, g, log[k]); }
    forall i | 0 <= i < |v.slots| && Pending(v.slots, i) && !v.slots[i].value.unordered
      ensures PlaceOk(g, more, v.streams, log, v.slots[i].value)
    {
      assert PlaceOk(h, skippable, v.streams, log, v.slots[i].value);
    }
  }

  /** The receiver stays consistent while the sender accepts and abandons messages. */
  lemma ExtendKeeps(h: History, g: History, skippable: set<nat>, more: set<nat>, v: Receiver, log: seq<nat>)
    requires ReceiverOk(h, skippable, v, log) && HistoryOk(g) && Extends(h, g) && skippable <= more
    ensures ReceiverOk(g, more, v, log)
  {
    ExtendedTable(h, g, v);
    ExtendedLog(h, g, v, log);
    ExtendedPlaces(h, g, skippable, more, v, log);
    forall k | 0 <= k < |log| ensures LoggedOk(g, v.streams, log[k]) {
      assert LoggedOk(h, v.streams, log[k]);
      MessageKept(h, g, log[k]);
    }
    forall m | 0 <= m < |g.accepted| ensures PassedOk(g, v, log, m) { ExtendedPassed(h, g, v, log, m); }
    forall j, k, sid | 0 <= j < k < |log| && OnStream(g, log[j], sid) && OnStream(g, log[k], sid) ensures log[j] < log[k] {
      MessageKept(h, g, log[j]);
      MessageKept(h, g, log[k]);
      assert OnStream(h, log[j], sid) && OnStream(h, log[k], sid);
    }
    forall sid: nat ensures BoundOk(g, v.streams, sid) && (sid !in more ==> PrefixOk(g, v.streams, log, sid)) {
      assert BoundOk(h, v.streams, sid);
      OrderedOnPrefix(g.accepted, |h.accepted|, sid);
      LogOnExtended(h, g, log, sid);
      if sid !in more { assert PrefixOk(h, v.streams, log, sid); }
    }
  }
}
