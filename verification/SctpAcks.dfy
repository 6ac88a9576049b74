/** What a receiver has acknowledged, cumulatively or in gap blocks, for any
    input whatever: it never takes an acknowledgement back, and it keeps room
    for the chunk that is missing at the front. */
module SctpAcks {
  import opened SctpTypes
  import opened SctpReceiver

  /** TSN `t` is acknowledged by the next SACK: cumulatively or as a held TSN. */
  predicate Acked(v: Receiver, t: int) {
    t <= v.cum || Holds(v.slots, t)
  }

  lemma HoldsMapped(a: Slots, b: Slots, cum: int)
    requires |a| == |b|
    requires forall i | 0 <= i < |a| :: b[i].Some? ==> a[i].Some? && a[i].value.tsn == b[i].value.tsn
    requires forall i | 0 <= i < |a| && a[i].Some? && b[i].None? :: a[i].value.tsn <= cum
    ensures forall t | t > cum :: Holds(a, t) <==> Holds(b, t)
  {
    forall t | t > cum ensures Holds(a, t) <==> Holds(b, t) {
      if Holds(a, t) {
        var i :| 0 <= i < |a| && a[i].Some? && a[i].value.tsn == t;
        assert b[i].Some?;
      }
      if Holds(b, t) {
        var i :| 0 <= i < |b| && b[i].Some? && b[i].value.tsn == t;
        assert a[i].Some?;
      }
    }
  }

  lemma ReclaimAcked(v: Receiver)
    ensures forall t :: Acked(Reclaim(v), t) <==> Acked(v, t)
  {
    assert forall i | 0 <= i < |v.slots| :: Reclaim(v).slots[i] == Reclaimed(v.slots[i], v.cum);
    HoldsMapped(v.slots, Reclaim(v).slots, v.cum);
  }

  lemma DrainAcked(v: Receiver)
    ensures forall t :: Acked(Drain(v), t) <==> Acked(v, t)
    ensures v.cum <= Drain(v).cum && !Holds(Drain(v).slots, Drain(v).cum + 1)
  {
    var w := v.(cum := DrainCum(v.slots, v.cum));
    ReclaimAcked(w);
    assert !Acked(w, w.cum + 1);
    forall t ensures Acked(w, t) <==> Acked(v, t) {
      if v.cum < t <= w.cum { assert Holds(v.slots, t); }
    }
  }

  lemma MergeAtAcked(v: Receiver, i: nat, j: nat)
    requires CanMerge(v, i, j)
    ensures forall t :: Acked(v.(slots := MergeAt(v.slots, i, j)), t) <==> Acked(v, t)
  {
    var a, b := v.slots, MergeAt(v.slots, i, j);
    assert forall k | 0 <= k < |a| && k != i && k != j :: b[k] == a[k];
    forall t | t > v.cum ensures Holds(a, t) <==> Holds(b, t) {
      if Holds(a, t) {
        var k :| 0 <= k < |a| && a[k].Some? && a[k].value.tsn == t;
        assert b[k] == a[k];
      }
      if Holds(b, t) {
        var k :| 0 <= k < |b| && b[k].Some? && b[k].value.tsn == t;
        assert b[k] == a[k];
      }
    }
  }

  lemma {:induction false} MergeAcked(v: Receiver)
    ensures forall t :: Acked(Merge(v).0, t) <==> Acked(v, t)
    ensures Merge(v).0.cum == v.cum && Merge(v).0.streams == v.streams && |Merge(v).0.slots| == |v.slots|
    decreases CountHeld(v.slots)
  {
    match FirstPair(v, 0, 0) {
      case None =>
      case Some(pair) =>
        var (i, j) := pair;
        if |v.slots[i].value.data| + |v.slots[j].value.data| <= MAX_MESSAGE_SIZE {
          MergeAtAcked(v, i, j);
          CountHeldMergeAt(v.slots, i, j);
          MergeAcked(v.(slots := MergeAt(v.slots, i, j)));
        }
    }
  }

  lemma AdmitAcked(v: Receiver, c: Chunk)
    requires LastFree(v.slots, |v.slots|) < |v.slots|
    ensures forall t :: Acked(Admit(v, Incoming(c)), t) <==> Acked(v, t) || t == c.tsn
  {
    var s := LastFree(v.slots, |v.slots|);
    var w := Admit(v, Incoming(c));
    assert w.slots[s].Some? && w.slots[s].value.tsn == c.tsn;
    forall t ensures Holds(w.slots, t) <==> Holds(v.slots, t) || t == c.tsn {
      if Holds(v.slots, t) {
        var k :| 0 <= k < |v.slots| && v.slots[k].Some? && v.slots[k].value.tsn == t;
        assert w.slots[k] == v.slots[k];
      }
      if Holds(w.slots, t) && t != c.tsn {
        var k :| 0 <= k < |w.slots| && w.slots[k].Some? && w.slots[k].value.tsn == t;
        assert w.slots[k] == v.slots[k];
      }
    }
  }

  /** The chunk passes every check and is stored. */
  predicate Accepts(v: Receiver, c: Chunk) {
    && |c.payload| <= MAX_MESSAGE_SIZE && v.cum < c.tsn
    && var v2 := Reclaim(v.(sackNeeded := true));
       && !Holds(v2.slots, c.tsn)
       && (c.begin || FragmentError(v2.slots, Incoming(c), 0) == Ok)
       && Admits(v2, c.tsn, |c.payload|)
       && Known(Register(v2.streams, c.sid), c.sid)
  }

  lemma AcceptsFree(v: Receiver, c: Chunk)
    requires Accepts(v, c)
    ensures var v2 := Reclaim(v.(sackNeeded := true));
            LastFree(v2.slots, |v2.slots|) < |v2.slots| &&
            HandleData(v, c) == Merge(Drain(Admit(v2, Incoming(c))))
  {
    var v2 := Reclaim(v.(sackNeeded := true));
    FreeSlotIffCount(v2.slots, |v2.slots|);
    assert v2.slots[..|v2.slots|] == v2.slots;
  }

  /** A DATA chunk adds exactly its own TSN to the acknowledged ones, or nothing. */
  lemma DataAcked(v: Receiver, c: Chunk)
    ensures forall t :: Acked(HandleData(v, c).0, t) <==> Acked(v, t) || (t == c.tsn && Accepts(v, c))
    ensures v.cum <= HandleData(v, c).0.cum
  {
    var v1 := v.(sackNeeded := true);
    var v2 := Reclaim(v1);
    ReclaimAcked(v1);
    assert forall t :: Acked(v1, t) <==> Acked(v, t);
    if Accepts(v, c) {
      AcceptsFree(v, c);
      AdmitAcked(v2, c);
      DrainAcked(Admit(v2, Incoming(c)));
      MergeAcked(Drain(Admit(v2, Incoming(c))));
    } else {
      FreeSlotIffCount(v2.slots, |v2.slots|);
      assert v2.slots[..|v2.slots|] == v2.slots;
      assert HandleData(v, c).0 == v || HandleData(v, c).0 == v1 || HandleData(v, c).0 == v2;
    }
  }

  /** Two states acknowledge the same TSNs. */
  ghost predicate SameAcks(v: Receiver, w: Receiver) {
    w.cum == v.cum && forall t :: Acked(w, t) <==> Acked(v, t)
  }

  lemma DeliverAcked(v: Receiver, i: nat, parts: seq<nat>)
    requires i < |v.slots| && Eligible(v, i) && AllHeld(v.slots, parts)
    ensures SameAcks(v, Deliver(v, i, parts))
  {
    HoldsMapped(v.slots, MarkDelivered(v.slots, parts), v.cum);
  }

  lemma {:induction false} PollFromAcked(v: Receiver, i: nat, r: (Receiver, Status, Option<Message>))
    requires i <= |v.slots| && r == PollFrom(v, i)
    ensures SameAcks(v, r.0)
    decreases |v.slots| - i
  {
    if i < |v.slots| {
      var w, a := PollTurn(v, i, r);
      assert SameAcks(v, w);
      match a
      case Incomplete => PollFromAcked(w, i + 1, r);
      case Broken(_) =>
      case Complete(parts) => DeliverAcked(w, i, parts);
    }
  }

  /** Delivering to the application acknowledges nothing and forgets nothing. */
  lemma PollAcked(v: Receiver)
    ensures forall t :: Acked(PollDelivery(v).0, t) <==> Acked(v, t)
    ensures PollDelivery(v).0.cum == v.cum
  {
    ReclaimAcked(v);
    PollFromAcked(Reclaim(v), 0, PollDelivery(v));
  }

  lemma {:induction false} ReleaseAcked(v: Receiver, skips: seq<Stream>)
    ensures forall t :: Acked(ReleaseStreams(v, skips).0, t) <==> Acked(v, t)
    ensures ReleaseStreams(v, skips).0.cum == v.cum
    decreases |skips|
  {
    if skips != [] {
      var s := skips[0];
      var w := v.(streams := Register(v.streams, s.sid));
      assert forall t :: Acked(w, t) <==> Acked(v, t);
      if Known(w.streams, s.sid) {
        if s.ssn < SsnOf(w.streams, s.sid) {
          ReleaseAcked(w, skips[1..]);
        } else {
          var u := w.(slots := MarkForwarded(w.slots, s.sid, s.ssn), streams := SetSsn(w.streams, s.sid, s.ssn + 1));
          HoldsMapped(w.slots, u.slots, w.cum);
          ReleaseAcked(u, skips[1..]);
        }
      }
    }
  }

  /** A FORWARD TSN adds exactly the TSNs up to its new cumulative one. */
  lemma ForwardAcked(v: Receiver, newTsn: int, skips: seq<Stream>)
    ensures forall t :: Acked(HandleForward(v, newTsn, skips).0, t) <==> Acked(v, t) || t <= newTsn
    ensures v.cum <= HandleForward(v, newTsn, skips).0.cum
  {
    if newTsn > v.cum {
      var v1 := v.(sackNeeded := true, cum := newTsn);
      MergeAcked(v1);
      var (v2, status) := Merge(v1);
      var v3 := v2.(slots := DiscardStranded(v2.slots, newTsn));
      HoldsMapped(v2.slots, v3.slots, v2.cum);
      assert forall t :: Acked(v1, t) <==> Acked(v, t) || t <= newTsn;
      assert forall t :: Acked(v3, t) <==> Acked(v2, t);
      ReleaseAcked(v3, skips);
      DrainAcked(ReleaseStreams(v3, skips).0);
    }
  }

  // ----- whole runs of arbitrary input -----

  datatype Event = OnData(chunk: Chunk) | OnForward(newTsn: int, skips: seq<Stream>) | OnPoll

  function After(v: Receiver, e: Event): Receiver {
    match e
    case OnData(c) => HandleData(v, c).0
    case OnForward(newTsn, skips) => HandleForward(v, newTsn, skips).0
    case OnPoll => PollDelivery(v).0
  }

  function AfterAll(v: Receiver, events: seq<Event>): Receiver
    decreases |events|
  {
    if events == [] then v else AfterAll(After(v, events[0]), events[1..])
  }

  /** Over any run, whatever arrives, an acknowledged TSN stays acknowledged. */
  lemma {:induction false} NeverReneges(v: Receiver, events: seq<Event>, t: int)
    requires Acked(v, t)
    ensures Acked(AfterAll(v, events), t)
    decreases |events|
  {
    if events != [] {
      match events[0] {
        case OnData(c) => DataAcked(v, c);
        case OnForward(newTsn, skips) => ForwardAcked(v, newTsn, skips);
        case OnPoll => PollAcked(v);
      }
      NeverReneges(After(v, events[0]), events[1..], t);
    }
  }

  // ----- when a SACK is due -----

  /** The bytes of a delivered message are about to be freed. */
  predicate Frees(v: Receiver) {
    exists i | 0 <= i < |v.slots| :: v.slots[i].Some? && v.slots[i].value.delivered && v.slots[i].value.data != []
  }

  lemma ReclaimOwes(v: Receiver)
    ensures Reclaim(v).sackNeeded <==> v.sackNeeded || Frees(v)
  {
    assert Frees(v) <==> exists i | 0 <= i < |v.slots| :: Reopens(v.slots[i]);
  }

  lemma {:induction false} MergeOwes(v: Receiver)
    ensures Merge(v).0.sackNeeded == v.sackNeeded
    decreases CountHeld(v.slots)
  {
    match FirstPair(v, 0, 0)
    case None =>
    case Some((i, j)) =>
      if |v.slots[i].value.data| + |v.slots[j].value.data| <= MAX_MESSAGE_SIZE {
        CountHeldMergeAt(v.slots, i, j);
        MergeOwes(v.(slots := MergeAt(v.slots, i, j)));
      }
  }

  /** Every DATA chunk of a legal size asks for a SACK: stored, refused or a duplicate. */
  lemma DataOwesSack(v: Receiver, c: Chunk)
    ensures HandleData(v, c).0.sackNeeded <==> v.sackNeeded || |c.payload| <= MAX_MESSAGE_SIZE
  {
    var v1 := v.(sackNeeded := true);
    if Accepts(v, c) {
      AcceptsFree(v, c);
      MergeOwes(Drain(Admit(Reclaim(v1), Incoming(c))));
    }
  }

  lemma {:induction false} ReleaseOwes(v: Receiver, skips: seq<Stream>)
    ensures ReleaseStreams(v, skips).0.sackNeeded == v.sackNeeded
    decreases |skips|
  {
    if skips != [] {
      var s := skips[0];
      var w := v.(streams := Register(v.streams, s.sid));
      if Known(w.streams, s.sid) {
        ReleaseOwes(if s.ssn < SsnOf(w.streams, s.sid) then w
                    else w.(slots := MarkForwarded(w.slots, s.sid, s.ssn), streams := SetSsn(w.streams, s.sid, s.ssn + 1)), skips[1..]);
      }
    }
  }

  /** So does every FORWARD TSN, also one that is late. */
  lemma ForwardOwesSack(v: Receiver, newTsn: int, skips: seq<Stream>)
    ensures HandleForward(v, newTsn, skips).0.sackNeeded
  {
    var v1 := v.(sackNeeded := true);
    MergeOwes(v1.(cum := newTsn));
    var v2 := Merge(v1.(cum := newTsn)).0;
    ReleaseOwes(v2.(slots := DiscardStranded(v2.slots, newTsn)), skips);
  }

  lemma {:induction false} PollFromOwes(v: Receiver, i: nat, r: (Receiver, Status, Option<Message>))
    requires i <= |v.slots| && r == PollFrom(v, i)
    ensures r.0.sackNeeded == v.sackNeeded
    decreases |v.slots| - i
  {
    if i < |v.slots| {
      var w, a := PollTurn(v, i, r);
      if a.Incomplete? { PollFromOwes(w, i + 1, r); }
    }
  }

  /** A poll asks for one exactly when it frees bytes of the pool, so that the window opens again. */
  lemma PollOwesSack(v: Receiver)
    ensures PollDelivery(v).0.sackNeeded <==> v.sackNeeded || Frees(v)
  {
    ReclaimOwes(v);
    PollFromOwes(Reclaim(v), 0, PollDelivery(v));
  }

  // ----- the window stays open for the leading packet -----

  lemma {:induction false} ReclaimedTotals(slots: Slots, cum: int, n: nat)
    requires n <= |slots|
    ensures TotalBytes(ReclaimedUpTo(slots, cum, n)) <= TotalBytes(slots)
    ensures CountHeld(ReclaimedUpTo(slots, cum, n)) <= CountHeld(slots)
  {
    if n == 0 {
      assert ReclaimedUpTo(slots, cum, 0) == slots;
    } else {
      ReclaimedTotals(slots, cum, n - 1);
      assert ReclaimedUpTo(slots, cum, n) == ReclaimedUpTo(slots, cum, n - 1)[n - 1 := Reclaimed(slots[n - 1], cum)];
      TotalBytesUpdate(ReclaimedUpTo(slots, cum, n - 1), n - 1, Reclaimed(slots[n - 1], cum));
    }
  }

  lemma ReclaimTotals(v: Receiver)
    ensures TotalBytes(Reclaim(v).slots) <= TotalBytes(v.slots) && CountHeld(Reclaim(v).slots) <= CountHeld(v.slots)
  {
    ReclaimedTotals(v.slots, v.cum, |v.slots|);
  }

  lemma {:induction false} MergeTotals(v: Receiver)
    ensures TotalBytes(Merge(v).0.slots) == TotalBytes(v.slots) && CountHeld(Merge(v).0.slots) <= CountHeld(v.slots)
    decreases CountHeld(v.slots)
  {
    match FirstPair(v, 0, 0) {
      case None =>
      case Some(pair) =>
        var (i, j) := pair;
        if |v.slots[i].value.data| + |v.slots[j].value.data| <= MAX_MESSAGE_SIZE {
          CountHeldMergeAt(v.slots, i, j);
          MergeTotals(v.(slots := MergeAt(v.slots, i, j)));
        }
    }
  }

  /** After an out-of-order chunk was stored, the next expected chunk, of full
      size and on a known stream, is stored too unless it contradicts a held fragment. */
  lemma LeadingChunkFits(v: Receiver, c: Chunk, next: Chunk)
    requires Accepts(v, c) && c.tsn != v.cum + 1
    requires var w := HandleData(v, c).0;
             next.tsn == w.cum + 1 && |next.payload| <= MTU - 28 && Known(w.streams, next.sid)
    requires next.begin || FragmentError(Reclaim(HandleData(v, c).0.(sackNeeded := true)).slots, Incoming(next), 0) == Ok
    ensures Accepts(HandleData(v, c).0, next)
    ensures Acked(HandleData(HandleData(v, c).0, next).0, next.tsn)
  {
    var v2 := Reclaim(v.(sackNeeded := true));
    AcceptsFree(v, c);
    var s, e := LastFree(v2.slots, |v2.slots|), Incoming(c);
    TotalBytesUpdate(v2.slots, s, Some(e));
    var d := Drain(Admit(v2, e));
    ReclaimTotals(Admit(v2, e).(cum := DrainCum(Admit(v2, e).slots, v2.cum)));
    MergeTotals(d);
    MergeAcked(d);
    DrainAcked(Admit(v2, e));
    var w := HandleData(v, c).0;
    ReclaimTotals(w.(sackNeeded := true));
    ReclaimAcked(w.(sackNeeded := true));
    assert !Acked(d, d.cum + 1);
    assert !Acked(w, w.cum + 1);
    assert !Acked(Reclaim(w.(sackNeeded := true)), w.cum + 1);
    DataAcked(w, next);
  }
}
