/** What a poll must answer. Every message whose turn it is and whose fragments are all held is found:
    lemma PollBlocksIff says, for any table, when a poll comes back empty. */
module SctpPoll {
  import opened SctpTypes
  import opened SctpReceiver
  import opened SctpAcks

  // ----- what every table keeps, whatever arrives -----

  /** Every held entry is of a known stream, and no TSN is held twice. */
  predicate Plain(v: Receiver) {
    && (forall i | 0 <= i < |v.slots| && v.slots[i].Some? :: Known(v.streams, v.slots[i].value.sid))
    && DistinctTsns(v.slots)
  }

  predicate DistinctTsns(slots: Slots) {
    forall i, j | 0 <= i < j < |slots| && slots[i].Some? && slots[j].Some? :: slots[i].value.tsn != slots[j].value.tsn
  }

  /** The entries of `w` are entries of `v`, in the same places, with the same TSNs and streams. */
  lemma PlainShrinks(v: Receiver, w: Receiver)
    requires Plain(v) && |w.slots| == |v.slots|
    requires forall sid: nat | Known(v.streams, sid) :: Known(w.streams, sid)
    requires forall i | 0 <= i < |w.slots| && w.slots[i].Some? ::
               v.slots[i].Some? && w.slots[i].value.tsn == v.slots[i].value.tsn && w.slots[i].value.sid == v.slots[i].value.sid
    ensures Plain(w)
  {
  }

  lemma PlainReclaim(v: Receiver)
    requires Plain(v)
    ensures Plain(Reclaim(v))
  {
    assert forall i | 0 <= i < |v.slots| :: Reclaim(v).slots[i] == Reclaimed(v.slots[i], v.cum);
    PlainShrinks(v, Reclaim(v));
  }

  lemma PlainAdmit(v: Receiver, e: Entry)
    requires Plain(v) && !Holds(v.slots, e.tsn) && LastFree(v.slots, |v.slots|) < |v.slots| && Known(Register(v.streams, e.sid), e.sid)
    ensures Plain(Admit(v, e))
  {
    forall sid: nat | Known(v.streams, sid) ensures Known(Register(v.streams, e.sid), sid) { RegisterKeepsSsn(v.streams, e.sid, sid); }
  }

  lemma {:induction false} PlainMerge(v: Receiver)
    requires Plain(v)
    ensures Plain(Merge(v).0)
    decreases CountHeld(v.slots)
  {
    match FirstPair(v, 0, 0)
    case None =>
    case Some((i, j)) =>
      if |v.slots[i].value.data| + |v.slots[j].value.data| <= MAX_MESSAGE_SIZE {
        var w := v.(slots := MergeAt(v.slots, i, j));
        CountHeldMergeAt(v.slots, i, j);
        MergedPlain(v, i, j, w);
        PlainMerge(w);
      }
  }

  lemma MergedPlain(v: Receiver, i: nat, j: nat, w: Receiver)
    requires Plain(v) && CanMerge(v, i, j) && i != j && w == v.(slots := MergeAt(v.slots, i, j))
    ensures Plain(w)
  {
    forall k | 0 <= k < |w.slots| && w.slots[k].Some?
      ensures v.slots[if k == i then j else k].Some? && w.slots[k].value.tsn == v.slots[if k == i then j else k].value.tsn
      ensures k != j && Known(w.streams, w.slots[k].value.sid)
    {
      assert v.slots[k].Some?;
    }
  }

  /** Any DATA chunk. */
  lemma PlainData(v: Receiver, c: Chunk)
    requires Plain(v)
    ensures Plain(HandleData(v, c).0)
  {
    var v1 := v.(sackNeeded := true);
    PlainReclaim(v1);
    if Accepts(v, c) {
      AcceptsFree(v, c);
      var u := Admit(Reclaim(v1), Incoming(c));
      PlainAdmit(Reclaim(v1), Incoming(c));
      PlainReclaim(u.(cum := DrainCum(u.slots, u.cum)));
      PlainMerge(Drain(u));
    }
  }

  lemma PlainRegister(v: Receiver, sid: nat)
    requires Plain(v)
    ensures Plain(v.(streams := Register(v.streams, sid)))
  {
    var w := v.(streams := Register(v.streams, sid));
    forall s: nat | Known(v.streams, s) ensures Known(w.streams, s) { RegisterKeepsSsn(v.streams, sid, s); }
    PlainShrinks(v, w);
  }

  lemma {:induction false} PlainRelease(v: Receiver, skips: seq<Stream>)
    requires Plain(v)
    ensures Plain(ReleaseStreams(v, skips).0)
    decreases |skips|
  {
    if skips != [] {
      var s := skips[0];
      var w := v.(streams := Register(v.streams, s.sid));
      PlainRegister(v, s.sid);
      if Known(w.streams, s.sid) {
        if s.ssn < SsnOf(w.streams, s.sid) {
          PlainRelease(w, skips[1..]);
        } else {
          var r := w.(slots := MarkForwarded(w.slots, s.sid, s.ssn), streams := SetSsn(w.streams, s.sid, s.ssn + 1));
          forall t: nat | Known(w.streams, t) ensures Known(r.streams, t) { SetSsnFrame(w.streams, s.sid, s.ssn + 1, t); }
          PlainShrinks(w, r);
          PlainRelease(r, skips[1..]);
        }
      }
    }
  }

  /** Any FORWARD TSN. */
  lemma PlainForward(v: Receiver, newTsn: int, skips: seq<Stream>)
    requires Plain(v)
    ensures Plain(HandleForward(v, newTsn, skips).0)
  {
    var v1 := v.(sackNeeded := true);
    if newTsn > v1.cum {
      var up := v1.(cum := newTsn);
      PlainMerge(up);
      var v2 := Merge(up).0;
      var v3 := v2.(slots := DiscardStranded(v2.slots, newTsn));
      PlainShrinks(v2, v3);
      PlainRelease(v3, skips);
      var v4 := ReleaseStreams(v3, skips).0;
      PlainReclaim(v4.(cum := DrainCum(v4.slots, v4.cum)));
    }
  }

  // ----- a message to hand out -----

  /** Descriptor `i` begins a message whose turn it is: an unordered one; or one that was skipped over or
      carries its stream's next number, with no earlier skipped-over one of the stream waiting. */
  predicate HasTurn(v: Receiver, i: nat) {
    && i < |v.slots| && Pending(v.slots, i)
    && var e := v.slots[i].value;
       && e.begin
       && (e.unordered ||
           ((e.forwarded || e.ssn == SsnOf(v.streams, e.sid)) &&
            forall j | 0 <= j < |v.slots| && Pending(v.slots, j) && v.slots[j].value.forwarded && v.slots[j].value.sid == e.sid ::
              v.slots[j].value.ssn >= e.ssn))
  }

  /** `parts` hold the TSNs from `t` on, one after the other, and only the last may be a last fragment. */
  predicate Walk(slots: Slots, t: int, parts: seq<nat>) {
    && parts != []
    && (forall k | 0 <= k < |parts| :: Pending(slots, parts[k]) && slots[parts[k]].value.tsn == t + k)
    && (forall k | 0 <= k < |parts| - 1 :: !slots[parts[k]].value.end)
  }

  /** They end with a last fragment. */
  predicate WholeWalk(slots: Slots, t: int, parts: seq<nat>) {
    Walk(slots, t, parts) && slots[parts[|parts| - 1]].value.end
  }

  /** The last of them does not continue the one before, or makes the message too long. */
  predicate WrongWalk(slots: Slots, t: int, parts: seq<nat>) {
    && Walk(slots, t, parts)
    && ((|parts| > 1 && !Follows(slots[parts[|parts| - 2]].value, slots[parts[|parts| - 1]].value)) ||
        |Joined(slots, parts)| > MAX_MESSAGE_SIZE)
  }

  // ----- what assembling finds -----

  lemma WalkDistinct(slots: Slots, t: int, parts: seq<nat>)
    requires Walk(slots, t, parts)
    ensures forall j, k | 0 <= j < k < |parts| :: parts[j] != parts[k]
    ensures |parts| <= |slots|
  {
    forall j, k | 0 <= j < k < |parts| ensures parts[j] != parts[k] {
      assert slots[parts[j]].value.tsn == t + j && slots[parts[k]].value.tsn == t + k;
    }
    Pigeons(parts, |slots|);
  }

  /** Distinct numbers below `n` are at most `n`. */
  lemma {:induction false} Pigeons(parts: seq<nat>, n: nat)
    requires forall k | 0 <= k < |parts| :: parts[k] < n
    requires forall j, k | 0 <= j < k < |parts| :: parts[j] != parts[k]
    ensures |parts| <= n
    decreases n
  {
    if parts != [] {
      assert parts[0] < n;
      if i :| 0 <= i < |parts| && parts[i] == n - 1 {
        var rest := parts[..i] + parts[i + 1..];
        forall k | 0 <= k < |rest| ensures rest[k] == parts[if k < i then k else k + 1] { }
        Pigeons(rest, n - 1);
      } else {
        Pigeons(parts, n - 1);
      }
    }
  }

  lemma JoinedOne(slots: Slots, parts: seq<nat>, j: nat)
    requires AllHeld(slots, parts) && j < |slots| && slots[j].Some?
    ensures AllHeld(slots, parts + [j]) && Joined(slots, parts + [j]) == Joined(slots, parts) + slots[j].value.data
  {
    assert (parts + [j])[..|parts|] == parts;
  }

  /** One step of the walk, which is at descriptor `j` with `parts` behind it. */
  lemma WalkStep(slots: Slots, t: int, parts: seq<nat>, j: nat)
    requires DistinctTsns(slots) && |parts| < |slots| && AllPending(slots, parts) && Pending(slots, j) && slots[j].value.tsn == t
    ensures var all := parts + [j];
            var r := Assemble(slots, t, parts);
            && AllPending(slots, all) && |Joined(slots, all)| == |Joined(slots, parts)| + |slots[j].value.data|
            && (if parts != [] && !Follows(slots[parts[|parts| - 1]].value, slots[j].value) then r == Broken(Protocol)
                else if |Joined(slots, all)| > MAX_MESSAGE_SIZE then r == Broken(BufferTooSmall)
                else if slots[j].value.end then r == Complete(all)
                else r == Assemble(slots, t + 1, all))
  {
    assert FindPending(slots, t, 0) == j;
    JoinedOne(slots, parts, j);
  }

  /** The next descriptor continues the walk. */
  predicate Goes(slots: Slots, parts: seq<nat>, j: nat)
    requires AllPending(slots, parts) && Pending(slots, j)
  {
    && (parts == [] || Follows(slots[parts[|parts| - 1]].value, slots[j].value))
    && |Joined(slots, parts)| + |slots[j].value.data| <= MAX_MESSAGE_SIZE && !slots[j].value.end
  }

  lemma GoesOn(slots: Slots, t: int, parts: seq<nat>, j: nat, all: seq<nat>, r: Assembly)
    requires DistinctTsns(slots) && |parts| < |slots| && AllPending(slots, parts) && Pending(slots, j) && slots[j].value.tsn == t
    requires all == parts + [j] && r == Assemble(slots, t, parts)
    ensures AllPending(slots, all)
    ensures if Goes(slots, parts, j) then r == Assemble(slots, t + 1, all) else !r.Incomplete?
  {
    WalkStep(slots, t, parts, j);
  }

  /** The last part of a walk that ends, or goes wrong, does not go on. */
  lemma LastStops(slots: Slots, t: int, parts: seq<nat>, front: seq<nat>, j: nat)
    requires WholeWalk(slots, t, parts) || WrongWalk(slots, t, parts)
    requires parts == front + [j] && AllPending(slots, front) && Pending(slots, j)
    ensures !Goes(slots, front, j)
  {
    JoinedOne(slots, front, j);
  }

  /** The walk from `t` goes along the parts until it stops. */
  lemma {:induction false} WalkIsFound(slots: Slots, t: int, parts: seq<nat>, k: nat, front: seq<nat>, r: Assembly)
    requires DistinctTsns(slots) && (WholeWalk(slots, t, parts) || WrongWalk(slots, t, parts)) && k < |parts| <= |slots|
    requires front == parts[..k] && AllPending(slots, front) && r == Assemble(slots, t + k, front)
    ensures !r.Incomplete?
    decreases |parts| - k
  {
    var j := parts[k];
    assert Pending(slots, j) && slots[j].value.tsn == t + k;
    var next := front + [j];
    GoesOn(slots, t + k, front, j, next, r);
    assert next == parts[..k + 1];
    if k + 1 == |parts| {
      assert next == parts;
      LastStops(slots, t, parts, front, j);
    } else if Goes(slots, front, j) {
      WalkIsFound(slots, t, parts, k + 1, next, r);
    }
  }

  /** What has been found so far. */
  predicate Before(slots: Slots, t: int, parts: seq<nat>) {
    && AllPending(slots, parts)
    && forall k | 0 <= k < |parts| :: slots[parts[k]].value.tsn == t + k && !slots[parts[k]].value.end
  }

  lemma BeforeMore(slots: Slots, t: int, parts: seq<nat>, j: nat)
    requires Before(slots, t, parts) && Pending(slots, j) && slots[j].value.tsn == t + |parts|
    ensures Walk(slots, t, parts + [j]) && (!slots[j].value.end ==> Before(slots, t, parts + [j]))
  {
  }

  /** A walk that does not go on has ended or gone wrong. */
  lemma StopsHere(slots: Slots, t: int, parts: seq<nat>, j: nat, r: Assembly)
    requires DistinctTsns(slots) && Before(slots, t, parts) && |parts| < |slots| && r == Assemble(slots, t + |parts|, parts)
    requires Pending(slots, j) && slots[j].value.tsn == t + |parts| && !Goes(slots, parts, j)
    ensures r.Complete? ==> parts + [j] == r.parts && WholeWalk(slots, t, parts + [j])
    ensures r.Broken? ==> WrongWalk(slots, t, parts + [j])
  {
    WalkStep(slots, t + |parts|, parts, j);
    BeforeMore(slots, t, parts, j);
  }

  /** The walk has stopped at the last of `all`. */
  predicate Stopped(slots: Slots, t: int, all: seq<nat>, r: Assembly) {
    && (r.Complete? ==> all == r.parts && WholeWalk(slots, t, all))
    && (r.Broken? ==> WrongWalk(slots, t, all))
  }

  /** Where the walk stops; it is at TSN `at`. */
  lemma {:induction false} WalkStops(slots: Slots, t: int, parts: seq<nat>, at: int, r: Assembly) returns (all: seq<nat>)
    requires DistinctTsns(slots) && Before(slots, t, parts) && |parts| <= |slots| && at == t + |parts| && r == Assemble(slots, at, parts)
    ensures Stopped(slots, t, all, r)
    decreases |slots| - |parts|
  {
    all := parts;
    if |parts| < |slots| {
      var j := FindPending(slots, at, 0);
      if j < |slots| {
        all := parts + [j];
        if Goes(slots, parts, j) {
          BeforeMore(slots, t, parts, j);
          GoesOn(slots, at, parts, j, all, r);
          all := WalkStops(slots, t, all, at + 1, r);
        } else {
          StopsHere(slots, t, parts, j, r);
        }
      }
    }
  }

  lemma FoundIsWalk(slots: Slots, t: int, r: Assembly) returns (all: seq<nat>)
    requires DistinctTsns(slots) && r == Assemble(slots, t, [])
    ensures Stopped(slots, t, all, r)
  {
    all := WalkStops(slots, t, [], t, r);
  }

  // ----- the poll -----

  /** Descriptor `i` begins a message whose turn it is, and the walk from it does not run out of fragments:
      it reaches a last fragment, or one that contradicts those before it. */
  predicate Answers(v: Receiver, i: nat, parts: seq<nat>) {
    HasTurn(v, i) && (WholeWalk(v.slots, v.slots[i].value.tsn, parts) || WrongWalk(v.slots, v.slots[i].value.tsn, parts))
  }

  lemma TurnIff(v: Receiver, i: nat)
    requires Plain(v) && i < |v.slots|
    ensures LookUp(v, i) == v && (Eligible(v, i) <==> HasTurn(v, i))
  {
    if Pending(v.slots, i) {
      assert Known(v.streams, v.slots[i].value.sid);
      if EarlierForwarded(v.slots, i) {
        var j :| 0 <= j < |v.slots| && Pending(v.slots, j) && v.slots[j].value.forwarded &&
                 v.slots[j].value.sid == v.slots[i].value.sid && v.slots[j].value.ssn < v.slots[i].value.ssn;
      }
    }
  }

  /** The result is what assembling from descriptor `k` gives. */
  predicate Assembled(v: Receiver, k: nat, r: (Receiver, Status, Option<Message>)) {
    && k < |v.slots| && Eligible(v, k)
    && match Assemble(v.slots, v.slots[k].value.tsn, [])
       case Incomplete => false
       case Broken(error) => r == (v, error, None)
       case Complete(parts) => r.0 == Deliver(v, k, parts) && r.1 == Ok &&
                               r.2 == Some(Message(v.slots[k].value.sid, v.slots[k].value.ppid, Joined(v.slots, parts)))
  }

  /** The poll stops at descriptor `i`. */
  predicate Stops(v: Receiver, i: nat) {
    HasTurn(v, i) && !Assemble(v.slots, v.slots[i].value.tsn, []).Incomplete?
  }

  /** The turn of descriptor `i`: it answers, or the poll goes on. */
  lemma TurnOf(v: Receiver, i: nat, r: (Receiver, Status, Option<Message>))
    requires Plain(v) && i < |v.slots| && r == PollFrom(v, i)
    ensures if Stops(v, i) then Assembled(v, i, r) && r.1 != WouldBlock
            else r == PollFrom(v, i + 1)
  {
    TurnIff(v, i);
    var w, a := PollTurn(v, i, r);
  }

  lemma TurnEnds(v: Receiver, i: nat, r: (Receiver, Status, Option<Message>)) returns (stops: bool)
    requires Plain(v) && i < |v.slots| && r == PollFrom(v, i)
    ensures if stops then HasTurn(v, i) && Assembled(v, i, r) && r.1 != WouldBlock else r == PollFrom(v, i + 1)
  {
    stops := Stops(v, i);
    TurnOf(v, i, r);
  }

  /** What a poll that does not come back empty has found. */
  lemma {:induction false} PollStops(v: Receiver, i: nat, r: (Receiver, Status, Option<Message>)) returns (k: nat)
    requires Plain(v) && i <= |v.slots| && r == PollFrom(v, i) && r.1 != WouldBlock
    ensures HasTurn(v, k) && Assembled(v, k, r)
    decreases |v.slots| - i
  {
    var stops := TurnEnds(v, i, r);
    k := i;
    if !stops { k := PollStops(v, i + 1, r); }
  }

  lemma AssembledAnswers(v: Receiver, k: nat, r: (Receiver, Status, Option<Message>)) returns (parts: seq<nat>)
    requires Plain(v) && HasTurn(v, k) && Assembled(v, k, r)
    ensures Answers(v, k, parts)
    ensures r.1 == Ok ==> WholeWalk(v.slots, v.slots[k].value.tsn, parts) && AllHeld(v.slots, parts) && r.0 == Deliver(v, k, parts)
                          && r.2 == Some(Message(v.slots[k].value.sid, v.slots[k].value.ppid, Joined(v.slots, parts)))
    ensures r.1 != Ok ==> WrongWalk(v.slots, v.slots[k].value.tsn, parts) && r.0 == v && r.2 == None
  {
    parts := FoundIsWalk(v.slots, v.slots[k].value.tsn, Assemble(v.slots, v.slots[k].value.tsn, []));
  }

  /** The poll does not stop before descriptor `k`. */
  predicate NoStop(v: Receiver, i: nat, k: nat) {
    forall j | i <= j < k :: !Stops(v, j)
  }

  lemma TurnPasses(v: Receiver, i: nat, r: (Receiver, Status, Option<Message>))
    requires Plain(v) && i < |v.slots| && r == PollFrom(v, i) && !Stops(v, i)
    ensures r == PollFrom(v, i + 1)
  {
    TurnOf(v, i, r);
  }

  /** The poll goes on to the first descriptor at which it stops. */
  lemma {:induction false} PassesOver(v: Receiver, i: nat, k: nat, r: (Receiver, Status, Option<Message>), q: (Receiver, Status, Option<Message>))
    requires Plain(v) && i <= k <= |v.slots| && r == PollFrom(v, i) && q == PollFrom(v, k) && NoStop(v, i, k)
    ensures r == q
    decreases k - i
  {
    if i < k {
      TurnPasses(v, i, r);
      PassesOver(v, i + 1, k, r, q);
    }
  }

  lemma {:induction false} FirstStop(v: Receiver, i: nat, k: nat) returns (j: nat)
    requires i <= k && Stops(v, k)
    ensures i <= j <= k && Stops(v, j) && NoStop(v, i, j)
    decreases k - i
  {
    j := i;
    if !Stops(v, i) { j := FirstStop(v, i + 1, k); }
  }

  /** A descriptor that answers is not passed over. */
  lemma PollFinds(v: Receiver, k: nat, r: (Receiver, Status, Option<Message>))
    requires Plain(v) && Stops(v, k) && r == PollFrom(v, 0)
    ensures r.1 != WouldBlock
  {
    var j := FirstStop(v, 0, k);
    PassesOver(v, 0, j, r, PollFrom(v, j));
    TurnOf(v, j, r);
  }

  lemma AnswersIsFound(v: Receiver, k: nat, parts: seq<nat>)
    requires Plain(v) && Answers(v, k, parts)
    ensures !Assemble(v.slots, v.slots[k].value.tsn, []).Incomplete?
  {
    WalkDistinct(v.slots, v.slots[k].value.tsn, parts);
    WalkIsFound(v.slots, v.slots[k].value.tsn, parts, 0, [], Assemble(v.slots, v.slots[k].value.tsn, []));
  }

  /** Reclaiming first changes nothing that waits. */
  lemma ReclaimedPending(v: Receiver)
    ensures |Reclaim(v).slots| == |v.slots| && Reclaim(v).streams == v.streams
    ensures forall i: nat :: Pending(Reclaim(v).slots, i) <==> Pending(v.slots, i)
    ensures forall i: nat | Pending(v.slots, i) :: Reclaim(v).slots[i] == v.slots[i]
  {
    assert forall i | 0 <= i < |v.slots| :: Reclaim(v).slots[i] == Reclaimed(v.slots[i], v.cum);
  }

  lemma SameTurns(v: Receiver, w: Receiver, i: nat)
    requires |w.slots| == |v.slots| && w.streams == v.streams
    requires forall i: nat :: Pending(w.slots, i) <==> Pending(v.slots, i)
    requires forall i: nat | Pending(v.slots, i) :: w.slots[i] == v.slots[i]
    ensures HasTurn(w, i) <==> HasTurn(v, i)
  {
  }

  lemma {:induction false} SameJoined(a: Slots, b: Slots, parts: seq<nat>)
    requires AllHeld(a, parts) && AllHeld(b, parts) && forall k | 0 <= k < |parts| :: a[parts[k]] == b[parts[k]]
    ensures Joined(a, parts) == Joined(b, parts)
    decreases |parts|
  {
    if parts != [] { SameJoined(a, b, parts[..|parts| - 1]); }
  }

  lemma SameWalks(a: Slots, b: Slots, t: int, parts: seq<nat>)
    requires |a| == |b| && (forall i: nat :: Pending(a, i) <==> Pending(b, i)) && forall i: nat | Pending(a, i) :: b[i] == a[i]
    ensures WholeWalk(a, t, parts) <==> WholeWalk(b, t, parts)
    ensures WrongWalk(a, t, parts) <==> WrongWalk(b, t, parts)
  {
    if Walk(a, t, parts) { SameJoined(a, b, parts); }
    if Walk(b, t, parts) { SameJoined(a, b, parts); }
  }

  lemma SameAnswers(v: Receiver, i: nat, parts: seq<nat>)
    ensures Answers(Reclaim(v), i, parts) <==> Answers(v, i, parts)
  {
    ReclaimedPending(v);
    SameTurns(v, Reclaim(v), i);
    if HasTurn(v, i) { SameWalks(v.slots, Reclaim(v).slots, v.slots[i].value.tsn, parts); }
  }

  /** A poll comes back empty exactly when no waiting descriptor begins a message whose turn it is and
      from which the walk over consecutive TSNs ends or goes wrong. */
  lemma PollBlocksIff(v: Receiver)
    requires Plain(v)
    ensures PollDelivery(v).1 == WouldBlock <==> forall i: nat, parts: seq<nat> :: !Answers(v, i, parts)
  {
    var u := Reclaim(v);
    PlainReclaim(v);
    if PollDelivery(v).1 != WouldBlock {
      var k := PollStops(u, 0, PollDelivery(v));
      var parts := AssembledAnswers(u, k, PollDelivery(v));
      SameAnswers(v, k, parts);
    }
    if i: nat, parts: seq<nat> :| Answers(v, i, parts) {
      SameAnswers(v, i, parts);
      AnswersIsFound(u, i, parts);
      PollFinds(u, i, PollDelivery(v));
    }
  }

  /** What is left of a descriptor that is not handed out: delivered bytes are freed, with the descriptor
      when its TSN is acknowledged cumulatively. */
  predicate Cleared(a: Option<Entry>, cum: int, b: Option<Entry>) {
    if a.Some? && a.value.delivered then b == if a.value.tsn <= cum then None else Some(a.value.(data := []))
    else b == a
  }

  /** The stream of the message moves on by one, unless it is unordered or was skipped over. */
  ghost predicate MovesOn(v: Receiver, e: Entry, after: seq<Stream>) {
    forall sid: nat :: SsnOf(after, sid) == if sid == e.sid && !e.unordered && !e.forwarded then e.ssn + 1 else SsnOf(v.streams, sid)
  }

  /** The message that `parts` make up, which begins at descriptor `k`, and the table after it was taken. */
  ghost predicate HandsOut(v: Receiver, k: nat, parts: seq<nat>, w: Receiver, message: Message) {
    && HasTurn(v, k) && WholeWalk(v.slots, v.slots[k].value.tsn, parts) && AllHeld(v.slots, parts) && w.cum == v.cum
    && message == Message(v.slots[k].value.sid, v.slots[k].value.ppid, Joined(v.slots, parts))
    && |w.slots| == |v.slots|
    && (forall i | 0 <= i < |v.slots| && i in parts :: v.slots[i].Some? && w.slots[i] == Some(v.slots[i].value.(delivered := true)))
    && (forall i | 0 <= i < |v.slots| && i !in parts :: Cleared(v.slots[i], v.cum, w.slots[i]))
    && MovesOn(v, v.slots[k].value, w.streams)
  }

  /** A poll that hands out a message marks exactly its descriptors and moves its stream on; any other poll
      hands out nothing and only frees what was delivered before. */
  lemma PollExact(v: Receiver, r: (Receiver, Status, Option<Message>)) returns (k: nat, parts: seq<nat>)
    requires Plain(v) && r == PollDelivery(v)
    ensures r.1 == Ok ==> r.2.Some? && HandsOut(v, k, parts, r.0, r.2.value)
    ensures r.1 != Ok ==> r.2 == None && r.0.cum == v.cum && r.0.streams == v.streams && |r.0.slots| == |v.slots|
                          && forall i | 0 <= i < |v.slots| :: Cleared(v.slots[i], v.cum, r.0.slots[i])
  {
    var u := Reclaim(v);
    k, parts := 0, [];
    PlainReclaim(v);
    assert forall i | 0 <= i < |v.slots| :: u.slots[i] == Reclaimed(v.slots[i], v.cum);
    if r.1 == WouldBlock {
      BlockedLeaves(u, r);
    } else {
      k := PollStops(u, 0, r);
      parts := AssembledAnswers(u, k, r);
      if r.1 == Ok { HandedOver(v, u, k, parts, r.0); }
    }
  }

  lemma BlockedLeaves(u: Receiver, r: (Receiver, Status, Option<Message>))
    requires Plain(u) && r == PollFrom(u, 0) && r.1 == WouldBlock
    ensures r == (u, WouldBlock, None)
  {
    forall j | 0 <= j < |u.slots| ensures !Stops(u, j) {
      if Stops(u, j) { PollFinds(u, j, r); }
    }
    PassesOver(u, 0, |u.slots|, r, PollFrom(u, |u.slots|));
  }

  lemma HandedOver(v: Receiver, u: Receiver, k: nat, parts: seq<nat>, w: Receiver)
    requires u == Reclaim(v) && k < |u.slots| && HasTurn(u, k) && Eligible(u, k) && WholeWalk(u.slots, u.slots[k].value.tsn, parts)
    requires AllHeld(u.slots, parts) && w == Deliver(u, k, parts)
    ensures AllHeld(v.slots, parts)
    ensures HandsOut(v, k, parts, w, Message(u.slots[k].value.sid, u.slots[k].value.ppid, Joined(u.slots, parts)))
  {
    ReclaimedPending(v);
    SameTurns(v, u, k);
    SameWalks(v.slots, u.slots, u.slots[k].value.tsn, parts);
    forall j | 0 <= j < |parts| ensures parts[j] < |v.slots| && v.slots[parts[j]].Some? && v.slots[parts[j]] == u.slots[parts[j]] {
      assert Pending(u.slots, parts[j]);
    }
    SameJoined(v.slots, u.slots, parts);
    StreamMoves(v, u, k, parts, w);
    assert forall i | 0 <= i < |v.slots| :: u.slots[i] == Reclaimed(v.slots[i], v.cum);
  }

  lemma StreamMoves(v: Receiver, u: Receiver, k: nat, parts: seq<nat>, w: Receiver)
    requires u.streams == v.streams && k < |u.slots| && Eligible(u, k) && AllHeld(u.slots, parts) && w == Deliver(u, k, parts)
    ensures MovesOn(v, u.slots[k].value, w.streams)
  {
    DeliverShape(u, k, parts);
    var e := u.slots[k].value;
    forall sid: nat ensures SsnOf(w.streams, sid) == if sid == e.sid && !e.unordered && !e.forwarded then e.ssn + 1 else SsnOf(v.streams, sid) {
      SetSsnFrame(u.streams, e.sid, e.ssn + 1, sid);
    }
  }
}
