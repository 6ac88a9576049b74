/** A complete message whose turn it is comes out. In every reachable state a poll hands out a message
    exactly when some complete one has its turn, and no complete one is passed over for good. */
module SctpHandOut {
  import opened SctpTypes
  import opened SctpHistory
  import opened SctpReceiver
  import opened SctpDelivery
  import opened SctpDeliverStep
  import opened SctpSending
  import opened SctpSystem
  import opened SctpTheorems
  import opened SctpWhole
  import opened SctpPoll

  // ----- plain tables over runs -----

  lemma PlainDeliver(v: Receiver, k: nat, parts: seq<nat>, w: Receiver)
    requires Plain(v) && k < |v.slots| && Eligible(v, k) && AllHeld(v.slots, parts) && w == Deliver(v, k, parts)
    ensures Plain(w)
  {
    var e := v.slots[k].value;
    forall sid: nat | Known(v.streams, sid) ensures Known(w.streams, sid) {
      SetSsnFrame(v.streams, e.sid, SsnOf(v.streams, e.sid) + 1, sid);
    }
    PlainShrinks(v, w);
  }

  lemma PlainPoll(v: Receiver)
    requires Plain(v)
    ensures Plain(PollDelivery(v).0)
  {
    var u, r := Reclaim(v), PollDelivery(v);
    PlainReclaim(v);
    if r.1 == WouldBlock {
      BlockedLeaves(u, r);
    } else {
      var k := PollStops(u, 0, r);
      var parts := AssembledAnswers(u, k, r);
      if r.1 == Ok { PlainDeliver(u, k, parts, r.0); }
    }
  }

  lemma PlainStep(x: System, step: Step)
    requires Plain(x.rx) && Enabled(x, step)
    ensures Plain(Next(x, step).rx)
  {
    match step {
      case Arrive(DataPacket(c)) => PlainData(x.rx, c);
      case Arrive(ForwardPacket(newTsn, skips)) => PlainForward(x.rx, newTsn, skips);
      case Poll =>
        PolledIsNext(x);
        PlainPoll(x.rx);
      case ReceiverStream(sid) => PlainRegister(x.rx, sid);
      case Acknowledge => PlainShrinks(x.rx, Next(x, step).rx);
      case _ =>
    }
  }

  lemma {:induction false} PlainRun(x: System, steps: seq<Step>)
    requires Plain(x.rx) && Runnable(x, steps)
    ensures Plain(Run(x, steps).rx)
    decreases |steps|
  {
    if steps != [] {
      PlainStep(x, steps[0]);
      PlainRun(Next(x, steps[0]), steps[1..]);
    }
  }

  lemma ReachablePlain(x: System)
    requires Reachable(x)
    ensures Plain(x.rx)
  {
    var peerForward: bool, peerMax: nat, now: nat, rto: nat, steps: seq<Step> :| Leads(peerForward, peerMax, now, rto, steps, x);
    PlainRun(Initial(peerForward, peerMax, now, rto), steps);
  }

  // ----- genuine fragments never contradict each other -----

  /** The held fragment behind one that is not the last continues it. */
  lemma NextFollows(h: History, v: Receiver, p: nat, j: nat)
    requires HistoryOk(h) && TableOk(h, v) && Pending(v.slots, p) && Pending(v.slots, j)
    requires !v.slots[p].value.end && v.slots[j].value.tsn == v.slots[p].value.tsn + 1
    ensures SctpReceiver.Follows(v.slots[p].value, v.slots[j].value)
  {
    var a, b := v.slots[p].value, v.slots[j].value;
    assert EntryOk(h, v.cum, a) && EntryOk(h, v.cum, b);
    ApartSymmetric(h, v, p, j);
    NextOwner(h, a.tsn);
    var m := h.owner[a.tsn];
    assert ChunkOk(h.accepted[m], h.chunks[a.tsn], a.tsn) && ChunkOk(h.accepted[m], h.chunks[b.tsn], b.tsn);
  }

  lemma WalkFront(slots: Slots, t: int, parts: seq<nat>, front: seq<nat>, p: nat, j: nat)
    requires Walk(slots, t, parts) && |parts| > 1 && front == parts[..|parts| - 1] && p == parts[|parts| - 2] && j == parts[|parts| - 1]
    ensures Walk(slots, t, front) && parts == front + [j] && p == front[|front| - 1]
    ensures Pending(slots, p) && Pending(slots, j) && !slots[p].value.end && slots[j].value.tsn == slots[p].value.tsn + 1 == t + |front|
  {
    assert Pending(slots, parts[|parts| - 2]) && Pending(slots, parts[|parts| - 1]);
  }

  lemma {:induction false} WalkIsChain(h: History, v: Receiver, i: nat, t: int, parts: seq<nat>, hi: int)
    requires HistoryOk(h) && TableOk(h, v) && Pending(v.slots, i) && t == v.slots[i].value.tsn && Walk(v.slots, t, parts) && hi == t + |parts| - 1
    ensures Chain(h, v.slots, parts, v.slots[i].value.first, hi)
    ensures |parts| > 1 ==> SctpReceiver.Follows(v.slots[parts[|parts| - 2]].value, v.slots[parts[|parts| - 1]].value)
    decreases |parts|
  {
    if |parts| == 1 {
      assert Pending(v.slots, parts[0]) && parts == [parts[0]];
      OnlyHolder(h, v, i, parts[0]);
      AssembleStart(h, v, i);
    } else {
      var front, p, j := parts[..|parts| - 1], parts[|parts| - 2], parts[|parts| - 1];
      WalkFront(v.slots, t, parts, front, p, j);
      WalkIsChain(h, v, i, t, front, hi - 1);
      NextFollows(h, v, p, j);
      ChainStep(h, v, front, v.slots[i].value.first, hi - 1, j);
    }
  }

  lemma OnlyHolder(h: History, v: Receiver, i: nat, j: nat)
    requires TableOk(h, v) && Pending(v.slots, i) && Pending(v.slots, j) && v.slots[i].value.tsn == v.slots[j].value.tsn
    ensures i == j
  {
    assert EntryOk(h, v.cum, v.slots[i].value) && EntryOk(h, v.cum, v.slots[j].value);
    if i != j { ApartSymmetric(h, v, i, j); }
  }

  /** So no walk goes wrong. */
  lemma NoneWrong(h: History, v: Receiver, i: nat, parts: seq<nat>)
    requires HistoryOk(h) && TableOk(h, v) && Pending(v.slots, i)
    ensures !WrongWalk(v.slots, v.slots[i].value.tsn, parts)
  {
    if Walk(v.slots, v.slots[i].value.tsn, parts) {
      WalkIsChain(h, v, i, v.slots[i].value.tsn, parts, v.slots[i].value.tsn + |parts| - 1);
      PartFits(h, v.slots[i].value.first, v.slots[i].value.tsn + |parts| - 1);
    }
  }

  /** A complete message has its turn. */
  predicate Ready(v: Receiver, i: nat, parts: seq<nat>) {
    HasTurn(v, i) && WholeWalk(v.slots, v.slots[i].value.tsn, parts)
  }

  /** In every reachable state a poll comes back empty exactly when no complete message has its turn,
      and else hands out a message. */
  lemma ReachablePollIff(x: System)
    requires Reachable(x)
    ensures PollDelivery(x.rx).1 == WouldBlock <==> forall i: nat, parts: seq<nat> :: !Ready(x.rx, i, parts)
    ensures PollDelivery(x.rx).1 == Ok || PollDelivery(x.rx).1 == WouldBlock
    ensures PollDelivery(x.rx).1 == Ok <==> PollDelivery(x.rx).2.Some?
  {
    ReachableTable(x);
    ReachablePlain(x);
    PollIff(x.history, x.rx);
  }

  lemma PollIff(h: History, v: Receiver)
    requires HistoryOk(h) && TableOk(h, v) && Plain(v)
    ensures PollDelivery(v).1 == WouldBlock <==> forall i: nat, parts: seq<nat> :: !Ready(v, i, parts)
    ensures PollDelivery(v).1 == Ok || PollDelivery(v).1 == WouldBlock
    ensures PollDelivery(v).1 == Ok <==> PollDelivery(v).2.Some?
  {
    PollBlocksIff(v);
    forall i: nat, parts: seq<nat> ensures Answers(v, i, parts) <==> Ready(v, i, parts) {
      if HasTurn(v, i) { NoneWrong(h, v, i, parts); }
    }
    PollStatus(h, v, PollDelivery(v));
  }

  lemma PollStatus(h: History, v: Receiver, r: (Receiver, Status, Option<Message>))
    requires HistoryOk(h) && TableOk(h, v) && Plain(v) && r == PollDelivery(v)
    ensures r.1 == Ok || r.1 == WouldBlock
    ensures r.1 == Ok <==> r.2.Some?
  {
    var u := Reclaim(v);
    PlainReclaim(v);
    ReclaimedTable(h, v);
    if r.1 == WouldBlock {
      BlockedLeaves(u, r);
    } else {
      var k := PollStops(u, 0, r);
      var parts := AssembledAnswers(u, k, r);
      NoneWrong(h, u, k, parts);
    }
  }

  // ----- and it comes out -----

  ghost function PendingSet(slots: Slots): (r: set<nat>) {
    set i: nat | i < |slots| && Pending(slots, i)
  }

  /** Two waiting descriptors that begin one message are one. */
  lemma OneBegin(h: History, v: Receiver, i: nat, k: nat)
    requires HistoryOk(h) && TableOk(h, v) && Pending(v.slots, i) && Pending(v.slots, k)
    requires v.slots[i].value.begin && v.slots[k].value.begin
    requires 0 <= v.slots[i].value.tsn < |h.owner| && 0 <= v.slots[k].value.tsn < |h.owner|
    requires h.owner[v.slots[i].value.tsn] == h.owner[v.slots[k].value.tsn]
    ensures i == k
  {
    var a, b := v.slots[i].value, v.slots[k].value;
    assert EntryOk(h, v.cum, a) && EntryOk(h, v.cum, b);
    assert ChunkOk(h.accepted[h.owner[a.tsn]], h.chunks[a.first], a.first);
    assert ChunkOk(h.accepted[h.owner[b.tsn]], h.chunks[b.first], b.first);
    if i != k { ApartSymmetric(h, v, i, k); }
  }

  lemma ReadyIsAssembled(h: History, v: Receiver, i: nat, parts: seq<nat>)
    requires HistoryOk(h) && TableOk(h, v) && Plain(v) && Ready(v, i, parts)
    ensures Assemble(v.slots, v.slots[i].value.tsn, []) == Complete(parts)
  {
    var t := v.slots[i].value.tsn;
    var r := Assemble(v.slots, t, []);
    AnswersIsFound(v, i, parts);
    var all := FoundIsWhole(h, v, i, t, r);
    SameParts(v.slots, t, parts, all);
  }

  /** Assembling that does not run out of fragments finds a whole message. */
  lemma FoundIsWhole(h: History, v: Receiver, i: nat, t: int, r: Assembly) returns (all: seq<nat>)
    requires HistoryOk(h) && TableOk(h, v) && DistinctTsns(v.slots) && Pending(v.slots, i) && t == v.slots[i].value.tsn
    requires r == Assemble(v.slots, t, []) && !r.Incomplete?
    ensures r == Complete(all) && WholeWalk(v.slots, t, all)
  {
    all := FoundIsWalk(v.slots, t, r);
    NoneWrong(h, v, i, all);
  }

  /** There is one walk from a TSN to a last fragment. */
  lemma {:induction false} SameUpTo(slots: Slots, t: int, a: seq<nat>, b: seq<nat>, n: nat)
    requires DistinctTsns(slots) && Walk(slots, t, a) && Walk(slots, t, b) && n <= |a| && n <= |b|
    ensures a[..n] == b[..n]
  {
    if n > 0 {
      SameUpTo(slots, t, a, b, n - 1);
      assert Pending(slots, a[n - 1]) && Pending(slots, b[n - 1]);
      assert a[..n] == a[..n - 1] + [a[n - 1]] && b[..n] == b[..n - 1] + [b[n - 1]];
    }
  }

  lemma SameParts(slots: Slots, t: int, a: seq<nat>, b: seq<nat>)
    requires DistinctTsns(slots) && WholeWalk(slots, t, a) && WholeWalk(slots, t, b)
    ensures a == b
  {
    var n := if |a| < |b| then |a| else |b|;
    SameUpTo(slots, t, a, b, n);
    assert Pending(slots, a[n - 1]) && Pending(slots, b[n - 1]) && a[n - 1] == a[..n][n - 1] == b[..n][n - 1] == b[n - 1];
    assert a[..|a|] == a && b[..|b|] == b;
  }

  /** A part of one complete message is not part of another. */
  lemma PartsApart(h: History, v: Receiver, i: nat, parts: seq<nat>, k: nat, others: seq<nat>, p: nat)
    requires HistoryOk(h) && TableOk(h, v) && i != k && Pending(v.slots, i) && Pending(v.slots, k)
    requires v.slots[i].value.begin && v.slots[k].value.begin && p in parts
    requires Assemble(v.slots, v.slots[i].value.tsn, []) == Complete(parts)
    requires Assemble(v.slots, v.slots[k].value.tsn, []) == Complete(others)
    ensures p !in others
  {
    if p in others {
      var a :| 0 <= a < |parts| && parts[a] == p;
      var b :| 0 <= b < |others| && others[b] == p;
      assert EntryOk(h, v.cum, v.slots[p].value);
      PartIsOwned(h, v, i, parts, a, v.slots[p].value.tsn);
      PartIsOwned(h, v, k, others, b, v.slots[p].value.tsn);
      OneBegin(h, v, i, k);
    }
  }

  /** After another message was handed out the turn is kept. */
  lemma TurnKept(h: History, v: Receiver, i: nat, k: nat, others: seq<nat>, w: Receiver)
    requires HistoryOk(h) && TableOk(h, v) && i != k && HasTurn(v, i) && HasTurn(v, k) && Eligible(v, k)
    requires AllHeld(v.slots, others) && i !in others && w == Deliver(v, k, others)
    ensures HasTurn(w, i)
  {
    DeliverShape(v, k, others);
    var e, f := v.slots[i].value, v.slots[k].value;
    if !e.unordered && !e.forwarded {
      NumberKept(h, v, i, k, w);
    }
  }

  /** It still carries its stream's next number. */
  lemma NumberKept(h: History, v: Receiver, i: nat, k: nat, w: Receiver)
    requires HistoryOk(h) && TableOk(h, v) && i != k && HasTurn(v, i) && HasTurn(v, k) && Known(v.streams, v.slots[k].value.sid)
    requires !v.slots[i].value.unordered && !v.slots[i].value.forwarded
    requires w.streams == if v.slots[k].value.unordered || v.slots[k].value.forwarded then v.streams
                          else SetSsn(v.streams, v.slots[k].value.sid, v.slots[k].value.ssn + 1)
    ensures v.slots[i].value.ssn == SsnOf(w.streams, v.slots[i].value.sid)
  {
    var e, f := v.slots[i].value, v.slots[k].value;
    if !f.unordered && !f.forwarded {
      if e.sid == f.sid { SameNumber(h, v, i, k); }
      SetSsnFrame(v.streams, f.sid, f.ssn + 1, e.sid);
    }
  }

  /** Two ordered messages of one stream have different numbers. */
  lemma SameNumber(h: History, v: Receiver, i: nat, k: nat)
    requires HistoryOk(h) && TableOk(h, v) && i != k && Pending(v.slots, i) && Pending(v.slots, k)
    requires v.slots[i].value.begin && v.slots[k].value.begin && !v.slots[i].value.unordered && !v.slots[k].value.unordered
    requires v.slots[i].value.sid == v.slots[k].value.sid
    ensures v.slots[i].value.ssn != v.slots[k].value.ssn
  {
    var a, b := v.slots[i].value, v.slots[k].value;
    assert EntryOk(h, v.cum, a) && EntryOk(h, v.cum, b);
    var m, n := h.owner[a.tsn], h.owner[b.tsn];
    assert ChunkOk(h.accepted[m], h.chunks[a.tsn], a.tsn) && ChunkOk(h.accepted[n], h.chunks[b.tsn], b.tsn);
    if a.ssn == b.ssn {
      SsnOrder(h, m, n);
      OneBegin(h, v, i, k);
    }
  }

  /** One poll: the message comes out, or another one does and it keeps its turn. */
  lemma OnePoll(h: History, v: Receiver, i: nat, parts: seq<nat>, r: (Receiver, Status, Option<Message>)) returns (k: nat)
    requires HistoryOk(h) && TableOk(h, v) && Plain(v) && Ready(v, i, parts) && r == PollFrom(v, 0)
    ensures r.2.Some? && 0 <= v.slots[i].value.tsn < |h.owner| && h.owner[v.slots[i].value.tsn] < |h.accepted|
    ensures k == i ==> r.2.value == AsMessage(h.accepted[h.owner[v.slots[i].value.tsn]])
    ensures k != i ==> Ready(r.0, i, parts) && r.0.slots[i] == v.slots[i] && PendingSet(r.0.slots) < PendingSet(v.slots)
  {
    ReadyIsAssembled(h, v, i, parts);
    PollFinds(v, i, r);
    k := PollStops(v, 0, r);
    var others := AssembledAnswers(v, k, r);
    NoneWrong(h, v, k, others);
    AssembleMessage(h, v, i, parts);
    if k == i {
      SameParts(v.slots, v.slots[i].value.tsn, parts, others);
    } else {
      ReadyIsAssembled(h, v, k, others);
      OtherPoll(h, v, i, parts, k, others, r.0);
    }
  }

  lemma OtherPoll(h: History, v: Receiver, i: nat, parts: seq<nat>, k: nat, others: seq<nat>, w: Receiver)
    requires HistoryOk(h) && TableOk(h, v) && i != k && Ready(v, i, parts) && Ready(v, k, others) && Eligible(v, k)
    requires Assemble(v.slots, v.slots[i].value.tsn, []) == Complete(parts)
    requires Assemble(v.slots, v.slots[k].value.tsn, []) == Complete(others) && w == Deliver(v, k, others)
    ensures Ready(w, i, parts) && w.slots[i] == v.slots[i] && PendingSet(w.slots) < PendingSet(v.slots)
  {
    FirstIsPart(h, v, i, parts);
    FirstIsPart(h, v, k, others);
    forall p | p in parts ensures p !in others { PartsApart(h, v, i, parts, k, others, p); }
    TurnKept(h, v, i, k, others, w);
    WalkKept(v.slots, w.slots, v.slots[i].value.tsn, parts, others);
    assert k in PendingSet(v.slots) && k !in PendingSet(w.slots);
  }

  lemma FirstIsPart(h: History, v: Receiver, i: nat, parts: seq<nat>)
    requires TableOk(h, v) && Pending(v.slots, i) && WholeWalk(v.slots, v.slots[i].value.tsn, parts)
    ensures parts[0] == i && i in parts
  {
    assert Pending(v.slots, parts[0]);
    OnlyHolder(h, v, i, parts[0]);
  }

  lemma WalkKept(a: Slots, b: Slots, t: int, parts: seq<nat>, others: seq<nat>)
    requires WholeWalk(a, t, parts) && AllHeld(a, others) && b == MarkDelivered(a, others) && forall p | p in parts :: p !in others
    ensures WholeWalk(b, t, parts)
  {
    forall k | 0 <= k < |parts| ensures Pending(b, parts[k]) && b[parts[k]] == a[parts[k]] {
      assert Pending(a, parts[k]);
    }
  }

  // ----- polls in a row -----

  function Polls(n: nat): (r: seq<Step>)
    ensures |r| == n && forall k | 0 <= k < n :: r[k] == Poll
  {
    seq(n, _ => Poll)
  }

  /** The last of `n` polls in a row hands out the message whose fragment `e` is. */
  predicate Comes(x: System, e: Entry, n: nat) {
    && Owned(x.history, e) && 0 < n && Runnable(x, Polls(n))
    && HandsLast(x.history, e, Run(x, Polls(n)).out, |x.out| + n)
  }

  predicate Owned(h: History, e: Entry) {
    0 <= e.tsn < |h.owner| && h.owner[e.tsn] < |h.accepted|
  }

  lemma {:induction false} HandedOut(x: System, i: nat, parts: seq<nat>, e: Entry, bound: nat) returns (n: nat)
    requires Reachable(x) && Ready(x.rx, i, parts) && e == x.rx.slots[i].value && bound == |PendingSet(x.rx.slots)|
    ensures n <= bound && Comes(x, e, n)
    decreases bound
  {
    var k, y := AfterPoll(x, i, parts, e);
    if k == i {
      n := 1;
      OnePolled(x, y, e);
    } else {
      var m := HandedOut(y, i, parts, e, |PendingSet(y.rx.slots)|);
      MorePolls(x, y, e, m);
      n := m + 1;
    }
  }

  /** The last of `n` messages handed out is the one whose fragment `e` is. */
  predicate HandsLast(h: History, e: Entry, out: seq<Message>, n: nat)
    requires Owned(h, e)
  {
    0 < n == |out| && out[n - 1] == AsMessage(h.accepted[h.owner[e.tsn]])
  }

  /** The state after one poll. */
  lemma AfterPoll(x: System, i: nat, parts: seq<nat>, e: Entry) returns (k: nat, y: System)
    requires Reachable(x) && Ready(x.rx, i, parts) && e == x.rx.slots[i].value
    ensures Owned(x.history, e)
    ensures y == Next(x, Poll) && Reachable(y) && y.history == x.history && |y.out| == |x.out| + 1 && 0 < |PendingSet(x.rx.slots)|
    ensures k == i ==> HandsLast(x.history, e, y.out, |x.out| + 1)
    ensures k != i ==> Ready(y.rx, i, parts) && e == y.rx.slots[i].value && |PendingSet(y.rx.slots)| < |PendingSet(x.rx.slots)|
  {
    ReachableTable(x);
    ReachablePlain(x);
    ReachableMore(x, Poll);
    PolledIsNext(x);
    y := Next(x, Poll);
    k := PollOnce(x, i, parts, e, y);
    assert i in PendingSet(x.rx.slots);
    if k != i { FewerPending(PendingSet(y.rx.slots), PendingSet(x.rx.slots)); }
  }

  lemma PollOnce(x: System, i: nat, parts: seq<nat>, e: Entry, y: System) returns (k: nat)
    requires HistoryOk(x.history) && TableOk(x.history, x.rx) && Plain(x.rx) && Ready(x.rx, i, parts) && e == x.rx.slots[i].value && y == Polled(x)
    ensures Owned(x.history, e)
    ensures y.history == x.history && |y.out| == |x.out| + 1
    ensures k == i ==> HandsLast(x.history, e, y.out, |x.out| + 1)
    ensures k != i ==> Ready(y.rx, i, parts) && e == y.rx.slots[i].value && PendingSet(y.rx.slots) < PendingSet(x.rx.slots)
  {
    var u := Reclaim(x.rx);
    PlainReclaim(x.rx);
    ReclaimedTable(x.history, x.rx);
    SameReady(x.rx, i, parts);
    k := OnePoll(x.history, u, i, parts, PollDelivery(x.rx));
  }

  lemma SameReady(v: Receiver, i: nat, parts: seq<nat>)
    requires Ready(v, i, parts)
    ensures Ready(Reclaim(v), i, parts) && Reclaim(v).slots[i] == v.slots[i]
    ensures PendingSet(Reclaim(v).slots) == PendingSet(v.slots)
  {
    ReclaimedPending(v);
    SameTurns(v, Reclaim(v), i);
    SameWalks(v.slots, Reclaim(v).slots, v.slots[i].value.tsn, parts);
  }

  lemma FewerPending(a: set<nat>, b: set<nat>)
    requires a < b
    ensures |a| < |b|
  {
    var x :| x in b && x !in a;
    assert a <= b - {x};
    SubsetSize(a, b - {x});
  }

  lemma SubsetSize(a: set<nat>, b: set<nat>)
    requires a <= b
    ensures |a| <= |b|
  {
    assert b == a + (b - a);
  }

  lemma OnePolled(x: System, y: System, e: Entry)
    requires y == Next(x, Poll) && Owned(x.history, e) && HandsLast(x.history, e, y.out, |x.out| + 1)
    ensures Comes(x, e, 1)
  {
    assert Polls(1)[1..] == [];
  }

  lemma MorePolls(x: System, y: System, e: Entry, m: nat)
    requires y == Next(x, Poll) && y.history == x.history && |y.out| == |x.out| + 1 && Comes(y, e, m)
    ensures Comes(x, e, m + 1)
  {
    assert Polls(m + 1)[1..] == Polls(m);
  }

  /** A complete message that has its turn, an unordered one for instance, is handed out by one of the
      next polls: at the latest when every waiting descriptor has had its own. */
  lemma CompleteIsHandedOut(x: System, i: nat, parts: seq<nat>) returns (n: nat)
    requires Reachable(x) && Ready(x.rx, i, parts)
    ensures 0 < n <= |x.rx.slots| && Runnable(x, Polls(n))
    ensures 0 <= x.rx.slots[i].value.tsn < |x.history.owner| && x.history.owner[x.rx.slots[i].value.tsn] < |x.history.accepted|
    ensures HandsLast(x.history, x.rx.slots[i].value, Run(x, Polls(n)).out, |x.out| + n)
  {
    n := HandedOut(x, i, parts, x.rx.slots[i].value, |PendingSet(x.rx.slots)|);
    PendingBound(x.rx.slots, |x.rx.slots|);
  }

  lemma {:induction false} PendingBound(slots: Slots, n: nat)
    requires n <= |slots|
    ensures |set i: nat | i < n && Pending(slots, i)| <= n
    decreases n
  {
    var all := set i: nat | i < n && Pending(slots, i);
    if n > 0 {
      var m: nat := n - 1;
      PendingBound(slots, m);
      var less := set i: nat | i < m && Pending(slots, i);
      assert all <= less + {m};
      SubsetSize(all, less + {m});
    }
  }
}
