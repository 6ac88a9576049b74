/** Ordinary reordering, from the start of an association to a stuck message: one message in four
    fragments, of which the network delivers 0, 1, 3 and then 2. Fragment 1 merges into fragment 0, in
    the highest descriptor; fragment 3 takes the next one down and fragment 2 the one below that,
    where it absorbs fragment 3. The front can then never absorb fragment 2. */
module SctpStuckRun {
  import opened SctpTypes
  import opened SctpReceiver
  import opened SctpSender
  import opened SctpSubmit
  import opened SctpSystem
  import opened SctpTheorems
  import opened SctpMergeOrder
  import opened SctpStuck
  import opened SctpSteps

  predicate From(steps: seq<Step>, x: System) {
    Leads(true, 0, 0, 1000, steps, x)
  }

  lemma FromMore(steps: seq<Step>, x: System, step: Step)
    requires From(steps, x) && Enabled(x, step)
    ensures From(steps + [step], Next(x, step))
  {
    RunMore(Initial(true, 0, 0, 1000), steps, step);
  }

  // ----- sending -----

  function Ask(data: seq<Byte>): Request {
    Request(1, 51, data, false, -1)
  }

  /** Fragment `k` of the message. */
  function Part(k: nat, payload: seq<Byte>): Chunk {
    Chunk(k, 1, 0, 51, k == 0, k == 3, false, payload)
  }

  /** Three full payloads and a short one. */
  predicate Chosen(a: seq<Byte>, b: seq<Byte>, c: seq<Byte>, d: seq<Byte>) {
    |a| == |b| == |c| == MTU_PAYLOAD && |d| == 1
  }

  function Chunks(a: seq<Byte>, b: seq<Byte>, c: seq<Byte>, d: seq<Byte>): (r: seq<Chunk>)
    ensures |r| == 4
  {
    [Part(0, a), Part(1, b), Part(2, c), Part(3, d)]
  }

  /** The chunks are queued, the first `t` of them sent, and nothing was received. */
  predicate Loaded(x: System, t: nat, chunks: seq<Chunk>) {
    && |chunks| == |x.tx.queue| && x.tx.established && !x.tx.forwardPending
    && (forall k | 0 <= k < |chunks| :: x.tx.queue[k].chunk == chunks[k])
    && (forall k | 0 <= k < |chunks| :: !x.tx.queue[k].acked && !x.tx.queue[k].abandoned && (x.tx.queue[k].inFlight <==> k < t))
    && (forall k | 0 <= k < |chunks| && k < t :: DataPacket(chunks[k]) in x.net)
    && x.rx == Receiver(-1, Tab(None, None, None), [], false)
  }

  lemma TransmitMore(x: System, t: nat, chunks: seq<Chunk>)
    requires Loaded(x, t, chunks) && t < |chunks|
    ensures Loaded(Next(x, Transmit), t + 1, chunks)
  {
    assert Sendable(x.tx.queue[t]);
    assert FirstSendable(x.tx.queue, 0) == t;
  }

  lemma SplitInFour(p: Plan, a: seq<Byte>, b: seq<Byte>, c: seq<Byte>, d: seq<Byte>)
    requires p.count == 4 && Chosen(a, b, c, d)
    ensures Fragments(p, a + (b + (c + d)), 0) == [Fragment(p, 0, a), Fragment(p, 1, b), Fragment(p, 2, c), Fragment(p, 3, d)]
  {
    NextFragment(p, a, b + (c + d), 0);
    NextFragment(p, b, c + d, 1);
    NextFragment(p, c, d, 2);
    assert d[..1] == d && Fragments(p, d[1..], 4) == [];
    assert Fragments(p, d, 3) == [Fragment(p, 3, d)];
  }

  lemma NextFragment(p: Plan, a: seq<Byte>, rest: seq<Byte>, i: nat)
    requires i < p.count && |a| == MTU_PAYLOAD && rest != []
    ensures Fragments(p, a + rest, i) == [Fragment(p, i, a)] + Fragments(p, rest, i + 1)
  {
    assert (a + rest)[..MTU_PAYLOAD] == a && (a + rest)[MTU_PAYLOAD..] == rest;
  }

  /** The fragments queued for the message are its chunks, none sent yet. */
  lemma FourQueued(a: seq<Byte>, b: seq<Byte>, c: seq<Byte>, d: seq<Byte>, p: Plan, q: Queue)
    requires p.count == 4 && p.tsn == 0 && q == [Fragment(p, 0, a), Fragment(p, 1, b), Fragment(p, 2, c), Fragment(p, 3, d)]
    requires p.sid == 1 && p.ssn == 0 && p.ppid == 51 && !p.unordered
    ensures forall k | 0 <= k < 4 :: q[k].chunk == Chunks(a, b, c, d)[k]
    ensures forall k | 0 <= k < 4 :: !q[k].acked && !q[k].abandoned && !q[k].inFlight
  {
  }

  lemma SubmitFour(a: seq<Byte>, b: seq<Byte>, c: seq<Byte>, d: seq<Byte>, v: Sender, w: Sender)
    requires Chosen(a, b, c, d) && v == Initial(true, 0, 0, 1000).tx && w == Send(v, Ask(a + (b + (c + d)))).0
    ensures w.established && !w.forwardPending && |w.queue| == 4
    ensures forall k | 0 <= k < 4 :: w.queue[k].chunk == Chunks(a, b, c, d)[k]
    ensures forall k | 0 <= k < 4 :: !w.queue[k].acked && !w.queue[k].abandoned && !w.queue[k].inFlight
  {
    var r := Ask(a + (b + (c + d)));
    assert |r.data| == 3517 && FragmentCount(3517) == 4;
    assert Register([], 1) == [Stream(1, 0)] && SendCheck(v, 1, 3517, -1) == Ok;
    var p := PlanFor(v, r);
    SplitInFour(p, a, b, c, d);
    FourQueued(a, b, c, d, p, [Fragment(p, 0, a), Fragment(p, 1, b), Fragment(p, 2, c), Fragment(p, 3, d)]);
    assert w.queue == [Fragment(p, 0, a), Fragment(p, 1, b), Fragment(p, 2, c), Fragment(p, 3, d)];
  }

  lemma Submitted(a: seq<Byte>, b: seq<Byte>, c: seq<Byte>, d: seq<Byte>) returns (steps: seq<Step>, x: System)
    requires Chosen(a, b, c, d)
    ensures From(steps, x) && Loaded(x, 0, Chunks(a, b, c, d)) && NoForwardPast(steps, -1)
  {
    var start, ask := Initial(true, 0, 0, 1000), Submit(Ask(a + (b + (c + d))));
    assert From([], start);
    assert start.rx.slots == Tab(None, None, None);
    SubmitFour(a, b, c, d, start.tx, Next(start, ask).tx);
    FromMore([], start, ask);
    steps, x := [] + [ask], Next(start, ask);
  }

  lemma Sent(a: seq<Byte>, b: seq<Byte>, c: seq<Byte>, d: seq<Byte>) returns (steps: seq<Step>, x: System)
    requires Chosen(a, b, c, d)
    ensures From(steps, x) && Loaded(x, 4, Chunks(a, b, c, d)) && NoForwardPast(steps, -1)
  {
    steps, x := Submitted(a, b, c, d);
    for t := 0 to 4
      invariant From(steps, x) && Loaded(x, t, Chunks(a, b, c, d)) && NoForwardPast(steps, -1)
    {
      TransmitMore(x, t, Chunks(a, b, c, d));
      FromMore(steps, x, Transmit);
      steps, x := steps + [Transmit], Next(x, Transmit);
    }
  }

  // ----- the four arrivals -----

  lemma Arrival0(c: Chunk, w: Receiver)
    requires c.tsn == 0 && c.sid == 1 && c.begin && |c.payload| == MTU_PAYLOAD
    requires w == Receiver(0, Tab(None, None, Some(Incoming(c))), [Stream(1, 0)], true)
    ensures HandleData(Receiver(-1, Tab(None, None, None), [], false), c).0 == w
  {
    var v := Receiver(-1, Tab(None, None, None), [], false);
    TabTotals(None, None, None);
    TabFree(None, None, None);
    assert Register([], 1) == [Stream(1, 0)];
    assert v.slots[7 := Some(Incoming(c))] == w.slots;
    assert w.slots[7].value.tsn == 0;
    Stored(v, c, w);
    NothingToMerge(w);
  }

  lemma Arrival1(c: Chunk, z: Entry)
    requires c.tsn == 1 && c.sid == 1 && |c.payload| == MTU_PAYLOAD
    requires z.tsn == 0 && !z.delivered && |z.data| == MTU_PAYLOAD && Follows(z, Incoming(c))
    ensures HandleData(Receiver(0, Tab(None, None, Some(z)), [Stream(1, 0)], true), c) ==
            Merge(Receiver(1, Tab(None, Some(Incoming(c)), Some(z)), [Stream(1, 0)], true))
  {
    var v := Receiver(0, Tab(None, None, Some(z)), [Stream(1, 0)], true);
    var w := Receiver(1, Tab(None, Some(Incoming(c)), Some(z)), [Stream(1, 0)], true);
    TabTotals(None, None, Some(z));
    TabFree(None, None, Some(z));
    assert Register([Stream(1, 0)], 1) == [Stream(1, 0)];
    assert v.slots[6 := Some(Incoming(c))] == w.slots;
    assert w.slots[6].value.tsn == 1;
    Stored(v, c, w);
  }

  /** The second fragment merges into the first. */
  lemma RightOrder(y: Entry, z: Entry, w: Receiver)
    requires w == Receiver(1, Tab(None, Some(y), Some(z)), w.streams, w.sackNeeded)
    requires !y.delivered && !z.delivered && y.tsn == 1 && z.tsn == 0 && Follows(z, y) && |z.data| + |y.data| <= MAX_MESSAGE_SIZE
    ensures Merge(w).0 == w.(slots := Tab(None, None, Some(Merged(z, y))))
  {
    MergesOnce(w, 7, 6, w.(slots := Tab(None, None, Some(Merged(z, y)))));
  }

  /** One pair merges, the lowest one, and none is left. */
  lemma MergesOnce(w: Receiver, a: nat, b: nat, after: Receiver)
    requires CanMerge(w, a, b) && a != b && |w.slots[a].value.data| + |w.slots[b].value.data| <= MAX_MESSAGE_SIZE
    requires forall i: nat, j: nat | CanMerge(w, i, j) :: i > a || (i == a && j == b)
    requires after == w.(slots := MergeAt(w.slots, a, b)) && Settled(after)
    ensures Merge(w).0 == after
  {
    if FirstPair(w, 0, 0).None? { NoPairLeft(w, 0, 0, a, b); }
    var (i, j) := FirstPair(w, 0, 0).value;
    if i > a { FirstPairIsLowest(w, 0, 0, a, b); }
    assert i == a && j == b;
    CountHeldMergeAt(w.slots, a, b);
    NothingToMerge(after);
  }

  /** The last fragment comes early and takes the descriptor below. */
  lemma Arrival3(c: Chunk, z: Entry)
    requires c.tsn == 3 && c.sid == 1 && |c.payload| == 1
    requires z.tsn == 1 && !z.delivered && |z.data| == 2 * MTU_PAYLOAD
    ensures HandleData(Receiver(1, Tab(None, None, Some(z)), [Stream(1, 0)], true), c).0 ==
            Receiver(1, Tab(None, Some(Incoming(c)), Some(z)), [Stream(1, 0)], true)
  {
    var v := Receiver(1, Tab(None, None, Some(z)), [Stream(1, 0)], true);
    var w := Receiver(1, Tab(None, Some(Incoming(c)), Some(z)), [Stream(1, 0)], true);
    TabTotals(None, None, Some(z));
    TabFree(None, None, Some(z));
    assert Register([Stream(1, 0)], 1) == [Stream(1, 0)];
    assert v.slots[6 := Some(Incoming(c))] == w.slots;
    Stored(v, c, w);
    NothingToMerge(w);
  }

  /** The third fragment fills the gap from the lowest descriptor. */
  lemma Arrival2(c: Chunk, y: Entry, z: Entry)
    requires c.tsn == 2 && c.sid == 1 && |c.payload| == MTU_PAYLOAD
    requires z.tsn == 1 && !z.delivered && |z.data| == 2 * MTU_PAYLOAD && Follows(z, Incoming(c))
    requires y.tsn == 3 && !y.delivered && |y.data| == 1
    ensures HandleData(Receiver(1, Tab(None, Some(y), Some(z)), [Stream(1, 0)], true), c) ==
            Merge(Receiver(3, Tab(Some(Incoming(c)), Some(y), Some(z)), [Stream(1, 0)], true))
  {
    var v := Receiver(1, Tab(None, Some(y), Some(z)), [Stream(1, 0)], true);
    var w := Receiver(3, Tab(Some(Incoming(c)), Some(y), Some(z)), [Stream(1, 0)], true);
    TabTotals(None, Some(y), Some(z));
    TabFree(None, Some(y), Some(z));
    assert Register([Stream(1, 0)], 1) == [Stream(1, 0)];
    assert v.slots[5 := Some(Incoming(c))] == w.slots;
    assert w.slots[5].value.tsn == 2 && w.slots[6].value.tsn == 3;
    Stored(v, c, w);
  }

  /** It absorbs the last one, and the front then has no successor. */
  lemma WrongOrder(x: Entry, y: Entry, z: Entry, w: Receiver)
    requires w == Receiver(3, Tab(Some(x), Some(y), Some(z)), w.streams, w.sackNeeded)
    requires !x.delivered && !y.delivered && !z.delivered && x.tsn == 2 && y.tsn == 3 && z.tsn == 1 && y.end
    requires Follows(x, y) && |x.data| + |y.data| <= MAX_MESSAGE_SIZE
    ensures Merge(w).0 == w.(slots := Tab(Some(Merged(x, y)), None, Some(z)))
  {
    MergesOnce(w, 5, 6, w.(slots := Tab(Some(Merged(x, y)), None, Some(z))));
  }

  // ----- the run -----

  lemma StuckTable(x: Entry, y: Entry, z: Entry, v: Receiver)
    requires v == Receiver(3, Tab(Some(Merged(x, y)), None, Some(z)), v.streams, v.sackNeeded)
    requires !x.delivered && !z.delivered && x.first == 2 && y.tsn == 3 && !x.begin && z.begin && !z.end && z.first == 0 && z.tsn == 1
    ensures Stuck(v, 0, 4, 5, 7)
  {
  }

  /** The first two arrivals. */
  lemma Started(a: seq<Byte>, b: seq<Byte>, c: seq<Byte>, d: seq<Byte>) returns (steps: seq<Step>, x: System)
    requires Chosen(a, b, c, d)
    ensures From(steps, x) && NoForwardPast(steps, -1)
    ensures DataPacket(Part(2, c)) in x.net && DataPacket(Part(3, d)) in x.net
    ensures x.rx == Receiver(1, Tab(None, None, Some(Merged(Incoming(Part(0, a)), Incoming(Part(1, b))))), [Stream(1, 0)], true)
  {
    steps, x := Sent(a, b, c, d);
    AllSent(x, Part(0, a), Part(1, b), Part(2, c), Part(3, d));
    var y, z := Incoming(Part(1, b)), Incoming(Part(0, a));
    Arrival0(Part(0, a), Receiver(0, Tab(None, None, Some(z)), [Stream(1, 0)], true));
    steps, x := Take(steps, x, Arrive(DataPacket(Part(0, a))));
    Arrival1(Part(1, b), z);
    RightOrder(y, z, Receiver(1, Tab(None, Some(y), Some(z)), [Stream(1, 0)], true));
    steps, x := Take(steps, x, Arrive(DataPacket(Part(1, b))));
  }

  lemma AllSent(x: System, c0: Chunk, c1: Chunk, c2: Chunk, c3: Chunk)
    requires Loaded(x, 4, [c0, c1, c2, c3])
    ensures DataPacket(c0) in x.net && DataPacket(c1) in x.net && DataPacket(c2) in x.net && DataPacket(c3) in x.net
  {
    var chunks := [c0, c1, c2, c3];
    assert DataPacket(chunks[0]) in x.net && DataPacket(chunks[1]) in x.net && DataPacket(chunks[2]) in x.net && DataPacket(chunks[3]) in x.net;
  }

  /** From the start of an association, for any bytes, a run without a FORWARD TSN reaches a state in
      which all four fragments are acknowledged and the message is stuck. */
  lemma StuckRun(a: seq<Byte>, b: seq<Byte>, c: seq<Byte>, d: seq<Byte>) returns (steps: seq<Step>, x: System)
    requires Chosen(a, b, c, d)
    ensures From(steps, x) && Reachable(x) && NoForwardPast(steps, -1)
    ensures x.rx.cum == 3 && Stuck(x.rx, 0, 4, 5, 7)
  {
    steps, x := Started(a, b, c, d);
    var front := Merged(Incoming(Part(0, a)), Incoming(Part(1, b)));
    Arrival3(Part(3, d), front);
    steps, x := Take(steps, x, Arrive(DataPacket(Part(3, d))));
    Arrival2(Part(2, c), Incoming(Part(3, d)), front);
    WrongOrder(Incoming(Part(2, c)), Incoming(Part(3, d)), front,
               Receiver(3, Tab(Some(Incoming(Part(2, c))), Some(Incoming(Part(3, d))), Some(front)), [Stream(1, 0)], true));
    steps, x := Take(steps, x, Arrive(DataPacket(Part(2, c))));
    StuckTable(Incoming(Part(2, c)), Incoming(Part(3, d)), front, x.rx);
    assert Leads(true, 0, 0, 1000, steps, x);
  }

  lemma Take(steps: seq<Step>, x: System, step: Step) returns (more: seq<Step>, y: System)
    requires From(steps, x) && Enabled(x, step) && NoForwardPast(steps, -1) && !(step.Arrive? && step.packet.ForwardPacket?)
    ensures From(more, y) && y == Next(x, step) && NoForwardPast(more, -1)
  {
    FromMore(steps, x, step);
    more, y := steps + [step], Next(x, step);
  }
}
