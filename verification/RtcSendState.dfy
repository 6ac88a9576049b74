/** The memory behind queued outputs, and what it must keep: every queued output finds,
    when it is polled, exactly the bytes it was queued with, and every committed video
    fragment stays intact in the packet ring until it has been polled. */
module RtcSendState {
  import opened Bits
  import opened RtcRings
  import RtcPacer
  import RtcEvents

  type Packet = seq<Byte>
  type Time = RtcPacer.Time

  /** A queue entry: a reference, or an event. */
  datatype Entry = Entry(item: Item, event: RtcEvents.Event)

  /** What an output means to the application. */
  datatype Content = Data(bytes: Packet) | Emitted(event: RtcEvents.Event)

  /** The arrays and cursors of the program. The pacer's tail cursor always equals the ring's. */
  datatype Mem = Mem(
    out: seq<Entry>, outHead: Cursor, outTail: Cursor,
    tx: seq<Slot>, txBuf: seq<Packet>, nack: seq<Slot>, nackBuf: seq<Packet>,
    ring: seq<Packet>, at: seq<Time>, ringTail: Cursor, paceHead: Cursor)

  /** What they stand for: the unpolled outputs with their contents, every fragment committed
      so far with its enqueue time, and how many of those the pacer has released. */
  datatype Abs = Abs(queue: seq<Item>, contents: seq<Content>, sent: seq<Packet>, times: seq<Time>, released: nat)

  // ----- the output queue -----

  predicate PowerRing(size: nat) {
    0 < size < WRAP && WRAP % size == 0
  }

  predicate QueueOk(m: Mem, a: Abs) {
    && PowerRing(|m.out|)
    && |a.queue| == |a.contents| == Sub(m.outTail, m.outHead) <= |m.out|
    && forall k | 0 <= k < |a.queue| :: m.out[Add(m.outHead, k) % |m.out|].item == a.queue[k]
  }

  // ----- contents -----

  /** The memory that an output refers to. */
  function Fetch(m: Mem, e: Entry): Content {
    match e.item
    case Managed(Tx, i) => if i < |m.txBuf| then Data(m.txBuf[i]) else Data([])
    case Managed(Nack, i) => if i < |m.nackBuf| then Data(m.nackBuf[i]) else Data([])
    case Managed(Fec, _) => Data([])
    case Ring(s) => if s < |m.ring| then Data(m.ring[s]) else Data([])
    case Notice => Emitted(e.event)
  }

  predicate ContentsOk(m: Mem, a: Abs)
    requires QueueOk(m, a)
  {
    forall k | 0 <= k < |a.queue| :: Fetch(m, m.out[Add(m.outHead, k) % |m.out|]) == a.contents[k]
  }

  // ----- the packet ring -----

  /** The first fragment that an unpolled output or the backlog still needs. */
  function Low(a: Abs): int {
    a.released - RingCount(a.queue)
  }

  predicate RingOk(m: Mem, a: Abs) {
    && PowerRing(|m.ring|) && |m.at| == |m.ring| && RingItems(a.queue, a.released, |m.ring|)
    && a.released <= |a.sent| == |a.times| <= Low(a) + |m.ring|
    && m.ringTail == |a.sent| % WRAP && m.paceHead == a.released % WRAP
    && forall c | 0 <= c < |a.sent| && Low(a) <= c :: m.ring[c % |m.ring|] == a.sent[c] && m.at[c % |m.ring|] == a.times[c]
  }

  predicate Ok(m: Mem, a: Abs) {
    && QueueOk(m, a) && ContentsOk(m, a) && RingOk(m, a)
    && |m.txBuf| == |m.tx| && |m.nackBuf| == |m.nack|
    && BackingOk(m.tx, Tx, a.queue, m.outHead) && BackingOk(m.nack, Nack, a.queue, m.outHead)
  }

  /** Nothing queued, nothing committed. */
  lemma NothingYet(m: Mem, a: Abs)
    requires a == Abs([], [], [], [], 0) && PowerRing(|m.out|) && PowerRing(|m.ring|) && |m.at| == |m.ring|
    requires m.outHead == m.outTail == m.ringTail == m.paceHead == 0
    requires |m.txBuf| == |m.tx| && |m.nackBuf| == |m.nack|
    requires (forall i | 0 <= i < |m.tx| :: !m.tx[i].busy) && forall i | 0 <= i < |m.nack| :: !m.nack[i].busy
    ensures Ok(m, a)
  {
  }

  // ----- adding an output -----

  function Push(m: Mem, e: Entry): Mem
    requires |m.out| > 0
  {
    m.(out := m.out[m.outTail % |m.out| := e], outTail := Succ(m.outTail))
  }

  /** Places of the queue's entries do not collide, wherever the cursors wrap. */
  lemma PlacesDiffer(head: Cursor, j: nat, k: nat, size: nat)
    requires PowerRing(size) && j < k < size
    ensures Add(head, j) % size != Add(head, k) % size
  {
    assert Add(head, j) == (head + j) % WRAP && Add(head, k) == (head + k) % WRAP;
    SlotOfCursor(head + j, size);
    SlotOfCursor(head + k, size);
    SlotsDiffer(head + j, head + k, size);
  }

  lemma TailPlace(m: Mem, a: Abs)
    requires QueueOk(m, a)
    ensures m.outTail == Add(m.outHead, |a.queue|)
  {
  }

  lemma PushQueue(m: Mem, a: Abs, e: Entry, b: Abs)
    requires QueueOk(m, a) && ContentsOk(m, a) && |a.queue| < |m.out|
    requires b.queue == a.queue + [e.item] && b.contents == a.contents + [Fetch(m, e)]
    ensures QueueOk(Push(m, e), b) && ContentsOk(Push(m, e), b)
  {
    var w, n := Push(m, e), |a.queue|;
    TailPlace(m, a);
    forall k | 0 <= k < |b.queue|
      ensures w.out[Add(w.outHead, k) % |w.out|].item == b.queue[k]
      ensures Fetch(w, w.out[Add(w.outHead, k) % |w.out|]) == b.contents[k]
    {
      if k < n {
        PlacesDiffer(m.outHead, k, n, |m.out|);
        assert w.out[Add(m.outHead, k) % |m.out|] == m.out[Add(m.outHead, k) % |m.out|];
      }
    }
  }

  lemma PushRingFree(m: Mem, a: Abs, e: Entry, b: Abs)
    requires RingOk(m, a) && !e.item.Ring? && |m.out| > 0
    requires b == a.(queue := a.queue + [e.item], contents := b.contents)
    ensures RingOk(Push(m, e), b)
  {
    RingAppend(a.queue, a.released, |m.ring|, e.item);
  }

  /** An output that refers to no managed buffer and no fragment: an event. */
  lemma PushNotice(m: Mem, a: Abs, e: Entry)
    requires Ok(m, a) && |a.queue| < |m.out| && e.item == Notice
    ensures Ok(Push(m, e), a.(queue := a.queue + [Notice], contents := a.contents + [Emitted(e.event)]))
  {
    var b := a.(queue := a.queue + [Notice], contents := a.contents + [Emitted(e.event)]);
    PushQueue(m, a, e, b);
    PushRingFree(m, a, e, b);
    EnqueueOtherKeeps(m.tx, Tx, a.queue, m.outHead, Notice);
    EnqueueOtherKeeps(m.nack, Nack, a.queue, m.outHead, Notice);
  }

  /** Filling a free control buffer disturbs no queued output. */
  lemma FillTx(m: Mem, a: Abs, i: nat, data: Packet)
    requires Ok(m, a) && i < |m.tx| && !m.tx[i].busy
    ensures Ok(m.(txBuf := m.txBuf[i := data]), a)
  {
    var w := m.(txBuf := m.txBuf[i := data]);
    FreeIsUnreferred(m.tx, Tx, a.queue, m.outHead, i);
    forall k | 0 <= k < |a.queue| ensures Fetch(w, w.out[Add(w.outHead, k) % |w.out|]) == a.contents[k] {
      assert Fetch(m, m.out[Add(m.outHead, k) % |m.out|]) == a.contents[k];
      assert !RefersAt(a.queue, Tx, i, k);
    }
  }

  lemma FillNack(m: Mem, a: Abs, i: nat, data: Packet)
    requires Ok(m, a) && i < |m.nack| && !m.nack[i].busy
    ensures Ok(m.(nackBuf := m.nackBuf[i := data]), a)
  {
    var w := m.(nackBuf := m.nackBuf[i := data]);
    FreeIsUnreferred(m.nack, Nack, a.queue, m.outHead, i);
    forall k | 0 <= k < |a.queue| ensures Fetch(w, w.out[Add(w.outHead, k) % |w.out|]) == a.contents[k] {
      assert Fetch(m, m.out[Add(m.outHead, k) % |m.out|]) == a.contents[k];
      assert !RefersAt(a.queue, Nack, i, k);
    }
  }

  /** Queueing a filled control buffer. */
  lemma PushTx(m: Mem, a: Abs, e: Entry, i: nat)
    requires Ok(m, a) && |a.queue| < |m.out| && i < |m.tx| && !m.tx[i].busy && e.item == Managed(Tx, i)
    ensures Ok(Push(m, e).(tx := m.tx[i := Slot(true, Succ(m.outTail))]),
               a.(queue := a.queue + [e.item], contents := a.contents + [Data(m.txBuf[i])]))
  {
    var b := a.(queue := a.queue + [e.item], contents := a.contents + [Data(m.txBuf[i])]);
    TailPlace(m, a);
    PushQueue(m, a, e, b);
    PushRingFree(m, a, e, b);
    CommitKeeps(m.tx, Tx, a.queue, m.outHead, i);
    EnqueueOtherKeeps(m.nack, Nack, a.queue, m.outHead, e.item);
    SlotsElsewhere(Push(m, e), Push(m, e).(tx := m.tx[i := Slot(true, Succ(m.outTail))]), b);
  }

  /** Queueing a filled retransmission buffer. */
  lemma PushNack(m: Mem, a: Abs, e: Entry, i: nat)
    requires Ok(m, a) && |a.queue| < |m.out| && i < |m.nack| && !m.nack[i].busy && e.item == Managed(Nack, i)
    ensures Ok(Push(m, e).(nack := m.nack[i := Slot(true, Succ(m.outTail))]),
               a.(queue := a.queue + [e.item], contents := a.contents + [Data(m.nackBuf[i])]))
  {
    var b := a.(queue := a.queue + [e.item], contents := a.contents + [Data(m.nackBuf[i])]);
    TailPlace(m, a);
    PushQueue(m, a, e, b);
    PushRingFree(m, a, e, b);
    CommitKeeps(m.nack, Nack, a.queue, m.outHead, i);
    EnqueueOtherKeeps(m.tx, Tx, a.queue, m.outHead, e.item);
    SlotsElsewhere(Push(m, e), Push(m, e).(nack := m.nack[i := Slot(true, Succ(m.outTail))]), b);
  }

  /** Busy marks matter to no queue entry. */
  lemma SlotsElsewhere(m: Mem, w: Mem, a: Abs)
    requires QueueOk(m, a) && ContentsOk(m, a) && RingOk(m, a)
    requires w == m.(tx := w.tx, nack := w.nack)
    ensures QueueOk(w, a) && ContentsOk(w, a) && RingOk(w, a)
  {
    forall k | 0 <= k < |a.queue| ensures Fetch(w, w.out[Add(w.outHead, k) % |w.out|]) == a.contents[k] {
      assert Fetch(m, m.out[Add(m.outHead, k) % |m.out|]) == a.contents[k];
    }
  }

  /** The pacer releases the oldest fragment of its backlog into the queue. */
  lemma PushFragment(m: Mem, a: Abs, e: Entry)
    requires Ok(m, a) && |a.queue| < |m.out| && a.released < |a.sent| && e.item == Ring(m.paceHead % |m.ring|)
    ensures Ok(Push(m, e).(paceHead := Succ(m.paceHead)),
               a.(queue := a.queue + [e.item], contents := a.contents + [Data(a.sent[a.released])], released := a.released + 1))
  {
    var c := a.released;
    var b := a.(queue := a.queue + [e.item], contents := a.contents + [Data(a.sent[c])], released := c + 1);
    var w := Push(m, e).(paceHead := Succ(m.paceHead));
    HeadFragment(m, a);
    PushQueue(m, a, e, b);
    PaceElsewhere(Push(m, e), w, b);
    PushFragmentRing(m, a, e);
    EnqueueOtherKeeps(m.tx, Tx, a.queue, m.outHead, e.item);
    EnqueueOtherKeeps(m.nack, Nack, a.queue, m.outHead, e.item);
  }

  /** The backlog's head is in the ring slot under the release cursor. */
  lemma HeadFragment(m: Mem, a: Abs)
    requires RingOk(m, a) && a.released < |a.sent|
    ensures m.paceHead % |m.ring| == a.released % |m.ring|
    ensures m.ring[m.paceHead % |m.ring|] == a.sent[a.released] && m.at[m.paceHead % |m.ring|] == a.times[a.released]
  {
    SlotOfCursor(a.released, |m.ring|);
    assert Low(a) <= a.released;
  }

  lemma PushFragmentRing(m: Mem, a: Abs, e: Entry)
    requires RingOk(m, a) && |m.out| > 0 && a.released < |a.sent| && e.item == Ring(m.paceHead % |m.ring|)
    ensures RingOk(Push(m, e).(paceHead := Succ(m.paceHead)),
                   a.(queue := a.queue + [e.item], contents := a.contents + [Data(a.sent[a.released])], released := a.released + 1))
  {
    HeadFragment(m, a);
    RingAppend(a.queue, a.released, |m.ring|, e.item);
    SuccMod(a.released);
  }

  lemma SuccMod(c: nat)
    ensures Succ(c % WRAP) == (c + 1) % WRAP
  {
  }

  lemma PaceElsewhere(m: Mem, w: Mem, a: Abs)
    requires QueueOk(m, a) && ContentsOk(m, a)
    requires w == m.(paceHead := w.paceHead)
    ensures QueueOk(w, a) && ContentsOk(w, a)
  {
    forall k | 0 <= k < |a.queue| ensures Fetch(w, w.out[Add(w.outHead, k) % |w.out|]) == a.contents[k] {
      assert Fetch(m, m.out[Add(m.outHead, k) % |m.out|]) == a.contents[k];
    }
  }

  // ----- committing a fragment -----

  function Commit(m: Mem, p: Packet, t: Time): Mem
    requires |m.ring| > 0 && |m.at| == |m.ring|
  {
    var s := m.ringTail % |m.ring|;
    m.(ring := m.ring[s := p], at := m.at[s := t], ringTail := Succ(m.ringTail))
  }

  /** Slots still needed by unpolled outputs or by the backlog. */
  function Occupied(m: Mem): nat {
    Sub(m.outTail, m.outHead) + Sub(m.ringTail, m.paceHead)
  }

  lemma SubMod(x: nat, y: nat)
    requires y <= x < y + WRAP
    ensures Sub(x % WRAP, y % WRAP) == x - y
  {
    assert x == WRAP * (x / WRAP) + x % WRAP && y == WRAP * (y / WRAP) + y % WRAP;
  }

  /** The program's count bounds the slots that are really needed. */
  lemma OccupiedBounds(m: Mem, a: Abs)
    requires Ok(m, a)
    ensures Sub(m.ringTail, m.paceHead) == |a.sent| - a.released
    ensures Occupied(m) == |a.queue| + |a.sent| - a.released >= |a.sent| - Low(a)
  {
    SubMod(|a.sent|, a.released);
  }

  /** While fewer slots are needed than the ring has, the slot at the ring's tail is needed by
      no unpolled output and no backlog fragment: writing it loses nothing. */
  lemma CommitFragmentKeeps(m: Mem, a: Abs, p: Packet, t: Time)
    requires Ok(m, a) && |a.sent| - Low(a) < |m.ring|
    ensures Ok(Commit(m, p, t), a.(sent := a.sent + [p], times := a.times + [t]))
  {
    var w, b, n := Commit(m, p, t), a.(sent := a.sent + [p], times := a.times + [t]), |a.sent|;
    SlotOfCursor(n, |m.ring|);
    SuccMod(n);
    RingBound(a.queue, a.released, |m.ring|);
    forall c | 0 <= c < |b.sent| && Low(b) <= c
      ensures w.ring[c % |w.ring|] == b.sent[c] && w.at[c % |w.ring|] == b.times[c]
    {
      if c < n { SlotsDiffer(c, n, |m.ring|); }
    }
    forall k | 0 <= k < |a.queue| ensures Fetch(w, w.out[Add(w.outHead, k) % |w.out|]) == a.contents[k] {
      CommitSpares(m, a, k, p, t);
    }
  }

  lemma CommitSpares(m: Mem, a: Abs, k: nat, p: Packet, t: Time)
    requires Ok(m, a) && |a.sent| - Low(a) < |m.ring| && k < |a.queue|
    ensures var e := m.out[Add(m.outHead, k) % |m.out|];
            Fetch(Commit(m, p, t), e) == Fetch(m, e) == a.contents[k]
  {
    var e := m.out[Add(m.outHead, k) % |m.out|];
    if e.item.Ring? {
      var c := RingMember(a.queue, a.released, |m.ring|, k);
      SlotsDiffer(c, |a.sent|, |m.ring|);
      SlotOfCursor(|a.sent|, |m.ring|);
    }
  }

  // ----- polling -----

  function Pop(m: Mem): Mem {
    var head := Succ(m.outHead);
    m.(outHead := head, tx := ReleaseAll(m.tx, head), nack := ReleaseAll(m.nack, head))
  }

  /** Polling hands out the oldest output with the bytes it was queued with, and frees
      exactly the buffer it used. */
  lemma PopKeeps(m: Mem, a: Abs)
    requires Ok(m, a) && a.queue != []
    ensures Fetch(m, m.out[m.outHead % |m.out|]) == a.contents[0]
    ensures Ok(Pop(m), a.(queue := a.queue[1..], contents := a.contents[1..]))
  {
    PopQueue(m, a);
    DequeueKeeps(m.tx, Tx, a.queue, m.outHead);
    DequeueKeeps(m.nack, Nack, a.queue, m.outHead);
    RingFront(a.queue, a.released, |m.ring|);
  }

  lemma PopQueue(m: Mem, a: Abs)
    requires QueueOk(m, a) && ContentsOk(m, a) && a.queue != []
    ensures Fetch(m, m.out[m.outHead % |m.out|]) == a.contents[0]
    ensures var b := a.(queue := a.queue[1..], contents := a.contents[1..]); QueueOk(Pop(m), b) && ContentsOk(Pop(m), b)
  {
    var w, b := Pop(m), a.(queue := a.queue[1..], contents := a.contents[1..]);
    assert Add(m.outHead, 0) == m.outHead;
    forall k | 0 <= k < |b.queue|
      ensures w.out[Add(w.outHead, k) % |w.out|].item == b.queue[k]
      ensures Fetch(w, w.out[Add(w.outHead, k) % |w.out|]) == b.contents[k]
    {
      assert Add(w.outHead, k) == Add(m.outHead, k + 1);
      assert Fetch(m, m.out[Add(m.outHead, k + 1) % |m.out|]) == a.contents[k + 1];
    }
  }
}
