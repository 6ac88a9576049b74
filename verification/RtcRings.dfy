/** Buffers lent to queued outputs. The output queue holds references: to a slot of a
    managed buffer array, which is busy until its output leaves the queue, or to a slot
    of the video packet ring, whose live fragments form one window of the ring. All
    cursors are 16 bits wide and wrap. */
module RtcRings {
  const WRAP: nat := 0x1_0000

  /** A 16-bit cursor. */
  type Cursor = c: nat | c < 0x1_0000

  function Succ(c: Cursor): Cursor {
    if c + 1 == WRAP then 0 else c + 1
  }

  /** The cursor `k` places on. */
  function Add(c: Cursor, k: nat): Cursor
    requires k < WRAP
  {
    if c + k < WRAP then c + k else c + k - WRAP
  }

  /** The 16-bit difference. */
  function Sub(a: Cursor, b: Cursor): Cursor {
    if a >= b then a - b else a - b + WRAP
  }

  /** Managed buffer arrays: control packets, copies for retransmission, and FEC packets. */
  datatype Owner = Tx | Nack | Fec

  datatype Item = Managed(owner: Owner, slot: nat) | Ring(slot: nat) | Notice

  // ----- managed buffers -----

  /** Busy until the output cursor reaches `freeAt`. */
  datatype Slot = Slot(busy: bool, freeAt: Cursor)

  /** Queued output `k` refers to slot `i` of the array. */
  predicate RefersAt(queue: seq<Item>, owner: Owner, i: nat, k: nat) {
    k < |queue| && queue[k] == Managed(owner, i)
  }

  predicate Referred(queue: seq<Item>, owner: Owner, i: nat) {
    exists k | 0 <= k < |queue| :: RefersAt(queue, owner, i, k)
  }

  /** A slot is busy exactly when one queued output refers to it, and it is freed when that
      output leaves. */
  predicate BackingOk(slots: seq<Slot>, owner: Owner, queue: seq<Item>, head: Cursor) {
    && |queue| < WRAP
    && (forall k | 0 <= k < |queue| && queue[k].Managed? && queue[k].owner == owner ::
          var i := queue[k].slot;
          i < |slots| && slots[i].busy && slots[i].freeAt == Add(head, k + 1))
    && (forall i | 0 <= i < |slots| && slots[i].busy :: Referred(queue, owner, i))
  }

  /** What the dequeue of an output frees. */
  function Released(s: Slot, head: Cursor): Slot {
    if s.busy && s.freeAt == head then s.(busy := false) else s
  }

  function ReleaseAll(slots: seq<Slot>, head: Cursor): (r: seq<Slot>)
    ensures |r| == |slots|
  {
    seq(|slots|, i requires 0 <= i < |slots| => Released(slots[i], head))
  }

  /** No two queued outputs refer to one slot. */
  lemma OneReference(slots: seq<Slot>, owner: Owner, queue: seq<Item>, head: Cursor, i: nat, j: nat, k: nat)
    requires BackingOk(slots, owner, queue, head) && RefersAt(queue, owner, i, j) && RefersAt(queue, owner, i, k)
    ensures j == k
  {
  }

  lemma ReferencesDiffer(slots: seq<Slot>, owner: Owner, queue: seq<Item>, head: Cursor, j: nat, k: nat)
    requires BackingOk(slots, owner, queue, head) && j < k < |queue| && queue[k].Managed? && queue[k].owner == owner
    ensures queue[j] != queue[k]
  {
  }

  lemma DequeueKeeps(slots: seq<Slot>, owner: Owner, queue: seq<Item>, head: Cursor)
    requires BackingOk(slots, owner, queue, head) && queue != []
    ensures BackingOk(ReleaseAll(slots, Succ(head)), owner, queue[1..], Succ(head))
    ensures forall i | 0 <= i < |slots| ::
              ReleaseAll(slots, Succ(head))[i].busy <==> slots[i].busy && queue[0] != Managed(owner, i)
  {
    var after, rest := ReleaseAll(slots, Succ(head)), queue[1..];
    forall i | 0 <= i < |slots| ensures after[i].busy <==> slots[i].busy && queue[0] != Managed(owner, i) {
      if slots[i].busy {
        var k :| 0 <= k < |queue| && RefersAt(queue, owner, i, k);
        assert slots[i].freeAt == Add(head, k + 1);
        if queue[0] == Managed(owner, i) { OneReference(slots, owner, queue, head, i, 0, k); }
      }
    }
    forall k | 0 <= k < |rest| && rest[k].Managed? && rest[k].owner == owner
      ensures var i := rest[k].slot; i < |after| && after[i].busy && after[i].freeAt == Add(Succ(head), k + 1)
    {
      assert queue[k + 1] == rest[k];
      ReferencesDiffer(slots, owner, queue, head, 0, k + 1);
    }
    forall i | 0 <= i < |after| && after[i].busy ensures Referred(rest, owner, i) {
      var k :| 0 <= k < |queue| && RefersAt(queue, owner, i, k);
      assert RefersAt(rest, owner, i, k - 1);
    }
  }

  lemma EnqueueOtherKeeps(slots: seq<Slot>, owner: Owner, queue: seq<Item>, head: Cursor, item: Item)
    requires BackingOk(slots, owner, queue, head) && |queue| + 1 < WRAP && !(item.Managed? && item.owner == owner)
    ensures BackingOk(slots, owner, queue + [item], head)
  {
    var q := queue + [item];
    forall i | 0 <= i < |slots| && slots[i].busy ensures Referred(q, owner, i) {
      var k :| 0 <= k < |queue| && RefersAt(queue, owner, i, k);
      assert RefersAt(q, owner, i, k);
    }
  }

  /** Handing a free slot to a new output. */
  lemma CommitKeeps(slots: seq<Slot>, owner: Owner, queue: seq<Item>, head: Cursor, i: nat)
    requires BackingOk(slots, owner, queue, head) && |queue| + 1 < WRAP && i < |slots| && !slots[i].busy
    ensures BackingOk(slots[i := Slot(true, Add(head, |queue| + 1))], owner, queue + [Managed(owner, i)], head)
  {
    var after, q := slots[i := Slot(true, Add(head, |queue| + 1))], queue + [Managed(owner, i)];
    forall j | 0 <= j < |after| && after[j].busy ensures Referred(q, owner, j) {
      if j == i {
        assert RefersAt(q, owner, i, |queue|);
      } else {
        var k :| 0 <= k < |queue| && RefersAt(queue, owner, j, k);
        assert RefersAt(q, owner, j, k);
      }
    }
  }

  /** A slot that is not busy is referred to by no queued output. */
  lemma FreeIsUnreferred(slots: seq<Slot>, owner: Owner, queue: seq<Item>, head: Cursor, i: nat)
    requires BackingOk(slots, owner, queue, head) && i < |slots|
    ensures !slots[i].busy <==> !Referred(queue, owner, i)
  {
    if Referred(queue, owner, i) {
      var k :| 0 <= k < |queue| && RefersAt(queue, owner, i, k);
    }
  }

  // ----- the video packet ring -----

  /** Queued references to the packet ring. */
  function RingCount(queue: seq<Item>): (n: nat)
    ensures n <= |queue|
  {
    if queue == [] then 0 else RingCount(queue[..|queue| - 1]) + if queue[|queue| - 1].Ring? then 1 else 0
  }

  /** The ring references are, in order, the last fragments before fragment number `end`,
      fragment `c` in ring slot `c % size`. */
  predicate RingItems(queue: seq<Item>, end: nat, size: nat)
    requires size > 0
  {
    queue == [] ||
    (var n := |queue| - 1;
     if queue[n].Ring? then end > 0 && queue[n].slot == (end - 1) % size && RingItems(queue[..n], end - 1, size)
     else RingItems(queue[..n], end, size))
  }

  lemma {:induction false} RingBound(queue: seq<Item>, end: nat, size: nat)
    requires size > 0 && RingItems(queue, end, size)
    ensures RingCount(queue) <= end
  {
    if queue != [] {
      var n := |queue| - 1;
      RingBound(queue[..n], if queue[n].Ring? then end - 1 else end, size);
    }
  }

  /** The output at the front of the queue is the oldest of those fragments. */
  lemma {:induction false} RingFront(queue: seq<Item>, end: nat, size: nat)
    requires size > 0 && RingItems(queue, end, size) && queue != []
    ensures RingCount(queue) <= end
    ensures RingItems(queue[1..], end, size)
    ensures RingCount(queue) == RingCount(queue[1..]) + if queue[0].Ring? then 1 else 0
    ensures queue[0].Ring? ==> queue[0].slot == (end - RingCount(queue)) % size
  {
    var n := |queue| - 1;
    RingBound(queue, end, size);
    if n > 0 {
      var e := if queue[n].Ring? then end - 1 else end;
      RingFront(queue[..n], e, size);
      assert queue[1..][..n - 1] == queue[..n][1..] && queue[1..][n - 1] == queue[n];
    } else {
      assert queue[..n] == [] && queue[1..] == [];
    }
  }

  /** Every ring reference is to a fragment of the window. */
  lemma {:induction false} RingMember(queue: seq<Item>, end: nat, size: nat, k: nat) returns (c: nat)
    requires size > 0 && RingItems(queue, end, size) && k < |queue| && queue[k].Ring?
    ensures RingCount(queue) <= end && end - RingCount(queue) <= c < end && queue[k].slot == c % size
  {
    RingBound(queue, end, size);
    var n := |queue| - 1;
    if k == n {
      c := end - 1;
    } else {
      c := RingMember(queue[..n], if queue[n].Ring? then end - 1 else end, size, k);
    }
  }

  lemma RingAppend(queue: seq<Item>, end: nat, size: nat, item: Item)
    requires size > 0 && RingItems(queue, end, size)
    ensures !item.Ring? ==> RingItems(queue + [item], end, size) && RingCount(queue + [item]) == RingCount(queue)
    ensures item.Ring? && item.slot == end % size ==>
              RingItems(queue + [item], end + 1, size) && RingCount(queue + [item]) == RingCount(queue) + 1
  {
    assert (queue + [item])[..|queue|] == queue;
  }

  /** A ring whose size divides 2^16 keeps its slots when the cursor wraps. */
  lemma SlotOfCursor(x: nat, size: nat)
    requires size > 0 && WRAP % size == 0
    ensures (x % WRAP) % size == x % size
  {
    var q, k := x / WRAP, WRAP / size;
    assert WRAP == size * k;
    assert x == WRAP * q + x % WRAP;
    assert x == size * (k * q) + x % WRAP by { MulSwap(size, k, q); }
    ModAdd(x % WRAP, k * q, size);
  }

  lemma MulSwap(a: nat, b: nat, c: nat)
    ensures (a * b) * c == a * (b * c)
  {
  }

  lemma ModAdd(x: nat, k: nat, m: nat)
    requires m > 0
    ensures (m * k + x) % m == x % m
    decreases k
  {
    if k > 0 {
      ModAdd(x, k - 1, m);
      assert m * k == m * (k - 1) + m;
      ModStep(m * (k - 1) + x, m);
    }
  }

  lemma ModStep(x: nat, m: nat)
    requires m > 0
    ensures (x + m) % m == x % m
  {
    assert x == m * (x / m) + x % m;
    assert x + m == m * (x / m + 1) + x % m;
    DivUnique(x + m, m, x / m + 1, x % m);
  }

  lemma MulGrows(m: int, d: int)
    requires m > 0
    ensures d >= 1 ==> m * d >= m
    ensures d <= -1 ==> m * d <= -m
  {
    if d >= 1 { assert m * d == m * (d - 1) + m; }
    if d <= -1 { assert m * d == m * (d + 1) - m; }
  }

  lemma DivUnique(x: nat, m: nat, q: nat, r: nat)
    requires m > 0 && x == m * q + r && r < m
    ensures x % m == r
  {
    var d := x / m - q;
    assert m * (x / m) + x % m == m * q + r;
    assert m * d == r - x % m;
    MulGrows(m, d);
  }

  /** Fragments less than one ring length apart use different slots. */
  lemma SlotsDiffer(a: nat, b: nat, size: nat)
    requires size > 0 && a < b < a + size
    ensures a % size != b % size
  {
    if a % size == b % size {
      var d := b / size - a / size;
      assert b - a == size * d by {
        assert a == size * (a / size) + a % size && b == size * (b / size) + b % size;
      }
      MulGrows(size, d);
      assert false;
    }
  }
}
