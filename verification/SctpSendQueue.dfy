/** The send half as the program has it: a power-of-two ring of fragments with
    wrapping 8-bit cursors, over one append-only byte buffer. Every method is
    tied to the function of SctpSender that it implements. */
module SctpSendQueue {
  import opened SctpTypes
  import opened SctpSender
  import opened Slices

  const CURSOR: nat := 256

  /** A queued fragment; its payload lies in the send buffer. */
  datatype Raw = Raw(
    tsn: int, sid: nat, ssn: nat, ppid: nat, begin: bool, end: bool, unordered: bool, off: nat, len: nat,
    maxRetransmits: int, retransmits: nat, sentAt: nat, acked: bool, inFlight: bool, abandoned: bool)

  function Entry(r: Raw, buf: seq<Byte>): SendEntry {
    var payload := if r.off + r.len <= |buf| then buf[r.off..r.off + r.len] else [];
    SendEntry(Chunk(r.tsn, r.sid, r.ssn, r.ppid, r.begin, r.end, r.unordered, payload),
              r.maxRetransmits, r.retransmits, r.sentAt, r.acked, r.inFlight, r.abandoned)
  }

  /** 8-bit successor and predecessor of a cursor. */
  function Succ(i: nat): nat {
    if i + 1 == CURSOR then 0 else i + 1
  }

  function Pred(i: nat): nat {
    if i == 0 then CURSOR - 1 else i - 1
  }

  /** The 8-bit difference `tail - head`. */
  function Distance(head: nat, tail: nat): int {
    if head <= tail then tail - head else tail - head + CURSOR
  }

  /** The 8-bit cursor `k` places after `head`. */
  function Cursor(head: nat, k: nat): nat {
    if head + k < CURSOR then head + k else head + k - CURSOR
  }

  /** Ring place of a cursor. */
  function Place(i: nat): (r: nat)
    ensures r < MAX_SEND_QUEUE
  {
    i % MAX_SEND_QUEUE
  }

  /** Within one ring length, different cursors use different ring places. */
  lemma PlacesDiffer(head: nat, j: nat, k: nat)
    requires head < CURSOR && j < MAX_SEND_QUEUE && k < MAX_SEND_QUEUE && j != k
    ensures Place(Cursor(head, j)) != Place(Cursor(head, k))
  {
    var a, b := Cursor(head, j), Cursor(head, k);
    assert a == 16 * (a / 16) + a % 16;
    assert b == 16 * (b / 16) + b % 16;
  }

  class SendQueue {
    /** The queued fragments, oldest first. */
    ghost var queue: Queue
    const ring: array<Raw>
    const buf: array<Byte>
    var head: nat
    var tail: nat
    var used: nat
    var nextTsn: int
    var streams: seq<Stream>
    var established: bool
    var failed: bool
    var peerForward: bool
    var peerMaxMessage: nat
    var now: nat
    var rto: nat
    var forwardSentAt: nat
    var forwardPending: bool

    /** Queued fragments: the distance of the 8-bit cursors. */
    function Count(): nat
      reads `head, `tail
    {
      if head < CURSOR && tail < CURSOR then Distance(head, tail) else 0
    }

    ghost predicate Valid()
      reads `head, `tail, `used, `queue, ring, buf
    {
      && ring as object != buf && ring.Length == MAX_SEND_QUEUE && buf.Length == SEND_BUF_SIZE
      && head < CURSOR && tail < CURSOR && Count() <= MAX_SEND_QUEUE && used <= SEND_BUF_SIZE
      && |queue| == Count() && forall k | 0 <= k < |queue| :: Represents(k)
    }

    /** Queue position `k` is held by its ring place, with its payload in the buffer. */
    ghost predicate Represents(k: nat)
      requires ring.Length == MAX_SEND_QUEUE && k < |queue|
      reads `head, `queue, `used, ring, buf
    {
      var r := ring[Place(Cursor(head, k))];
      r.off + r.len <= used <= buf.Length && queue[k] == Entry(r, buf[..])
    }

    ghost function View(): Sender
      reads this
    {
      Sender(established, failed, peerForward, peerMaxMessage, queue,
             nextTsn, streams, used, now, rto, forwardSentAt, forwardPending)
    }

    constructor (peerForward: bool, peerMaxMessage: nat, now: nat, rto: nat)
      ensures Valid() && fresh(ring) && fresh(buf)
      ensures View() == Sender(true, false, peerForward, peerMaxMessage, [], 0, [], 0, now, rto, 0, false)
    {
      ring := new Raw[MAX_SEND_QUEUE](i => Raw(0, 0, 0, 0, false, false, false, 0, 0, 0, 0, 0, false, false, false));
      buf := new Byte[SEND_BUF_SIZE](i => 0);
      head, tail, used, nextTsn, streams := 0, 0, 0, 0, [];
      established, failed := true, false;
      this.peerForward, this.peerMaxMessage, this.now, this.rto := peerForward, peerMaxMessage, now, rto;
      forwardSentAt, forwardPending := 0, false;
      queue := [];
    }

    /** The queued fragment at cursor `i`. */
    method At(i: nat, ghost k: nat) returns (r: Raw)
      requires Valid() && k < Count() && i == Cursor(head, k)
      ensures Entry(r, buf[..]) == queue[k] && r.off + r.len <= used
      ensures r == ring[Place(i)]
    {
      assert Represents(k);
      r := ring[Place(i)];
    }

    /** Replaces the fragment at cursor `i`, keeping its place in the buffer. */
    method Put(i: nat, ghost k: nat, r: Raw)
      requires Valid() && k < Count() && i == Cursor(head, k)
      requires r.off + r.len <= used
      modifies ring, this`queue
      ensures Valid() && queue == old(queue)[k := Entry(r, buf[..])]
    {
      forall j | 0 <= j < Count() && j != k ensures Place(Cursor(head, j)) != Place(i) && Represents(j) {
        PlacesDiffer(head, j, k);
      }
      ghost var before := ring[..];
      ring[Place(i)] := r;
      queue := queue[k := Entry(r, buf[..])];
      forall j | 0 <= j < |queue| ensures Represents(j) {
        if j != k { assert before[Place(Cursor(head, j))] == ring[Place(Cursor(head, j))]; }
      }
    }

    // ----- abandoning -----

    /** A walking cursor meets the tail after exactly Count() fragments. */
    lemma MeetsTail(l: nat)
      requires Valid() && l <= Count()
      ensures Cursor(head, l) == tail <==> l == Count()
      ensures Succ(Cursor(head, l)) == Cursor(head, l + 1)
    {
    }

    /** One step of a walking cursor. */
    lemma Advance(l: nat)
      requires Valid() && l < Count()
      ensures Succ(Cursor(head, l)) == Cursor(head, l + 1)
      ensures Cursor(head, l + 1) == tail <==> l + 1 == Count()
    {
    }

    /** Walks back to the first queued fragment of the message at cursor `i`. */
    method FindFirst(i: nat, ghost k: nat) returns (first: nat, ghost f: nat)
      requires Valid() && k < Count() && i == Cursor(head, k)
      ensures f == FirstOf(queue, k) && first == Cursor(head, f)
    {
      ghost var q := queue;
      first, f := i, k;
      while first != head && !ring[Place(first)].begin
        invariant f <= k && first == Cursor(head, f) && FirstOf(q, k) == FirstOf(q, f)
        decreases f
      {
        assert Represents(f);
        first := Pred(first);
        f := f - 1;
      }
      assert Represents(f);
    }

    /** Flags the fragment at cursor `j`. */
    method Flag(j: nat, ghost l: nat) returns (last: bool)
      requires Valid() && l < Count() && j == Cursor(head, l)
      modifies ring, this`queue
      ensures Valid() && queue == old(queue)[l := old(queue)[l].(abandoned := true)]
      ensures last == old(queue)[l].chunk.end
    {
      var part := At(j, l);
      Put(j, l, part.(abandoned := true));
      last := part.end;
    }

    /** Flags fragments from cursor `start` up to a last one. */
    method FlagFrom(start: nat, ghost f: nat)
      requires Valid() && f < Count() && start == Cursor(head, f)
      modifies ring, this`queue
      ensures Valid() && queue == AbandonRun(old(queue), f)
    {
      ghost var q, l := queue, f;
      var j, last := start, false;
      MeetsTail(l);
      while j != tail && !last
        invariant Valid()
        invariant l <= Count() && j == Cursor(head, l) && (j == tail <==> l == Count())
        invariant AbandonRun(q, f) == if last then queue else AbandonRun(queue, l)
        decreases Count() - l, !last
      {
        last := Flag(j, l);
        if !last {
          Advance(l);
          j, l := Succ(j), l + 1;
        }
      }
      assert queue == AbandonRun(q, f);
    }

    /** Whole-message abandonment around cursor `i`. */
    method AbandonMessage(i: nat, ghost k: nat)
      requires Valid() && k < Count() && i == Cursor(head, k)
      modifies ring, this`queue, this`forwardPending
      ensures Valid() && queue == Abandon(old(queue), k) && forwardPending
    {
      var first, f := FindFirst(i, k);
      FlagFrom(first, f);
      forwardPending := true;
    }
  
    // ----- SACK -----

    static method CheckGaps(gaps: seq<Gap>) returns (ok: bool)
      ensures ok <==> ValidGaps(gaps, 0)
    {
      var previousEnd := 0;
      assert gaps[0..] == gaps;
      for i := 0 to |gaps|
        invariant ValidGaps(gaps, 0) <==> ValidGaps(gaps[i..], previousEnd)
      {
        assert gaps[i..][0] == gaps[i] && gaps[i..][1..] == gaps[i + 1..];
        if gaps[i].start <= previousEnd || gaps[i].end < gaps[i].start { return false; }
        previousEnd := gaps[i].end;
      }
      ok := true;
    }

    static method IsGapAcked(gaps: seq<Gap>, offset: int) returns (acked: bool)
      ensures acked <==> GapAcked(gaps, offset)
    {
      if offset <= 0 || offset > 0xFFFF { return false; }
      for i := 0 to |gaps|
        invariant forall k | 0 <= k < i :: !(gaps[k].start <= offset <= gaps[k].end)
      {
        if gaps[i].start <= offset <= gaps[i].end { return true; }
      }
      acked := false;
    }

    method FindHighest(cum: int, gaps: seq<Gap>) returns (highest: int)
      requires Valid()
      ensures highest == HighestAcked(queue, 0, cum, cum, gaps)
    {
      highest := cum;
      var i := head;
      ghost var k := 0;
      MeetsTail(0);
      while i != tail
        invariant k <= Count() && i == Cursor(head, k) && (i == tail <==> k == Count())
        invariant HighestAcked(queue, 0, cum, cum, gaps) == HighestAcked(queue, k, highest, cum, gaps)
        decreases Count() - k
      {
        var e := At(i, k);
        var acked := IsGapAcked(gaps, e.tsn - cum);
        if e.inFlight && e.tsn > highest && acked { highest := e.tsn; }
        Advance(k);
        i, k := Succ(i), k + 1;
      }
    }

    /** Early abandonment of zero-retry fragments that a later one overtook. */
    method AbandonLosers(cum: int, highest: int, gaps: seq<Gap>)
      requires Valid()
      modifies ring, this`queue, this`forwardPending
      ensures Valid() && queue == AbandonOvertaken(old(queue), 0, cum, highest, gaps)
      ensures forwardPending == (old(forwardPending) || AnyOvertaken(old(queue), 0, cum, highest, gaps))
    {
      ghost var q, k := queue, 0;
      var i := head;
      MeetsTail(0);
      while i != tail
        invariant Valid() && k <= Count() && i == Cursor(head, k) && (i == tail <==> k == Count())
        invariant AbandonOvertaken(q, 0, cum, highest, gaps) == AbandonOvertaken(queue, k, cum, highest, gaps)
        invariant (old(forwardPending) || AnyOvertaken(q, 0, cum, highest, gaps)) <==>
                  (forwardPending || AnyOvertaken(queue, k, cum, highest, gaps))
        decreases Count() - k
      {
        AbandonLoser(i, k, cum, highest, gaps);
        Advance(k);
        i, k := Succ(i), k + 1;
      }
    }

    method Loses(i: nat, ghost k: nat, cum: int, highest: int, gaps: seq<Gap>) returns (loses: bool)
      requires Valid() && k < Count() && i == Cursor(head, k)
      ensures loses <==> Overtaken(queue[k], cum, highest, gaps)
    {
      var e := At(i, k);
      var acked := IsGapAcked(gaps, e.tsn - cum);
      loses := e.inFlight && !e.acked && !e.abandoned && e.maxRetransmits == 0 && e.tsn > cum && highest > e.tsn && !acked;
    }

    method AbandonLoser(i: nat, ghost k: nat, cum: int, highest: int, gaps: seq<Gap>)
      requires Valid() && k < Count() && i == Cursor(head, k)
      modifies ring, this`queue, this`forwardPending
      ensures Valid()
      ensures queue == if Overtaken(old(queue[k]), cum, highest, gaps) then Abandon(old(queue), k) else old(queue)
      ensures forwardPending == (old(forwardPending) || Overtaken(old(queue[k]), cum, highest, gaps))
    {
      var loses := Loses(i, k, cum, highest, gaps);
      if loses { AbandonMessage(i, k); }
    }

    /** Cumulative acknowledgement of one fragment. */
    method MarkOne(i: nat, ghost k: nat, cum: int)
      requires Valid() && k < Count() && i == Cursor(head, k)
      modifies ring, this`queue
      ensures Valid()
      ensures queue == old(queue)[k := if old(queue[k]).chunk.tsn <= cum then old(queue[k]).(acked := true) else old(queue[k])]
    {
      var e := At(i, k);
      if e.tsn <= cum && !e.acked { Put(i, k, e.(acked := true)); }
    }

    static lemma MarkMore(q: Queue, cum: int, k: nat)
      requires k < |q|
      ensures (MarkAcked(q, cum)[..k] + q[k..])[k := MarkAcked(q, cum)[k]] == MarkAcked(q, cum)[..k + 1] + q[k + 1..]
      ensures (MarkAcked(q, cum)[..k] + q[k..])[k] == q[k]
    {
    }

    /** Cumulative acknowledgement. */
    method MarkUpTo(cum: int)
      requires Valid()
      modifies ring, this`queue
      ensures Valid() && queue == MarkAcked(old(queue), cum)
    {
      ghost var q, k := queue, 0;
      var i := head;
      MeetsTail(0);
      while i != tail
        invariant Valid() && k <= Count() && i == Cursor(head, k) && (i == tail <==> k == Count())
        invariant queue == MarkAcked(q, cum)[..k] + q[k..]
        decreases Count() - k
      {
        MarkMore(q, cum, k);
        MarkOne(i, k, cum);
        Advance(k);
        i, k := Succ(i), k + 1;
      }
    }

    /** Drops one fragment from the front. */
    method DropFirst()
      requires Valid() && head != tail
      modifies this`head, this`queue
      ensures Valid() && old(queue) != [] && queue == old(queue)[1..]
    {
      ghost var q, h := queue, head;
      assert forall k | 0 <= k < |q| :: Represents(k);
      assert |q| > 0;
      head := Succ(head);
      queue := queue[1..];
      forall k | 0 <= k < |queue| ensures Represents(k) {
        assert Cursor(head, k) == Cursor(h, k + 1) && old(Represents(k + 1));
      }
    }

    method PopFront()
      requires Valid()
      modifies this`head, this`queue
      ensures Valid() && queue == PopAcked(old(queue))
    {
      ghost var q := queue;
      while head != tail
        invariant Valid() && PopAcked(q) == PopAcked(queue)
        decreases Count()
      {
        MeetsTail(0);
        var e := At(head, 0);
        if !e.acked { break; }
        DropFirst();
      }
      MeetsTail(0);
    }

    /** One SACK. */
    method HandleSack(cum: int, gaps: seq<Gap>) returns (status: Status)
      requires Valid()
      modifies this, ring
      ensures Valid() && status == SctpSender.HandleSack(old(View()), cum, gaps).1
      ensures View() == SctpSender.HandleSack(old(View()), cum, gaps).0
    {
      ghost var v := View();
      var ok := CheckGaps(gaps);
      if ok {
        Settle(cum, gaps);
        Settled(v, View(), cum, gaps);
        status := Ok;
      } else {
        status := Parse;
      }
    }

    /** The state after a valid SACK, field by field. */
    static lemma Settled(v: Sender, w: Sender, cum: int, gaps: seq<Gap>)
      requires ValidGaps(gaps, 0)
      requires var highest := HighestAcked(v.queue, 0, cum, cum, gaps);
               && w.queue == PopAcked(MarkAcked(AbandonOvertaken(v.queue, 0, cum, highest, gaps), cum))
               && w.forwardPending == (v.forwardPending || AnyOvertaken(v.queue, 0, cum, highest, gaps))
      requires w == v.(queue := w.queue, forwardPending := w.forwardPending, bufUsed := w.bufUsed)
      requires w.bufUsed == if w.queue == [] then 0 else v.bufUsed
      ensures SctpSender.HandleSack(v, cum, gaps) == (w, Ok)
    {
    }

    /** What a valid SACK does to the queue. */
    method Settle(cum: int, gaps: seq<Gap>)
      requires Valid()
      modifies this`head, this`used, this`queue, this`forwardPending, ring
      ensures Valid()
      ensures var highest := HighestAcked(old(queue), 0, cum, cum, gaps);
              && queue == PopAcked(MarkAcked(AbandonOvertaken(old(queue), 0, cum, highest, gaps), cum))
              && forwardPending == (old(forwardPending) || AnyOvertaken(old(queue), 0, cum, highest, gaps))
      ensures used == if queue == [] then 0 else old(used)
    {
      var highest := FindHighest(cum, gaps);
      AbandonLosers(cum, highest, gaps);
      MarkUpTo(cum);
      PopFront();
      MeetsTail(0);
      if head == tail { used := 0; }
    }

    // ----- queueing a message -----

    /** The row of stream `sid`, registered on first use; no row means a full table. */
    method StreamRow(sid: nat) returns (row: nat)
      requires Valid()
      modifies this`streams
      ensures Valid()
      ensures row == RowOf(streams, sid) && View() == old(View()).(streams := Register(old(streams), sid))
    {
      row := 0;
      ghost var all := streams;
      assert streams[0..] == streams;
      while row < |streams| && streams[row].sid != sid
        invariant row <= |streams| && RowOf(streams, sid) == row + RowOf(streams[row..], sid)
      {
        assert streams[row..][1..] == streams[row + 1..];
        row := row + 1;
      }
      if row == |streams| < MAX_DATACHANNELS {
        RowOfAppend(streams, Stream(sid, 0), sid);
        assert forall k | 0 <= k < |queue| :: Represents(k);
        streams := streams + [Stream(sid, 0)];
        forall k | 0 <= k < |queue| ensures Represents(k) { assert old(Represents(k)); }
      }
    }

    /** Adds one fragment at the tail. */
    method Append(r: Raw)
      requires Valid() && Count() < MAX_SEND_QUEUE && r.off + r.len <= used
      modifies ring, this`tail, this`queue
      ensures Valid() && queue == old(queue) + [Entry(r, buf[..])] && Count() == old(Count()) + 1
    {
      ghost var n, before := Count(), ring[..];
      MeetsTail(n);
      forall k | 0 <= k < n ensures Place(Cursor(head, k)) != Place(tail) && Represents(k) {
        PlacesDiffer(head, k, n);
      }
      ring[Place(tail)] := r;
      tail := Succ(tail);
      queue := queue + [Entry(r, buf[..])];
      forall k | 0 <= k < |queue| ensures Represents(k) {
        if k < n { assert before[Place(Cursor(head, k))] == ring[Place(Cursor(head, k))]; }
      }
    }

    /** Copies the message behind the bytes in use. */
    method CopyIn(data: seq<Byte>)
      requires Valid() && used + |data| <= SEND_BUF_SIZE
      modifies buf, this`used
      ensures Valid() && View() == old(View()).(bufUsed := old(used) + |data|)
      ensures buf[old(used)..used] == data
    {
      ghost var before, u := buf[..], used;
      forall k | 0 <= k < |queue|
        ensures ring[Place(Cursor(head, k))].off + ring[Place(Cursor(head, k))].len <= used
        ensures queue[k] == Entry(ring[Place(Cursor(head, k))], before)
      {
        assert Represents(k);
      }
      forall i | 0 <= i < |data| { buf[used + i] := data[i]; }
      used := used + |data|;
      forall k | 0 <= k < |queue| ensures Represents(k) {
        EntryStays(ring[Place(Cursor(head, k))], before, buf[..], u);
      }
    }

    static lemma EntryStays(r: Raw, before: seq<Byte>, after: seq<Byte>, u: nat)
      requires r.off + r.len <= u <= |before| == |after| && before[..u] == after[..u]
      ensures Entry(r, before) == Entry(r, after)
    {
      assert before[r.off..r.off + r.len] == before[..u][r.off..r.off + r.len];
      assert after[r.off..r.off + r.len] == after[..u][r.off..r.off + r.len];
    }

    /** One more fragment of the plan. */
    static lemma FragmentsStep(p: Plan, data: seq<Byte>, pos: nat, i: nat, before: Queue)
      requires i < p.count && pos <= |data|
      ensures var n := if |data| - pos > MTU_PAYLOAD then MTU_PAYLOAD else |data| - pos;
              before + Fragments(p, data[pos..], i) ==
              (before + [Fragment(p, i, data[pos..pos + n])]) + Fragments(p, data[pos + n..], i + 1)
    {
      var n := if |data| - pos > MTU_PAYLOAD then MTU_PAYLOAD else |data| - pos;
      assert data[pos..][..n] == data[pos..pos + n] && data[pos..][n..] == data[pos + n..];
    }

    /** The fragment that the copied bytes at `off` make. */
    lemma CopiedFragment(r: Raw, p: Plan, i: nat, data: seq<Byte>, start: nat)
      requires used <= buf.Length && start <= r.off && r.off + r.len <= start + |data| == used && buf[start..used] == data
      requires r == Raw(p.tsn + i, p.sid, p.ssn, p.ppid, i == 0, i + 1 == p.count, p.unordered, r.off, r.len,
                        p.maxRetransmits, 0, 0, false, false, false)
      ensures Entry(r, buf[..]) == Fragment(p, i, data[r.off - start..r.off - start + r.len])
    {
      assert data[0..|data|] == data;
      SameWithin(buf[..], data, start, 0, |data|, r.off - start, r.len);
    }

    /** Appends fragment `i` of the plan from the copied bytes at `off`. */
    method AppendOne(p: Plan, i: nat, off: nat, n: nat, ghost data: seq<Byte>, ghost start: nat)
      requires Valid() && Count() < MAX_SEND_QUEUE && i < p.count && nextTsn == p.tsn + i
      requires start <= off && off + n <= start + |data| == used && buf[start..used] == data
      modifies ring, this`tail, this`queue, this`nextTsn
      ensures Valid() && Count() == old(Count()) + 1 && nextTsn == p.tsn + i + 1
      ensures queue == old(queue) + [Fragment(p, i, data[off - start..off - start + n])]
    {
      var r := Raw(nextTsn, p.sid, p.ssn, p.ppid, i == 0, i + 1 == p.count, p.unordered, off, n,
                   p.maxRetransmits, 0, 0, false, false, false);
      CopiedFragment(r, p, i, data, start);
      Append(r);
      nextTsn := nextTsn + 1;
    }

    /** Splits the copied bytes into fragments. */
    method AppendAll(p: Plan, data: seq<Byte>, start: nat)
      requires Valid() && Count() + p.count <= MAX_SEND_QUEUE && nextTsn == p.tsn
      requires start + |data| == used && buf[start..used] == data
      modifies ring, this`tail, this`queue, this`nextTsn
      ensures Valid() && View() == old(View()).(queue := old(queue) + Fragments(p, data, 0), nextTsn := p.tsn + p.count)
    {
      ghost var q := queue;
      var off, remaining := start, |data|;
      assert data[0..] == data;
      for i := 0 to p.count
        invariant start <= off && off + remaining == used && remaining >= 0
        invariant Appending(q, p, data, i, off - start)
      {
        off, remaining := AppendNext(q, p, data, start, i, off, remaining);
      }
    }

    /** Fragments `0..i` of the plan are queued, and `pos` bytes of the message are used up. */
    ghost predicate Appending(q: Queue, p: Plan, data: seq<Byte>, i: nat, pos: int)
      reads `head, `tail, `queue, `used, `nextTsn, ring, buf
    {
      && 0 <= pos <= |data| && i <= p.count && Valid() && Count() == |q| + i && nextTsn == p.tsn + i
      && q + Fragments(p, data, 0) == queue + Fragments(p, data[pos..], i)
    }

    /** One more fragment. */
    method AppendNext(ghost q: Queue, p: Plan, ghost data: seq<Byte>, ghost start: nat, i: nat, off: nat, remaining: nat)
      returns (nextOff: nat, left: nat)
      requires i < p.count && start <= off && off + remaining == used == start + |data| && Appending(q, p, data, i, off - start)
      requires |q| + p.count <= MAX_SEND_QUEUE && buf[start..used] == data
      modifies ring, this`tail, this`queue, this`nextTsn
      ensures start <= nextOff && nextOff + left == used && Appending(q, p, data, i + 1, nextOff - start)
    {
      var n := if remaining > MTU_PAYLOAD then MTU_PAYLOAD else remaining;
      FragmentsStep(p, data, off - start, i, queue);
      AppendOne(p, i, off, n, data, start);
      nextOff, left := off + n, remaining - n;
    }

    /** The checks made before the stream is looked up. */
    method Refusal(r: Request) returns (status: Status)
      requires Valid()
      ensures status == Ok ==> FragmentCount(|r.data|) + Count() <= MAX_SEND_QUEUE && used + |r.data| <= SEND_BUF_SIZE
      ensures SendCheck(View(), r.sid, |r.data|, r.maxRetransmits) ==
              if status == Ok && !Known(Register(streams, r.sid), r.sid) then BufferTooSmall else status
    {
      if !established { return State; }
      if r.maxRetransmits < -1 || r.maxRetransmits > 0xFFFF { return InvalidParam; }
      if r.maxRetransmits >= 0 && !peerForward { return NotImplemented; }
      var len := |r.data|;
      if len > MAX_MESSAGE_SIZE || len > SEND_BUF_SIZE || (peerMaxMessage != 0 && len > peerMaxMessage) {
        return BufferTooSmall;
      }
      var count := FragmentCount(len);
      if count > MAX_SEND_QUEUE { return BufferTooSmall; }
      if count > MAX_SEND_QUEUE - Count() || len > SEND_BUF_SIZE - used { return WouldBlock; }
      status := Ok;
    }

    /** Accepts or refuses one message. */
    method SendOptions(r: Request) returns (status: Status)
      requires Valid()
      modifies this`used, this`tail, this`queue, this`nextTsn, this`streams, ring, buf
      ensures Valid() && (View(), status) == Send(old(View()), r)
    {
      status := Refusal(r);
      if status == Ok { status := LookUpAndQueue(r); }
    }

    /** Looks the stream up, and queues a message that passed the other checks. */
    method LookUpAndQueue(r: Request) returns (status: Status)
      requires Valid() && FragmentCount(|r.data|) + Count() <= MAX_SEND_QUEUE && used + |r.data| <= SEND_BUF_SIZE
      requires SendCheck(View(), r.sid, |r.data|, r.maxRetransmits) ==
               if !Known(Register(streams, r.sid), r.sid) then BufferTooSmall else Ok
      modifies this`used, this`tail, this`queue, this`nextTsn, this`streams, ring, buf
      ensures Valid() && (View(), status) == Send(old(View()), r)
    {
      ghost var v := View();
      var row := StreamRow(r.sid);
      RowOfAppend(v.streams, Stream(r.sid, 0), r.sid);
      if row == |streams| { return BufferTooSmall; }
      ghost var known := View();
      Enqueue(r, row);
      status := Ok;
      SendIs(v, r, known, View());
    }

    /** Sending, in terms of the stream table with the stream registered. */
    static lemma SendIs(v: Sender, r: Request, known: Sender, w: Sender)
      requires SendCheck(v, r.sid, |r.data|, r.maxRetransmits) == Ok && known == v.(streams := Register(v.streams, r.sid))
      requires Known(known.streams, r.sid) && w == Queued(known, r)
      ensures Send(v, r) == (w, Ok)
    {
      RegisterKeepsSsn(v.streams, r.sid, r.sid);
    }

    /** The sender with the message queued; its stream is registered. */
    static function Queued(v: Sender, r: Request): Sender
      requires Known(v.streams, r.sid)
    {
      v.(streams := if r.unordered then v.streams else SetSsn(v.streams, r.sid, SsnOf(v.streams, r.sid) + 1),
         bufUsed := v.bufUsed + |r.data|, nextTsn := v.nextTsn + FragmentCount(|r.data|),
         queue := v.queue + Fragments(PlanFor(v, r), r.data, 0))
    }

    /** Queues an accepted message. */
    method Enqueue(r: Request, row: nat)
      requires Valid() && Count() + FragmentCount(|r.data|) <= MAX_SEND_QUEUE
      requires used + |r.data| <= SEND_BUF_SIZE && row == RowOf(streams, r.sid) < |streams|
      modifies this`used, this`tail, this`queue, this`nextTsn, this`streams, ring, buf
      ensures Valid() && View() == Queued(old(View()), r)
    {
      var plan := Plan(FragmentCount(|r.data|), nextTsn, r.sid, if r.unordered then 0 else streams[row].ssn, r.ppid, r.unordered, r.maxRetransmits);
      assert plan == PlanFor(View(), r);
      var start := used;
      CopyIn(r.data);
      if !r.unordered { CountSsn(row, r.sid); }
      AppendAll(plan, r.data, start);
    }

    /** The stream's next sequence number. */
    method CountSsn(row: nat, sid: nat)
      requires Valid() && row == RowOf(streams, sid) < |streams|
      modifies this`streams
      ensures Valid() && View() == old(View()).(streams := SetSsn(old(streams), sid, SsnOf(old(streams), sid) + 1))
    {
      streams := streams[row := Stream(sid, streams[row].ssn + 1)];
    }

    // ----- output -----

    /** Records a skipped sequence number in the table of the FORWARD TSN. */
    static method NoteSkip(skips: seq<Stream>, sid: nat, ssn: nat) returns (r: seq<Stream>)
      ensures r == AddSkip(skips, sid, ssn)
    {
      var j := 0;
      assert skips[0..] == skips;
      while j < |skips| && skips[j].sid != sid
        invariant j <= |skips| && RowOf(skips, sid) == j + RowOf(skips[j..], sid)
      {
        assert skips[j..][1..] == skips[j + 1..];
        j := j + 1;
      }
      r := if j == |skips| then skips + [Stream(sid, ssn)] else skips[j := Stream(sid, ssn)];
    }

    static lemma SkipStep(q: Queue, k: nat, skips: seq<Stream>)
      requires k < |q|
      ensures var e := q[k];
              SkipRun(q, k, skips) == if !e.acked && !e.abandoned then (k, skips)
              else SkipRun(q, k + 1, if e.abandoned && !e.chunk.unordered then AddSkip(skips, e.chunk.sid, e.chunk.ssn) else skips)
    {
    }

    /** One leading fragment: whether the walk stops there, and what it adds to the table. */
    method LeadingOne(i: nat, ghost k: nat, skips: seq<Stream>) returns (stop: bool, tsn: int, gone: bool, more: seq<Stream>)
      requires Valid() && k < Count() && i == Cursor(head, k)
      ensures stop <==> !queue[k].acked && !queue[k].abandoned
      ensures SkipRun(queue, k, skips) == if stop then (k, skips) else SkipRun(queue, k + 1, more)
      ensures tsn == queue[k].chunk.tsn && gone == queue[k].abandoned
    {
      SkipStep(queue, k, skips);
      var e := At(i, k);
      stop, tsn, gone, more := !e.acked && !e.abandoned, e.tsn, e.abandoned, skips;
      if e.abandoned && !e.unordered { more := NoteSkip(skips, e.sid, e.ssn); }
    }

    /** Walks the leading acknowledged or abandoned fragments. */
    method Leading() returns (advanced: int, skipped: bool, skips: seq<Stream>)
      requires Valid()
      ensures var (n, s) := SkipRun(queue, 0, []);
              && skips == s && (n > 0 ==> advanced == queue[n - 1].chunk.tsn)
              && (skipped <==> Abandons(queue, n))
    {
      skips, advanced, skipped := [], 0, false;
      var i := head;
      ghost var k := 0;
      MeetsTail(0);
      while i != tail
        invariant k <= Count() && i == Cursor(head, k) && (i == tail <==> k == Count())
        invariant SkipRun(queue, 0, []) == SkipRun(queue, k, skips)
        invariant k > 0 ==> advanced == queue[k - 1].chunk.tsn
        invariant skipped <==> Abandons(queue, k)
        decreases Count() - k
      {
        var stop, tsn, gone, more := LeadingOne(i, k, skips);
        if stop { break; }
        advanced, skips := tsn, more;
        if gone { skipped := true; }
        AbandonsStep(queue, k);
        Advance(k);
        i, k := Succ(i), k + 1;
      }
    }

    /** The FORWARD TSN for the leading acknowledged or abandoned fragments. */
    method ForwardOutput() returns (out: Output)
      requires Valid()
      modifies this`forwardPending, this`forwardSentAt
      ensures Valid() && (View(), out) == SctpSender.ForwardOutput(old(View()))
    {
      var advanced, skipped, skips := Leading();
      assert forall j | 0 <= j < |queue| :: Represents(j);
      forwardPending := false;
      if skipped {
        forwardSentAt := now;
        out := SendForward(advanced, skips);
      } else {
        out := Silence;
      }
      forall j | 0 <= j < |queue| ensures Represents(j) { assert old(Represents(j)); }
    }

    /** The next fragment that waits for transmission. */
    method FindSendable() returns (i: nat, ghost k: nat)
      requires Valid()
      ensures k == FirstSendable(queue, 0) && i == Cursor(head, k) && (i == tail <==> k == Count())
    {
      i, k := head, 0;
      MeetsTail(0);
      while i != tail
        invariant k <= Count() && i == Cursor(head, k) && (i == tail <==> k == Count())
        invariant FirstSendable(queue, 0) == FirstSendable(queue, k)
        decreases Count() - k
      {
        var e := At(i, k);
        if !e.inFlight && !e.acked && !e.abandoned { return; }
        Advance(k);
        i, k := Succ(i), k + 1;
      }
    }

    /** Sends that fragment. */
    method DataOutput() returns (out: Output)
      requires Valid()
      modifies ring, this`queue
      ensures Valid() && (View(), out) == SctpSender.DataOutput(old(View()))
    {
      if !established { return Silence; }
      var i, k := FindSendable();
      if i == tail { return Silence; }
      var e := At(i, k);
      out := SendData(Chunk(e.tsn, e.sid, e.ssn, e.ppid, e.begin, e.end, e.unordered, buf[e.off..e.off + e.len]));
      Put(i, k, e.(inFlight := true, sentAt := now));
    }

    /** One packet: a pending FORWARD TSN goes before DATA. */
    method PollOutput() returns (out: Output)
      requires Valid()
      modifies this`forwardPending, this`forwardSentAt, this`queue, ring
      ensures Valid() && (View(), out) == SctpSender.PollOutput(old(View()))
    {
      if forwardPending {
        out := ForwardOutput();
        if out == Silence { out := DataOutput(); }
      } else {
        out := DataOutput();
      }
    }

    // ----- timers -----

    /** Retransmission decision for one fragment; false when the association fails. */
    method Retransmit(i: nat, ghost k: nat) returns (alive: bool)
      requires Valid() && k < Count() && i == Cursor(head, k)
      modifies ring, this`queue, this`forwardPending, this`established, this`failed, this`rto
      ensures Valid()
      ensures alive ==> TimeoutFrom(old(View()), k) == TimeoutFrom(View(), k + 1)
      ensures !alive ==> TimeoutFrom(old(View()), k) == (View(), Protocol)
    {
      var e := At(i, k);
      alive := true;
      if e.inFlight && !e.acked && !e.abandoned && Elapsed(now, e.sentAt) >= rto {
        if e.maxRetransmits >= 0 && e.retransmits >= e.maxRetransmits {
          AbandonMessage(i, k);
        } else if e.maxRetransmits < 0 && e.retransmits >= MAX_RETRANSMITS {
          Close();
          alive := false;
        } else {
          Put(i, k, e.(inFlight := false, retransmits := e.retransmits + 1, sentAt := now));
          BackOff();
        }
      }
    }

    method Close()
      requires Valid()
      modifies this`established, this`failed
      ensures Valid() && View() == old(View()).(established := false, failed := true)
    {
      assert forall k | 0 <= k < |queue| :: Represents(k);
      established, failed := false, true;
      forall k | 0 <= k < |queue| ensures Represents(k) { assert old(Represents(k)); }
    }

    /** Exponential backoff of the retransmission timeout. */
    method BackOff()
      requires Valid()
      modifies this`rto
      ensures Valid() && View() == old(View()).(rto := Min(old(rto) * 2, RTO_MAX_MS))
    {
      assert forall k | 0 <= k < |queue| :: Represents(k);
      rto := rto * 2;
      if rto > RTO_MAX_MS { rto := RTO_MAX_MS; }
      forall k | 0 <= k < |queue| ensures Represents(k) { assert old(Represents(k)); }
    }

    /** The retransmission scan. */
    method Scan() returns (status: Status)
      requires Valid()
      modifies ring, this`queue, this`forwardPending, this`established, this`failed, this`rto
      ensures Valid() && (View(), status) == TimeoutFrom(old(View()), 0)
    {
      ghost var v, k := View(), 0;
      var i := head;
      MeetsTail(0);
      while i != tail
        invariant Valid() && k <= Count() && i == Cursor(head, k) && (i == tail <==> k == Count())
        invariant TimeoutFrom(v, 0) == TimeoutFrom(View(), k)
        decreases Count() - k
      {
        var alive := Retransmit(i, k);
        if !alive { return Protocol; }
        Advance(k);
        i, k := Succ(i), k + 1;
      }
      status := Ok;
    }

    /** Some of the first `n` fragments is abandoned. */
    static predicate Abandons(q: Queue, n: nat)
      requires n <= |q|
    {
      exists j | 0 <= j < n :: q[j].abandoned
    }

    static lemma AbandonsStep(q: Queue, n: nat)
      requires n < |q|
      ensures Abandons(q, n + 1) <==> Abandons(q, n) || q[n].abandoned
    {
    }

    static lemma DueIff(q: Queue, n: nat, skips: seq<Stream>)
      requires n <= |q| && SkipRun(q, 0, []).0 == SkipRun(q, n, skips).0
      requires n == |q| || (!q[n].acked && !q[n].abandoned)
      ensures ForwardDue(q) <==> Abandons(q, n)
    {
    }

    /** An abandoned fragment waits at the front. */
    method Due() returns (due: bool)
      requires Valid()
      ensures due <==> ForwardDue(queue)
    {
      due := false;
      var i := head;
      ghost var k, skips := 0, [];
      MeetsTail(0);
      while i != tail
        invariant k <= Count() && i == Cursor(head, k) && (i == tail <==> k == Count())
        invariant SkipRun(queue, 0, []).0 == SkipRun(queue, k, skips).0
        invariant due <==> Abandons(queue, k)
        decreases Count() - k
      {
        SkipStep(queue, k, skips);
        var e := At(i, k);
        if !e.acked && !e.abandoned {
          DueIff(queue, k, skips);
          return;
        }
        if e.abandoned { due := true; }
        AbandonsStep(queue, k);
        skips := if e.abandoned && !e.unordered then AddSkip(skips, e.sid, e.ssn) else skips;
        Advance(k);
        i, k := Succ(i), k + 1;
      }
      DueIff(queue, k, skips);
    }

    /** Moves the clock and the forward-pending flag, which no fragment depends on. */
    method Clock(t: nat, pending: bool)
      requires Valid()
      modifies this`now, this`forwardPending
      ensures Valid() && View() == old(View()).(now := t, forwardPending := pending)
    {
      assert forall k | 0 <= k < |queue| :: Represents(k);
      now, forwardPending := t, pending;
      forall k | 0 <= k < |queue| ensures Represents(k) { assert old(Represents(k)); }
    }

    /** One timer tick. */
    method HandleTimeout(t: nat) returns (status: Status)
      requires Valid()
      modifies ring, this`queue, this`forwardPending, this`established, this`failed, this`rto, this`now
      ensures Valid() && (View(), status) == SctpSender.HandleTimeout(old(View()), t)
    {
      Clock(t, forwardPending);
      if !established { return Ok; }
      status := Scan();
      if status != Ok { return; }
      if Elapsed(now, forwardSentAt) >= rto {
        var due := Due();
        if due { Clock(now, true); }
      }
    }
  }
}
