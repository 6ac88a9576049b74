/** The receive half as the program has it: a descriptor table over one byte
    pool, updated in place. Every method is tied to the function of
    SctpReceiver that it implements. */
module SctpPool {
  import opened SctpTypes
  import opened SctpReceiver
  import opened SctpLayout
  import opened SctpMoves
  import opened SctpSack
  import opened SctpSender

  class Pool {
    const gap: array<Desc>
    const buf: array<Byte>
    var count: nat
    var used: nat
    var cum: int
    var streams: seq<Stream>
    var sackNeeded: bool
    ghost var firsts: seq<int>

    ghost predicate Valid()
      reads `count, `used, `firsts, gap, buf
    {
      && gap as object != buf && gap.Length == MAX_RECV_GAP && buf.Length == RECV_GAP_BUF_SIZE
      && Sound(gap[..], firsts, buf[..], used, count)
    }

    ghost function View(): Receiver
      reads `cum, `streams, `sackNeeded, `firsts, gap, buf
      requires |firsts| == gap.Length
    {
      Receiver(cum, SlotsOf(gap[..], firsts, buf[..]), streams, sackNeeded)
    }

    constructor (initialCum: int)
      ensures Valid() && fresh(gap) && fresh(buf)
      ensures View() == Receiver(initialCum, seq(MAX_RECV_GAP, i => None), [], false)
    {
      gap := new Desc[MAX_RECV_GAP](i => Desc(false, 0, 0, 0, 0, false, false, false, false, false, 0, 0));
      buf := new Byte[RECV_GAP_BUF_SIZE](i => 0);
      count, used, cum, streams, sackNeeded := 0, 0, initialCum, [], false;
      firsts := seq(MAX_RECV_GAP, i => 0);
      new;
      var slots := SlotsOf(gap[..], firsts, buf[..]);
      assert slots == seq(MAX_RECV_GAP, i => None);
      EmptyTotals(slots);
    }

    static lemma {:induction false} EmptyTotals(slots: Slots)
      requires forall i | 0 <= i < |slots| :: slots[i].None?
      ensures TotalBytes(slots) == 0 && CountHeld(slots) == 0
    {
      if slots != [] { EmptyTotals(slots[..|slots| - 1]); }
    }

    /** memmove towards the front of the pool. */
    method MoveDown(dst: nat, src: nat, n: nat)
      requires dst <= src && src + n <= buf.Length
      modifies buf
      ensures buf[dst..dst + n] == old(buf[src..src + n])
      ensures forall p | 0 <= p < dst || dst + n <= p < buf.Length :: buf[p] == old(buf[p])
    {
      ghost var bytes := buf[..];
      for k := 0 to n
        invariant forall p | 0 <= p < dst || dst + k <= p < buf.Length :: buf[p] == bytes[p]
        invariant forall p | dst <= p < dst + k :: buf[p] == bytes[p - dst + src]
      {
        buf[dst + k] := buf[src + k];
      }
    }

    /** The adjustment of every offset past removed bytes. */
    method LowerOffsets(off: nat, n: nat)
      modifies gap
      ensures forall k | 0 <= k < gap.Length :: gap[k] == Lowered(old(gap[k]), off, n)
    {
      for j := 0 to gap.Length
        invariant forall k | 0 <= k < gap.Length :: gap[k] == if k < j then Lowered(old(gap[k]), off, n) else old(gap[k])
      {
        if gap[j].valid && gap[j].off > off {
          gap[j] := gap[j].(off := (gap[j].off - n) % WRAP);
        }
      }
    }

    /** Squeezes the bytes of descriptor `i` out of the pool. */
    method DropBytes(i: nat)
      requires gap as object != buf && i < gap.Length && used <= buf.Length
      requires gap[i].len > 0 ==> gap[i].off + gap[i].len <= used
      modifies this`used, this`sackNeeded, gap, buf
      ensures used == old(used) - old(gap[i].len) && sackNeeded == (old(sackNeeded) || old(gap[i].len) > 0)
      ensures gap[i] == (if old(gap[i].len) > 0 then Lowered(old(gap[i]), old(gap[i].off), old(gap[i].len)) else old(gap[i])).(len := 0)
      ensures old(gap[i].len) > 0 ==>
                && Squeezed(old(buf[..]), buf[..], old(gap[i].off), old(gap[i].len), old(used))
                && forall k | 0 <= k < gap.Length && k != i :: gap[k] == Lowered(old(gap[k]), old(gap[i].off), old(gap[i].len))
      ensures old(gap[i].len) == 0 ==> buf[..] == old(buf[..]) && gap[..] == old(gap[..])
    {
      var n, off := gap[i].len, gap[i].off;
      if n > 0 {
        MoveDown(off, off + n, used - off - n);
        assert buf[..off] == old(buf[..])[..off];
        used := used - n;
        sackNeeded := true;
        LowerOffsets(off, n);
        gap[i] := gap[i].(len := 0);
        assert buf[off..used] == old(buf[..])[off + n..used + n];
      } else {
        assert gap[i] == gap[i].(len := 0);
      }
    }

    /** Frees the descriptor when it is acknowledged. */
    method FreeAcked(i: nat)
      requires i < gap.Length && (gap[i].tsn <= cum ==> count > 0)
      modifies this`count, gap
      ensures gap[..] == if old(gap[i]).tsn <= cum then old(gap[..])[i := old(gap[i]).(valid := false)] else old(gap[..])
      ensures count == if old(gap[i]).tsn <= cum then old(count) - 1 else old(count)
    {
      if gap[i].tsn <= cum {
        gap[i] := gap[i].(valid := false);
        count := count - 1;
      }
    }

    /** Frees the bytes of a delivered descriptor, and the descriptor when it is acknowledged. */
    method ReclaimDelivered(i: nat)
      requires Valid() && i < gap.Length && gap[i].valid && gap[i].delivered
      modifies this`used, this`count, this`sackNeeded, gap, buf
      ensures Valid() && sackNeeded == (old(sackNeeded) || old(gap[i].len) > 0)
      ensures View().slots == old(View().slots)[i := Reclaimed(old(View().slots)[i], cum)]
    {
      ghost var before, bytes, n, held := gap[..], buf[..], used, count;
      CountHeldPositive(View().slots, i);
      DropBytes(i);
      FreeAcked(i);
      ReclaimSound(before, gap[..], firsts, bytes, buf[..], i, n, held, cum);
    }

    /** One descriptor of the reclaiming pass. */
    method ReclaimSlot(i: nat)
      requires Valid() && i < gap.Length
      modifies this`used, this`count, this`sackNeeded, gap, buf
      ensures Valid()
      ensures View() == old(View()).(slots := old(View().slots)[i := Reclaimed(old(View().slots)[i], cum)],
                                     sackNeeded := old(sackNeeded) || Reopens(old(View().slots)[i]))
    {
      SlotIs(i);
      if gap[i].valid && gap[i].delivered {
        ReclaimDelivered(i);
      } else {
        assert View().slots[i := View().slots[i]] == View().slots;
      }
    }

    /** A slot mirrors its descriptor. */
    lemma SlotIs(i: nat)
      requires Valid() && i < gap.Length
      ensures View().slots[i] == SlotOf(gap[i], firsts[i], buf[..])
      ensures gap[i].valid ==> |View().slots[i].value.data| == gap[i].len
    {
      if Occupies(gap[..][i]) { assert gap[..][i].off + gap[..][i].len <= used; }
    }

    /** Compacts the pool over delivered bytes. */
    method Reclaim()
      requires Valid()
      modifies this, gap, buf
      ensures Valid() && View() == SctpReceiver.Reclaim(old(View()))
    {
      ghost var v := View();
      assert ReclaimedUpTo(v.slots, v.cum, 0) == v.slots;
      for i := 0 to gap.Length
        invariant Valid()
        invariant View() == v.(slots := ReclaimedUpTo(v.slots, v.cum, i),
                               sackNeeded := v.sackNeeded || exists k | 0 <= k < i :: Reopens(v.slots[k]))
      {
        ReclaimSlot(i);
        assert ReclaimedUpTo(v.slots, v.cum, i + 1) == ReclaimedUpTo(v.slots, v.cum, i)[i := Reclaimed(v.slots[i], v.cum)];
      }
    }

    /** Steps the cumulative TSN over every held follower, then reclaims. */
    method Drain()
      requires Valid()
      modifies this, gap, buf
      ensures Valid() && View() == SctpReceiver.Drain(old(View()))
    {
      ghost var v := View();
      var found := true;
      while found
        invariant Valid() && View() == v.(cum := cum)
        invariant DrainCum(v.slots, v.cum) == DrainCum(v.slots, cum)
        invariant !found ==> !Holds(v.slots, cum + 1)
        decreases found, MaxTsn(v.slots) - cum
      {
        found := false;
        var i := 0;
        while i < gap.Length && !found
          invariant 0 <= i <= gap.Length
          invariant found ==> Holds(v.slots, cum + 1)
          invariant !found ==> forall k | 0 <= k < i :: !(v.slots[k].Some? && v.slots[k].value.tsn == cum + 1)
        {
          if gap[i].valid && gap[i].tsn == cum + 1 {
            assert v.slots[i].Some? && v.slots[i].value.tsn == cum + 1;
            found := true;
          }
          i := i + 1;
        }
        if found { cum := cum + 1; }
      }
      Reclaim();
    }

    /** Reverses `n` pool bytes from `p` on. */
    method Reverse(p: nat, n: nat)
      requires p + n <= buf.Length
      modifies buf
      ensures buf[..] == Flipped(old(buf[..]), p, n)
    {
      ghost var b := buf[..];
      for i := 0 to n / 2
        invariant forall q | p <= q < p + i || p + n - i <= q < p + n :: buf[q] == b[p + n - 1 - (q - p)]
        invariant forall q | 0 <= q < p || p + i <= q < p + n - i || p + n <= q < buf.Length :: buf[q] == b[q]
      {
        buf[p + i], buf[p + n - 1 - i] := buf[p + n - 1 - i], buf[p + i];
      }
      FlippedIs(b, buf[..], p, n);
    }

    static lemma FlippedIs(b: seq<Byte>, after: seq<Byte>, p: nat, n: nat)
      requires p + n <= |b| == |after|
      requires forall q | p <= q < p + n / 2 || p + n - n / 2 <= q < p + n :: after[q] == b[p + n - 1 - (q - p)]
      requires forall q | 0 <= q < p || p + n / 2 <= q < p + n - n / 2 || p + n <= q < |b| :: after[q] == b[q]
      ensures after == Flipped(b, p, n)
    {
      var r := Flipped(b, p, n);
      forall q | 0 <= q < |b| ensures after[q] == r[q] {
        if p <= q < p + n { assert r[q] == Reversed(b[p..p + n])[q - p] == b[p..p + n][p + n - 1 - q]; }
      }
    }

    /** The adjustment of every offset that a rotated fragment jumps over. */
    method RaiseOffsets(slot: nat, pos: nat, off: nat, n: nat)
      modifies gap
      ensures forall k | 0 <= k < gap.Length :: gap[k] == if k == slot then old(gap[k]) else Raised(old(gap[k]), pos, off, n)
    {
      for j := 0 to gap.Length
        invariant forall k | 0 <= k < gap.Length ::
                    gap[k] == if k < j && k != slot then Raised(old(gap[k]), pos, off, n) else old(gap[k])
      {
        if gap[j].valid && j != slot && gap[j].off >= pos && gap[j].off < off {
          gap[j] := gap[j].(off := (gap[j].off + n) % WRAP);
        }
      }
    }

    /** Rotates a fragment down to the boundary `pos` by three reversals. */
    method Move(slot: nat, pos: nat)
      requires Valid() && slot < gap.Length && gap[slot].valid && pos <= buf.Length
      requires gap[slot].len > 0 ==> pos <= gap[slot].off && Boundary(gap[..], slot, pos)
      modifies gap, buf
      ensures Valid() && View() == old(View())
      ensures Shifted(old(gap[..]), gap[..], slot, pos) && buf[..pos] == old(buf[..])[..pos]
    {
      var off, n := gap[slot].off, gap[slot].len;
      if off == pos || n == 0 {
        ShiftedInPlace(gap[..], slot, pos, used);
        return;
      }
      Rotate(slot, pos);
    }

    /** Exchanges the stretches pos..off and off..off+n by three reversals. */
    method RotateBytes(pos: nat, off: nat, n: nat)
      requires pos <= off && off + n <= buf.Length
      modifies buf
      ensures Rotated(old(buf[..]), buf[..], pos, off, n)
    {
      ghost var b := buf[..];
      Reverse(pos, off - pos);
      Reverse(off, n);
      Reverse(pos, off - pos + n);
      ThreeFlips(b, pos, off, n);
    }

    method Rotate(slot: nat, pos: nat)
      requires Valid() && slot < gap.Length && Occupies(gap[slot])
      requires pos < gap[slot].off && Boundary(gap[..], slot, pos)
      modifies gap, buf
      ensures Valid() && View() == old(View())
      ensures Shifted(old(gap[..]), gap[..], slot, pos) && buf[..pos] == old(buf[..])[..pos]
    {
      ghost var before, b := gap[..], buf[..];
      var off, n := gap[slot].off, gap[slot].len;
      RotateBytes(pos, off, n);
      RaiseOffsets(slot, pos, off, n);
      gap[slot] := gap[slot].(off := pos);
      RotateSound(before, gap[..], firsts, b, buf[..], slot, pos, used, count);
    }

    // ----- merging -----

    /** nsctp_fragments_follow on descriptors. */
    predicate DescFollows(a: Desc, b: Desc) {
      && b.tsn == a.tsn + 1 && b.sid == a.sid && b.ssn == a.ssn && b.ppid == a.ppid && b.unordered == a.unordered
      && !a.end && !b.begin
    }

    /** Moves fragment `i` to the front of the pool and fragment `j` right behind it. */
    method Gather(i: nat, j: nat)
      requires Valid() && i < gap.Length && j < gap.Length && i != j && Occupies(gap[i]) && gap[j].valid
      modifies gap, buf
      ensures Valid() && View() == old(View())
      ensures gap[i] == old(gap[i]).(off := 0)
      ensures gap[j] == old(gap[j]).(off := gap[j].off) && (gap[j].len > 0 ==> gap[j].off == gap[i].len)
    {
      Move(i, 0);
      BehindFront(gap[..], i, j, used);
      Move(j, gap[i].len);
    }

    /** One descriptor takes over the bytes of its neighbour. */
    method Join(i: nat, j: nat)
      requires Valid() && i < gap.Length && j < gap.Length && i != j
      requires Occupies(gap[i]) && gap[i].off == 0 && gap[j].valid && (gap[j].len > 0 ==> gap[j].off == gap[i].len)
      modifies this`count, gap
      ensures Valid() && View() == old(View()).(slots := MergeAt(old(View().slots), i, j))
    {
      ghost var descs := gap[..];
      MergeSound(descs, firsts, buf[..], i, j, used, count);
      JoinDescs(i, j);
      count := count - 1;
    }

    /** The descriptors of a join. */
    method JoinDescs(i: nat, j: nat)
      requires i < gap.Length && j < gap.Length && i != j
      modifies gap
      ensures gap[..] == old(gap[..])[i := MergedDesc(old(gap[i]), old(gap[j]))][j := old(gap[j]).(valid := false)]
    {
      gap[i] := gap[i].(len := gap[i].len + gap[j].len, tsn := gap[j].tsn, end := gap[i].end || gap[j].end,
                        forwarded := gap[i].forwarded || gap[j].forwarded);
      gap[j] := gap[j].(valid := false);
    }

    /** Joins fragment `j` onto `i` at the front of the pool. */
    method MergePair(i: nat, j: nat)
      requires Valid() && i < gap.Length && j < gap.Length && CanMerge(View(), i, j)
      modifies this, gap, buf
      ensures Valid() && View() == old(View()).(slots := MergeAt(old(View().slots), i, j))
    {
      assert gap[..][i].valid && gap[..][j].valid && i != j;
      Gather(i, j);
      Join(i, j);
    }

    /** Merges acknowledged fragments until none is left to merge. */
    method Merge() returns (status: Status)
      requires Valid()
      modifies this, gap, buf
      ensures Valid() && (View(), status) == SctpReceiver.Merge(old(View()))
    {
      ghost var v := View();
      var merged := true;
      while merged
        invariant Valid()
        invariant SctpReceiver.Merge(View()) == SctpReceiver.Merge(v)
        invariant !merged ==> FirstPair(View(), 0, 0) == None
        decreases CountHeld(View().slots), merged
      {
        var i, j, found := FindPair();
        if !found {
          merged := false;
        } else {
          if gap[i].len + gap[j].len > MAX_MESSAGE_SIZE { return BufferTooSmall; }
          CountHeldMergeAt(View().slots, i, j);
          MergePair(i, j);
        }
      }
      status := Ok;
    }

    /** The two nested loops that look for a mergeable pair. */
    method FindPair() returns (i: nat, j: nat, found: bool)
      requires Valid()
      ensures found <==> FirstPair(View(), 0, 0).Some?
      ensures found ==> i < gap.Length && j < gap.Length && FirstPair(View(), 0, 0) == Some((i, j))
    {
      ghost var v := View();
      i, j, found := 0, 0, false;
      while i < gap.Length && !found
        invariant i <= gap.Length
        invariant FirstPair(v, 0, 0) == if found then Some((i, j)) else FirstPair(v, i, 0)
        invariant found ==> i < gap.Length && j < gap.Length
        decreases gap.Length - i, !found
      {
        j, found := FindFollower(i);
        if !found { i := i + 1; }
      }
    }

    /** The inner loop: an acknowledged fragment that follows fragment `i`. */
    method FindFollower(i: nat) returns (j: nat, found: bool)
      requires Valid() && i < gap.Length
      ensures found ==> j < gap.Length
      ensures FirstPair(View(), i, 0) == if found then Some((i, j)) else FirstPair(View(), i + 1, 0)
    {
      ghost var v := View();
      j, found := 0, false;
      assert v.slots[i] == SlotOf(gap[i], firsts[i], buf[..]);
      if !gap[i].valid || gap[i].delivered {
        NoPairFrom(v, i, 0);
        return;
      }
      while j < gap.Length
        invariant j <= gap.Length && FirstPair(v, i, 0) == FirstPair(v, i, j)
      {
        assert v.slots[j] == SlotOf(gap[j], firsts[j], buf[..]);
        if gap[j].valid && !gap[j].delivered && gap[j].tsn <= cum && DescFollows(gap[i], gap[j]) { return j, true; }
        j := j + 1;
      }
    }

    static lemma {:induction false} NoPairFrom(v: Receiver, i: nat, j: nat)
      requires i < |v.slots| && j <= |v.slots| && !Pending(v.slots, i)
      ensures FirstPair(v, i, j) == FirstPair(v, i + 1, 0)
      decreases |v.slots| - j
    {
      if j < |v.slots| { NoPairFrom(v, i, j + 1); }
    }
  
    // ----- DATA -----

    /** The row of stream `sid`, registering it when there is room; -1 when the table is full. */
    method StreamRow(sid: nat) returns (row: int)
      modifies this`streams
      ensures streams == Register(old(streams), sid)
      ensures if Known(streams, sid) then row == RowOf(streams, sid) else row == -1 && streams == old(streams)
    {
      RowOfAppend(streams, Stream(sid, 0), sid);
      for i := 0 to |streams|
        invariant streams == old(streams) && forall k | 0 <= k < i :: streams[k].sid != sid
      {
        if streams[i].sid == sid { return i; }
      }
      if |streams| >= MAX_DATACHANNELS { return -1; }
      row := |streams|;
      streams := streams + [Stream(sid, 0)];
    }

    /** Duplicate check and search for a free descriptor in one pass. */
    method FindSlot(tsn: int) returns (duplicate: bool, slot: nat)
      requires Valid()
      ensures duplicate <==> Holds(View().slots, tsn)
      ensures !duplicate ==> slot == LastFree(View().slots, gap.Length)
    {
      ghost var slots := View().slots;
      slot := gap.Length;
      for i := 0 to gap.Length
        invariant forall k | 0 <= k < i :: !(slots[k].Some? && slots[k].value.tsn == tsn)
        invariant slot == LastFree(slots, i)
      {
        assert slots[i].Some? <==> gap[i].valid;
        if gap[i].valid && gap[i].tsn == tsn {
          assert slots[i].Some? && slots[i].value.tsn == tsn;
          return true, slot;
        }
        if !gap[i].valid { slot := i; }
      }
      duplicate := false;
    }

    /** Looks for a permanent fragmentation error against the held predecessor. */
    method CheckFragments(c: Chunk) returns (status: Status)
      requires Valid()
      ensures status == FragmentError(View().slots, Incoming(c), 0)
    {
      ghost var slots := View().slots;
      for i := 0 to gap.Length
        invariant FragmentError(slots, Incoming(c), 0) == FragmentError(slots, Incoming(c), i)
      {
        var d := gap[i];
        assert slots[i] == SlotOf(d, firsts[i], buf[..]);
        if d.valid && !d.delivered && !d.end && d.tsn + 1 == c.tsn {
          if !(d.sid == c.sid && d.ssn == c.ssn && d.ppid == c.ppid && d.unordered == c.unordered && !c.begin) {
            return Protocol;
          }
          assert Bytes(gap[..][i], buf[..]) == slots[i].value.data && |slots[i].value.data| == d.len by {
            assert Occupies(gap[..][i]);
          }
          if |c.payload| > MAX_MESSAGE_SIZE - d.len { return BufferTooSmall; }
        }
      }
      status := Ok;
    }

    /** Copies the payload to the end of the used bytes and fills descriptor `slot`. */
    method Store(c: Chunk, slot: nat)
      requires Valid() && slot < gap.Length && !gap[slot].valid
      requires used + |c.payload| <= RECV_GAP_BUF_SIZE && (c.payload == [] ==> c.end)
      modifies this`used, this`count, this`firsts, gap, buf
      ensures Valid() && View() == old(View()).(slots := old(View().slots)[slot := Some(Incoming(c))])
    {
      ghost var descs, bytes := gap[..], buf[..];
      var off, n := used, |c.payload|;
      assert |firsts| == gap.Length;
      for k := 0 to n
        modifies buf
        invariant forall p | 0 <= p < off || off + k <= p < buf.Length :: buf[p] == bytes[p]
        invariant forall p | off <= p < off + k :: buf[p] == c.payload[p - off]
      {
        buf[off + k] := c.payload[k];
      }
      var d := StoredDesc(c, off);
      used := used + n;
      gap[slot] := d;
      count := count + 1;
      firsts := firsts[slot := c.tsn];
      AdmitSound(descs, old(firsts), bytes, buf[..], slot, d, c.tsn, old(used), old(count));
      assert gap[..] == descs[slot := d];
      assert Bytes(d, buf[..]) == c.payload;
    }

    /** Admission by free descriptors and bytes. */
    method HasRoom(c: Chunk, slot: nat) returns (room: bool)
      requires Valid() && slot == LastFree(View().slots, gap.Length)
      ensures room <==> Admits(View(), c.tsn, |c.payload|)
      ensures room ==> slot < gap.Length && !gap[slot].valid && used + |c.payload| <= RECV_GAP_BUF_SIZE
    {
      FreeSlotIffCount(View().slots, gap.Length);
      assert View().slots[..gap.Length] == View().slots;
      if slot < gap.Length { assert View().slots[slot] == SlotOf(gap[slot], firsts[slot], buf[..]); }
      var isGap := c.tsn != cum + 1;
      var reserve := if isGap then MTU - 28 else 0;
      var free := RECV_GAP_BUF_SIZE - used;
      room := !(slot == gap.Length || (isGap && count >= gap.Length - 1) || free < reserve || |c.payload| > free - reserve);
    }

    /** A chunk past the cumulative TSN, after reclaiming. */
    method HandleFresh(c: Chunk) returns (status: Status)
      requires Valid() && (c.payload == [] ==> c.end)
      modifies this, gap, buf
      ensures Valid() && (View(), status) == SctpReceiver.HandleFresh(old(View()), c)
    {
      var duplicate, slot := FindSlot(c.tsn);
      if duplicate { return Ok; }
      if !c.begin {
        status := CheckFragments(c);
        if status != Ok { return; }
      }
      var room := HasRoom(c, slot);
      if !room { return WouldBlock; }
      var row := StreamRow(c.sid);
      if row < 0 { return Protocol; }
      Store(c, slot);
      Drain();
      status := Merge();
    }

    /** One DATA chunk. An empty chunk must be a last fragment; see MergeJoinsIff. */
    method HandleData(c: Chunk) returns (status: Status)
      requires Valid() && (c.payload == [] ==> c.end)
      modifies this, gap, buf
      ensures Valid() && (View(), status) == SctpReceiver.HandleData(old(View()), c)
    {
      if |c.payload| > MAX_MESSAGE_SIZE { return BufferTooSmall; }
      sackNeeded := true;
      if c.tsn <= cum { return Ok; }
      Reclaim();
      status := HandleFresh(c);
    }

    // ----- delivery -----

    /** A skipped-over message of the same stream that must be delivered before slot `i`. */
    method HasEarlier(i: nat) returns (earlier: bool)
      requires Valid() && i < gap.Length && gap[i].valid
      ensures earlier <==> EarlierForwarded(View().slots, i)
    {
      ghost var slots := View().slots;
      earlier := false;
      for j := 0 to gap.Length
        invariant earlier <==> (exists k | 0 <= k < j :: Pending(slots, k) && slots[k].value.forwarded &&
                                  slots[k].value.sid == slots[i].value.sid && slots[k].value.ssn < slots[i].value.ssn)
      {
        assert slots[j] == SlotOf(gap[j], firsts[j], buf[..]);
        if gap[j].valid && !gap[j].delivered && gap[j].sid == gap[i].sid && gap[j].forwarded && gap[j].ssn < gap[i].ssn {
          earlier := true;
        }
      }
    }

    /** Linear search for an undelivered descriptor by its last TSN. */
    method Lookup(tsn: int) returns (j: nat)
      requires Valid()
      ensures j == FindPending(View().slots, tsn, 0)
    {
      ghost var slots := View().slots;
      j := 0;
      while j < gap.Length && !(gap[j].valid && !gap[j].delivered && gap[j].tsn == tsn)
        invariant j <= gap.Length && FindPending(slots, tsn, 0) == FindPending(slots, tsn, j)
      {
        assert slots[j] == SlotOf(gap[j], firsts[j], buf[..]);
        j := j + 1;
      }
      if j < gap.Length { assert slots[j] == SlotOf(gap[j], firsts[j], buf[..]); }
    }

    /** Looks for the next part of a message. */
    method NextPart(tsn: int, parts: seq<nat>, total: nat) returns (more: bool, r: Assembly, j: nat)
      requires Valid() && |parts| < gap.Length && AllPending(View().slots, parts) && total == |Joined(View().slots, parts)|
      ensures !more ==> Assemble(View().slots, tsn, parts) == r
      ensures more ==> j < gap.Length && Pending(View().slots, j)
      ensures more ==> Assemble(View().slots, tsn, parts) == Assemble(View().slots, tsn + 1, parts + [j])
    {
      ghost var slots := View().slots;
      more, r := false, Incomplete;
      j := Lookup(tsn);
      if j == gap.Length { return; }
      PendingDesc(j);
      if parts != [] {
        PendingDesc(parts[|parts| - 1]);
        if !DescFollows(gap[parts[|parts| - 1]], gap[j]) { return false, Broken(Protocol), j; }
      }
      if total + gap[j].len > MAX_MESSAGE_SIZE { return false, Broken(BufferTooSmall), j; }
      if gap[j].end { return false, Complete(parts + [j]), j; }
      more := true;
    }

    /** Collects the descriptors of the message that starts at TSN `start`. */
    method Collect(start: int) returns (r: Assembly)
      requires Valid()
      ensures r == Assemble(View().slots, start, [])
    {
      ghost var slots := View().slots;
      var parts: seq<nat>, total, tsn := [], 0, start;
      while |parts| < gap.Length
        invariant |parts| <= gap.Length && AllPending(slots, parts) && total == |Joined(slots, parts)|
        invariant Assemble(slots, start, []) == Assemble(slots, tsn, parts)
      {
        var more, result, j := NextPart(tsn, parts, total);
        if !more { return result; }
        PendingDesc(j);
        JoinedMore(slots, parts, j);
        total := total + gap[j].len;
        parts := parts + [j];
        tsn := tsn + 1;
      }
      r := Incomplete;
    }

    /** A pending slot mirrors its descriptor. */
    lemma PendingDesc(j: nat)
      requires Valid() && j < gap.Length && View().slots[j].Some?
      ensures View().slots[j] == SlotOf(gap[j], firsts[j], buf[..]) && gap[j].valid
      ensures |View().slots[j].value.data| == gap[j].len
    {
      if gap[j].len > 0 { assert Occupies(gap[..][j]); }
    }

    static lemma JoinedMore(slots: Slots, parts: seq<nat>, j: nat)
      requires AllHeld(slots, parts) && j < |slots| && slots[j].Some?
      ensures AllHeld(slots, parts + [j]) && Joined(slots, parts + [j]) == Joined(slots, parts) + slots[j].value.data
    {
      assert (parts + [j])[..|parts|] == parts;
    }

    /** Parts already gathered lie below `pos`, everything else at or above it. */
    static ghost predicate SplitAt(descs: seq<Desc>, parts: seq<nat>, pos: nat) {
      forall k | 0 <= k < |descs| && Occupies(descs[k]) ::
        if k in parts then descs[k].off + descs[k].len <= pos else pos <= descs[k].off
    }

    ghost predicate GatheredTo(parts: seq<nat>, pos: nat)
      reads gap
    {
      SplitAt(gap[..], parts, pos)
    }

    method MarkOne(slot: nat)
      requires Valid() && slot < gap.Length && gap[slot].valid
      modifies gap
      ensures Valid() && gap[..] == old(gap[..])[slot := old(gap[slot]).(delivered := true)]
      ensures View() == old(View()).(slots := old(View().slots)[slot := Some(old(View().slots[slot]).value.(delivered := true))])
    {
      ghost var before, slots := gap[..], View().slots;
      gap[slot] := gap[slot].(delivered := true);
      FlagSound(before, gap[..], firsts, buf[..], used, count);
      assert View().slots == slots[slot := Some(slots[slot].value.(delivered := true))];
    }

    /** A fragment at `pos` supplies the pool bytes there. */
    lemma BytesAt(slot: nat, pos: nat)
      requires Valid() && slot < gap.Length && gap[slot].valid && pos <= buf.Length
      requires gap[slot].len > 0 ==> gap[slot].off == pos
      ensures pos + gap[slot].len <= buf.Length
      ensures buf[..pos + gap[slot].len] == buf[..pos] + View().slots[slot].value.data
    {
      if gap[slot].len > 0 { assert Occupies(gap[..][slot]); }
    }

    /** Moves one more part behind the gathered ones. */
    method MoveNext(slot: nat, pos: nat, ghost parts: seq<nat>)
      requires Valid() && slot < gap.Length && gap[slot].valid && pos <= buf.Length
      requires slot !in parts && GatheredTo(parts, pos)
      modifies gap, buf
      ensures Valid() && gap[slot] == old(gap[slot]).(off := gap[slot].off) && View() == old(View())
      ensures pos + gap[slot].len <= buf.Length && buf[..pos + gap[slot].len] == old(buf[..])[..pos] + old(View().slots[slot]).value.data
      ensures GatheredTo(parts + [slot], pos + gap[slot].len)
    {
      ghost var before := gap[..];
      SplitBoundary(before, parts, pos, slot);
      Move(slot, pos);
      BytesAt(slot, pos);
      GatheredMore(before, gap[..], slot, pos, parts);
    }

    static lemma SplitBoundary(descs: seq<Desc>, parts: seq<nat>, pos: nat, slot: nat)
      requires SplitAt(descs, parts, pos) && slot < |descs| && slot !in parts
      ensures Boundary(descs, slot, pos) && (Occupies(descs[slot]) ==> pos <= descs[slot].off)
    {
    }

    /** Moves one more part behind the gathered ones and marks it delivered. */
    method GatherOne(slot: nat, pos: nat, ghost parts: seq<nat>)
      requires Valid() && slot < gap.Length && gap[slot].valid && pos <= buf.Length
      requires slot !in parts && GatheredTo(parts, pos)
      modifies gap, buf
      ensures Valid() && gap[slot].len == old(gap[slot].len) && pos + gap[slot].len <= buf.Length
      ensures View() == old(View()).(slots := old(View().slots)[slot := Some(old(View().slots[slot]).value.(delivered := true))])
      ensures buf[..pos + gap[slot].len] == old(buf[..])[..pos] + old(View().slots[slot]).value.data
      ensures GatheredTo(parts + [slot], pos + gap[slot].len)
    {
      MoveNext(slot, pos, parts);
      ghost var moved := gap[..];
      MarkOne(slot);
      SplitMarked(moved, gap[..], parts + [slot], pos + gap[slot].len);
    }

    static lemma SplitMarked(before: seq<Desc>, after: seq<Desc>, parts: seq<nat>, pos: nat)
      requires SplitAt(before, parts, pos) && |after| == |before|
      requires forall k | 0 <= k < |before| :: after[k] == before[k].(delivered := after[k].delivered)
      ensures SplitAt(after, parts, pos)
    {
    }

    static lemma GatheredMore(before: seq<Desc>, moved: seq<Desc>, slot: nat, pos: nat, parts: seq<nat>)
      requires slot < |before| == |moved| && slot !in parts && before[slot].valid
      requires SplitAt(before, parts, pos) && Shifted(before, moved, slot, pos)
      ensures SplitAt(moved, parts + [slot], pos + moved[slot].len)
    {
      forall k | 0 <= k < |moved| && Occupies(moved[k])
        ensures if k in parts + [slot] then moved[k].off + moved[k].len <= pos + moved[slot].len else pos + moved[slot].len <= moved[k].off
      {
        assert moved[k] == before[k].(off := moved[k].off);
      }
    }

    static lemma MarkMore(slots: Slots, parts: seq<nat>, k: nat)
      requires k < |parts| && AllHeld(slots, parts)
      ensures parts[..k + 1] == parts[..k] + [parts[k]]
      ensures AllHeld(slots, parts[..k]) && AllHeld(slots, parts[..k + 1])
      ensures Joined(slots, parts[..k + 1]) == Joined(slots, parts[..k]) + slots[parts[k]].value.data
      ensures MarkDelivered(slots, parts[..k + 1]) ==
              MarkDelivered(slots, parts[..k])[parts[k] := Some(slots[parts[k]].value.(delivered := true))]
    {
      assert parts[..k + 1] == parts[..k] + [parts[k]];
      JoinedMore(slots, parts[..k], parts[k]);
    }

    /** The first `k` parts fill the front of the pool in order and are marked delivered. */
    ghost predicate Gathered(slots: Slots, parts: seq<nat>, k: nat, total: nat)
      reads this, gap, buf
      requires k <= |parts| && AllHeld(slots, parts)
    {
      && Valid() && total <= buf.Length && GatheredTo(parts[..k], total)
      && View().slots == MarkDelivered(slots, parts[..k])
      && buf[..total] == Joined(slots, parts[..k])
    }

    method GatherNext(parts: seq<nat>, k: nat, total: nat, ghost slots: Slots) returns (more: nat)
      requires k < |parts| && AllHeld(slots, parts) && parts[k] !in parts[..k]
      requires Gathered(slots, parts, k, total)
      modifies gap, buf
      ensures Gathered(slots, parts, k + 1, more)
    {
      var slot := parts[k];
      assert View().slots[slot] == slots[slot];
      MarkMore(slots, parts, k);
      assert buf[..][..total] == buf[..total];
      GatherOne(slot, total, parts[..k]);
      more := total + gap[slot].len;
      assert View().slots == MarkDelivered(slots, parts[..k + 1]);
    }

    /** Assembles the listed parts at the front of the pool, in order. */
    method GatherAll(parts: seq<nat>) returns (total: nat)
      requires Valid() && AllPending(View().slots, parts)
      requires forall j, k | 0 <= j < k < |parts| :: parts[j] != parts[k]
      modifies gap, buf
      ensures Valid() && View() == old(View()).(slots := MarkDelivered(old(View().slots), parts))
      ensures total <= buf.Length && buf[..total] == Joined(old(View().slots), parts)
    {
      ghost var slots := View().slots;
      total := 0;
      assert MarkDelivered(slots, parts[..0]) == slots && buf[..0] == [];
      for k := 0 to |parts|
        invariant Gathered(slots, parts, k, total)
      {
        total := GatherNext(parts, k, total, slots);
      }
      assert parts[..|parts|] == parts;
    }
  
    /** What polling slot `i` leads to. */
    ghost predicate Handed(v: Receiver, i: nat, status: Status, sid: nat, ppid: nat, len: nat)
      reads `cum, `streams, `sackNeeded, `firsts, gap, buf
      requires |firsts| == gap.Length && i <= |v.slots|
    {
      && len <= buf.Length
      && (View(), status, if status == Ok then Some(Message(sid, ppid, buf[..len])) else None) == PollFrom(v, i)
    }

    /** Tries to hand out the message that starts in slot `i`. */
    method PollSlot(i: nat) returns (done: bool, status: Status, sid: nat, ppid: nat, len: nat)
      requires Valid() && i < gap.Length
      modifies this`streams, gap, buf
      ensures Valid()
      ensures !done ==> PollFrom(old(View()), i) == PollFrom(View(), i + 1)
      ensures done ==> Handed(old(View()), i, status, sid, ppid, len)
    {
      done, status, sid, ppid, len := false, WouldBlock, 0, 0, 0;
      var r := TryDeliver(i);
      match r {
        case Incomplete =>
        case Broken(error) => done, status := true, error;
        case Complete(parts) =>
          assert View().slots[i] == SlotOf(gap[i], firsts[i], buf[..]);
          sid, ppid := gap[i].sid, gap[i].ppid;
          len := Hand(i, parts);
          done, status := true, Ok;
      }
    }

    /** Hands out the next deliverable message as the first `len` bytes of the pool. */
    method PollDelivery() returns (status: Status, sid: nat, ppid: nat, len: nat)
      requires Valid()
      modifies this, gap, buf
      ensures Valid() && len <= buf.Length
      ensures (View(), status, if status == Ok then Some(Message(sid, ppid, buf[..len])) else None) ==
              SctpReceiver.PollDelivery(old(View()))
    {
      Reclaim();
      ghost var v := View();
      var i, done := 0, false;
      while i < gap.Length
        invariant Valid() && i <= gap.Length && PollFrom(v, 0) == PollFrom(View(), i)
        decreases gap.Length - i
      {
        done, status, sid, ppid, len := PollSlot(i);
        if done { return; }
        i := i + 1;
      }
      status, sid, ppid, len := WouldBlock, 0, 0, 0;
    }

    /** Decides whether slot `i` starts a message that can be delivered now. */
    method TryDeliver(i: nat) returns (r: Assembly)
      requires Valid() && i < gap.Length
      modifies this`streams
      ensures Valid() && View() == LookUp(old(View()), i)
      ensures r == if Eligible(View(), i) then Assemble(View().slots, View().slots[i].value.tsn, []) else Incomplete
    {
      assert View().slots[i] == SlotOf(gap[i], firsts[i], buf[..]);
      if !gap[i].valid || gap[i].delivered || !gap[i].begin { return Incomplete; }
      var row := StreamRow(gap[i].sid);
      assert View().slots[i] == SlotOf(gap[i], firsts[i], buf[..]);
      if row < 0 || (!gap[i].unordered && !gap[i].forwarded && gap[i].ssn != streams[row].ssn) { return Incomplete; }
      if !gap[i].unordered {
        var earlier := HasEarlier(i);
        if earlier { return Incomplete; }
      }
      r := Collect(gap[i].tsn);
    }

    static lemma DistinctParts(slots: Slots, base: int, parts: seq<nat>)
      requires AllHeld(slots, parts) && TsnsFrom(slots, base, parts)
      ensures forall j, k | 0 <= j < k < |parts| :: parts[j] != parts[k]
    {
    }

    static lemma PartsDiffer(slots: Slots, start: int, parts: seq<nat>)
      requires Assemble(slots, start, []) == Complete(parts)
      ensures forall j, k | 0 <= j < k < |parts| :: parts[j] != parts[k]
    {
      AssembleTsns(slots, start, []);
      DistinctParts(slots, start, parts);
    }

    /** Writes the sequence number of a known stream. */
    method SetStream(sid: nat, ssn: nat)
      requires Known(streams, sid)
      modifies this`streams
      ensures streams == SetSsn(old(streams), sid, ssn)
    {
      var row := StreamRow(sid);
      streams := streams[row := Stream(sid, ssn)];
    }

    /** Advances the stream of a message that was delivered in turn. */
    method AdvanceStream(sid: nat, ssn: nat, ordinary: bool)
      requires Valid() && (ordinary ==> Known(streams, sid))
      modifies this`streams
      ensures Valid() && View() == old(View()).(streams := if ordinary then SetSsn(old(streams), sid, ssn + 1) else old(streams))
    {
      if ordinary { SetStream(sid, ssn + 1); }
    }

    /** What assembling a complete message gives its delivery. */
    static lemma CompleteParts(slots: Slots, start: int, parts: seq<nat>)
      requires Assemble(slots, start, []) == Complete(parts)
      ensures AllPending(slots, parts) && forall j, k | 0 <= j < k < |parts| :: parts[j] != parts[k]
    {
      PartsDiffer(slots, start, parts);
    }

    /** Gathers a complete message and advances its stream. */
    method Hand(i: nat, parts: seq<nat>) returns (len: nat)
      requires Valid() && i < gap.Length && Eligible(View(), i)
      requires Assemble(View().slots, View().slots[i].value.tsn, []) == Complete(parts)
      modifies this`streams, gap, buf
      ensures Valid() && View() == Deliver(old(View()), i, parts)
      ensures len <= buf.Length && buf[..len] == Joined(old(View().slots), parts)
    {
      ghost var v := View();
      CompleteParts(v.slots, v.slots[i].value.tsn, parts);
      SlotIs(i);
      var sid, ssn, ordinary := gap[i].sid, gap[i].ssn, !gap[i].unordered && !gap[i].forwarded;
      len := GatherAll(parts);
      AdvanceStream(sid, ssn, ordinary);
      DeliveredIs(v, i, parts, View());
    }

    static lemma DeliveredIs(v: Receiver, i: nat, parts: seq<nat>, w: Receiver)
      requires i < |v.slots| && Eligible(v, i) && AllHeld(v.slots, parts)
      requires var e := v.slots[i].value;
               w == v.(slots := MarkDelivered(v.slots, parts),
                       streams := if !e.unordered && !e.forwarded then SetSsn(v.streams, e.sid, e.ssn + 1) else v.streams)
      ensures w == Deliver(v, i, parts)
    {
      DeliverShape(v, i, parts);
    }

    // ----- FORWARD TSN -----

    /** Marks what is not a complete message up to `tsn` as discarded. */
    method Discard(tsn: int)
      requires Valid()
      modifies gap
      ensures Valid() && View() == old(View()).(slots := DiscardStranded(old(View().slots), tsn))
    {
      ghost var descs, slots := gap[..], View().slots;
      for i := 0 to gap.Length
        invariant forall k | 0 <= k < gap.Length :: gap[k] ==
                    if k < i && descs[k].valid && descs[k].tsn <= tsn && !(descs[k].begin && descs[k].end)
                    then descs[k].(delivered := true) else descs[k]
      {
        if gap[i].valid && gap[i].tsn <= tsn && !(gap[i].begin && gap[i].end) {
          gap[i] := gap[i].(delivered := true);
        }
      }
      FlagSound(descs, gap[..], firsts, buf[..], used, count);
      assert View().slots == DiscardStranded(slots, tsn);
    }

    /** Marks held ordered messages of `sid` up to `ssn` as skipped over. */
    method MarkSkipped(sid: nat, ssn: nat)
      requires Valid()
      modifies gap
      ensures Valid() && View() == old(View()).(slots := MarkForwarded(old(View().slots), sid, ssn))
    {
      ghost var descs, slots := gap[..], View().slots;
      for i := 0 to gap.Length
        invariant forall k | 0 <= k < gap.Length :: gap[k] ==
                    if k < i && descs[k].valid && descs[k].sid == sid && !descs[k].unordered && descs[k].ssn <= ssn
                    then descs[k].(forwarded := true) else descs[k]
      {
        if gap[i].valid && gap[i].sid == sid && !gap[i].unordered && gap[i].ssn <= ssn {
          gap[i] := gap[i].(forwarded := true);
        }
      }
      FlagSound(descs, gap[..], firsts, buf[..], used, count);
      assert View().slots == MarkForwarded(slots, sid, ssn);
    }

    /** One (stream, SSN) pair of a FORWARD TSN; false when the stream table is full. */
    method ReleaseOne(s: Stream) returns (ok: bool)
      requires Valid()
      modifies this`streams, gap
      ensures Valid() && ok == Known(Register(old(streams), s.sid), s.sid)
      ensures var w := old(View()).(streams := Register(old(streams), s.sid));
              View() == if !ok || s.ssn < SsnOf(w.streams, s.sid) then w
                        else w.(slots := MarkForwarded(w.slots, s.sid, s.ssn), streams := SetSsn(w.streams, s.sid, s.ssn + 1))
    {
      var row := StreamRow(s.sid);
      ok := row >= 0;
      if ok && s.ssn >= streams[row].ssn {
        MarkSkipped(s.sid, s.ssn);
        SetStream(s.sid, s.ssn + 1);
      }
    }

    method ReleaseSkips(skips: seq<Stream>) returns (status: Status)
      requires Valid()
      modifies this`streams, gap
      ensures Valid() && (View(), status) == ReleaseStreams(old(View()), skips)
    {
      ghost var v := View();
      assert skips[0..] == skips;
      for n := 0 to |skips|
        invariant Valid() && ReleaseStreams(v, skips) == ReleaseStreams(View(), skips[n..])
      {
        assert skips[n..][0] == skips[n] && skips[n..][1..] == skips[n + 1..];
        var ok := ReleaseOne(skips[n]);
        if !ok { return Protocol; }
      }
      status := Ok;
    }

    /** One FORWARD TSN chunk. */
    method HandleForward(newTsn: int, skips: seq<Stream>) returns (status: Status)
      requires Valid()
      modifies this, gap, buf
      ensures Valid() && (View(), status) == SctpReceiver.HandleForward(old(View()), newTsn, skips)
    {
      sackNeeded := true;
      if newTsn <= cum { return Ok; }
      cum := newTsn;
      status := Merge();
      if status != Ok { return; }
      Discard(newTsn);
      status := ReleaseSkips(skips);
      if status != Ok { return; }
      Drain();
    }

    // ----- SACK -----

    /** Inserts element `i` into the elements before it, shifting the larger ones up. */
    static method InsertInPlace(a: array<int>, i: nat)
      requires i < a.Length
      modifies a
      ensures a[..i + 1] == Insert(old(a[..i]), old(a[i]))
      ensures forall k | i < k < a.Length :: a[k] == old(a[k])
    {
      ghost var s := a[..i];
      var key := a[i];
      var j := i - 1;
      while j >= 0 && a[j] > key
        invariant -1 <= j < i
        invariant forall k | 0 <= k <= j :: a[k] == s[k]
        invariant forall k | j + 1 < k <= i :: a[k] == s[k - 1]
        invariant forall k | j < k < i :: s[k] > key
        invariant forall k | i < k < a.Length :: a[k] == old(a[k])
      {
        a[j + 1] := a[j];
        j := j - 1;
      }
      a[j + 1] := key;
      InsertAt(s, key, j + 1);
      Placed(s, key, j + 1, a[..i + 1]);
    }

    static lemma Placed(s: seq<int>, key: int, at: nat, r: seq<int>)
      requires at <= |s| && |r| == |s| + 1 && r[at] == key
      requires forall k | 0 <= k < at :: r[k] == s[k]
      requires forall k | at < k <= |s| :: r[k] == s[k - 1]
      ensures r == s[..at] + [key] + s[at..]
    {
    }

    /** In-place insertion sort of the first `n` elements. */
    static method SortInPlace(a: array<int>, n: nat)
      requires n <= a.Length
      modifies a
      ensures a[..n] == Sort(old(a[..n]))
    {
      ghost var src := a[..n];
      if n == 0 { return; }
      assert Sort(src[..0]) == [] && src[..1][..0] == src[..0] && a[..1] == [src[0]];
      for i := 1 to n
        invariant a[..i] == Sort(src[..i])
        invariant forall k | i <= k < n :: a[k] == src[k]
      {
        assert src[..i + 1][..i] == src[..i];
        InsertInPlace(a, i);
      }
      assert src[..n] == src;
    }

    /** Copies the held TSNs past the cumulative one. */
    method CollectHeld(tsns: array<int>) returns (n: nat)
      requires Valid() && tsns.Length == gap.Length && tsns as object != gap && tsns as object != buf
      modifies tsns
      ensures n <= tsns.Length && tsns[..n] == HeldPast(View().slots, cum, gap.Length)
    {
      ghost var slots := View().slots;
      n := 0;
      for i := 0 to gap.Length
        invariant n <= i && tsns[..n] == HeldPast(slots, cum, i)
      {
        assert slots[i] == SlotOf(gap[i], firsts[i], buf[..]);
        if gap[i].valid && gap[i].tsn > cum {
          tsns[n] := gap[i].tsn;
          n := n + 1;
        }
      }
    }

    /** Encodes sorted TSNs as gap blocks. */
    static method EncodeBlocks(tsns: seq<int>, cum: int) returns (gaps: seq<Gap>)
      ensures gaps == BlocksFrom(tsns, cum, 0, [])
    {
      gaps := [];
      var i := 0;
      while i < |tsns| && |gaps| < MAX_GAP_BLOCKS
        invariant i <= |tsns| && BlocksFrom(tsns, cum, 0, []) == BlocksFrom(tsns, cum, i, gaps)
      {
        var offset := (tsns[i] - cum) % WRAP;
        if gaps != [] && offset == gaps[|gaps| - 1].end + 1 {
          gaps := gaps[|gaps| - 1 := gaps[|gaps| - 1].(end := offset)];
        } else {
          gaps := gaps + [Gap(offset, offset)];
        }
        i := i + 1;
      }
    }

    /** Collects, sorts and encodes the held TSNs as gap blocks. */
    method EncodeGaps() returns (gaps: seq<Gap>)
      requires Valid()
      ensures gaps == SackGaps(View())
    {
      var tsns := new int[MAX_RECV_GAP];
      var n := CollectHeld(tsns);
      SortInPlace(tsns, n);
      gaps := EncodeBlocks(tsns[..n], cum);
    }
  }
}
