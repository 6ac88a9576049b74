/** The send side of forward error correction: sent packets are collected into groups of an adaptive
    size, and each full group gives one FEC packet, in a buffer that is lent to the output queue. */
module RtcFec {
  import opened Bits
  import opened RtcRings
  import FecCode
  import FecCodec
  import FecTheorem

  type Packet = seq<Byte>

  const GROUP_SIZE: nat := 8
  const MEDIA_BUF_SIZE: nat := 1232
  const FEC_BUF_SIZE: nat := 1296
  const AUTH_TAG_SIZE: nat := 10
  const FEC_RTP_HDR: nat := 12
  const FEC_CAP: nat := FEC_BUF_SIZE - FEC_RTP_HDR - AUTH_TAG_SIZE
  const FEC_PT: Byte := 116
  const OUT_QUEUE_SIZE: nat := 32

  /** A packet that the group buffers can hold. */
  predicate Fits(pkt: Packet) {
    FEC_RTP_HDR <= |pkt| <= MEDIA_BUF_SIZE
  }

  predicate AllFit(group: seq<Packet>) {
    forall i | 0 <= i < |group| :: Fits(group[i])
  }

  // ----- what a group is worth -----

  /** Consecutive sequence numbers from `base` on. */
  predicate Consecutive(group: seq<Packet>, base: FecCode.Sn)
    requires AllFit(group) && |group| <= GROUP_SIZE
  {
    forall i | 0 <= i < |group| :: FecCode.Seq(group[i]) == FecCode.Plus(base, i)
  }

  lemma {:induction false} BaseIsFirst(sns: seq<FecCode.Sn>, base: FecCode.Sn)
    requires 0 < |sns| <= GROUP_SIZE && forall i | 0 <= i < |sns| :: sns[i] == FecCode.Plus(base, i)
    ensures FecCode.BaseOf(sns) == base
  {
    if |sns| > 1 { BaseIsFirst(sns[..|sns| - 1], base); }
  }

  /** Consecutively numbered packets form a group that can be protected. */
  lemma ConsecutiveIsGroup(group: seq<Packet>, base: FecCode.Sn)
    requires 0 < |group| <= GROUP_SIZE && AllFit(group) && Consecutive(group, base)
    ensures FecTheorem.Group(group)
  {
    var sns := FecCode.Seqs(group);
    assert forall i | 0 <= i < |sns| :: sns[i] == FecCode.Plus(base, i);
    BaseIsFirst(sns, base);
  }

  /** A FEC buffer has room for the body of any group. */
  lemma BodyFits(group: seq<Packet>)
    requires AllFit(group) && FecCode.Protectable(group)
    ensures FecCode.MaxLength(group) <= MEDIA_BUF_SIZE && FecCode.Encode(group, FEC_CAP) == (FecCode.Ok, FecCode.Body(group))
  {
    var i :| 0 <= i < |group| && |group[i]| == FecCode.MaxLength(group);
    assert Fits(group[i]);
  }

  /** The FEC packet of a group: an RTP header with the time of the last member, and the body. */
  function FecPacket(n: Cursor, group: seq<Packet>, ssrc: seq<Byte>): Packet
    requires AllFit(group) && FecCode.Protectable(group)
  {
    assert Fits(group[|group| - 1]);
    [0x80, FEC_PT, High(n), Low(n)] + group[|group| - 1][4..8] + ssrc + FecCode.Body(group)
  }

  // ----- the lent buffers -----

  /** The buffers, the output queue and the bytes each queued FEC output was queued with. */
  datatype Lent = Lent(slots: seq<Slot>, buf: seq<Packet>, queue: seq<Item>, head: Cursor, contents: seq<Packet>)

  predicate LentOk(v: Lent) {
    && |v.buf| == |v.slots| && |v.contents| == |v.queue| <= OUT_QUEUE_SIZE
    && BackingOk(v.slots, Fec, v.queue, v.head)
    && forall k | 0 <= k < |v.queue| && v.queue[k].Managed? && v.queue[k].owner == Fec :: v.buf[v.queue[k].slot] == v.contents[k]
  }

  function Pushed(v: Lent, i: nat, data: Packet): Lent
    requires i < |v.slots| && i < |v.buf| && |v.queue| < OUT_QUEUE_SIZE
  {
    Lent(v.slots[i := Slot(true, Add(v.head, |v.queue| + 1))], v.buf[i := data], v.queue + [Managed(Fec, i)], v.head, v.contents + [data])
  }

  /** A free buffer can be filled and queued: no queued output changes. */
  lemma PushKeeps(v: Lent, i: nat, data: Packet)
    requires LentOk(v) && |v.queue| < OUT_QUEUE_SIZE && i < |v.slots| && !v.slots[i].busy
    ensures LentOk(Pushed(v, i, data)) && !Referred(v.queue, Fec, i)
  {
    CommitKeeps(v.slots, Fec, v.queue, v.head, i);
    FreeIsUnreferred(v.slots, Fec, v.queue, v.head, i);
    forall k | 0 <= k < |v.queue| && v.queue[k].Managed? && v.queue[k].owner == Fec ensures v.queue[k].slot != i {
      assert !RefersAt(v.queue, Fec, i, k);
    }
  }

  /** Writing into a free buffer touches no queued output. */
  lemma ScratchKeeps(v: Lent, i: nat, data: Packet)
    requires LentOk(v) && i < |v.slots| && !v.slots[i].busy
    ensures LentOk(v.(buf := v.buf[i := data]))
  {
    FreeIsUnreferred(v.slots, Fec, v.queue, v.head, i);
    forall k | 0 <= k < |v.queue| && v.queue[k].Managed? && v.queue[k].owner == Fec ensures v.queue[k].slot != i {
      assert !RefersAt(v.queue, Fec, i, k);
    }
  }

  function PushedOther(v: Lent, item: Item, data: Packet): Lent {
    v.(queue := v.queue + [item], contents := v.contents + [data])
  }

  lemma PushOtherKeeps(v: Lent, item: Item, data: Packet)
    requires LentOk(v) && |v.queue| < OUT_QUEUE_SIZE && !(item.Managed? && item.owner == Fec)
    ensures LentOk(PushedOther(v, item, data))
  {
    EnqueueOtherKeeps(v.slots, Fec, v.queue, v.head, item);
  }

  function Popped(v: Lent): Lent
    requires v.queue != [] && v.contents != []
  {
    Lent(ReleaseAll(v.slots, Succ(v.head)), v.buf, v.queue[1..], Succ(v.head), v.contents[1..])
  }

  lemma PopKeeps(v: Lent)
    requires LentOk(v) && v.queue != []
    ensures LentOk(Popped(v))
  {
    DequeueKeeps(v.slots, Fec, v.queue, v.head);
    var w := Popped(v);
    forall k | 0 <= k < |w.queue| && w.queue[k].Managed? && w.queue[k].owner == Fec ensures w.buf[w.queue[k].slot] == w.contents[k] {
      assert w.queue[k] == v.queue[k + 1] && w.contents[k] == v.contents[k + 1];
    }
  }

  // ----- the group -----

  /** The first `n` group buffers hold the last `n` packets committed. */
  predicate GroupOk(members: seq<Packet>, n: nat, committed: seq<Packet>) {
    && n < |members| && n <= |committed|
    && forall j | 0 <= j < n :: members[j] == committed[|committed| - n + j] && Fits(members[j])
  }

  /** How many members the group has after one more packet, for the group size `k`. */
  function Grown(n: nat, k: nat): (m: nat)
    requires k > 0
    ensures 1 <= m <= k
  {
    if n >= k then 1 else n + 1
  }

  /** The last `k` packets committed. */
  function Last(committed: seq<Packet>, k: nat): seq<Packet> {
    if k <= |committed| then committed[|committed| - k..] else []
  }

  /** One more packet fills the group. */
  predicate Fills(n: nat, k: nat) {
    k > 0 && Grown(n, k) == k
  }

  predicate HasFree(slots: seq<Slot>) {
    exists j | 0 <= j < |slots| :: !slots[j].busy
  }

  datatype Prepared = Prepared(valid: bool, k: nat, index: nat)

  /** A commit that belongs to the latest preparation. */
  predicate Counts(p: Prepared, n: nat) {
    p.valid && (p.k == 0 || p.index == n)
  }

  class FecSender {
    const members: array<Packet>
    const buf: array<Packet>
    const slots: array<Slot>
    var n: nat
    var number: Cursor
    var queue: seq<Item>
    var head: Cursor
    ghost var contents: seq<Packet>
    ghost var committed: seq<Packet>

    ghost function View(): Lent
      reads this`queue, this`head, this`contents, slots, buf
    {
      Lent(slots[..], buf[..], queue, head, contents)
    }

    ghost predicate Valid()
      reads this, members, slots, buf
    {
      members != buf && members.Length == GROUP_SIZE && LentOk(View()) && GroupOk(members[..], n, committed)
    }

    constructor (ring: nat)
      ensures Valid() && slots.Length == ring && queue == [] && committed == [] && number == 0
      ensures fresh(members) && fresh(buf) && fresh(slots)
    {
      members := new Packet[GROUP_SIZE](_ => []);
      buf := new Packet[ring](_ => []);
      slots := new Slot[ring](_ => Slot(false, 0));
      n, number, queue, head, contents, committed := 0, 0, [], 0, [], [];
    }

    /** Puts a plain packet at the next place of the group, which does not grow yet. */
    method Prepare(pkt: Packet, k: nat) returns (p: Prepared)
      requires Valid()
      modifies members
      ensures Valid() && p.valid == Fits(pkt)
      ensures p.valid ==> p == Prepared(true, k, n) && (k > 0 ==> members[n] == pkt)
    {
      if !Fits(pkt) || n >= GROUP_SIZE { return Prepared(false, 0, 0); }
      p := Prepared(true, k, n);
      if k == 0 { return; }
      members[n] := pkt;
    }

    method FreeSlot() returns (i: nat)
      ensures i <= slots.Length && (i < slots.Length ==> !slots[i].busy)
      ensures i < slots.Length <==> HasFree(slots[..])
    {
      i := 0;
      while i < slots.Length && slots[i].busy
        invariant i <= slots.Length && forall j | 0 <= j < i :: slots[j].busy
      {
        i := i + 1;
      }
      assert i < slots.Length ==> !slots[..][i].busy;
      assert forall j | 0 <= j < i :: slots[..][j].busy;
    }

    /** Takes the prepared packet into the group, now that it was encrypted. A size that shrank below
        what is collected starts a new group with it. */
    method Collect(p: Prepared, ghost pkt: Packet)
      requires Valid() && Counts(p, n) && p.k <= GROUP_SIZE && Fits(pkt) && (p.k > 0 ==> members[n] == pkt)
      modifies this`n, this`committed, members
      ensures committed == old(committed) + [pkt] && LentOk(View()) && members.Length == GROUP_SIZE
      ensures n == if p.k == 0 then 0 else Grown(old(n), p.k)
      ensures n <= |committed| && forall j | 0 <= j < n :: members[j] == committed[|committed| - n + j] && Fits(members[j])
    {
      ghost var before := members[..];
      assert forall j | 0 <= j < n :: before[j] == committed[|committed| - n + j];
      if p.k == 0 {
        n := 0;
      } else if n >= p.k {
        members[0] := members[p.index];
        n := 1;
      } else {
        n := n + 1;
      }
      committed := committed + [pkt];
    }

    /** Collects, and hands out the group when it is full. */
    method Advance(p: Prepared, ghost pkt: Packet) returns (full: bool, group: seq<Packet>)
      requires Valid() && Counts(p, n) && p.k <= GROUP_SIZE && Fits(pkt) && (p.k > 0 ==> members[n] == pkt)
      modifies this`n, this`committed, members
      ensures Valid() && committed == old(committed) + [pkt]
      ensures full <==> Fills(old(n), p.k)
      ensures n == if p.k == 0 || full then 0 else Grown(old(n), p.k)
      ensures full ==> group == Last(committed, p.k) && |group| == p.k && AllFit(group)
    {
      Collect(p, pkt);
      full, group := p.k > 0 && n == p.k, [];
      if full {
        group := members[..p.k];
        ghost var last := Last(committed, p.k);
        assert group == last by {
          forall j | 0 <= j < p.k ensures group[j] == last[j] { assert group[j] == members[j]; }
        }
        n := 0;
      }
    }

    /** The FEC packet of a group. */
    method Encoded(group: seq<Packet>, ssrc: seq<Byte>) returns (ok: bool, data: Packet)
      requires 0 < |group| <= GROUP_SIZE && AllFit(group)
      ensures ok <==> FecCode.Protectable(group)
      ensures ok ==> data == FecPacket(number, group, ssrc)
    {
      var body := new Byte[FEC_CAP];
      var status, len := FecCodec.EncodeFec(group, body);
      if FecCode.Protectable(group) { BodyFits(group); }
      ok, data := status == FecCode.Ok, [];
      assert Fits(group[|group| - 1]);
      if ok { data := [0x80, FEC_PT, High(number), Low(number)] + group[|group| - 1][4..8] + ssrc + body[..len]; }
    }

    /** Fills a free buffer, and queues it if there is room. */
    method Lend(i: nat, data: Packet, protects: bool) returns (sent: bool)
      requires Valid() && i < slots.Length && !slots[i].busy
      modifies this`number, this`queue, this`contents, slots, buf
      ensures Valid() && (sent <==> protects && |old(queue)| < OUT_QUEUE_SIZE)
      ensures sent ==> !Referred(old(queue), Fec, i) && queue == old(queue) + [Managed(Fec, i)] && number == Succ(old(number)) &&
                       contents == old(contents) + [data]
      ensures !sent ==> queue == old(queue) && contents == old(contents) && number == old(number)
    {
      ghost var v := View();
      buf[i] := data;
      ScratchKeeps(v, i, data);
      assert View() == v.(buf := v.buf[i := data]);
      sent := protects && |queue| < OUT_QUEUE_SIZE;
      if !sent { return; }
      PushKeeps(v, i, data);
      slots[i] := Slot(true, Add(head, |queue| + 1));
      queue, contents, number := queue + [Managed(Fec, i)], contents + [data], Succ(number);
      assert View() == Pushed(v, i, data);
    }

    /** Encodes a full group into a free buffer and queues it. */
    method Emit(group: seq<Packet>, ssrc: seq<Byte>, protects: bool) returns (sent: bool, i: nat)
      requires Valid() && 0 < |group| <= GROUP_SIZE && AllFit(group)
      modifies this`number, this`queue, this`contents, slots, buf
      ensures Valid()
      ensures sent <==> protects && |old(queue)| < OUT_QUEUE_SIZE && FecCode.Protectable(group) && HasFree(old(slots[..]))
      ensures sent ==> !Referred(old(queue), Fec, i) && queue == old(queue) + [Managed(Fec, i)] && number == Succ(old(number)) &&
                       contents == old(contents) + [FecPacket(old(number), group, ssrc)]
      ensures !sent ==> queue == old(queue) && contents == old(contents) && number == old(number)
    {
      sent := false;
      i := FreeSlot();
      if i == slots.Length { return; }
      var ok, data := Encoded(group, ssrc);
      if ok { sent := Lend(i, data, protects); }
    }

    /** Commits a prepared packet. The packet that fills the group sends a FEC packet for the last `k`
        packets committed, when budget, a buffer and room in the queue are there. */
    method Commit(p: Prepared, ghost pkt: Packet, budget: bool, ssrc: seq<Byte>, protects: bool) returns (sent: bool, i: nat)
      requires Valid() && p.k <= GROUP_SIZE && (p.valid ==> Fits(pkt))
      requires p.valid && p.k > 0 && p.index == n ==> members[n] == pkt
      modifies this`n, this`committed, this`number, this`queue, this`contents, members, slots, buf
      ensures Valid() && committed == if Counts(p, old(n)) then old(committed) + [pkt] else old(committed)
      ensures n == if !Counts(p, old(n)) then old(n) else if p.k == 0 || Fills(old(n), p.k) then 0 else Grown(old(n), p.k)
      ensures Counts(p, old(n)) && Fills(old(n), p.k) ==> |Last(committed, p.k)| == p.k && AllFit(Last(committed, p.k))
      ensures sent <==> Counts(p, old(n)) && Fills(old(n), p.k) && budget && protects && |old(queue)| < OUT_QUEUE_SIZE &&
                        HasFree(old(slots[..])) && FecCode.Protectable(Last(committed, p.k))
      ensures sent ==> !Referred(old(queue), Fec, i) && queue == old(queue) + [Managed(Fec, i)] && number == Succ(old(number)) &&
                       contents == old(contents) + [FecPacket(old(number), Last(committed, p.k), ssrc)]
      ensures !sent ==> queue == old(queue) && contents == old(contents) && number == old(number)
    {
      sent, i := false, 0;
      if !Counts(p, n) { return; }
      var full, group := Advance(p, pkt);
      if full && budget { sent, i := Emit(group, ssrc, protects); }
    }

    /** Another output joins the queue. */
    method EnqueueOther(item: Item, ghost data: Packet)
      requires Valid() && |queue| < OUT_QUEUE_SIZE && !(item.Managed? && item.owner == Fec)
      modifies this`queue, this`contents
      ensures Valid() && queue == old(queue) + [item] && contents == old(contents) + [data]
    {
      PushOtherKeeps(View(), item, data);
      ghost var v := View();
      queue, contents := queue + [item], contents + [data];
      assert View() == PushedOther(v, item, data);
    }

    /** The first output leaves; a FEC packet leaves with the bytes it was queued with. */
    method Dequeue() returns (item: Item, data: Packet)
      requires Valid() && queue != []
      modifies this`queue, this`head, this`contents, slots
      ensures Valid() && item == old(queue)[0] && queue == old(queue)[1..] && contents == old(contents)[1..]
      ensures item.Managed? && item.owner == Fec ==> data == old(contents)[0]
      ensures forall j | 0 <= j < slots.Length :: slots[j].busy <==> old(slots[..])[j].busy && item != Managed(Fec, j)
    {
      ghost var v := View();
      PopKeeps(v);
      DequeueKeeps(v.slots, Fec, v.queue, v.head);
      item := queue[0];
      data := if item.Managed? && item.owner == Fec then buf[item.slot] else [];
      head := Succ(head);
      queue, contents := queue[1..], contents[1..];
      ReleaseSlots();
      assert View() == Popped(v);
    }

    method ReleaseSlots()
      modifies slots
      ensures slots[..] == ReleaseAll(old(slots[..]), head)
    {
      ghost var before := slots[..];
      for j := 0 to slots.Length
        invariant forall l | 0 <= l < j :: slots[l] == Released(before[l], head)
        invariant forall l | j <= l < slots.Length :: slots[l] == before[l]
      {
        slots[j] := Released(slots[j], head);
      }
    }
  }

  /** Consecutively numbered packets are always protected, and the body repairs the loss of any one of them. */
  lemma GroupRepairs(group: seq<Packet>, base: FecCode.Sn, ssrc: seq<Byte>, recv: seq<FecCode.Slot>, cap: nat, lost: nat)
    requires 0 < |group| <= GROUP_SIZE && AllFit(group) && Consecutive(group, base)
    ensures FecCode.Protectable(group)
    ensures FecTheorem.Intact(recv, group) && FecTheorem.AllBut(recv, group, lost) && FecTheorem.Media(group[lost], ssrc) && cap >= MEDIA_BUF_SIZE ==>
              FecCode.Recover(FecCode.Body(group), ssrc, recv, cap) == FecCode.Recovered(group[lost], FecCode.Seq(group[lost]))
  {
    ConsecutiveIsGroup(group, base);
    BodyFits(group);
    if FecTheorem.Intact(recv, group) && FecTheorem.AllBut(recv, group, lost) && FecTheorem.Media(group[lost], ssrc) && cap >= MEDIA_BUF_SIZE {
      FecTheorem.OneLossIsRepaired(group, ssrc, recv, cap, lost);
    }
  }
}
