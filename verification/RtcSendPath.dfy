/** The send path as an object: output queue, managed buffers, video packet ring and
    pacer over fixed arrays with wrapping cursors. Its contracts say what the
    application sees: a queue of byte strings and events. */
module RtcSendPath {
  import opened RtcRings
  import opened RtcSendState
  import RtcPacer
  import RtcEvents

  datatype Status = Ok | InvalidParam | BufferTooSmall | WouldBlock

  datatype Polled = Nothing | Output(content: Content)

  class SendPath {
    const out: array<Entry>
    const tx: array<Slot>
    const txBuf: array<Packet>
    const nack: array<Slot>
    const nackBuf: array<Packet>
    const ring: array<Packet>
    const at: array<Time>
    var outHead: Cursor
    var outTail: Cursor
    var ringTail: Cursor
    var paceHead: Cursor
    var txCursor: nat
    var budget: nat
    var lastRefill: Time
    var inited: bool
    var nextRelease: Time
    var now: Time
    var estimate: nat
    var overruns: nat
    var pending: seq<RtcEvents.Event>
    ghost var abs: Abs

    ghost function View(): Mem
      reads `outHead, `outTail, `ringTail, `paceHead, out, tx, txBuf, nack, nackBuf, ring, at
    {
      Mem(out[..], outHead, outTail, tx[..], txBuf[..], nack[..], nackBuf[..], ring[..], at[..], ringTail, paceHead)
    }

    /** The arrays are different objects. */
    ghost predicate Apart() {
      && tx != nack && txBuf != nackBuf && txBuf != ring && nackBuf != ring
      && out as object != tx && out as object != nack && out as object != txBuf && out as object != nackBuf
      && out as object != ring && out as object != at
      && tx as object != txBuf && tx as object != nackBuf && tx as object != ring && tx as object != at
      && nack as object != txBuf && nack as object != nackBuf && nack as object != ring && nack as object != at
      && at as object != txBuf && at as object != nackBuf && at as object != ring
    }

    ghost predicate Valid()
      reads `outHead, `outTail, `ringTail, `paceHead, `abs, out, tx, txBuf, nack, nackBuf, ring, at
    {
      Apart() && Sized() && RtcSendState.Ok(View(), abs)
    }

    ghost predicate Sized()
      reads `outHead, `outTail, `abs
    {
      abs.released <= |abs.sent| == |abs.times| && Used() <= out.Length
    }

    /** Fragments committed but not released, with their enqueue times. */
    ghost function Backlog(): seq<RtcPacer.Frag>
      requires Sized()
      reads `outHead, `outTail, `abs
    {
      Frags(abs.sent, abs.times, abs.released)
    }

    ghost function Pacing(): RtcPacer.Pacer
      requires Sized()
      reads `outHead, `outTail, `abs, `budget, `lastRefill, `inited, `nextRelease
    {
      RtcPacer.Pacer(Backlog(), budget, lastRefill, inited, nextRelease)
    }

    function Used(): nat
      reads `outHead, `outTail
    {
      Sub(outTail, outHead)
    }

    constructor (outSize: nat, txCount: nat, nackCount: nat, ringSize: nat, now: Time, estimate: nat)
      requires PowerRing(outSize) && PowerRing(ringSize) && txCount > 0
      ensures Valid() && txCursor < tx.Length && abs == Abs([], [], [], [], 0) && pending == [] && budget == RtcPacer.MAX_BURST
      ensures out.Length == outSize && tx.Length == txCount && nack.Length == nackCount && ring.Length == ringSize
    {
      out := new Entry[outSize](i => Entry(Notice, NO_EVENT));
      tx := new Slot[txCount](i => Slot(false, 0));
      txBuf := new Packet[txCount](i => []);
      nack := new Slot[nackCount](i => Slot(false, 0));
      nackBuf := new Packet[nackCount](i => []);
      ring := new Packet[ringSize](i => []);
      at := new Time[ringSize](i => 0);
      outHead, outTail, ringTail, paceHead, txCursor := 0, 0, 0, 0, 0;
      budget, lastRefill, inited, nextRelease := RtcPacer.MAX_BURST, 0, false, 0;
      this.now, this.estimate, overruns, pending := now, estimate, 0, [];
      abs := Abs([], [], [], [], 0);
      new;
      NothingYet(View(), abs);
    }

    /** Free places of the output queue. */
    ghost function Room(): nat
      reads `outHead, `outTail
    {
      if Used() <= out.Length then out.Length - Used() else 0
    }

    // ----- output queue -----

    /** Puts an entry at the tail if the queue has room. */
    method Enqueue(e: Entry) returns (ok: bool)
      requires out.Length > 0 && Apart()
      modifies out, this`outTail
      ensures ok == (old(Used()) < out.Length)
      ensures View() == if ok then Push(old(View()), e) else old(View())
    {
      ok := Used() < out.Length;
      if ok {
        out[outTail % out.Length] := e;
        outTail := Succ(outTail);
      }
    }

    /** Frees the managed buffers whose output just left the queue. */
    method ReleaseBacking()
      requires Apart()
      modifies tx, nack
      ensures View() == old(View()).(tx := ReleaseAll(old(tx[..]), outHead), nack := ReleaseAll(old(nack[..]), outHead))
    {
      FreeDue(tx);
      FreeDue(nack);
    }

    method FreeDue(slots: array<Slot>)
      modifies slots
      ensures slots[..] == ReleaseAll(old(slots[..]), outHead)
    {
      ghost var before := slots[..];
      for i := 0 to slots.Length
        invariant forall j | 0 <= j < slots.Length :: slots[j] == if j < i then Released(before[j], outHead) else before[j]
      {
        if slots[i].busy && slots[i].freeAt == outHead { slots[i] := slots[i].(busy := false); }
      }
      assert slots[..] == ReleaseAll(before, outHead);
    }

    // ----- control packets -----

    /** The first free control buffer from the cursor on, or the number of buffers. */
    method ScanFree() returns (slot: nat)
      requires txCursor < tx.Length
      ensures slot <= tx.Length && (slot < tx.Length ==> !tx[slot].busy)
      ensures slot == tx.Length ==> forall i | 0 <= i < tx.Length :: tx[i].busy
    {
      for n := 0 to tx.Length
        invariant forall k | 0 <= k < n :: tx[Turn(txCursor, k, tx.Length)].busy
      {
        slot := Turn(txCursor, n, tx.Length);
        if !tx[slot].busy { return; }
      }
      slot := tx.Length;
      forall i | 0 <= i < tx.Length ensures tx[i].busy {
        var k := Around(txCursor, i, tx.Length);
        assert tx[Turn(txCursor, k, tx.Length)].busy;
      }
    }

    /** The place `k` steps after `start` in a ring of `n`. */
    static function Turn(start: nat, k: nat, n: nat): (i: nat)
      requires start < n && k < n
      ensures i < n
    {
      if start + k < n then start + k else start + k - n
    }

    /** Every place is met on a full turn. */
    static lemma Around(start: nat, i: nat, n: nat) returns (k: nat)
      requires start < n && i < n
      ensures k < n && Turn(start, k, n) == i
    {
      k := if i >= start then i - start else i - start + n;
    }

    /** A control buffer that no queued output refers to. */
    method Acquire() returns (slot: nat)
      requires Valid() && txCursor < tx.Length
      modifies this`txCursor
      ensures Valid() && txCursor < tx.Length && slot <= tx.Length
      ensures slot < tx.Length ==> Used() < out.Length && !tx[slot].busy && !Referred(abs.queue, Tx, slot)
      ensures slot == tx.Length ==> Used() >= out.Length || forall i | 0 <= i < tx.Length :: tx[i].busy
    {
      if Used() >= out.Length { return tx.Length; }
      slot := ScanFree();
      if slot < tx.Length {
        FreeIsUnreferred(tx[..], Tx, abs.queue, outHead, slot);
        txCursor := if slot + 1 == tx.Length then 0 else slot + 1;
      }
    }

    /** Encodes a control packet into a transient buffer and queues it. */
    method SendControl(data: Packet) returns (status: Status)
      requires Valid() && txCursor < tx.Length
      modifies this`txCursor, this`outTail, this`abs, out, tx, txBuf
      ensures Valid() && txCursor < tx.Length && abs.sent == old(abs.sent) && abs.released == old(abs.released)
      ensures status == Ok || status == WouldBlock
      ensures status == Ok <==> old(Used()) < out.Length && exists i | 0 <= i < tx.Length :: !old(tx[..])[i].busy
      ensures abs.contents == if status == Ok then old(abs.contents) + [Data(data)] else old(abs.contents)
    {
      ghost var slots := tx[..];
      var i := Acquire();
      if i == tx.Length {
        status := WouldBlock;
      } else {
        assert !slots[i].busy;
        QueueControl(i, data);
        status := Ok;
      }
    }

    method QueueControl(i: nat, data: Packet)
      requires Valid() && i < tx.Length && !tx[i].busy && Used() < out.Length
      modifies this`outTail, this`abs, out, tx, txBuf
      ensures Valid() && abs == old(abs).(queue := old(abs.queue) + [Managed(Tx, i)], contents := old(abs.contents) + [Data(data)])
    {
      ghost var m := View();
      FillTx(m, abs, i, data);
      txBuf[i] := data;
      ghost var filled := View();
      assert filled == m.(txBuf := m.txBuf[i := data]);
      var e := Entry(Managed(Tx, i), NO_EVENT);
      PushTx(filled, abs, e, i);
      var ok := Enqueue(e);
      tx[i] := Slot(true, outTail);
      abs := abs.(queue := abs.queue + [e.item], contents := abs.contents + [Data(data)]);
      assert View() == Push(filled, e).(tx := filled.tx[i := Slot(true, Succ(filled.outTail))]);
    }

    // ----- retransmission -----

    method FreeNack() returns (slot: nat)
      ensures slot <= nack.Length && (slot < nack.Length ==> !nack[slot].busy)
      ensures slot == nack.Length ==> forall i | 0 <= i < nack.Length :: nack[i].busy
    {
      slot := 0;
      while slot < nack.Length && nack[slot].busy
        invariant slot <= nack.Length && forall i | 0 <= i < slot :: nack[i].busy
      {
        slot := slot + 1;
      }
    }

    /** Queues a copy of the packet in ring slot `s`; the ring may reuse the slot at once. */
    method Retransmit(s: nat) returns (done: bool)
      requires Valid() && s < ring.Length
      modifies this`outTail, this`abs, out, nack, nackBuf
      ensures Valid() && abs.sent == old(abs.sent) && abs.released == old(abs.released)
      ensures done <==> old(Used()) < out.Length && exists i | 0 <= i < nack.Length :: !old(nack[..])[i].busy
      ensures abs.contents == if done then old(abs.contents) + [Data(old(ring[s]))] else old(abs.contents)
    {
      ghost var slots := nack[..];
      var i := FreeNack();
      if i == nack.Length { return false; }
      assert !slots[i].busy;
      ghost var m := View();
      FillNack(m, abs, i, ring[s]);
      nackBuf[i] := ring[s];
      assert View() == m.(nackBuf := m.nackBuf[i := ring[s]]);
      if Used() >= out.Length { return false; }
      QueueCopy(i);
      done := true;
    }

    method QueueCopy(i: nat)
      requires Valid() && i < nack.Length && !nack[i].busy && Used() < out.Length
      modifies this`outTail, this`abs, out, nack
      ensures Valid()
      ensures abs == old(abs).(queue := old(abs.queue) + [Managed(Nack, i)], contents := old(abs.contents) + [Data(nackBuf[i])])
    {
      ghost var m := View();
      var e := Entry(Managed(Nack, i), NO_EVENT);
      PushNack(m, abs, e, i);
      var ok := Enqueue(e);
      nack[i] := Slot(true, outTail);
      abs := abs.(queue := abs.queue + [e.item], contents := abs.contents + [Data(nackBuf[i])]);
      assert View() == Push(m, e).(nack := m.nack[i := Slot(true, Succ(m.outTail))]);
    }

    // ----- video frames -----

    /** Why a frame of `needed` packets is refused; Ok when it is admitted whole. */
    function Admission(needed: nat): Status
      reads `outHead, `outTail, `ringTail, `paceHead
    {
      var occupied := Sub(outTail, outHead) + Sub(ringTail, paceHead);
      if needed > ring.Length then BufferTooSmall
      else if occupied >= ring.Length || needed > ring.Length - occupied then WouldBlock
      else Ok
    }

    /** Writes one packet into the ring and hands it to the pacer. */
    method CommitFragment(p: Packet)
      requires Valid() && |abs.sent| - Low(abs) < ring.Length
      modifies this`ringTail, this`abs, this`overruns, ring, at
      ensures Valid() && abs == old(abs).(sent := old(abs.sent) + [p], times := old(abs.times) + [now])
      ensures ringTail == Succ(old(ringTail))
      ensures overruns == old(overruns) + if old(Occupied(View())) >= ring.Length then 1 else 0
    {
      ghost var m := View();
      CommitFragmentKeeps(m, abs, p, now);
      if Sub(outTail, outHead) + Sub(ringTail, paceHead) >= ring.Length { overruns := overruns + 1; }
      var slot := ringTail % ring.Length;
      ring[slot] := p;
      at[slot] := now;
      ringTail := Succ(ringTail);
      abs := abs.(sent := abs.sent + [p], times := abs.times + [now]);
      assert View() == Commit(m, p, now);
    }

    /** A frame that was counted as `needed` packets, and has no more, goes out whole or not at
        all; no admitted frame touches a fragment that an unpolled output or the backlog needs. */
    method SendFrame(packets: seq<Packet>, needed: nat) returns (status: Status)
      requires Valid() && |packets| <= needed
      modifies this`ringTail, this`abs, this`overruns, ring, at
      ensures Valid() && status == old(Admission(needed)) && overruns == old(overruns)
      ensures abs.queue == old(abs.queue) && abs.contents == old(abs.contents) && abs.released == old(abs.released)
      ensures abs.sent == if status == Ok then old(abs.sent) + packets else old(abs.sent)
      ensures |abs.times| == |abs.sent| && abs.times[..old(|abs.times|)] == old(abs.times)
      ensures forall k | old(|abs.times|) <= k < |abs.times| :: abs.times[k] == now
    {
      status := Admission(needed);
      if status != Ok { return; }
      ghost var a := abs;
      OccupiedBounds(View(), abs);
      assert packets[..0] == [];
      for i := 0 to |packets|
        invariant Valid() && overruns == old(overruns)
        invariant abs == a.(sent := a.sent + packets[..i], times := abs.times)
        invariant |abs.times| == |a.times| + i && abs.times[..|a.times|] == a.times
        invariant forall k | |a.times| <= k < |abs.times| :: abs.times[k] == now
      {
        OccupiedBounds(View(), abs);
        CommitFragment(packets[i]);
        assert packets[..i + 1] == packets[..i] + [packets[i]];
      }
      assert packets[..|packets|] == packets;
    }

    // ----- pacing -----

    /** Earns budget for the time since the last refill. */
    method Refill(rate: nat)
      requires Valid()
      modifies this`budget, this`lastRefill, this`inited
      ensures Valid() && Pacing() == RtcPacer.Refill(old(Pacing()), now, rate)
    {
      if !inited {
        lastRefill := now;
        inited := true;
      }
      var elapsed := RtcPacer.Elapsed(now, lastRefill);
      if elapsed > 1000 { elapsed := 1000; }
      if elapsed > 0 {
        var earned := budget + RtcPacer.Credit(rate, elapsed);
        budget := if earned > RtcPacer.MAX_BURST then RtcPacer.MAX_BURST else earned;
        lastRefill := now;
      }
    }

    /** Releases the backlog's head into the output queue. */
    method ReleaseHead() returns (ok: bool)
      requires Valid() && paceHead != ringTail
      modifies this`outTail, this`paceHead, this`abs, out
      ensures Valid() && ok == (old(Used()) < out.Length)
      ensures abs.sent == old(abs.sent) && abs.times == old(abs.times)
      ensures if ok then old(abs.released) < |abs.sent| && abs.released == old(abs.released) + 1 &&
                         abs.contents == old(abs.contents) + [Data(abs.sent[old(abs.released)])] && Used() == old(Used()) + 1
              else abs == old(abs) && View() == old(View())
    {
      ghost var m := View();
      OccupiedBounds(m, abs);
      var e := Entry(Ring(paceHead % ring.Length), NO_EVENT);
      if Used() < out.Length { PushFragment(m, abs, e); }
      ok := Enqueue(e);
      if ok {
        paceHead := Succ(paceHead);
        abs := abs.(queue := abs.queue + [e.item], contents := abs.contents + [Data(abs.sent[abs.released])], released := abs.released + 1);
        assert View() == Push(m, e).(paceHead := Succ(m.paceHead));
      }
    }

    /** The backlog's head: its length, and whether the latency cap forces it out. */
    method Head() returns (len: nat, aged: bool)
      requires Valid() && paceHead != ringTail
      ensures abs.released < |abs.sent| && len == |abs.sent[abs.released]|
      ensures aged <==> RtcPacer.Aged(Backlog()[0], now)
    {
      OccupiedBounds(View(), abs);
      HeadFragment(View(), abs);
      var slot := paceHead % ring.Length;
      len := |ring[slot]|;
      aged := RtcPacer.Elapsed(now, at[slot]) >= RtcPacer.MAX_QUEUE_MS;
    }

    /** One round of the release loop; false when nothing more is due or fits. */
    method Round() returns (more: bool)
      requires Valid() && paceHead != ringTail
      modifies this`outTail, this`paceHead, this`budget, this`abs, out
      ensures Valid() && old(abs.released) < |old(abs.sent)|
      ensures more == (old(Room()) > 0 && IsDue(old(Pacing()), now))
      ensures more ==> Moved(old(abs), abs) && Room() == old(Room()) - 1 && budget == Spent(old(Pacing()))
      ensures !more ==> abs == old(abs) && budget == old(budget)
    {
      var len, aged := Head();
      var haveBudget := budget >= len;
      if !haveBudget && !aged { return false; }
      more := ReleaseHead();
      if more { budget := if haveBudget then budget - len else 0; }
    }

    /** Round `n + 1` of a drain that began with `a`, `p` and `room`. */
    method NextRound(ghost a: Abs, ghost p: RtcPacer.Pacer, ghost room: nat, ghost n: nat) returns (more: bool)
      requires Valid() && paceHead != ringTail && Midway(a, abs, p, Pacing(), now, room, n) && Room() == room - n
      modifies this`outTail, this`paceHead, this`budget, this`abs, out
      ensures Valid()
      ensures more ==> Midway(a, abs, p, Pacing(), now, room, n + 1) && Room() == room - n - 1
      ensures !more ==> Finished(a, abs, p, Pacing(), now, room)
    {
      ghost var b, q := abs, Pacing();
      more := Round();
      if more {
        MidwayMoves(a, b, abs, p, q, Pacing(), now, room, n);
      } else {
        MidwayStops(a, b, p, q, now, room, n);
      }
    }

    /** Releases due fragments while the queue has room. */
    method DrainBacklog()
      requires Valid()
      modifies this`outTail, this`paceHead, this`budget, this`abs, out
      ensures Valid() && Finished(old(abs), abs, old(Pacing()), Pacing(), now, old(Room()))
    {
      ghost var a, p, room, n := abs, Pacing(), Room(), 0;
      AdvanceNone(abs);
      while paceHead != ringTail
        invariant Valid() && Midway(a, abs, p, Pacing(), now, room, n) && Room() == room - n
        decreases room - n
      {
        var more := NextRound(a, p, room, n);
        if !more { return; }
        n := n + 1;
      }
      OccupiedBounds(View(), abs);
      MidwayEmpty(a, abs, p, Pacing(), now, room, n);
    }

    /** Caches when the next fragment is due: the last stage of a pump that began with `p`. */
    method CacheDeadline(rate: nat, ghost p: RtcPacer.Pacer, ghost room: nat)
      requires Valid() && rate == RtcPacer.Rate(estimate) && p.backlog != []
      requires Pacing() == RtcPacer.Drain(RtcPacer.Refill(p, now, rate), now, room).p
      modifies this`nextRelease
      ensures Valid() && Pacing() == RtcPacer.Pump(p, now, estimate, room).p
    {
      ghost var d := Pacing();
      nextRelease := DueTime(rate);
      PumpIs(p, d, now, estimate, room);
    }

    method DueTime(rate: nat) returns (t: Time)
      requires Valid() && rate > 0
      ensures t == RtcPacer.NextRelease(Pacing(), now, rate)
    {
      OccupiedBounds(View(), abs);
      if paceHead == ringTail { return now; }
      var len, aged := Head();
      HeadFragment(View(), abs);
      var deficit := if len > budget then len - budget else 0;
      var wait := (deficit * 8000 + rate - 1) / rate;
      var age := RtcPacer.Elapsed(now, at[paceHead % ring.Length]);
      var untilAge := if age >= RtcPacer.MAX_QUEUE_MS then 0 else RtcPacer.MAX_QUEUE_MS - age;
      if untilAge < wait { wait := untilAge; }
      t := if wait == 0 then now else RtcPacer.Deadline(now, wait);
    }

    /** Meters the backlog into the output queue. */
    method Pump()
      requires Valid()
      modifies this`outTail, this`paceHead, this`budget, this`lastRefill, this`inited, this`nextRelease, this`abs, out
      ensures Valid() && Pacing() == RtcPacer.Pump(old(Pacing()), now, estimate, old(Room())).p
      ensures Advances(old(abs), abs, |RtcPacer.Pump(old(Pacing()), now, estimate, old(Room())).out|)
    {
      OccupiedBounds(View(), abs);
      if paceHead == ringTail {
        AdvanceNone(abs);
      } else {
        PumpBacklog();
      }
    }

    /** Earns budget and releases what is due. */
    method RefillAndDrain(rate: nat)
      requires Valid()
      modifies this`outTail, this`paceHead, this`budget, this`lastRefill, this`inited, this`abs, out
      ensures Valid() && Pacing() == RtcPacer.Drain(RtcPacer.Refill(old(Pacing()), now, rate), now, old(Room())).p
      ensures Advances(old(abs), abs, |RtcPacer.Drain(RtcPacer.Refill(old(Pacing()), now, rate), now, old(Room())).out|)
    {
      Refill(rate);
      DrainBacklog();
    }

    /** The three stages of a pump. */
    method PumpBacklog()
      requires Valid() && paceHead != ringTail && abs.released < |abs.sent|
      modifies this`outTail, this`paceHead, this`budget, this`lastRefill, this`inited, this`nextRelease, this`abs, out
      ensures Valid() && Pacing() == RtcPacer.Pump(old(Pacing()), now, estimate, old(Room())).p
      ensures Advances(old(abs), abs, |RtcPacer.Pump(old(Pacing()), now, estimate, old(Room())).out|)
    {
      ghost var p, room := Pacing(), Room();
      var rate := RtcPacer.Rate(estimate);
      RefillAndDrain(rate);
      CacheDeadline(rate, p, room);
      PumpReleases(p, now, estimate, room);
    }

    static lemma PumpIs(p: RtcPacer.Pacer, d: RtcPacer.Pacer, now: Time, estimate: nat, room: nat)
      requires p.backlog != [] && d == RtcPacer.Drain(RtcPacer.Refill(p, now, RtcPacer.Rate(estimate)), now, room).p
      ensures RtcPacer.Pump(p, now, estimate, room).p == d.(nextRelease := RtcPacer.NextRelease(d, now, RtcPacer.Rate(estimate)))
    {
    }

    static lemma PumpReleases(p: RtcPacer.Pacer, now: Time, estimate: nat, room: nat)
      requires p.backlog != []
      ensures RtcPacer.Pump(p, now, estimate, room).out == RtcPacer.Drain(RtcPacer.Refill(p, now, RtcPacer.Rate(estimate)), now, room).out
    {
    }

    // ----- events -----

    /** Emits an event: through the queue, or held back. */
    method EmitEvent(e: RtcEvents.Event) returns (status: RtcEvents.Status)
      requires Valid()
      modifies this`outTail, this`abs, this`pending, out
      ensures Valid() && abs.sent == old(abs.sent) && abs.released == old(abs.released)
      ensures var s := RtcEvents.Emit(RtcEvents.Events([], old(pending)), e, old(Used()) >= out.Length);
              && status == s.1 && pending == s.0.pending
              && abs.contents == old(abs.contents) + if s.0.queued == [] then [] else [Emitted(e)]
    {
      if !RtcEvents.Payload(e) && (pending != [] || Used() >= out.Length) {
        status := Hold(e);
      } else {
        ghost var m := View();
        var entry := Entry(Notice, e);
        if Used() < out.Length { PushNotice(m, abs, entry); }
        var ok := Enqueue(entry);
        if !ok { return RtcEvents.BufferTooSmall; }
        abs := abs.(queue := abs.queue + [Notice], contents := abs.contents + [Emitted(e)]);
        status := RtcEvents.Ok;
      }
    }

    /** Holds an event back, in place of an earlier one of its key. */
    method Hold(e: RtcEvents.Event) returns (status: RtcEvents.Status)
      requires Valid() && !RtcEvents.Payload(e)
      modifies this`pending
      ensures Valid()
      ensures var s := RtcEvents.Emit(RtcEvents.Events([], old(pending)), e, true);
              status == s.1 && pending == s.0.pending && s.0.queued == []
    {
      var i := 0;
      while i < |pending| && RtcEvents.KeyOf(pending[i]) != RtcEvents.KeyOf(e)
        invariant i <= |pending| && RtcEvents.Find(pending, RtcEvents.KeyOf(e), 0) == RtcEvents.Find(pending, RtcEvents.KeyOf(e), i)
      {
        i := i + 1;
      }
      if i < |pending| {
        pending := pending[..i] + pending[i + 1..] + [e];
        return RtcEvents.Ok;
      }
      if |pending| == RtcEvents.PENDING_EVENT_SLOTS { return RtcEvents.WouldBlock; }
      pending := pending + [e];
      status := RtcEvents.Ok;
    }

    // ----- polling -----

    /** The next output: what was queued first, with the bytes it had then. */
    method PollQueued() returns (r: Polled)
      requires Valid()
      modifies this`outHead, this`abs, tx, nack
      ensures Valid() && abs.sent == old(abs.sent) && abs.released == old(abs.released)
      ensures if old(abs.contents) == [] then r == Nothing && abs == old(abs)
              else r == Output(old(abs.contents)[0]) && abs.contents == old(abs.contents)[1..]
    {
      if outHead == outTail { return Nothing; }
      ghost var m := View();
      PopKeeps(m, abs);
      var e := out[outHead % out.Length];
      r := Output(match e.item
                  case Managed(Tx, i) => if i < txBuf.Length then Data(txBuf[i]) else Data([])
                  case Managed(Nack, i) => if i < nackBuf.Length then Data(nackBuf[i]) else Data([])
                  case Managed(Fec, _) => Data([])
                  case Ring(s) => if s < ring.Length then Data(ring[s]) else Data([])
                  case Notice => Emitted(e.event));
      assert r == Output(Fetch(m, m.out[m.outHead % |m.out|]));
      outHead := Succ(outHead);
      ReleaseBacking();
      abs := abs.(queue := abs.queue[1..], contents := abs.contents[1..]);
      assert View() == Pop(m);
    }

    /** The oldest queued output, or else the oldest event held back. */
    method PollNext() returns (r: Polled)
      requires Valid()
      modifies this`outHead, this`abs, this`pending, tx, nack
      ensures Valid() && Delivers(old(abs), old(pending), r, abs, pending)
    {
      r := PollQueued();
      if r == Nothing && pending != [] {
        r := Output(Emitted(pending[0]));
        pending := pending[1..];
      }
    }

    /** The application's poll: paced fragments first join the queue, which leads to `mid`;
        then the next output comes out. */
    method PollOutput() returns (r: Polled, ghost mid: Abs)
      requires Valid()
      modifies this`outHead, this`outTail, this`paceHead, this`budget, this`lastRefill, this`inited, this`nextRelease
      modifies this`abs, this`pending, out, tx, nack
      ensures Valid() && Delivers(mid, old(pending), r, abs, pending)
      ensures Advances(old(abs), mid, |RtcPacer.Pump(old(Pacing()), old(now), old(estimate), old(Room())).out|)
    {
      Pump();
      mid := abs;
      r := PollNext();
    }
  }

  /** The next output of the application: what was queued first, with the content it was queued
      with, and only when nothing is queued the oldest held event. */
  ghost predicate Delivers(a: Abs, held: seq<RtcEvents.Event>, r: Polled, b: Abs, left: seq<RtcEvents.Event>) {
    && b.sent == a.sent && b.released == a.released
    && if a.contents != [] then r == Output(a.contents[0]) && b.contents == a.contents[1..] && left == held
       else if held != [] then r == Output(Emitted(held[0])) && b == a && left == held[1..]
       else r == Nothing && b == a && left == []
  }

  const NO_EVENT := RtcEvents.Event(RtcEvents.ConnectedEvent, 0, 0)

  /** Fragments `from` and later, with their enqueue times. */
  ghost function Frags(sent: seq<Packet>, times: seq<Time>, from: nat): (r: seq<RtcPacer.Frag>)
    requires from <= |sent| == |times|
    ensures |r| == |sent| - from
    ensures forall k | 0 <= k < |r| :: r[k] == RtcPacer.Frag(|sent[from + k]|, times[from + k])
  {
    seq(|sent| - from, k requires 0 <= k < |sent| - from => RtcPacer.Frag(|sent[from + k]|, times[from + k]))
  }

  /** Packets as outputs. */
  ghost function Packets(s: seq<Packet>): (r: seq<Content>)
    ensures |r| == |s| && forall i | 0 <= i < |s| :: r[i] == Data(s[i])
  {
    seq(|s|, i requires 0 <= i < |s| => Data(s[i]))
  }

  /** From `a` to `b` the oldest `n` backlog fragments joined the output queue, in order. */
  ghost predicate Advances(a: Abs, b: Abs, n: nat) {
    && a.sent == b.sent && a.times == b.times && b.released == a.released + n <= |a.sent|
    && b.contents == a.contents + Packets(a.sent[a.released..b.released])
  }

  lemma AdvanceNone(a: Abs)
    requires a.released <= |a.sent|
    ensures Advances(a, a, 0)
  {
    assert Packets(a.sent[a.released..a.released]) == [];
  }

  /** The oldest backlog fragment joined the output queue. */
  ghost predicate Moved(a: Abs, b: Abs) {
    && a.released < |a.sent| && b.sent == a.sent && b.times == a.times && b.released == a.released + 1
    && b.contents == a.contents + [Data(a.sent[a.released])]
  }

  lemma AdvanceMore(a: Abs, b: Abs, c: Abs, n: nat)
    requires Advances(a, b, n) && Moved(b, c)
    ensures Advances(a, c, n + 1)
  {
    var s := a.sent;
    assert Packets(s[a.released..c.released]) == Packets(s[a.released..b.released]) + [Data(s[b.released])];
  }

  /** The head fragment may leave: there is credit, or it is past the latency cap. */
  ghost predicate IsDue(p: RtcPacer.Pacer, now: Time) {
    p.backlog != [] && (p.budget >= p.backlog[0].len || RtcPacer.Aged(p.backlog[0], now))
  }

  /** The budget after the head left. */
  ghost function Spent(p: RtcPacer.Pacer): nat
    requires p.backlog != []
  {
    if p.budget >= p.backlog[0].len then p.budget - p.backlog[0].len else 0
  }

  /** Draining `p` with `room` places amounts to `n` releases that lead to `q`, then draining `q`. */
  ghost predicate Drained(p: RtcPacer.Pacer, q: RtcPacer.Pacer, now: Time, room: nat, n: nat) {
    && n <= room
    && RtcPacer.Drain(p, now, room).p == RtcPacer.Drain(q, now, room - n).p
    && |RtcPacer.Drain(p, now, room).out| == n + |RtcPacer.Drain(q, now, room - n).out|
  }

  /** After `n` rounds of a drain that began with `a` and `p`. */
  ghost predicate Midway(a: Abs, b: Abs, p: RtcPacer.Pacer, q: RtcPacer.Pacer, now: Time, room: nat, n: nat) {
    Advances(a, b, n) && Drained(p, q, now, room, n)
  }

  /** The drain of `p` ended in `q`, and as many fragments moved. */
  ghost predicate Finished(a: Abs, b: Abs, p: RtcPacer.Pacer, q: RtcPacer.Pacer, now: Time, room: nat) {
    q == RtcPacer.Drain(p, now, room).p && Advances(a, b, |RtcPacer.Drain(p, now, room).out|)
  }

  lemma DrainMore(q: RtcPacer.Pacer, r: RtcPacer.Pacer, now: Time, room: nat)
    requires IsDue(q, now) && room > 0 && r == q.(backlog := q.backlog[1..], budget := Spent(q))
    ensures Drained(q, r, now, room, 1)
  {
  }

  lemma MidwayMoves(a: Abs, b: Abs, c: Abs, p: RtcPacer.Pacer, q: RtcPacer.Pacer, r: RtcPacer.Pacer, now: Time, room: nat, n: nat)
    requires Midway(a, b, p, q, now, room, n) && n < room && IsDue(q, now) && Moved(b, c)
    requires b.released <= |b.sent| == |b.times| && q.backlog == Frags(b.sent, b.times, b.released)
    requires r == q.(backlog := Frags(c.sent, c.times, c.released), budget := Spent(q))
    ensures Midway(a, c, p, r, now, room, n + 1)
  {
    AdvanceMore(a, b, c, n);
    FragsTail(b.sent, b.times, b.released);
    DrainMore(q, r, now, room - n);
  }

  lemma MidwayEmpty(a: Abs, b: Abs, p: RtcPacer.Pacer, q: RtcPacer.Pacer, now: Time, room: nat, n: nat)
    requires Midway(a, b, p, q, now, room, n) && q.backlog == []
    ensures Finished(a, b, p, q, now, room)
  {
  }

  lemma MidwayStops(a: Abs, b: Abs, p: RtcPacer.Pacer, q: RtcPacer.Pacer, now: Time, room: nat, n: nat)
    requires Midway(a, b, p, q, now, room, n) && q.backlog != [] && (n == room || !IsDue(q, now))
    ensures Finished(a, b, p, q, now, room)
  {
    assert RtcPacer.Drain(q, now, room - n) == RtcPacer.Release(q, [], 0);
  }

  lemma FragsTail(sent: seq<Packet>, times: seq<Time>, from: nat)
    requires from < |sent| == |times|
    ensures Frags(sent, times, from + 1) == Frags(sent, times, from)[1..]
  {
  }
}
