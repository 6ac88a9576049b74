/** The ICE agent as an object: the table is an array whose entries are updated in
    place, and every method computes its function in IceModel. */
module IceAgent {
  import opened IceModel

  class IceObject {
    const pending: array<Slot>
    var state: IceState
    var controlling: bool
    var locals: seq<Candidate>
    var srflxBase: nat
    var remotes: seq<Candidate>
    var checkCount: nat
    var nextCheck: nat
    var curLocal: nat
    var curRemote: nat
    var endOfCandidates: bool
    var credentials: bool
    var selected: Option<Selection>

    ghost function View(): (v: Agent)
      reads this, pending
      ensures |v.pending| == pending.Length
    {
      Agent(state, controlling, locals, srflxBase, remotes, pending[..], checkCount, nextCheck, curLocal, curRemote,
            endOfCandidates, credentials, selected)
    }

    constructor (controlling: bool)
      ensures fresh(pending) && View() == Restart(Agent(New, controlling, [], 0, [], [], 0, 0, 0, 0, false, false, None))
    {
      pending := new Slot[MAX_PENDING](i => IDLE);
      state, this.controlling, locals, srflxBase, remotes := New, controlling, [], 0, [];
      checkCount, nextCheck, curLocal, curRemote := 0, 0, 0, 0;
      endOfCandidates, credentials, selected := false, false, None;
      new;
      assert pending[..] == seq(MAX_PENDING, i => IDLE);
    }

    /** The socket of a local candidate. */
    method LocalBase(idx: nat) returns (base: nat)
      ensures base == BaseOf(locals, srflxBase, idx)
    {
      if idx < |locals| && locals[idx].kind == Srflx {
        if srflxBase < |locals| && locals[srflxBase].kind == Host { return srflxBase; }
        return LOCAL_UNKNOWN;
      }
      base := idx;
    }

    // ----- the queue -----

    /** Puts entry `i` at the end of the queue of triggered checks. */
    method QueueCheck(i: nat)
      requires i < pending.Length
      modifies pending
      ensures pending[..] == Enqueue(old(pending[..]), i)
    {
      var position := 0;
      for j := 0 to pending.Length
        invariant position == CountQueued(pending[..], j)
      {
        if pending[j].queued { position := position + 1; }
      }
      pending[i] := pending[i].(sentAt := position, queued := true);
    }

    /** Takes entry `i` out of the queue. */
    method UnqueueCheck(i: nat)
      requires i < pending.Length
      modifies pending
      ensures pending[..] == Dequeue(old(pending[..]), i)
    {
      ghost var before := pending[..];
      if pending[i].queued {
        for j := 0 to pending.Length
          invariant forall k | 0 <= k < pending.Length :: pending[k] == if k < j && k != i then Advanced(before, i, k) else before[k]
        {
          if pending[j].queued && pending[j].sentAt > pending[i].sentAt {
            pending[j] := pending[j].(sentAt := pending[j].sentAt - 1);
          }
        }
        pending[i] := pending[i].(queued := false);
      }
    }

    // ----- selection -----

    method SelectPair(local: nat, remote: nat)
      requires remote < |remotes|
      modifies this`selected, this`state
      ensures View() == Select(old(View()), local, remote)
      ensures local < |locals| <= LOCAL_UNKNOWN ==>
                selected.Some? && selected.value.socket ==
                if locals[local].kind != Srflx then Some(locals[local].addr)
                else if srflxBase < |locals| && locals[srflxBase].kind == Host then Some(locals[srflxBase].addr) else None
    {
      var base := LocalBase(local);
      var socket := None;
      if base < |locals| { socket := Some(locals[base].addr); }
      selected := Some(Selection(local, socket, remotes[remote].addr));
      state := Connected;
    }

    // ----- requests -----

    method LookUpRemote(addr: Addr) returns (r: nat)
      ensures r == FindRemote(remotes, addr, 0)
    {
      r := 0;
      while r < |remotes| && remotes[r].addr != addr
        invariant r <= |remotes| && FindRemote(remotes, addr, 0) == FindRemote(remotes, addr, r)
      {
        r := r + 1;
      }
    }

    method IsPair(i: nat, local: nat, remote: nat) returns (same: bool)
      requires i < pending.Length
      ensures same <==> SamePair(View(), pending[i], local, remote)
    {
      var p := pending[i];
      var a := LocalBase(p.local);
      var b := LocalBase(local);
      same := Active(p) && p.remote == remote && a == b;
    }

    /** The entry of the pair, else the first reusable one; the table size when there is none. */
    method LookUpPair(local: nat, remote: nat) returns (slot: nat)
      ensures slot == PairSlot(View(), local, remote, 0, pending.Length)
    {
      slot := pending.Length;
      for i := 0 to pending.Length
        invariant slot <= pending.Length
        invariant PairSlot(View(), local, remote, 0, pending.Length) == PairSlot(View(), local, remote, i, slot)
      {
        var same := IsPair(i, local, remote);
        if same { return i; }
        var p := pending[i];
        if !p.inFlight && !p.queued && slot == pending.Length { slot := i; }
      }
    }

    /** A triggered check on the pair of an authenticated request. */
    method TriggerCheck(local: nat, src: Addr, nominate: bool) returns (ok: bool)
      modifies this`remotes, this`selected, this`state, pending
      ensures (View(), ok) == Trigger(old(View()), local, src, nominate)
    {
      if state == Connected || state == Failed || state == Disconnected { return true; }
      if local >= |locals| || locals[local].addr.family != src.family { return !nominate; }
      var remote := LookUpRemote(src);
      var slot := LookUpPair(local, remote);
      if slot == pending.Length || remote >= MAX_REMOTES { return false; }
      var same := IsPair(slot, local, remote);
      StartTriggered(local, src, nominate, remote, slot, same);
      ok := true;
    }

    method StartTriggered(local: nat, src: Addr, nominate: bool, remote: nat, slot: nat, same: bool)
      requires !Settled(state) && local < |locals| && locals[local].addr.family == src.family
      requires remote == FindRemote(remotes, src, 0) < MAX_REMOTES
      requires slot == PairSlot(View(), local, remote, 0, pending.Length) < pending.Length
      requires same <==> SamePair(View(), pending[slot], local, remote)
      modifies this`remotes, this`selected, this`state, pending
      ensures View() == Trigger(old(View()), local, src, nominate).0
    {
      ghost var v := View();
      if remote == |remotes| { remotes := remotes + [Candidate(src, Prflx)]; }
      var p := pending[slot];
      if !same { p := IDLE.(local := local, remote := remote); }
      if nominate { p := p.(nominate := true); }
      assert p == PairEntry(v, v.pending[slot], local, remote, nominate);
      pending[slot] := p;
      ghost var v2 := v.(remotes := remotes, pending := v.pending[slot := p]);
      assert View() == v2;
      if p.valid {
        if nominate { SelectPair(p.local, remote); }
      } else if !p.triggered {
        pending[slot] := p.(inFlight := false, queued := false, triggered := true, retries := 0);
        QueueCheck(slot);
      }
    }

    // ----- responses -----

    method LookUpTxid(txid: nat) returns (slot: nat)
      ensures slot == FindTxid(pending[..], txid, 0)
    {
      slot := 0;
      while slot < pending.Length && !(pending[slot].inFlight && pending[slot].txid == txid)
        invariant slot <= pending.Length && FindTxid(pending[..], txid, 0) == FindTxid(pending[..], txid, slot)
      {
        slot := slot + 1;
      }
    }

    /** The gathered reflexive candidate that the mapped address names. */
    method MapLocal(local: nat, mapped: Option<Addr>) returns (r: nat)
      ensures r == MappedLocal(View(), local, mapped, 0)
    {
      var base := LocalBase(local);
      for i := 0 to |locals|
        invariant MappedLocal(View(), local, mapped, 0) == MappedLocal(View(), local, mapped, i)
      {
        var own := LocalBase(i);
        if locals[i].kind == Srflx && mapped == Some(locals[i].addr) && own == base { return i; }
      }
      r := local;
    }

    method OnPath(p: Slot, src: Addr, localIdx: nat, viaTurn: bool) returns (ok: bool)
      ensures ok <==> SymmetricPath(View(), p, src, localIdx, viaTurn)
    {
      if p.local >= |locals| || p.remote >= |remotes| || remotes[p.remote].addr != src { return false; }
      var a := LocalBase(localIdx);
      var b := LocalBase(p.local);
      ok := !(localIdx < |locals| && a != b && !viaTurn);
    }

    /** An authenticated Binding response. */
    method HandleResponse(txid: nat, src: Addr, localIdx: nat, viaTurn: bool, mapped: Option<Addr>) returns (ok: bool)
      modifies this`selected, this`state, pending
      ensures (View(), ok) == Response(old(View()), txid, src, localIdx, viaTurn, mapped)
    {
      var slot := LookUpTxid(txid);
      if slot == pending.Length { return false; }
      ok := OnPath(pending[slot], src, localIdx, viaTurn);
      if ok { Accept(slot, mapped); }
    }

    method Accept(slot: nat, mapped: Option<Addr>)
      requires slot < pending.Length && pending[slot].remote < |remotes|
      modifies this`selected, this`state, pending
      ensures var v := old(View());
              var p := v.pending[slot].(inFlight := false, local := MappedLocal(v, v.pending[slot].local, mapped, 0));
              var valid := p.(queued := false, valid := true, nominate := false, triggered := false, retries := 0);
              View() == if v.state == Connected then v.(pending := v.pending[slot := p])
                        else if p.nominate then Select(v.(pending := v.pending[slot := valid]), p.local, p.remote)
                        else if v.controlling then v.(pending := Enqueue(v.pending[slot := valid.(nominate := true)], slot))
                        else v.(pending := v.pending[slot := valid])
    {
      var p := pending[slot].(inFlight := false);
      var mappedTo := MapLocal(p.local, mapped);
      p := p.(local := mappedTo);
      if state == Connected {
        pending[slot] := p;
      } else {
        var valid := p.(queued := false, valid := true, nominate := false, triggered := false, retries := 0);
        if p.nominate {
          pending[slot] := valid;
          SelectPair(p.local, p.remote);
        } else if controlling {
          pending[slot] := valid.(nominate := true);
          QueueCheck(slot);
        } else {
          pending[slot] := valid;
        }
      }
    }

    /** An authenticated error response. */
    method HandleError(txid: nat)
      modifies pending
      ensures View() == ErrorResponse(old(View()), txid)
    {
      var slot := LookUpTxid(txid);
      if slot < pending.Length { pending[slot] := IDLE; }
    }

    // ----- the schedule -----

    /** Scans the waiting entries for the earliest action. */
    method ScanTable(now: Time, relayReady: Option<seq<bool>>, pace: nat) returns (best: nat, check: Check)
      ensures (best, check) == Scan(View(), now, relayReady, pace, 0, NEVER, NO_CHECK)
    {
      best, check := NEVER, NO_CHECK;
      for i := 0 to pending.Length
        invariant Executable(View(), check, relayReady)
        invariant Scan(View(), now, relayReady, pace, 0, NEVER, NO_CHECK) == Scan(View(), now, relayReady, pace, i, best, check)
      {
        var p := pending[i];
        var due := DueOf(i, now, relayReady, pace);
        if due.Some? {
          var (delay, expire) := due.value;
          if delay < best || (delay == best && !check.expire && p.queued
                              && (check.retransmit || (check.slot.Some? && p.sentAt < pending[check.slot.value].sentAt))) {
            best, check := delay, Check(Some(i), p.local, p.remote, p.inFlight, expire);
          }
        }
      }
    }

    /** When entry `i` wants service, and whether it is to be given up. */
    method DueOf(i: nat, now: Time, relayReady: Option<seq<bool>>, pace: nat) returns (due: Option<(nat, bool)>)
      requires i < pending.Length
      ensures var p := pending[i];
              due == if Considered(View(), p, now, relayReady) then Some((Delay(View(), p, now, pace), Expired(View(), p, now))) else None
    {
      var p := pending[i];
      if !p.inFlight && !p.queued { return None; }
      var age := Elapsed(now, SentTime(p));
      var expire := (p.inFlight && age >= CHECK_TIMEOUT_MS) || (!p.inFlight && !p.valid && checkCount >= MAX_CHECKS);
      var ready := Ready(p.local, p.remote, relayReady);
      if !expire && !ready { return None; }
      var delay := 0;
      if p.inFlight {
        var retry := RetryDelay(p.retries);
        delay := if age < retry then retry - age else 0;
      }
      if !expire && delay < pace { delay := pace; }
      due := Some((delay, expire));
    }

    method Ready(local: nat, remote: nat, relayReady: Option<seq<bool>>) returns (ready: bool)
      ensures ready <==> PairReady(View(), local, remote, relayReady)
    {
      ready := local < |locals| && remote < |remotes| && locals[local].addr.family == remotes[remote].addr.family
               && (relayReady.None? || locals[local].kind != Relay || (remote < |relayReady.value| && relayReady.value[remote]));
    }

    method FirstFree() returns (free: nat)
      ensures free == FreeSlot(pending[..], 0)
    {
      free := 0;
      while free < pending.Length && Active(pending[free])
        invariant free <= pending.Length && FreeSlot(pending[..], 0) == FreeSlot(pending[..], free)
      {
        free := free + 1;
      }
    }

    method Waiting() returns (active: bool)
      ensures active <==> AnyWaiting(pending[..])
    {
      active := false;
      ghost var all := pending[..];
      for i := 0 to pending.Length
        invariant active <==> exists j | 0 <= j < i :: all[j].inFlight || all[j].queued
      {
        assert pending[i] == all[i];
        if pending[i].inFlight || pending[i].queued { active := true; }
      }
    }

    method IsKnown(local: nat, remote: nat) returns (known: bool)
      ensures known <==> Known(pending[..], local, remote)
    {
      known := false;
      ghost var all := pending[..];
      for i := 0 to pending.Length
        invariant known <==> exists j | 0 <= j < i :: Active(all[j]) && all[j].local == local && all[j].remote == remote
      {
        var p := pending[i];
        assert p == all[i];
        if Active(p) && p.local == local && p.remote == remote { known := true; }
      }
    }

    /** Walks the pairs from the current one to the first that is ready and new. */
    method NextPair(relayReady: Option<seq<bool>>) returns (found: bool, local: nat, remote: nat)
      requires locals != [] && remotes != []
      ensures var k := FreshPair(View(), relayReady, 0);
              found == k.Some? && (found ==> (local, remote) == PairAt(View(), k.value))
    {
      found, local, remote := false, 0, 0;
      var total := |locals| * |remotes|;
      for n := 0 to total
        invariant FreshPair(View(), relayReady, 0) == FreshPair(View(), relayReady, n)
      {
        var pair := (curLocal * |remotes| + curRemote + n) % total;
        local, remote := pair / |remotes|, pair % |remotes|;
        assert PairAt(View(), n) == (local, remote);
        var ready := Ready(local, remote, relayReady);
        if ready {
          var known := IsKnown(local, remote);
          if !known { return true, local, remote; }
        }
      }
    }

    /** The next action and the time until it is due. */
    method NextCheck(now: Time, relayReady: Option<seq<bool>>) returns (wait: nat, check: Check)
      ensures (wait, check) == GetCheck(View(), now, relayReady)
    {
      if state != New && state != Checking { return NEVER, NO_CHECK; }
      if endOfCandidates && remotes == [] { return 0, NO_CHECK.(expire := true); }
      if !credentials || locals == [] || remotes == [] { return NEVER, NO_CHECK; }
      var pace := if nextCheck != 0 then Until(now, nextCheck % 0x1_0000_0000) else 0;
      wait, check := ScanTable(now, relayReady, pace);
      if wait != 0 { wait, check := OrFresh(now, relayReady, pace, wait, check); }
    }

    /** Past a busy table: give up, or start a new pair. */
    method OrFresh(now: Time, relayReady: Option<seq<bool>>, pace: nat, best: nat, found: Check) returns (wait: nat, check: Check)
      requires (state == New || state == Checking) && credentials && locals != [] && remotes != []
      requires pace == Pace(View(), now) && best > 0
      requires (best, found) == Scan(View(), now, relayReady, pace, 0, NEVER, NO_CHECK)
      ensures (wait, check) == GetCheck(View(), now, relayReady)
    {
      wait, check := best, found;
      if checkCount >= MAX_CHECKS {
        var active := Waiting();
        if !active { wait, check := 0, found.(slot := None, expire := true); }
        return;
      }
      var free := FirstFree();
      if free < pending.Length && pace < best {
        var found, local, remote := NextPair(relayReady);
        if found { wait, check := pace, Check(Some(free), local, remote, false, false); }
      }
    }

    /** Carries out a check; `txid` is the random transaction of a new request. */
    method Send(now: Time, check: Check, txid: nat) returns (out: Output)
      requires check.slot.Some? ==> check.slot.value < pending.Length
      requires check.slot.Some? && !check.expire ==> check.local < |locals| && check.remote < |remotes|
      modifies this`state, this`checkCount, this`nextCheck, this`curLocal, this`curRemote, pending
      ensures (View(), out) == SendCheck(old(View()), now, check, txid)
    {
      out := Silence;
      if check.slot.None? {
        if check.expire { state := Failed; }
      } else if check.expire {
        UnqueueCheck(check.slot.value);
        pending[check.slot.value] := IDLE;
      } else {
        out := Transmit(now, check, txid);
      }
    }

    method Transmit(now: Time, check: Check, txid: nat) returns (out: Output)
      requires check.slot.Some? && check.slot.value < pending.Length && !check.expire
      requires check.local < |locals| && check.remote < |remotes|
      modifies this`state, this`checkCount, this`nextCheck, this`curLocal, this`curRemote, pending
      ensures (View(), out) == SendCheck(old(View()), now, check, txid)
    {
      var slot := check.slot.value;
      var p := pending[slot];
      if !check.retransmit {
        p := p.(txid := txid, sentAt := now, local := check.local, remote := check.remote, retries := 0);
      }
      out := Request(p.txid, check.local, remotes[check.remote].addr, controlling && p.nominate);
      p := p.(queued := false, inFlight := true, retries := (p.retries + 1) % 16);
      UnqueueCheck(slot);
      pending[slot] := p;
      if !check.retransmit && checkCount < 255 { checkCount := checkCount + 1; }
      nextCheck := Deadline(now, CHECK_INTERVAL_MS);
      state := Checking;
      MoveOn(check.local, check.remote);
    }

    /** The pair after the one just checked. */
    method MoveOn(local: nat, remote: nat)
      requires local < |locals| && remote < |remotes|
      modifies this`curLocal, this`curRemote
      ensures curRemote == if remote + 1 >= |remotes| then 0 else remote + 1
      ensures curLocal == if remote + 1 >= |remotes| then (local + 1) % |locals| else local
    {
      curRemote := remote + 1;
      curLocal := local;
      if curRemote >= |remotes| {
        curRemote := 0;
        curLocal := (local + 1) % |locals|;
      }
    }

    /** One timer service. */
    method Generate(now: Time, relayReady: Option<seq<bool>>, txid: nat) returns (out: Output)
      modifies this`state, this`checkCount, this`nextCheck, this`curLocal, this`curRemote, pending
      ensures (View(), out) == Poll(old(View()), now, relayReady, txid)
    {
      var wait, check := NextCheck(now, relayReady);
      if wait != 0 { return Silence; }
      out := Send(now, check, txid);
    }

    /** A new generation. */
    method Renew()
      requires pending.Length == MAX_PENDING
      modifies this, pending
      ensures View() == Restart(old(View()))
    {
      forall i | 0 <= i < pending.Length { pending[i] := IDLE; }
      state, remotes, checkCount, nextCheck, curLocal, curRemote := New, [], 0, 0, 0, 0;
      endOfCandidates, credentials, selected := false, false, None;
      assert pending[..] == seq(MAX_PENDING, i => IDLE);
    }
  }
}
