/** ICE connectivity checks (RFC 8445) as functions on the agent's state: the bounded
    table of transactions, triggered checks and valid pairs, and the schedule drawn
    from it. STUN messages enter already parsed and authenticated. */
module IceModel {
  const MAX_PENDING: nat := 4
  const MAX_REMOTES: nat := 8
  const MAX_CHECKS: nat := 25
  const RTO_MS: nat := 500
  const CHECK_TIMEOUT_MS: nat := 5000
  const CHECK_INTERVAL_MS: nat := 50
  const LOCAL_UNKNOWN: nat := 0xFF
  const NEVER: nat := 0xFFFF_FFFF

  datatype Option<+T> = None | Some(value: T)

  datatype Addr = Addr(ip: seq<nat>, port: nat, family: nat)

  datatype Kind = Host | Srflx | Prflx | Relay

  datatype Candidate = Candidate(addr: Addr, kind: Kind)

  /** One table entry. The last five fields share one byte of the program, the retry
      count in its upper half. A queued entry keeps its queue position in `sentAt`. */
  datatype Slot = Slot(
    txid: nat, sentAt: nat, local: nat, remote: nat, inFlight: bool,
    queued: bool, valid: bool, nominate: bool, triggered: bool, retries: nat)

  const IDLE := Slot(0, 0, 0, 0, false, false, false, false, false, 0)

  datatype IceState = New | Checking | Connected | Disconnected | Failed

  /** The selected pair: local candidate, its socket address if known, and the peer's address. */
  datatype Selection = Selection(local: nat, socket: Option<Addr>, peer: Addr)

  datatype Agent = Agent(
    state: IceState, controlling: bool, locals: seq<Candidate>, srflxBase: nat, remotes: seq<Candidate>,
    pending: seq<Slot>, checkCount: nat, nextCheck: nat, curLocal: nat, curRemote: nat,
    endOfCandidates: bool, credentials: bool, selected: Option<Selection>)

  // ----- the clock -----

  type Time = t: nat | t < 0x1_0000_0000

  function Elapsed(now: Time, since: Time): Time {
    if now >= since then now - since else now - since + 0x1_0000_0000
  }

  function Later(now: Time, d: nat): Time
    requires d < 0x1_0000_0000
  {
    if now + d < 0x1_0000_0000 then now + d else now + d - 0x1_0000_0000
  }

  predicate IsDue(now: Time, deadline: Time) {
    Elapsed(now, deadline) <= 0x7FFF_FFFF
  }

  function Until(now: Time, deadline: Time): Time {
    if IsDue(now, deadline) then 0 else Elapsed(deadline, now)
  }

  /** A deadline; zero is reserved for "not armed". */
  function Deadline(now: Time, d: nat): Time
    requires d < 0x1_0000_0000
  {
    if Later(now, d) == 0 then 1 else Later(now, d)
  }

  // ----- table entries -----

  predicate HasFlags(p: Slot) {
    p.queued || p.valid || p.nominate || p.triggered || p.retries > 0
  }

  predicate Active(p: Slot) {
    p.inFlight || HasFlags(p)
  }

  /** The socket of a local candidate: a server-reflexive one uses its base. */
  function BaseOf(locals: seq<Candidate>, srflxBase: nat, idx: nat): nat {
    if idx < |locals| && locals[idx].kind == Srflx then
      if srflxBase < |locals| && locals[srflxBase].kind == Host then srflxBase else LOCAL_UNKNOWN
    else idx
  }

  function Base(v: Agent, idx: nat): nat {
    BaseOf(v.locals, v.srflxBase, idx)
  }

  // ----- the queue of triggered checks -----

  /** Queued entries among the first `n`. */
  function CountQueued(pending: seq<Slot>, n: nat): (c: nat)
    requires n <= |pending|
    ensures c <= n
  {
    if n == 0 then 0 else CountQueued(pending, n - 1) + if pending[n - 1].queued then 1 else 0
  }

  /** Puts entry `i` at the end of the queue. */
  function Enqueue(pending: seq<Slot>, i: nat): (r: seq<Slot>)
    requires i < |pending|
    ensures |r| == |pending|
  {
    pending[i := pending[i].(sentAt := CountQueued(pending, |pending|), queued := true)]
  }

  /** Takes entry `i` out of the queue and closes the gap. */
  function Dequeue(pending: seq<Slot>, i: nat): (r: seq<Slot>)
    requires i < |pending|
    ensures |r| == |pending|
  {
    if !pending[i].queued then pending
    else seq(|pending|, j requires 0 <= j < |pending| => Advanced(pending, i, j))
  }

  /** Entry `j` after entry `i` left the queue. */
  function Advanced(pending: seq<Slot>, i: nat, j: nat): Slot
    requires i < |pending| && j < |pending|
  {
    if j == i then pending[j].(queued := false)
    else if pending[j].queued && pending[j].sentAt > pending[i].sentAt then pending[j].(sentAt := pending[j].sentAt - 1)
    else pending[j]
  }

  // ----- selection -----

  function Select(v: Agent, local: nat, remote: nat): Agent
    requires remote < |v.remotes|
  {
    var base := Base(v, local);
    v.(selected := Some(Selection(local, if base < |v.locals| then Some(v.locals[base].addr) else None, v.remotes[remote].addr)),
       state := Connected)
  }

  // ----- an authenticated incoming request -----

  /** The first remote candidate at `addr`, or the number of them. */
  function FindRemote(remotes: seq<Candidate>, addr: Addr, i: nat): (r: nat)
    requires i <= |remotes|
    ensures i <= r <= |remotes|
    ensures r < |remotes| ==> remotes[r].addr == addr
    decreases |remotes| - i
  {
    if i == |remotes| || remotes[i].addr == addr then i else FindRemote(remotes, addr, i + 1)
  }

  predicate SamePair(v: Agent, p: Slot, local: nat, remote: nat) {
    Active(p) && p.remote == remote && Base(v, p.local) == Base(v, local)
  }

  /** The entry of the pair, else the first reusable entry, else the table size. */
  function PairSlot(v: Agent, local: nat, remote: nat, i: nat, free: nat): (r: nat)
    requires i <= |v.pending| && free <= |v.pending|
    ensures r <= |v.pending|
    ensures r < |v.pending| ==> r == free || SamePair(v, v.pending[r], local, remote) || (!v.pending[r].inFlight && !v.pending[r].queued)
    decreases |v.pending| - i
  {
    if i == |v.pending| then free
    else
      var p := v.pending[i];
      if SamePair(v, p, local, remote) then i
      else PairSlot(v, local, remote, i + 1, if !p.inFlight && !p.queued && free == |v.pending| then i else free)
  }

  predicate Settled(s: IceState) {
    s == Connected || s == Failed || s == Disconnected
  }

  /** The entry that a triggered check on the pair starts from. */
  function PairEntry(v: Agent, p: Slot, local: nat, remote: nat, nominate: bool): Slot {
    var q := if SamePair(v, p, local, remote) then p else IDLE.(local := local, remote := remote);
    if nominate then q.(nominate := true) else q
  }

  /** Learns the source of an authenticated request and triggers a check on its pair.
      False asks the peer to retry. */
  function Trigger(v: Agent, local: nat, src: Addr, nominate: bool): (Agent, bool) {
    if Settled(v.state) then (v, true)
    else if local >= |v.locals| || v.locals[local].addr.family != src.family then (v, !nominate)
    else
      var remote := FindRemote(v.remotes, src, 0);
      var slot := PairSlot(v, local, remote, 0, |v.pending|);
      if slot == |v.pending| || remote >= MAX_REMOTES then (v, false)
      else
        var v1 := if remote == |v.remotes| then v.(remotes := v.remotes + [Candidate(src, Prflx)]) else v;
        var p := PairEntry(v, v.pending[slot], local, remote, nominate);
        var v2 := v1.(pending := v1.pending[slot := p]);
        if p.valid then (if nominate then Select(v2, p.local, remote) else v2, true)
        else if p.triggered then (v2, true)
        else
          var q := p.(inFlight := false, queued := false, triggered := true, retries := 0);
          (v2.(pending := Enqueue(v2.pending[slot := q], slot)), true)
  }

  // ----- an authenticated response -----

  /** The first in-flight entry with the transaction, or the table size. */
  function FindTxid(pending: seq<Slot>, txid: nat, i: nat): (r: nat)
    requires i <= |pending|
    ensures i <= r <= |pending|
    ensures r < |pending| ==> pending[r].inFlight && pending[r].txid == txid
    decreases |pending| - i
  {
    if i == |pending| || (pending[i].inFlight && pending[i].txid == txid) then i else FindTxid(pending, txid, i + 1)
  }

  /** The gathered reflexive candidate that the mapped address names, on the same socket, from `i` on. */
  function MappedLocal(v: Agent, local: nat, mapped: Option<Addr>, i: nat): (r: nat)
    requires i <= |v.locals|
    ensures Base(v, r) == Base(v, local) && (local < |v.locals| ==> r < |v.locals|)
    decreases |v.locals| - i
  {
    if i == |v.locals| then local
    else if v.locals[i].kind == Srflx && mapped == Some(v.locals[i].addr) && Base(v, i) == Base(v, local) then i
    else MappedLocal(v, local, mapped, i + 1)
  }

  /** The response comes from the peer address of the pair, on the socket of the pair. */
  predicate SymmetricPath(v: Agent, p: Slot, src: Addr, localIdx: nat, viaTurn: bool) {
    && p.local < |v.locals| && p.remote < |v.remotes| && v.remotes[p.remote].addr == src
    && !(localIdx < |v.locals| && Base(v, localIdx) != Base(v, p.local) && !viaTurn)
  }

  /** The second component says that the response was accepted. */
  function Response(v: Agent, txid: nat, src: Addr, localIdx: nat, viaTurn: bool, mapped: Option<Addr>): (Agent, bool) {
    var slot := FindTxid(v.pending, txid, 0);
    if slot == |v.pending| || !SymmetricPath(v, v.pending[slot], src, localIdx, viaTurn) then (v, false)
    else
      var p := v.pending[slot].(inFlight := false, local := MappedLocal(v, v.pending[slot].local, mapped, 0));
      var valid := p.(queued := false, valid := true, nominate := false, triggered := false, retries := 0);
      if v.state == Connected then (v.(pending := v.pending[slot := p]), true)
      else if p.nominate then (Select(v.(pending := v.pending[slot := valid]), p.local, p.remote), true)
      else if v.controlling then (v.(pending := Enqueue(v.pending[slot := valid.(nominate := true)], slot)), true)
      else (v.(pending := v.pending[slot := valid]), true)
  }

  /** An authenticated error response ends its transaction. */
  function ErrorResponse(v: Agent, txid: nat): Agent {
    var slot := FindTxid(v.pending, txid, 0);
    if slot == |v.pending| then v else v.(pending := v.pending[slot := IDLE])
  }

  // ----- the schedule -----

  function Pow2(n: nat): (p: nat)
    ensures p > 0
  {
    if n == 0 then 1 else 2 * Pow2(n - 1)
  }

  /** Milliseconds from the first transmission to the next retransmission. */
  function RetryDelay(retries: nat): (d: nat)
    ensures d <= CHECK_TIMEOUT_MS
  {
    if retries >= 15 || RTO_MS * (Pow2(retries) - 1) > CHECK_TIMEOUT_MS then CHECK_TIMEOUT_MS
    else RTO_MS * (Pow2(retries) - 1)
  }

  /** A pair of one address family whose relay permission, if one is needed, is ready. */
  predicate PairReady(v: Agent, local: nat, remote: nat, relayReady: Option<seq<bool>>) {
    && local < |v.locals| && remote < |v.remotes| && v.locals[local].addr.family == v.remotes[remote].addr.family
    && (relayReady.None? || v.locals[local].kind != Relay || (remote < |relayReady.value| && relayReady.value[remote]))
  }

  /** Sent-at as a 32-bit time. */
  function SentTime(p: Slot): Time {
    p.sentAt % 0x1_0000_0000
  }

  /** A transaction that ran out of time, or a check that may no longer be started. */
  predicate Expired(v: Agent, p: Slot, now: Time) {
    || (p.inFlight && Elapsed(now, SentTime(p)) >= CHECK_TIMEOUT_MS)
    || (!p.inFlight && !p.valid && v.checkCount >= MAX_CHECKS)
  }

  /** The entry waits for something that can happen. */
  predicate Considered(v: Agent, p: Slot, now: Time, relayReady: Option<seq<bool>>) {
    (p.inFlight || p.queued) && (Expired(v, p, now) || PairReady(v, p.local, p.remote, relayReady))
  }

  function Delay(v: Agent, p: Slot, now: Time, pace: nat): nat {
    var age := Elapsed(now, SentTime(p));
    var due := RetryDelay(p.retries);
    var d := if p.inFlight && age < due then due - age else 0;
    if !Expired(v, p, now) && d < pace then pace else d
  }

  /** What to do next: transmit on a pair from an entry, or give an entry (or the whole agent) up. */
  datatype Check = Check(slot: Option<nat>, local: nat, remote: nat, retransmit: bool, expire: bool)

  const NO_CHECK := Check(None, 0, 0, false, false)

  /** The entry beats the best one found so far: it is due earlier, or it is a queued check
      due at the same time as a retransmission or as a later queued check. */
  predicate Beats(v: Agent, p: Slot, delay: nat, best: nat, check: Check)
    requires check.slot.Some? ==> check.slot.value < |v.pending|
  {
    || delay < best
    || (delay == best && !check.expire && p.queued
        && (check.retransmit || (check.slot.Some? && p.sentAt < v.pending[check.slot.value].sentAt)))
  }

  /** The check names a table entry, and a ready pair when it transmits. */
  predicate Executable(v: Agent, check: Check, relayReady: Option<seq<bool>>) {
    check.slot.Some? ==>
      check.slot.value < |v.pending| && (!check.expire ==> PairReady(v, check.local, check.remote, relayReady))
  }

  function Scan(v: Agent, now: Time, relayReady: Option<seq<bool>>, pace: nat, i: nat, best: nat, check: Check): (r: (nat, Check))
    requires i <= |v.pending| && Executable(v, check, relayReady)
    ensures Executable(v, r.1, relayReady)
    decreases |v.pending| - i
  {
    if i == |v.pending| then (best, check)
    else
      var p := v.pending[i];
      var delay := Delay(v, p, now, pace);
      if Considered(v, p, now, relayReady) && Beats(v, p, delay, best, check)
      then Scan(v, now, relayReady, pace, i + 1, delay, Check(Some(i), p.local, p.remote, p.inFlight, Expired(v, p, now)))
      else Scan(v, now, relayReady, pace, i + 1, best, check)
  }

  /** The first unused entry at `i` or later, or the table size. */
  function FreeSlot(pending: seq<Slot>, i: nat): (r: nat)
    requires i <= |pending|
    ensures i <= r <= |pending|
    ensures r < |pending| ==> !Active(pending[r])
    decreases |pending| - i
  {
    if i == |pending| || !Active(pending[i]) then i else FreeSlot(pending, i + 1)
  }

  /** Some entry belongs to the candidate pair. */
  predicate Known(pending: seq<Slot>, local: nat, remote: nat) {
    exists i | 0 <= i < |pending| :: Active(pending[i]) && pending[i].local == local && pending[i].remote == remote
  }

  function PairAt(v: Agent, k: nat): (r: (nat, nat))
    requires v.locals != [] && v.remotes != []
  {
    var pair := (v.curLocal * |v.remotes| + v.curRemote + k) % (|v.locals| * |v.remotes|);
    (pair / |v.remotes|, pair % |v.remotes|)
  }

  predicate Fresh(v: Agent, k: nat, relayReady: Option<seq<bool>>)
    requires v.locals != [] && v.remotes != []
  {
    var (local, remote) := PairAt(v, k);
    PairReady(v, local, remote, relayReady) && !Known(v.pending, local, remote)
  }

  /** Steps from the current pair to the first pair that is ready and not in the table. */
  function FreshPair(v: Agent, relayReady: Option<seq<bool>>, k: nat): (r: Option<nat>)
    requires v.locals != [] && v.remotes != [] && k <= |v.locals| * |v.remotes|
    ensures r.Some? ==> Fresh(v, r.value, relayReady)
    decreases |v.locals| * |v.remotes| - k
  {
    if k == |v.locals| * |v.remotes| then None
    else if Fresh(v, k, relayReady) then Some(k)
    else FreshPair(v, relayReady, k + 1)
  }

  function Pace(v: Agent, now: Time): Time {
    if v.nextCheck != 0 then Until(now, v.nextCheck % 0x1_0000_0000) else 0
  }

  predicate AnyWaiting(pending: seq<Slot>) {
    exists i | 0 <= i < |pending| :: pending[i].inFlight || pending[i].queued
  }

  predicate Startable(v: Agent) {
    v.credentials && v.locals != [] && v.remotes != []
  }

  /** Milliseconds until the next action (NEVER: none is scheduled), and the action. */
  function GetCheck(v: Agent, now: Time, relayReady: Option<seq<bool>>): (r: (nat, Check))
    ensures Executable(v, r.1, relayReady)
  {
    if v.state != New && v.state != Checking then (NEVER, NO_CHECK)
    else if v.endOfCandidates && v.remotes == [] then (0, NO_CHECK.(expire := true))
    else if !Startable(v) then (NEVER, NO_CHECK)
    else
      var pace := Pace(v, now);
      var (best, check) := Scan(v, now, relayReady, pace, 0, NEVER, NO_CHECK);
      if best == 0 then (best, check)
      else if v.checkCount >= MAX_CHECKS then
        if AnyWaiting(v.pending) then (best, check) else (0, check.(slot := None, expire := true))
      else
        var free := FreeSlot(v.pending, 0);
        if free < |v.pending| && pace < best then
          match FreshPair(v, relayReady, 0)
          case Some(k) => (pace, Check(Some(free), PairAt(v, k).0, PairAt(v, k).1, false, false))
          case None => (best, check)
        else (best, check)
  }

  /** A request on the wire. */
  datatype Output = Silence | Request(txid: nat, local: nat, to: Addr, useCandidate: bool)

  /** The entry after its request was sent; the count is the upper half of a byte. */
  function Transmitted(p: Slot, check: Check, now: Time, txid: nat): Slot {
    var q := if check.retransmit then p
             else p.(txid := txid, sentAt := now, local := check.local, remote := check.remote, retries := 0);
    q.(queued := false, inFlight := true, retries := (q.retries + 1) % 16)
  }

  /** Carries out a check; `txid` is the random transaction of a new request. */
  function SendCheck(v: Agent, now: Time, check: Check, txid: nat): (Agent, Output)
    requires check.slot.Some? ==> check.slot.value < |v.pending|
    requires check.slot.Some? && !check.expire ==> check.local < |v.locals| && check.remote < |v.remotes|
  {
    if check.slot.None? then (if check.expire then v.(state := Failed) else v, Silence)
    else
      var slot := check.slot.value;
      var rest := Dequeue(v.pending, slot);
      if check.expire then (v.(pending := rest[slot := IDLE]), Silence)
      else
        var p := Transmitted(v.pending[slot], check, now, txid);
        var wraps := check.remote + 1 >= |v.remotes|;
        (v.(pending := rest[slot := p],
            checkCount := if !check.retransmit && v.checkCount < 255 then v.checkCount + 1 else v.checkCount,
            nextCheck := Deadline(now, CHECK_INTERVAL_MS),
            state := Checking,
            curRemote := if wraps then 0 else check.remote + 1,
            curLocal := if wraps then (check.local + 1) % |v.locals| else check.local),
         Request(p.txid, check.local, v.remotes[check.remote].addr, v.controlling && p.nominate))
  }

  /** One timer service: the due action, if any. */
  function Poll(v: Agent, now: Time, relayReady: Option<seq<bool>>, txid: nat): (Agent, Output) {
    var (wait, check) := GetCheck(v, now, relayReady);
    if wait == 0 then SendCheck(v, now, check, txid) else (v, Silence)
  }

  /** A new generation keeps the role and the local candidates only. */
  function Restart(v: Agent): Agent {
    Agent(New, v.controlling, v.locals, v.srflxBase, [], seq(MAX_PENDING, i => IDLE), 0, 0, 0, 0, false, false, None)
  }
}
