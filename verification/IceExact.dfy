/** What an authenticated request or response does to the agent, entry by entry: when a request is refused,
    which entry its triggered check takes, when a response is accepted, and what follows from it. */
module IceExact {
  import opened IceModel
  import opened IceSchedule
  import opened IceSafety

  // ----- requests -----

  /** Candidate `m` is the first at the address; none is when `m` is their number. */
  predicate FirstAt(remotes: seq<Candidate>, addr: Addr, m: nat) {
    && m <= |remotes| && (forall k | 0 <= k < m :: remotes[k].addr != addr)
    && (m < |remotes| ==> remotes[m].addr == addr)
  }

  predicate Used(p: Slot) {
    p.inFlight || p.queued || p.valid || p.nominate || p.triggered || p.retries > 0
  }

  /** The entry is in use for the pair of remote candidate `m` and the socket of `local`. */
  predicate ForPair(v: Agent, p: Slot, local: nat, m: nat) {
    Used(p) && p.remote == m && Base(v, p.local) == Base(v, local)
  }

  /** The agent still looks for a pair. */
  predicate Open(v: Agent) {
    v.state == New || v.state == Checking
  }

  /** The request came to a known local candidate of the family of its source. */
  predicate Received(v: Agent, local: nat, src: Addr) {
    local < |v.locals| && v.locals[local].addr.family == src.family
  }

  predicate PairKnown(v: Agent, local: nat, m: nat) {
    exists k | 0 <= k < |v.pending| :: ForPair(v, v.pending[k], local, m)
  }

  predicate Busy(p: Slot) {
    p.inFlight || p.queued
  }

  /** The table or the list of remote candidates has no room for the pair. */
  predicate NoRoom(v: Agent, local: nat, m: nat) {
    m >= MAX_REMOTES || (!PairKnown(v, local, m) && forall k | 0 <= k < |v.pending| :: Busy(v.pending[k]))
  }

  /** Entry `s` is the first of the pair; without one, the first that is neither in flight nor queued. */
  predicate Taken(v: Agent, local: nat, m: nat, s: nat) {
    && s < |v.pending|
    && if PairKnown(v, local, m) then ForPair(v, v.pending[s], local, m) && forall k | 0 <= k < s :: !ForPair(v, v.pending[k], local, m)
       else !Busy(v.pending[s]) && forall k | 0 <= k < s :: Busy(v.pending[k])
  }

  lemma {:induction false} RemoteFound(remotes: seq<Candidate>, addr: Addr, i: nat, m: nat)
    requires FirstAt(remotes, addr, m) && i <= m
    ensures FindRemote(remotes, addr, i) == m
    decreases m - i
  {
    if i < m { RemoteFound(remotes, addr, i + 1, m); }
  }

  /** What the search has seen before entry `i`. */
  predicate Seen(v: Agent, local: nat, m: nat, i: nat, free: nat) {
    && i <= |v.pending| && free <= |v.pending|
    && (forall k | 0 <= k < i :: !ForPair(v, v.pending[k], local, m))
    && (if free < |v.pending| then free < i && !Busy(v.pending[free]) && forall k | 0 <= k < free :: Busy(v.pending[k])
        else forall k | 0 <= k < i :: Busy(v.pending[k]))
  }

  lemma {:induction false} EntryFound(v: Agent, local: nat, m: nat, i: nat, free: nat, r: nat)
    requires Seen(v, local, m, i, free) && r == PairSlot(v, local, m, i, free)
    ensures r < |v.pending| ==> Taken(v, local, m, r)
    ensures r >= |v.pending| <==> !PairKnown(v, local, m) && forall k | 0 <= k < |v.pending| :: Busy(v.pending[k])
    decreases |v.pending| - i
  {
    if i < |v.pending| && !ForPair(v, v.pending[i], local, m) {
      EntryFound(v, local, m, i + 1, if !Busy(v.pending[i]) && free == |v.pending| then i else free, r);
    }
  }

  /** A request is refused, and then changes nothing, exactly when the pair finds no room; or when it
      nominates a pair of an unknown local candidate or of two families. */
  lemma RefusedIff(v: Agent, local: nat, src: Addr, nominate: bool, m: nat)
    requires FirstAt(v.remotes, src, m)
    ensures !Trigger(v, local, src, nominate).1 <==>
              Open(v) && if Received(v, local, src) then NoRoom(v, local, m) else nominate
    ensures !Trigger(v, local, src, nominate).1 || !Open(v) || !Received(v, local, src) ==> Trigger(v, local, src, nominate).0 == v
  {
    RemoteFound(v.remotes, src, 0, m);
    EntryFound(v, local, m, 0, |v.pending|, PairSlot(v, local, m, 0, |v.pending|));
  }

  /** The entry of the pair as the request leaves it, when the pair had not answered: its check is new,
      or it was triggered already. */
  predicate ChecksAgain(p: Slot, mine: bool, local: nat, m: nat, nominate: bool, q: Slot) {
    if mine && p.triggered then q == p.(nominate := p.nominate || nominate)
    else q == Slot(if mine then p.txid else 0, q.sentAt, if mine then p.local else local, m, false,
                   true, false, (mine && p.nominate) || nominate, true, 0)
  }

  /** Entry `s` comes last in the queue. */
  predicate LastQueued(pending: seq<Slot>, s: nat) {
    s < |pending| && forall k | 0 <= k < |pending| && k != s && pending[k].queued :: pending[k].sentAt < pending[s].sentAt
  }

  predicate OnlyEntry(a: seq<Slot>, b: seq<Slot>, s: nat) {
    |a| == |b| && forall k | 0 <= k < |a| && k != s :: a[k] == b[k]
  }

  /** The pair is in use from now on. */
  predicate Selects(v: Agent, w: Agent, local: nat, peer: Addr) {
    w.state == Connected && w.selected.Some? && w.selected.value.local == local && w.selected.value.peer == peer
  }

  predicate NothingElse(v: Agent, w: Agent) {
    w == v.(remotes := w.remotes, pending := w.pending, state := w.state, selected := w.selected)
  }

  /** What the request does to entry `s`: an answered pair is selected when the request nominates it, and
      an unanswered one is checked, after those already queued. */
  predicate EntryAfter(v: Agent, local: nat, src: Addr, nominate: bool, m: nat, s: nat, w: Agent)
    requires s < |v.pending| == |w.pending|
  {
    var p, q, mine := v.pending[s], w.pending[s], ForPair(v, v.pending[s], local, m);
    if mine && p.valid then
      q == p.(nominate := p.nominate || nominate) &&
      if nominate then Selects(v, w, p.local, src) else w.state == v.state && w.selected == v.selected
    else
      ChecksAgain(p, mine, local, m, nominate, q) && w.state == v.state && w.selected == v.selected &&
      (!(mine && p.triggered) ==> LastQueued(w.pending, s))
  }

  /** A request that finds room: its source is known afterwards, and one entry is its pair's. */
  lemma RequestTaken(v: Agent, log: Log, local: nat, src: Addr, nominate: bool, m: nat, w: Agent) returns (s: nat)
    requires Open(v) && Received(v, local, src) && FirstAt(v.remotes, src, m) && !NoRoom(v, local, m)
    requires IceOk(v, log) && w == Trigger(v, local, src, nominate).0
    ensures Taken(v, local, m, s)
    ensures w.remotes == if m < |v.remotes| then v.remotes else v.remotes + [Candidate(src, Prflx)]
    ensures OnlyEntry(v.pending, w.pending, s) && NothingElse(v, w)
    ensures EntryAfter(v, local, src, nominate, m, s, w)
  {
    RemoteFound(v.remotes, src, 0, m);
    s := PairSlot(v, local, m, 0, |v.pending|);
    EntryFound(v, local, m, 0, |v.pending|, s);
    assert SlotOk(v, log, v.pending[s]);
    RequestEntry(v, local, src, nominate, m, s, w);
  }

  /** The same for the entry that was found. */
  lemma RequestEntry(v: Agent, local: nat, src: Addr, nominate: bool, m: nat, s: nat, w: Agent)
    requires Open(v) && Received(v, local, src) && m == FindRemote(v.remotes, src, 0) < MAX_REMOTES && w == Trigger(v, local, src, nominate).0
    requires s == PairSlot(v, local, m, 0, |v.pending|) < |v.pending| && QueueOk(v.pending)
    requires v.pending[s].queued ==> ForPair(v, v.pending[s], local, m) && (v.pending[s].triggered || v.pending[s].valid)
    ensures w.remotes == if m < |v.remotes| then v.remotes else v.remotes + [Candidate(src, Prflx)]
    ensures OnlyEntry(v.pending, w.pending, s) && NothingElse(v, w)
    ensures EntryAfter(v, local, src, nominate, m, s, w)
  {
    var p := PairEntry(v, v.pending[s], local, m, nominate);
    var learnt := if m < |v.remotes| then v.remotes else v.remotes + [Candidate(src, Prflx)];
    RequestShape(v, local, src, nominate, m, s, p, learnt, w);
    if p.valid || p.triggered {
      RequestNoted(v, local, src, nominate, m, s, p, learnt, w);
    } else {
      RequestQueued(v, local, src, nominate, m, s, p, learnt, w);
    }
  }

  lemma RequestShape(v: Agent, local: nat, src: Addr, nominate: bool, m: nat, s: nat, p: Slot, learnt: seq<Candidate>, w: Agent)
    requires Open(v) && Received(v, local, src) && m == FindRemote(v.remotes, src, 0) < MAX_REMOTES && w == Trigger(v, local, src, nominate).0
    requires s == PairSlot(v, local, m, 0, |v.pending|) < |v.pending| && p == PairEntry(v, v.pending[s], local, m, nominate)
    requires learnt == if m < |v.remotes| then v.remotes else v.remotes + [Candidate(src, Prflx)]
    ensures Noted(v, nominate, m, s, p, learnt, w) || Queued(v, s, p, learnt, w)
  {
  }

  predicate Noted(v: Agent, nominate: bool, m: nat, s: nat, p: Slot, learnt: seq<Candidate>, w: Agent) {
    && s < |v.pending| && m < |learnt| && (p.valid || p.triggered)
    && var v2 := v.(remotes := learnt, pending := v.pending[s := p]);
       w == if p.valid && nominate then Select(v2, p.local, m) else v2
  }

  predicate Queued(v: Agent, s: nat, p: Slot, learnt: seq<Candidate>, w: Agent) {
    && s < |v.pending| && !p.valid && !p.triggered && w == v.(remotes := learnt, pending := w.pending)
    && w.pending == Enqueue(v.pending[s := p][s := p.(inFlight := false, queued := false, triggered := true, retries := 0)], s)
  }

  /** The pair has answered, or its check was triggered before. */
  lemma RequestNoted(v: Agent, local: nat, src: Addr, nominate: bool, m: nat, s: nat, p: Slot, learnt: seq<Candidate>, w: Agent)
    requires Noted(v, nominate, m, s, p, learnt, w) && learnt[m].addr == src && p == PairEntry(v, v.pending[s], local, m, nominate)
    ensures OnlyEntry(v.pending, w.pending, s) && NothingElse(v, w) && w.remotes == learnt
    ensures EntryAfter(v, local, src, nominate, m, s, w)
  {
  }

  /** Its check is new. */
  lemma RequestQueued(v: Agent, local: nat, src: Addr, nominate: bool, m: nat, s: nat, p: Slot, learnt: seq<Candidate>, w: Agent)
    requires Queued(v, s, p, learnt, w) && QueueOk(v.pending) && !v.pending[s].queued && p == PairEntry(v, v.pending[s], local, m, nominate)
    ensures OnlyEntry(v.pending, w.pending, s) && NothingElse(v, w) && w.remotes == learnt
    ensures EntryAfter(v, local, src, nominate, m, s, w)
  {
    var q := p.(inFlight := false, queued := false, triggered := true, retries := 0);
    assert v.pending[s := p][s := q] == v.pending[s := q];
    QueuedLast(v.pending, s, q, w.pending);
  }

  /** An entry put at the end of the queue comes last. */
  lemma QueuedLast(pending: seq<Slot>, s: nat, q: Slot, after: seq<Slot>)
    requires QueueOk(pending) && s < |pending| && !pending[s].queued && !q.queued && after == Enqueue(pending[s := q], s)
    ensures LastQueued(after, s) && OnlyEntry(pending, after, s) && after[s] == q.(queued := true, sentAt := after[s].sentAt)
  {
    CountUpdate(pending, s, q, |pending|);
    forall k | 0 <= k < |pending| && k != s && after[k].queued ensures after[k].sentAt < after[s].sentAt {
      assert pending[k].sentAt < CountQueued(pending, |pending|);
    }
  }

  // ----- responses -----

  /** Entry `s` is the first in flight with the transaction. */
  predicate Awaits(pending: seq<Slot>, txid: nat, s: nat) {
    && s < |pending| && pending[s].inFlight && pending[s].txid == txid
    && forall k | 0 <= k < s :: !(pending[k].inFlight && pending[k].txid == txid)
  }

  /** The response took the path of the request back: from the address that was asked to the socket that
      asked, unless a relay hides the socket or it is unknown. */
  predicate SamePath(v: Agent, p: Slot, src: Addr, localIdx: nat, viaTurn: bool) {
    && p.local < |v.locals| && p.remote < |v.remotes| && v.remotes[p.remote].addr == src
    && (viaTurn || localIdx >= |v.locals| || Base(v, localIdx) == Base(v, p.local))
  }

  lemma {:induction false} AwaitsFound(pending: seq<Slot>, txid: nat, i: nat, s: nat)
    requires Awaits(pending, txid, s) && i <= s
    ensures FindTxid(pending, txid, i) == s
    decreases s - i
  {
    if i < s { AwaitsFound(pending, txid, i + 1, s); }
  }

  lemma NoneFound(pending: seq<Slot>, txid: nat)
    requires forall k | 0 <= k < |pending| :: !(pending[k].inFlight && pending[k].txid == txid)
    ensures FindTxid(pending, txid, 0) == |pending|
  {
  }

  /** A response is accepted exactly when its transaction is in flight on the path it took; otherwise it
      changes nothing. */
  lemma AcceptedIff(v: Agent, txid: nat, src: Addr, localIdx: nat, viaTurn: bool, mapped: Option<Addr>)
    ensures Response(v, txid, src, localIdx, viaTurn, mapped).1 <==>
              exists s | 0 <= s < |v.pending| :: Awaits(v.pending, txid, s) && SamePath(v, v.pending[s], src, localIdx, viaTurn)
    ensures !Response(v, txid, src, localIdx, viaTurn, mapped).1 ==> Response(v, txid, src, localIdx, viaTurn, mapped).0 == v
  {
    if s :| 0 <= s < |v.pending| && Awaits(v.pending, txid, s) { AwaitsFound(v.pending, txid, 0, s); }
    var r := FindTxid(v.pending, txid, 0);
    if r < |v.pending| {
      FoundAwaits(v.pending, txid, 0, r);
      assert SamePath(v, v.pending[r], src, localIdx, viaTurn) <==> SymmetricPath(v, v.pending[r], src, localIdx, viaTurn);
    }
  }

  lemma {:induction false} FoundAwaits(pending: seq<Slot>, txid: nat, i: nat, r: nat)
    requires i <= |pending| && r == FindTxid(pending, txid, i) < |pending|
    requires forall k | 0 <= k < i :: !(pending[k].inFlight && pending[k].txid == txid)
    ensures Awaits(pending, txid, r)
    decreases |pending| - i
  {
    if !(pending[i].inFlight && pending[i].txid == txid) { FoundAwaits(pending, txid, i + 1, r); }
  }

  /** The reflexive candidate `i`, sent from the socket of `local`, has the mapped address. */
  predicate Mapped(v: Agent, local: nat, mapped: Option<Addr>, i: nat) {
    i < |v.locals| && v.locals[i].kind == Srflx && mapped == Some(v.locals[i].addr) && Base(v, i) == Base(v, local)
  }

  /** The local candidate of the answered pair: the first that the mapped address names, or the one asked from. */
  predicate LocalAfter(v: Agent, local: nat, mapped: Option<Addr>, after: nat) {
    if exists i | 0 <= i < |v.locals| :: Mapped(v, local, mapped, i)
    then Mapped(v, local, mapped, after) && forall i | 0 <= i < after :: !Mapped(v, local, mapped, i)
    else after == local
  }

  lemma {:induction false} MappedFound(v: Agent, local: nat, mapped: Option<Addr>, i: nat, r: nat)
    requires i <= |v.locals| && r == MappedLocal(v, local, mapped, i) && forall k | 0 <= k < i :: !Mapped(v, local, mapped, k)
    ensures LocalAfter(v, local, mapped, r)
    decreases |v.locals| - i
  {
    if i < |v.locals| && !Mapped(v, local, mapped, i) { MappedFound(v, local, mapped, i + 1, r); }
  }

  /** The entry of an answered pair: only its pair and its last request are kept. */
  predicate AnsweredEntry(p: Slot, local: nat, nominate: bool, q: Slot) {
    && q.txid == p.txid && q.local == local && q.remote == p.remote && !q.inFlight && q.valid
    && q.nominate == nominate && q.queued == nominate && !q.triggered && q.retries == 0
  }

  /** An accepted response ends its transaction. Once connected nothing else happens; before that a pair
      under nomination is selected, and any other is remembered as answered, which a controlling agent puts
      at the end of the queue to be nominated. */
  lemma ResponseTaken(v: Agent, log: Log, txid: nat, src: Addr, localIdx: nat, viaTurn: bool, mapped: Option<Addr>, s: nat, w: Agent)
    requires IceOk(v, log) && Awaits(v.pending, txid, s) && SamePath(v, v.pending[s], src, localIdx, viaTurn)
    requires w == Response(v, txid, src, localIdx, viaTurn, mapped).0
    ensures OnlyEntry(v.pending, w.pending, s) && NothingElse(v, w) && w.remotes == v.remotes
    ensures LocalAfter(v, v.pending[s].local, mapped, w.pending[s].local)
    ensures var p, q := v.pending[s], w.pending[s];
            if v.state == Connected then
              q == p.(inFlight := false, local := q.local) && w.state == v.state && w.selected == v.selected
            else if p.nominate then
              AnsweredEntry(p, q.local, false, q) && Selects(v, w, q.local, src)
            else
              AnsweredEntry(p, q.local, v.controlling, q) && w.state == v.state && w.selected == v.selected &&
              (v.controlling ==> LastQueued(w.pending, s))
  {
    AwaitsFound(v.pending, txid, 0, s);
    assert SlotOk(v, log, v.pending[s]);
    var local := MappedLocal(v, v.pending[s].local, mapped, 0);
    MappedFound(v, v.pending[s].local, mapped, 0, local);
    var p := v.pending[s];
    if v.state != Connected && !p.nominate && v.controlling {
      var q := p.(inFlight := false, local := local, queued := false, valid := true, nominate := true, triggered := false, retries := 0);
      QueuedLast(v.pending, s, q, w.pending);
    }
  }
}
