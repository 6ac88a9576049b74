/** Delivering a message keeps the receiver consistent with the sender's history,
    and what is delivered is exactly one accepted message. */
module SctpDeliverStep {
  import opened SctpTypes
  import opened SctpHistory
  import opened SctpReceiver
  import opened SctpDelivery

  // ----- what assembling finds -----

  predicate InRange(slots: Slots, p: nat, t: int) {
    p < |slots| && slots[p].Some? && slots[p].value.first <= t <= slots[p].value.tsn
  }

  predicate Covered(slots: Slots, parts: seq<nat>, t: int) {
    exists k | 0 <= k < |parts| :: InRange(slots, parts[k], t)
  }

  /** `parts` hold, in order, the fragments lo..hi of one message. */
  ghost predicate Chain(h: History, slots: Slots, parts: seq<nat>, lo: int, hi: int) {
    && |h.owner| == |h.chunks| && parts != [] && AllPending(slots, parts)
    && 0 <= lo <= hi < |h.chunks|
    && slots[parts[|parts| - 1]].value.tsn == hi
    && h.owner[hi] == h.owner[lo]
    && Joined(slots, parts) == Payloads(h.chunks, lo, hi + 1)
    && (forall t | lo <= t <= hi :: Covered(slots, parts, t))
  }

  lemma ChainStep(h: History, v: Receiver, parts: seq<nat>, lo: int, hi: int, j: nat)
    requires HistoryOk(h) && TableOk(h, v) && Chain(h, v.slots, parts, lo, hi)
    requires Pending(v.slots, j) && Follows(v.slots[parts[|parts| - 1]].value, v.slots[j].value)
    ensures Chain(h, v.slots, parts + [j], lo, hi + 1)
  {
    var all := parts + [j];
    FollowerIsSingle(h, v, parts[|parts| - 1], j);
    assert EntryOk(h, v.cum, v.slots[j].value);
    assert all[..|all| - 1] == parts;
    PayloadsSplit(h.chunks, lo, hi + 1, hi + 2);
    forall t | lo <= t <= hi + 1 ensures Covered(v.slots, all, t) {
      if t == hi + 1 {
        assert InRange(v.slots, all[|parts|], t);
      } else {
        assert Covered(v.slots, parts, t);
        var k :| 0 <= k < |parts| && InRange(v.slots, parts[k], t);
        assert all[k] == parts[k];
      }
    }
  }

  /** Assembling from a chain that ends before its message does extends the chain to the message's end. */
  lemma {:induction false} AssembleChain(h: History, v: Receiver, parts: seq<nat>, lo: int, hi: int, all: seq<nat>) returns (last: int)
    requires HistoryOk(h) && TableOk(h, v) && Chain(h, v.slots, parts, lo, hi) && |parts| <= |v.slots|
    requires Assemble(v.slots, hi + 1, parts) == Complete(all)
    ensures Chain(h, v.slots, all, lo, last) && h.chunks[last].end
    decreases |v.slots| - |parts|
  {
    var j := FindPending(v.slots, hi + 1, 0);
    ChainStep(h, v, parts, lo, hi, j);
    assert EntryOk(h, v.cum, v.slots[j].value);
    if v.slots[j].value.end {
      last := hi + 1;
    } else {
      last := AssembleChain(h, v, parts + [j], lo, hi + 1, all);
    }
  }

  /** The walk starts from the eligible entry itself. */
  lemma AssembleStart(h: History, v: Receiver, i: nat)
    requires HistoryOk(h) && TableOk(h, v) && Pending(v.slots, i)
    ensures FindPending(v.slots, v.slots[i].value.tsn, 0) == i
    ensures Chain(h, v.slots, [i], v.slots[i].value.first, v.slots[i].value.tsn)
  {
    var e := v.slots[i].value;
    assert EntryOk(h, v.cum, e);
    var j := FindPending(v.slots, e.tsn, 0);
    if j != i {
      assert EntryOk(h, v.cum, v.slots[j].value);
      ApartSymmetric(h, v, i, j);
      assert false;
    }
    assert Joined(v.slots, [i]) == e.data;
    assert forall t | e.first <= t <= e.tsn :: InRange(v.slots, [i][0], t);
  }

  lemma AssembleWhole(h: History, v: Receiver, i: nat, parts: seq<nat>) returns (last: int)
    requires HistoryOk(h) && TableOk(h, v) && Pending(v.slots, i)
    requires Assemble(v.slots, v.slots[i].value.tsn, []) == Complete(parts)
    ensures Chain(h, v.slots, parts, v.slots[i].value.first, last) && h.chunks[last].end
  {
    var e := v.slots[i].value;
    AssembleStart(h, v, i);
    if e.end {
      assert EntryOk(h, v.cum, e);
      last := e.tsn;
    } else {
      assert [] + [i] == [i];
      last := AssembleChain(h, v, [i], e.first, e.tsn, parts);
    }
  }

  /** The accepted message that an entry's fragments belong to. */
  function MessageOf(h: History, e: Entry): Accepted
    requires 0 <= e.tsn < |h.owner| && h.owner[e.tsn] < |h.accepted|
  {
    h.accepted[h.owner[e.tsn]]
  }

  /** Assembling from an undelivered first fragment yields the whole message. */
  lemma AssembleMessage(h: History, v: Receiver, i: nat, parts: seq<nat>)
    requires HistoryOk(h) && TableOk(h, v) && Pending(v.slots, i) && v.slots[i].value.begin
    requires Assemble(v.slots, v.slots[i].value.tsn, []) == Complete(parts)
    ensures 0 <= v.slots[i].value.tsn < |h.owner| && h.owner[v.slots[i].value.tsn] < |h.accepted|
    ensures Chain(h, v.slots, parts, MessageOf(h, v.slots[i].value).first, MessageOf(h, v.slots[i].value).last)
    ensures Joined(v.slots, parts) == MessageOf(h, v.slots[i].value).data
    ensures v.slots[i].value.sid == MessageOf(h, v.slots[i].value).sid
    ensures v.slots[i].value.ppid == MessageOf(h, v.slots[i].value).ppid
    ensures v.slots[i].value.ssn == MessageOf(h, v.slots[i].value).ssn
    ensures v.slots[i].value.unordered == MessageOf(h, v.slots[i].value).unordered
  {
    var e := v.slots[i].value;
    assert EntryOk(h, v.cum, e);
    var last := AssembleWhole(h, v, i, parts);
    var m := h.owner[e.tsn];
    assert ChunkOk(h.accepted[m], h.chunks[e.first], e.first);
    assert ChunkOk(h.accepted[m], h.chunks[last], last);
    assert ChunkOk(h.accepted[m], h.chunks[e.tsn], e.tsn);
    assert MessageOk(h, m);
  }

  // ----- recording the delivery -----

  /** Message `m` has been taken out of the table: all its TSNs are spent and none of its fragments waits. */
  ghost predicate Taken(h: History, u: Receiver, m: nat) {
    && |h.owner| == |h.chunks| && m < |h.accepted|
    && (forall t | h.accepted[m].first <= t <= h.accepted[m].last :: Spent(u, t))
    && (forall i | 0 <= i < |u.slots| && Pending(u.slots, i) ::
          0 <= u.slots[i].value.tsn < |h.owner| && h.owner[u.slots[i].value.tsn] != m)
  }

  lemma MarkedIsSpent(h: History, v: Receiver, parts: seq<nat>, lo: int, hi: int, t: int)
    requires TableOk(h, v) && Chain(h, v.slots, parts, lo, hi) && lo <= t <= hi
    ensures Spent(v.(slots := MarkDelivered(v.slots, parts)), t)
  {
    var u := v.(slots := MarkDelivered(v.slots, parts));
    assert Covered(v.slots, parts, t);
    var k :| 0 <= k < |parts| && InRange(v.slots, parts[k], t);
    var p := parts[k];
    assert EntryOk(h, v.cum, v.slots[p].value);
    assert u.slots[p] == Some(v.slots[p].value.(delivered := true));
  }

  lemma UnmarkedIsOther(h: History, v: Receiver, parts: seq<nat>, m: nat, i: nat)
    requires HistoryOk(h) && TableOk(h, v) && m < |h.accepted|
    requires Chain(h, v.slots, parts, h.accepted[m].first, h.accepted[m].last)
    requires Pending(v.slots, i) && i !in parts
    ensures 0 <= v.slots[i].value.tsn < |h.owner| && h.owner[v.slots[i].value.tsn] != m
  {
    var t := v.slots[i].value.tsn;
    assert EntryOk(h, v.cum, v.slots[i].value);
    if h.owner[t] == m {
      assert ChunkOk(h.accepted[m], h.chunks[t], t);
      assert Covered(v.slots, parts, t);
      var k :| 0 <= k < |parts| && InRange(v.slots, parts[k], t);
      ApartSymmetric(h, v, i, parts[k]);
      assert false;
    }
  }

  lemma MarkedIsTaken(h: History, skippable: set<nat>, v: Receiver, log: seq<nat>, parts: seq<nat>, m: nat)
    requires ReceiverOk(h, skippable, v, log) && m < |h.accepted|
    requires Chain(h, v.slots, parts, h.accepted[m].first, h.accepted[m].last)
    ensures Taken(h, v.(slots := MarkDelivered(v.slots, parts)), m)
    ensures ReceiverOk(h, skippable, v.(slots := MarkDelivered(v.slots, parts)), log)
  {
    var a, u := h.accepted[m], v.(slots := MarkDelivered(v.slots, parts));
    FadeKeeps(h, skippable, v, u, log);
    forall t | a.first <= t <= a.last ensures Spent(u, t) {
      MarkedIsSpent(h, v, parts, a.first, a.last, t);
    }
    forall i | 0 <= i < |u.slots| && Pending(u.slots, i)
      ensures 0 <= u.slots[i].value.tsn < |h.owner| && h.owner[u.slots[i].value.tsn] != m
    {
      UnmarkedIsOther(h, v, parts, m, i);
    }
  }

  lemma LogGrows(h: History, u: Receiver, log: seq<nat>, m: nat, streams: seq<Stream>)
    requires LogOk(h, u, log) && Taken(h, u, m) && m !in log
    ensures LogOk(h, u.(streams := streams), log + [m])
  {
    var all, w := log + [m], u.(streams := streams);
    forall k, t | 0 <= k < |all| && h.accepted[all[k]].first <= t <= h.accepted[all[k]].last ensures Spent(w, t) {
      assert Spent(u, t);
    }
  }

  lemma LogOnGrows(h: History, log: seq<nat>, m: nat, sid: nat)
    ensures LogOn(h, log + [m], sid) == LogOn(h, log, sid) + if OnStream(h, m, sid) then [m] else []
  {
    assert (log + [m])[..|log|] == log;
  }

  /** Messages of the log keep their places when a stream's number rises or stays. */
  lemma PassedGrows(h: History, u: Receiver, w: Receiver, log: seq<nat>, m: nat, n: nat)
    requires n < |h.accepted| && w.cum == u.cum && PassedOk(h, u, log, n)
    requires n != m ==> SsnOf(w.streams, h.accepted[n].sid) == SsnOf(u.streams, h.accepted[n].sid) ||
                        h.accepted[n].ssn + 1 != SsnOf(w.streams, h.accepted[n].sid) == SsnOf(u.streams, h.accepted[n].sid) + 1
    ensures PassedOk(h, w, log + [m], n)
  {
    assert m in log + [m] by { assert (log + [m])[|log|] == m; }
    assert forall x | x in log :: x in log + [m];
  }

  /** An unordered message leaves every stream alone. */
  lemma DeliverUnordered(h: History, skippable: set<nat>, u: Receiver, log: seq<nat>, m: nat)
    requires ReceiverOk(h, skippable, u, log) && Taken(h, u, m) && m !in log && h.accepted[m].unordered
    ensures ReceiverOk(h, skippable, u, log + [m])
  {
    var all := log + [m];
    LogGrows(h, u, log, m, u.streams);
    assert u.(streams := u.streams) == u;
    forall i | 0 <= i < |u.slots| && Pending(u.slots, i) && !u.slots[i].value.unordered
      ensures PlaceOk(h, skippable, u.streams, all, u.slots[i].value)
    {
      assert PlaceOk(h, skippable, u.streams, log, u.slots[i].value);
    }
    forall n | 0 <= n < |h.accepted| ensures PassedOk(h, u, all, n) { PassedGrows(h, u, u, log, m, n); }
    forall sid: nat | sid !in skippable ensures PrefixOk(h, u.streams, all, sid) {
      assert PrefixOk(h, u.streams, log, sid);
      LogOnGrows(h, log, m, sid);
    }
  }

  /** Every skipped-over message that still waits on the stream of `m` comes after it. */
  ghost predicate Behind(h: History, u: Receiver, m: nat)
    requires m < |h.accepted|
  {
    forall i | 0 <= i < |u.slots| && Pending(u.slots, i) && u.slots[i].value.forwarded && u.slots[i].value.sid == h.accepted[m].sid ::
      h.accepted[m].ssn < u.slots[i].value.ssn
  }

  /** A skipped-over message is delivered behind every delivered one and before every waiting one. */
  lemma DeliverForwarded(h: History, skippable: set<nat>, u: Receiver, log: seq<nat>, m: nat, e: Entry)
    requires ReceiverOk(h, skippable, u, log) && Taken(h, u, m) && m !in log
    requires var a := h.accepted[m]; !a.unordered && e.sid == a.sid && e.ssn == a.ssn
    requires e.forwarded && PlaceOk(h, skippable, u.streams, log, e)
    requires Behind(h, u, m)
    ensures ReceiverOk(h, skippable, u, log + [m])
  {
    var a, all := h.accepted[m], log + [m];
    LogGrows(h, u, log, m, u.streams);
    assert u.(streams := u.streams) == u;
    forall i | 0 <= i < |u.slots| && Pending(u.slots, i) && !u.slots[i].value.unordered
      ensures PlaceOk(h, skippable, u.streams, all, u.slots[i].value)
    {
      assert PlaceOk(h, skippable, u.streams, log, u.slots[i].value);
    }
    forall n | 0 <= n < |h.accepted| ensures PassedOk(h, u, all, n) { PassedGrows(h, u, u, log, m, n); }
    forall j, k, sid | 0 <= j < k < |all| && OnStream(h, all[j], sid) && OnStream(h, all[k], sid) ensures all[j] < all[k] {
      if k == |log| {
        assert OnStream(h, log[j], e.sid);
        SsnOrder(h, log[j], m);
      }
    }
    forall sid: nat | sid !in skippable ensures PrefixOk(h, u.streams, all, sid) {
      assert PrefixOk(h, u.streams, log, sid);
      LogOnGrows(h, log, m, sid);
    }
  }

  /** `w` is `u` after message `m` took its turn on its stream. */
  ghost predicate TurnTaken(h: History, u: Receiver, w: Receiver, m: nat) {
    && m < |h.accepted| && !h.accepted[m].unordered
    && w == u.(streams := w.streams)
    && h.accepted[m].ssn == SsnOf(u.streams, h.accepted[m].sid)
    && forall sid: nat :: SsnOf(w.streams, sid) ==
         if sid == h.accepted[m].sid then h.accepted[m].ssn + 1 else SsnOf(u.streams, sid)
  }

  /** An ordered message in its turn: its stream's next number rises by one. */
  lemma DeliverInTurn(h: History, skippable: set<nat>, u: Receiver, w: Receiver, log: seq<nat>, m: nat)
    requires ReceiverOk(h, skippable, u, log) && Taken(h, u, m) && m !in log
    requires TurnTaken(h, u, w, m) && Behind(h, u, m)
    ensures ReceiverOk(h, skippable, w, log + [m])
  {
    var all := log + [m];
    LogGrows(h, u, log, m, w.streams);
    assert forall k | 0 <= k < |all| :: LoggedOk(h, w.streams, all[k]) by {
      assert forall k | 0 <= k < |log| :: LoggedOk(h, u.streams, log[k]);
    }
    InTurnPlaces(h, skippable, u, w, log, m);
    InTurnPassed(h, skippable, u, w, log, m);
    InTurnOrder(h, skippable, u, log, m);
    forall sid: nat ensures BoundOk(h, w.streams, sid) {
      assert BoundOk(h, u.streams, sid);
      assert MessageOk(h, m);
      OrderedOnPosition(h.accepted, m);
    }
    forall sid: nat | sid !in skippable ensures PrefixOk(h, w.streams, all, sid) {
      InTurnPrefix(h, skippable, u, w, log, m, sid);
    }
  }

  lemma InTurnPlaces(h: History, skippable: set<nat>, u: Receiver, w: Receiver, log: seq<nat>, m: nat)
    requires ReceiverOk(h, skippable, u, log) && Taken(h, u, m) && TurnTaken(h, u, w, m)
    requires Behind(h, u, m)
    ensures forall i | 0 <= i < |w.slots| && Pending(w.slots, i) && !w.slots[i].value.unordered ::
              PlaceOk(h, skippable, w.streams, log + [m], w.slots[i].value)
  {
    forall i | 0 <= i < |w.slots| && Pending(w.slots, i) && !w.slots[i].value.unordered
      ensures PlaceOk(h, skippable, w.streams, log + [m], w.slots[i].value)
    {
      var e := u.slots[i].value;
      assert Pending(u.slots, i);
      assert PlaceOk(h, skippable, u.streams, log, e);
      assert EntryOk(h, u.cum, e);
      if e.sid == h.accepted[m].sid && !e.forwarded {
        var n := h.owner[e.tsn];
        assert ChunkOk(h.accepted[n], h.chunks[e.tsn], e.tsn);
        SsnOrder(h, m, n);
      }
    }
  }

  lemma InTurnPassed(h: History, skippable: set<nat>, u: Receiver, w: Receiver, log: seq<nat>, m: nat)
    requires ReceiverOk(h, skippable, u, log) && TurnTaken(h, u, w, m)
    ensures forall n | 0 <= n < |h.accepted| :: PassedOk(h, w, log + [m], n)
  {
    forall n | 0 <= n < |h.accepted| ensures PassedOk(h, w, log + [m], n) {
      assert PassedOk(h, u, log, n);
      if n != m && !h.accepted[n].unordered && h.accepted[n].sid == h.accepted[m].sid { SsnOrder(h, n, m); }
      if h.accepted[n].unordered {
      } else {
        PassedGrows(h, u, w, log, m, n);
      }
    }
  }

  lemma InTurnOrder(h: History, skippable: set<nat>, u: Receiver, log: seq<nat>, m: nat)
    requires ReceiverOk(h, skippable, u, log) && m < |h.accepted| && !h.accepted[m].unordered
    requires h.accepted[m].ssn == SsnOf(u.streams, h.accepted[m].sid)
    ensures var all := log + [m];
            forall j, k, sid | 0 <= j < k < |all| && OnStream(h, all[j], sid) && OnStream(h, all[k], sid) :: all[j] < all[k]
  {
    var all := log + [m];
    forall j, k, sid | 0 <= j < k < |all| && OnStream(h, all[j], sid) && OnStream(h, all[k], sid) ensures all[j] < all[k] {
      if k == |log| {
        assert LoggedOk(h, u.streams, log[j]);
        SsnOrder(h, log[j], m);
      }
    }
  }

  lemma InTurnPrefix(h: History, skippable: set<nat>, u: Receiver, w: Receiver, log: seq<nat>, m: nat, sid: nat)
    requires ReceiverOk(h, skippable, u, log) && TurnTaken(h, u, w, m) && sid !in skippable
    ensures PrefixOk(h, w.streams, log + [m], sid)
  {
    assert PrefixOk(h, u.streams, log, sid);
    LogOnGrows(h, log, m, sid);
    if sid == h.accepted[m].sid {
      assert MessageOk(h, m);
      OrderedOnPosition(h.accepted, m);
      assert OrderedOn(h.accepted, sid)[h.accepted[m].ssn] == m;
    }
  }

  // ----- a whole delivery poll -----

  /** What a poll hands out: the accepted message `m`, not delivered before. */
  ghost predicate Hands(h: History, log: seq<nat>, m: nat, message: Message) {
    && m < |h.accepted| && m !in log
    && message == Message(h.accepted[m].sid, h.accepted[m].ppid, h.accepted[m].data)
  }

  lemma LookUpKeeps(h: History, skippable: set<nat>, v: Receiver, log: seq<nat>, i: nat)
    requires ReceiverOk(h, skippable, v, log) && i < |v.slots|
    ensures ReceiverOk(h, skippable, LookUp(v, i), log)
  {
    if Pending(v.slots, i) { RegisterKeeps(h, skippable, v, log, v.slots[i].value.sid); }
  }

  /** The table after marking the assembled message of slot `i`. */
  lemma MarkForDelivery(h: History, skippable: set<nat>, v: Receiver, log: seq<nat>, i: nat, parts: seq<nat>)
    returns (m: nat, u: Receiver)
    requires ReceiverOk(h, skippable, v, log) && Pending(v.slots, i) && v.slots[i].value.begin
    requires Assemble(v.slots, v.slots[i].value.tsn, []) == Complete(parts)
    ensures u == v.(slots := MarkDelivered(v.slots, parts))
    ensures Hands(h, log, m, Message(v.slots[i].value.sid, v.slots[i].value.ppid, Joined(v.slots, parts)))
    ensures h.accepted[m].sid == v.slots[i].value.sid && h.accepted[m].ssn == v.slots[i].value.ssn
    ensures h.accepted[m].unordered == v.slots[i].value.unordered
    ensures Taken(h, u, m) && ReceiverOk(h, skippable, u, log)
    ensures forall k | 0 <= k < |u.slots| && Pending(u.slots, k) :: Pending(v.slots, k) && u.slots[k] == v.slots[k]
  {
    AssembleMessage(h, v, i, parts);
    m := h.owner[v.slots[i].value.tsn];
    u := v.(slots := MarkDelivered(v.slots, parts));
    PendingIsOk(h, skippable, v, log, i);
    MarkedIsTaken(h, skippable, v, log, parts, m);
  }

  lemma DeliverKeeps(h: History, skippable: set<nat>, v: Receiver, log: seq<nat>, i: nat, parts: seq<nat>) returns (m: nat)
    requires ReceiverOk(h, skippable, v, log) && i < |v.slots| && Eligible(v, i)
    requires Assemble(v.slots, v.slots[i].value.tsn, []) == Complete(parts)
    ensures Hands(h, log, m, Message(v.slots[i].value.sid, v.slots[i].value.ppid, Joined(v.slots, parts)))
    ensures ReceiverOk(h, skippable, Deliver(v, i, parts), log + [m])
  {
    if v.slots[i].value.unordered {
      m := DeliverUnorderedKeeps(h, skippable, v, log, i, parts);
    } else if v.slots[i].value.forwarded {
      m := DeliverForwardedKeeps(h, skippable, v, log, i, parts);
    } else {
      m := DeliverInTurnKeeps(h, skippable, v, log, i, parts);
    }
  }

  lemma DeliverUnorderedKeeps(h: History, skippable: set<nat>, v: Receiver, log: seq<nat>, i: nat, parts: seq<nat>) returns (m: nat)
    requires ReceiverOk(h, skippable, v, log) && i < |v.slots| && Eligible(v, i) && v.slots[i].value.unordered
    requires Assemble(v.slots, v.slots[i].value.tsn, []) == Complete(parts)
    ensures Hands(h, log, m, Message(v.slots[i].value.sid, v.slots[i].value.ppid, Joined(v.slots, parts)))
    ensures ReceiverOk(h, skippable, Deliver(v, i, parts), log + [m])
  {
    var u;
    m, u := MarkForDelivery(h, skippable, v, log, i, parts);
    DeliverUnordered(h, skippable, u, log, m);
    assert Deliver(v, i, parts) == u;
  }

  lemma DeliverForwardedKeeps(h: History, skippable: set<nat>, v: Receiver, log: seq<nat>, i: nat, parts: seq<nat>) returns (m: nat)
    requires ReceiverOk(h, skippable, v, log) && i < |v.slots| && Eligible(v, i) && !v.slots[i].value.unordered
    requires Assemble(v.slots, v.slots[i].value.tsn, []) == Complete(parts) && v.slots[i].value.forwarded
    ensures Hands(h, log, m, Message(v.slots[i].value.sid, v.slots[i].value.ppid, Joined(v.slots, parts)))
    ensures ReceiverOk(h, skippable, Deliver(v, i, parts), log + [m])
  {
    var u;
    m, u := MarkForDelivery(h, skippable, v, log, i, parts);
    WaitingBehind(h, skippable, v, log, i, u, m);
    assert PlaceOk(h, skippable, u.streams, log, v.slots[i].value) by { PendingIsOk(h, skippable, v, log, i); }
    DeliverForwarded(h, skippable, u, log, m, v.slots[i].value);
    assert Deliver(v, i, parts) == u;
  }

  lemma DeliverTakesTurn(h: History, v: Receiver, u: Receiver, i: nat, parts: seq<nat>, m: nat, w: Receiver)
    requires i < |v.slots| && Eligible(v, i) && AllHeld(v.slots, parts)
    requires !v.slots[i].value.unordered && !v.slots[i].value.forwarded
    requires u == v.(slots := MarkDelivered(v.slots, parts)) && m < |h.accepted| && w == Deliver(v, i, parts)
    requires h.accepted[m].sid == v.slots[i].value.sid && h.accepted[m].ssn == v.slots[i].value.ssn && !h.accepted[m].unordered
    ensures TurnTaken(h, u, w, m)
  {
    DeliverShape(v, i, parts);
    SetSsnFrames(v.streams, h.accepted[m].sid, h.accepted[m].ssn + 1, w.streams);
  }

  lemma SetSsnFrames(streams: seq<Stream>, sid: nat, ssn: nat, after: seq<Stream>)
    requires Known(streams, sid) && after == SetSsn(streams, sid, ssn)
    ensures forall other: nat :: SsnOf(after, other) == if other == sid then ssn else SsnOf(streams, other)
  {
    forall other: nat ensures SsnOf(after, other) == if other == sid then ssn else SsnOf(streams, other) {
      SetSsnFrame(streams, sid, ssn, other);
    }
  }

  lemma DeliverInTurnKeeps(h: History, skippable: set<nat>, v: Receiver, log: seq<nat>, i: nat, parts: seq<nat>) returns (m: nat)
    requires ReceiverOk(h, skippable, v, log) && i < |v.slots| && Eligible(v, i) && !v.slots[i].value.unordered
    requires Assemble(v.slots, v.slots[i].value.tsn, []) == Complete(parts) && !v.slots[i].value.forwarded
    ensures Hands(h, log, m, Message(v.slots[i].value.sid, v.slots[i].value.ppid, Joined(v.slots, parts)))
    ensures ReceiverOk(h, skippable, Deliver(v, i, parts), log + [m])
  {
    var u;
    m, u := MarkForDelivery(h, skippable, v, log, i, parts);
    WaitingBehind(h, skippable, v, log, i, u, m);
    DeliverTakesTurn(h, v, u, i, parts, m, Deliver(v, i, parts));
    DeliverInTurn(h, skippable, u, Deliver(v, i, parts), log, m);
  }

  /** Nothing skipped over that still waits on the stream precedes the eligible entry. */
  lemma WaitingBehind(h: History, skippable: set<nat>, v: Receiver, log: seq<nat>, i: nat, u: Receiver, m: nat)
    requires ReceiverOk(h, skippable, v, log) && i < |v.slots| && Eligible(v, i) && !v.slots[i].value.unordered
    requires |u.slots| == |v.slots| && Taken(h, u, m)
    requires h.accepted[m].sid == v.slots[i].value.sid && h.accepted[m].ssn == v.slots[i].value.ssn && !h.accepted[m].unordered
    requires forall k | 0 <= k < |u.slots| && Pending(u.slots, k) :: Pending(v.slots, k) && u.slots[k] == v.slots[k]
    ensures Behind(h, u, m)
  {
    forall k | 0 <= k < |u.slots| && Pending(u.slots, k) && u.slots[k].value.forwarded && u.slots[k].value.sid == h.accepted[m].sid
      ensures h.accepted[m].ssn < u.slots[k].value.ssn
    {
      var f := v.slots[k].value;
      assert Pending(v.slots, k) && EntryOk(h, v.cum, f);
      var n := h.owner[f.tsn];
      assert ChunkOk(h.accepted[n], h.chunks[f.tsn], f.tsn);
      SsnOrder(h, m, n);
    }
  }

  /** A poll's result either hands out one accepted, undelivered message or changes nothing that counts. */
  ghost predicate PollOk(h: History, skippable: set<nat>, log: seq<nat>, m: nat, w: Receiver, message: Option<Message>) {
    if message.Some? then Hands(h, log, m, message.value) && ReceiverOk(h, skippable, w, log + [m])
    else ReceiverOk(h, skippable, w, log)
  }

  lemma {:induction false} PollFromKeeps(h: History, skippable: set<nat>, v: Receiver, log: seq<nat>, i: nat,
                                         r: (Receiver, Status, Option<Message>)) returns (m: nat)
    requires ReceiverOk(h, skippable, v, log) && i <= |v.slots| && r == PollFrom(v, i)
    ensures PollOk(h, skippable, log, m, r.0, r.2)
    decreases |v.slots| - i
  {
    m := 0;
    if i < |v.slots| {
      var w, a := PollTurn(v, i, r);
      LookUpKeeps(h, skippable, v, log, i);
      if a.Incomplete? {
        m := PollFromKeeps(h, skippable, w, log, i + 1, r);
      } else {
        m := PollEndKeeps(h, skippable, w, log, i, a, r);
      }
    }
  }

  /** The poll ends at slot `i`, which was looked up. */
  lemma PollEndKeeps(h: History, skippable: set<nat>, w: Receiver, log: seq<nat>, i: nat, a: Assembly,
                     r: (Receiver, Status, Option<Message>)) returns (m: nat)
    requires ReceiverOk(h, skippable, w, log) && i < |w.slots| && !a.Incomplete?
    requires a == if Eligible(w, i) then Assemble(w.slots, w.slots[i].value.tsn, []) else Incomplete
    requires a.Broken? ==> r.0 == w && r.2 == None
    requires a.Complete? ==> r.0 == Deliver(w, i, a.parts) &&
                             r.2 == Some(Message(w.slots[i].value.sid, w.slots[i].value.ppid, Joined(w.slots, a.parts)))
    ensures PollOk(h, skippable, log, m, r.0, r.2)
  {
    m := 0;
    if a.Complete? { m := DeliverKeeps(h, skippable, w, log, i, a.parts); }
  }

  lemma PollDeliveryKeeps(h: History, skippable: set<nat>, v: Receiver, log: seq<nat>) returns (m: nat)
    requires ReceiverOk(h, skippable, v, log)
    ensures PollOk(h, skippable, log, m, PollDelivery(v).0, PollDelivery(v).2)
  {
    ReclaimKeeps(h, skippable, v, log);
    m := PollFromKeeps(h, skippable, Reclaim(v), log, 0, PollDelivery(v));
  }

  // ----- FORWARD TSN -----

  /** A skip names the last abandoned message of a stream among those up to `newTsn`. */
  ghost predicate SkipOk(h: History, skippable: set<nat>, newTsn: int, s: Stream) {
    s.sid in skippable &&
    exists m | 0 <= m < |h.accepted| :: OnStream(h, m, s.sid) && h.accepted[m].ssn == s.ssn && h.accepted[m].last <= newTsn
  }

  lemma SkipKeeps(h: History, skippable: set<nat>, v: Receiver, log: seq<nat>, s: Stream)
    requires ReceiverOk(h, skippable, v, log) && SkipOk(h, skippable, v.cum, s)
    requires Known(v.streams, s.sid) && SsnOf(v.streams, s.sid) <= s.ssn
    ensures ReceiverOk(h, skippable,
              v.(slots := MarkForwarded(v.slots, s.sid, s.ssn), streams := SetSsn(v.streams, s.sid, s.ssn + 1)), log)
  {
    var w := v.(slots := MarkForwarded(v.slots, s.sid, s.ssn), streams := SetSsn(v.streams, s.sid, s.ssn + 1));
    forall sid: nat ensures SsnOf(w.streams, sid) == if sid == s.sid then s.ssn + 1 else SsnOf(v.streams, sid) {
      SetSsnFrame(v.streams, s.sid, s.ssn + 1, sid);
    }
    SkipKeepsTable(h, v, w, s);
    SkipKeepsLog(h, v, w, log, s);
    assert forall k | 0 <= k < |log| :: LoggedOk(h, w.streams, log[k]) by {
      assert forall k | 0 <= k < |log| :: LoggedOk(h, v.streams, log[k]);
    }
    SkipPlaces(h, skippable, v, w, log, s);
    SkipPassed(h, skippable, v, w, log, s);
    SkipBounds(h, skippable, v, w, log, s);
    forall sid: nat | sid !in skippable ensures PrefixOk(h, w.streams, log, sid) {
      assert PrefixOk(h, v.streams, log, sid);
    }
  }

  lemma SkipBounds(h: History, skippable: set<nat>, v: Receiver, w: Receiver, log: seq<nat>, s: Stream)
    requires ReceiverOk(h, skippable, v, log) && SkipOk(h, skippable, v.cum, s)
    requires forall sid: nat :: SsnOf(w.streams, sid) == if sid == s.sid then s.ssn + 1 else SsnOf(v.streams, sid)
    ensures forall sid: nat :: BoundOk(h, w.streams, sid)
  {
    var n :| 0 <= n < |h.accepted| && OnStream(h, n, s.sid) && h.accepted[n].ssn == s.ssn && h.accepted[n].last <= v.cum;
    assert MessageOk(h, n);
    OrderedOnPosition(h.accepted, n);
    forall sid: nat ensures BoundOk(h, w.streams, sid) { assert BoundOk(h, v.streams, sid); }
  }

  lemma SkipKeepsTable(h: History, v: Receiver, w: Receiver, s: Stream)
    requires TableOk(h, v) && w.cum == v.cum && w.slots == MarkForwarded(v.slots, s.sid, s.ssn)
    ensures TableOk(h, w)
  {
    forall i | 0 <= i < |w.slots| && w.slots[i].Some?
      ensures v.slots[i].Some? && EntryOk(h, w.cum, w.slots[i].value)
      ensures w.slots[i].value.first == v.slots[i].value.first && w.slots[i].value.tsn == v.slots[i].value.tsn
    {
      assert EntryOk(h, v.cum, v.slots[i].value);
    }
    forall i, j | 0 <= i < j < |w.slots| && w.slots[i].Some? && w.slots[j].Some?
      ensures Apart(w.slots[i].value, w.slots[j].value)
    {
      assert Apart(v.slots[i].value, v.slots[j].value);
    }
  }

  lemma SkipKeepsLog(h: History, v: Receiver, w: Receiver, log: seq<nat>, s: Stream)
    requires LogOk(h, v, log) && w.cum == v.cum && w.slots == MarkForwarded(v.slots, s.sid, s.ssn)
    ensures LogOk(h, w, log)
  {
    forall t | Spent(v, t) ensures Spent(w, t) {
      if t > v.cum {
        var i :| 0 <= i < |v.slots| && v.slots[i].Some? && v.slots[i].value.delivered && v.slots[i].value.tsn == t;
        assert w.slots[i].Some?;
      }
    }
    forall i | 0 <= i < |w.slots| && Pending(w.slots, i)
      ensures 0 <= w.slots[i].value.tsn < |h.owner| && h.owner[w.slots[i].value.tsn] !in log
    {
      assert Pending(v.slots, i);
    }
  }

  lemma SkipPlaces(h: History, skippable: set<nat>, v: Receiver, w: Receiver, log: seq<nat>, s: Stream)
    requires ReceiverOk(h, skippable, v, log) && s.sid in skippable && SsnOf(v.streams, s.sid) <= s.ssn
    requires w.slots == MarkForwarded(v.slots, s.sid, s.ssn)
    requires forall sid: nat :: SsnOf(w.streams, sid) == if sid == s.sid then s.ssn + 1 else SsnOf(v.streams, sid)
    ensures forall i | 0 <= i < |w.slots| && Pending(w.slots, i) && !w.slots[i].value.unordered ::
              PlaceOk(h, skippable, w.streams, log, w.slots[i].value)
  {
    forall i | 0 <= i < |w.slots| && Pending(w.slots, i) && !w.slots[i].value.unordered
      ensures PlaceOk(h, skippable, w.streams, log, w.slots[i].value)
    {
      var e := v.slots[i].value;
      assert Pending(v.slots, i) && PlaceOk(h, skippable, v.streams, log, e);
      forall k | 0 <= k < |log| && OnStream(h, log[k], e.sid) ensures h.accepted[log[k]].ssn < SsnOf(v.streams, e.sid) {
        assert LoggedOk(h, v.streams, log[k]);
      }
    }
  }

  lemma SkipPassed(h: History, skippable: set<nat>, v: Receiver, w: Receiver, log: seq<nat>, s: Stream)
    requires ReceiverOk(h, skippable, v, log) && SkipOk(h, skippable, v.cum, s) && w.cum == v.cum
    requires forall sid: nat :: SsnOf(w.streams, sid) == if sid == s.sid then s.ssn + 1 else SsnOf(v.streams, sid)
    ensures forall m | 0 <= m < |h.accepted| :: PassedOk(h, w, log, m)
  {
    var n :| 0 <= n < |h.accepted| && OnStream(h, n, s.sid) && h.accepted[n].ssn == s.ssn && h.accepted[n].last <= v.cum;
    forall m | 0 <= m < |h.accepted| ensures PassedOk(h, w, log, m) {
      assert PassedOk(h, v, log, m);
      if OnStream(h, m, s.sid) { SsnOrder(h, m, n); }
    }
  }

  lemma {:induction false} ReleaseKeeps(h: History, skippable: set<nat>, v: Receiver, log: seq<nat>, skips: seq<Stream>)
    requires ReceiverOk(h, skippable, v, log)
    requires forall k | 0 <= k < |skips| :: SkipOk(h, skippable, v.cum, skips[k])
    ensures ReceiverOk(h, skippable, ReleaseStreams(v, skips).0, log) && ReleaseStreams(v, skips).0.cum == v.cum
    decreases |skips|
  {
    if skips != [] {
      var s := skips[0];
      var w := v.(streams := Register(v.streams, s.sid));
      RegisterKeeps(h, skippable, v, log, s.sid);
      if Known(w.streams, s.sid) {
        if s.ssn < SsnOf(w.streams, s.sid) {
          ReleaseKeeps(h, skippable, w, log, skips[1..]);
        } else {
          SkipKeeps(h, skippable, w, log, s);
          ReleaseKeeps(h, skippable,
            w.(slots := MarkForwarded(w.slots, s.sid, s.ssn), streams := SetSsn(w.streams, s.sid, s.ssn + 1)), log, skips[1..]);
        }
      }
    }
  }

  lemma HandleForwardKeeps(h: History, skippable: set<nat>, v: Receiver, log: seq<nat>, newTsn: int, skips: seq<Stream>)
    requires ReceiverOk(h, skippable, v, log) && newTsn < |h.chunks|
    requires forall k | 0 <= k < |skips| :: SkipOk(h, skippable, newTsn, skips[k])
    ensures ReceiverOk(h, skippable, HandleForward(v, newTsn, skips).0, log)
  {
    var v1 := v.(sackNeeded := true);
    SameSsnKeeps(h, skippable, v, v1, log);
    if newTsn > v1.cum {
      RaiseCumKeeps(h, skippable, v1, log, newTsn);
      MergeKeeps(h, skippable, v1.(cum := newTsn), log);
      var (v2, status) := Merge(v1.(cum := newTsn));
      if status == Ok {
        DiscardKeeps(h, skippable, v2, log, newTsn);
        var v3 := v2.(slots := DiscardStranded(v2.slots, newTsn));
        ReleaseKeeps(h, skippable, v3, log, skips);
        DrainKeeps(h, skippable, ReleaseStreams(v3, skips).0, log);
      }
    }
  }
}
