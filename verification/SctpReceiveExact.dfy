/** What arrives and what it does, on descriptors alone: which DATA chunks are stored, how far the
    cumulative TSN goes, and what a FORWARD TSN leaves of the table and the streams. */
module SctpReceiveExact {
  import opened SctpTypes
  import opened SctpReceiver
  import opened SctpAcks
  import SctpAccept
  import SctpForward

  // ----- which chunks are stored -----

  /** The descriptor still counts: it is not delivered, or past the cumulative TSN. */
  predicate Live(slot: Option<Entry>, cum: int) {
    slot.Some? && !(slot.value.delivered && slot.value.tsn <= cum)
  }

  /** Descriptors in use among the first `n`. */
  function LiveCount(slots: Slots, cum: int, n: nat): nat
    requires n <= |slots|
  {
    if n == 0 then 0 else LiveCount(slots, cum, n - 1) + if Live(slots[n - 1], cum) then 1 else 0
  }

  /** Bytes that wait for delivery in the first `n` descriptors. */
  function WaitingBytes(slots: Slots, n: nat): nat
    requires n <= |slots|
  {
    if n == 0 then 0
    else WaitingBytes(slots, n - 1) + if slots[n - 1].Some? && !slots[n - 1].value.delivered then |slots[n - 1].value.data| else 0
  }

  /** A place and the bytes are free; a chunk that is not the next one leaves a place and a whole packet. */
  predicate Room(v: Receiver, tsn: int, len: nat) {
    if tsn == v.cum + 1
    then LiveCount(v.slots, v.cum, |v.slots|) < |v.slots| && WaitingBytes(v.slots, |v.slots|) + len <= RECV_GAP_BUF_SIZE
    else LiveCount(v.slots, v.cum, |v.slots|) + 1 < |v.slots| && WaitingBytes(v.slots, |v.slots|) + len + (MTU - 28) <= RECV_GAP_BUF_SIZE
  }

  /** A waiting fragment `k` that is not a last one comes right before the chunk but belongs to another
      message, or makes this one too long. */
  predicate Contradicts(v: Receiver, c: Chunk, k: nat) {
    && !c.begin && k < |v.slots| && v.slots[k].Some?
    && var e := v.slots[k].value;
       && !e.delivered && !e.end && e.tsn + 1 == c.tsn
       && (e.sid != c.sid || e.ssn != c.ssn || e.ppid != c.ppid || e.unordered != c.unordered || |e.data| + |c.payload| > MAX_MESSAGE_SIZE)
  }

  predicate AnyContradicts(v: Receiver, c: Chunk) {
    exists k | 0 <= k < |v.slots| :: Contradicts(v, c, k)
  }

  /** The chunk is new, of a legal size and agrees with what is held. */
  predicate Sound(v: Receiver, c: Chunk) {
    |c.payload| <= MAX_MESSAGE_SIZE && !Acked(v, c.tsn) && !AnyContradicts(v, c)
  }

  lemma {:induction false} ReclaimedCounts(slots: Slots, cum: int, n: nat, r: Slots)
    requires n <= |slots| && r == ReclaimedUpTo(slots, cum, |slots|)
    ensures CountHeld(r[..n]) == LiveCount(slots, cum, n) && TotalBytes(r[..n]) == WaitingBytes(slots, n)
  {
    if n > 0 {
      ReclaimedCounts(slots, cum, n - 1, r);
      assert r[..n][..n - 1] == r[..n - 1] && r[..n][n - 1] == Reclaimed(slots[n - 1], cum);
    }
  }

  lemma RoomIff(v: Receiver, tsn: int, len: nat)
    ensures Admits(Reclaim(v), tsn, len) <==> Room(v, tsn, len)
  {
    var r := Reclaim(v).slots;
    ReclaimedCounts(v.slots, v.cum, |v.slots|, r);
    assert r[..|v.slots|] == r;
  }

  lemma ContradictsIff(v: Receiver, c: Chunk)
    ensures (c.begin || FragmentError(Reclaim(v).slots, Incoming(c), 0) == Ok) <==> !AnyContradicts(v, c)
  {
    var r, e := Reclaim(v).slots, Incoming(c);
    forall k | 0 <= k < |v.slots|
      ensures !c.begin ==> (Contradicts(v, c, k) <==>
                Precedes(r, k, e) && !(Follows(r[k].value, e) && |r[k].value.data| + |e.data| <= MAX_MESSAGE_SIZE))
    {
      assert r[k] == Reclaimed(v.slots[k], v.cum);
    }
  }

  lemma HeldIff(v: Receiver, t: int)
    requires v.cum < t
    ensures Holds(Reclaim(v).slots, t) <==> Acked(v, t)
  {
    ReclaimAcked(v);
    assert Acked(Reclaim(v), t) <==> Acked(v, t);
  }

  lemma AcceptsIff(v: Receiver, c: Chunk)
    ensures Accepts(v, c) <==> Sound(v, c) && Room(v, c.tsn, |c.payload|) && SctpAccept.StreamFits(v.streams, c.sid)
  {
    var v1 := v.(sackNeeded := true);
    if v.cum < c.tsn { HeldIff(v1, c.tsn); }
    RoomIff(v1, c.tsn, |c.payload|);
    assert Room(v1, c.tsn, |c.payload|) <==> Room(v, c.tsn, |c.payload|);
    ContradictsIff(v1, c);
    assert forall k | 0 <= k < |v.slots| :: Contradicts(v1, c, k) <==> Contradicts(v, c, k);
    SctpAccept.RegisteredIff(v.streams, c.sid);
  }

  /** A DATA chunk becomes acknowledged exactly when it agrees with what is held and there is room for it
      and for its stream. */
  lemma StoredIff(v: Receiver, c: Chunk)
    ensures (!Acked(v, c.tsn) && Acked(HandleData(v, c).0, c.tsn)) <==>
              Sound(v, c) && Room(v, c.tsn, |c.payload|) && SctpAccept.StreamFits(v.streams, c.sid)
  {
    AcceptsIff(v, c);
    DataAcked(v, c);
    var v1 := v.(sackNeeded := true);
    ReclaimAcked(v1);
    if Accepts(v, c) { assert !Holds(Reclaim(v1).slots, c.tsn); HeldIff(v1, c.tsn); }
  }

  lemma {:induction false} MergeStatus(v: Receiver)
    ensures Merge(v).1 == Ok || Merge(v).1 == BufferTooSmall
    decreases CountHeld(v.slots)
  {
    match FirstPair(v, 0, 0)
    case None =>
    case Some((i, j)) =>
      if |v.slots[i].value.data| + |v.slots[j].value.data| <= MAX_MESSAGE_SIZE {
        CountHeldMergeAt(v.slots, i, j);
        MergeStatus(v.(slots := MergeAt(v.slots, i, j)));
      }
  }

  /** "Would block" means that nothing but room is missing. */
  lemma BlockedIff(v: Receiver, c: Chunk)
    ensures HandleData(v, c).1 == WouldBlock <==> Sound(v, c) && !Room(v, c.tsn, |c.payload|)
  {
    var v1 := v.(sackNeeded := true);
    if v.cum < c.tsn { HeldIff(v1, c.tsn); }
    RoomIff(v1, c.tsn, |c.payload|);
    assert Room(v1, c.tsn, |c.payload|) <==> Room(v, c.tsn, |c.payload|);
    ContradictsIff(v1, c);
    assert forall k | 0 <= k < |v.slots| :: Contradicts(v1, c, k) <==> Contradicts(v, c, k);
    ErrorStatus(Reclaim(v1).slots, Incoming(c), 0);
    if Accepts(v, c) {
      AcceptsFree(v, c);
      MergeStatus(Drain(Admit(Reclaim(v1), Incoming(c))));
    }
  }

  lemma {:induction false} ErrorStatus(slots: Slots, e: Entry, i: nat)
    requires i <= |slots|
    ensures FragmentError(slots, e, i) != WouldBlock
    decreases |slots| - i
  {
    if i < |slots| { ErrorStatus(slots, e, i + 1); }
  }

  // ----- how far the cumulative TSN goes -----

  /** `r` is the last TSN of the acknowledged ones that follow `cum` without a gap. */
  ghost predicate Reaches(v: Receiver, cum: int, extra: int, r: int) {
    && cum <= r && (forall t | cum < t <= r :: t == extra || Acked(v, t))
    && r + 1 != extra && !Acked(v, r + 1)
  }

  /** A stored chunk moves the cumulative TSN over everything that then follows it without a gap, any other
      chunk leaves it where it is. */
  lemma DataFront(v: Receiver, c: Chunk)
    ensures if Accepts(v, c) then Reaches(v, v.cum, c.tsn, HandleData(v, c).0.cum) else HandleData(v, c).0.cum == v.cum
  {
    var v1 := v.(sackNeeded := true);
    var v2 := Reclaim(v1);
    if Accepts(v, c) {
      AcceptsFree(v, c);
      var u := Admit(v2, Incoming(c));
      MergeAcked(Drain(u));
      ReclaimAcked(v1);
      AdmitAcked(v2, c);
      assert Acked(v1, c.tsn) <==> Acked(v, c.tsn);
      FrontOf(v, u, c.tsn);
    } else {
      FreeSlotIffCount(v2.slots, |v2.slots|);
      assert v2.slots[..|v2.slots|] == v2.slots;
    }
  }

  lemma FrontOf(v: Receiver, u: Receiver, extra: int)
    requires u.cum == v.cum && forall t :: Acked(u, t) <==> Acked(v, t) || t == extra
    ensures Reaches(v, v.cum, extra, Drain(u).cum)
  {
    var r := DrainCum(u.slots, u.cum);
    assert Drain(u).cum == r;
    forall t | v.cum < t <= r ensures t == extra || Acked(v, t) { assert Acked(u, t); }
    assert !Acked(u, r + 1);
  }

  // ----- a FORWARD TSN -----

  /** A skip covers the ordered entry of its stream, and its number is not behind the stream's next one. */
  predicate Covers(streams: seq<Stream>, s: Stream, e: Entry) {
    e.sid == s.sid && !e.unordered && e.ssn <= s.ssn && SsnOf(streams, s.sid) <= s.ssn
  }

  predicate Skipped(streams: seq<Stream>, skips: seq<Stream>, e: Entry) {
    exists k | 0 <= k < |skips| :: Covers(streams, skips[k], e)
  }

  /** The stream's next number is behind its skip, if it has one. */
  predicate MovedPast(streams: seq<Stream>, skips: seq<Stream>, sid: nat, ssn: nat) {
    && ssn >= SsnOf(streams, sid)
    && (forall k | 0 <= k < |skips| && skips[k].sid == sid :: ssn > skips[k].ssn)
    && (ssn == SsnOf(streams, sid) || exists k | 0 <= k < |skips| :: skips[k].sid == sid && ssn == skips[k].ssn + 1)
  }

  /** Each descriptor is flagged when it is skipped, and otherwise kept. */
  predicate Flagged(streams: seq<Stream>, skips: seq<Stream>, a: Slots, b: Slots) {
    && |a| == |b|
    && forall i | 0 <= i < |a| ::
         b[i] == if a[i].Some? then Some(a[i].value.(forwarded := a[i].value.forwarded || Skipped(streams, skips, a[i].value))) else None
  }

  lemma FirstSkip(streams: seq<Stream>, skips: seq<Stream>, e: Entry)
    requires skips != []
    ensures Skipped(streams, skips, e) <==> Covers(streams, skips[0], e) || Skipped(streams, skips[1..], e)
  {
    assert forall k | 1 <= k < |skips| :: skips[k] == skips[1..][k - 1];
  }

  /** Moving one stream does not change what the skips of the others cover. */
  lemma OtherSkips(a: seq<Stream>, b: seq<Stream>, skips: seq<Stream>, e: Entry)
    requires forall k | 0 <= k < |skips| :: SsnOf(a, skips[k].sid) == SsnOf(b, skips[k].sid)
    ensures Skipped(a, skips, e) <==> Skipped(b, skips, e)
  {
    assert forall k | 0 <= k < |skips| :: Covers(a, skips[k], e) <==> Covers(b, skips[k], e);
  }

  /** The turn of one skip. */
  ghost predicate SkipTurn(v: Receiver, s: Stream, w: Receiver) {
    && w.cum == v.cum && Flagged(v.streams, [s], v.slots, w.slots)
    && forall sid: nat :: SsnOf(w.streams, sid) == if sid == s.sid && SsnOf(v.streams, sid) <= s.ssn then s.ssn + 1 else SsnOf(v.streams, sid)
  }

  function AfterSkip(v: Receiver, s: Stream): Receiver {
    var w := v.(streams := Register(v.streams, s.sid));
    if !Known(w.streams, s.sid) || s.ssn < SsnOf(w.streams, s.sid) then w
    else w.(slots := MarkForwarded(w.slots, s.sid, s.ssn), streams := SetSsn(w.streams, s.sid, s.ssn + 1))
  }

  lemma SkipStreams(v: Receiver, s: Stream, after: seq<Stream>, sid: nat)
    requires Known(Register(v.streams, s.sid), s.sid) && after == AfterSkip(v, s).streams
    ensures SsnOf(after, sid) == if sid == s.sid && SsnOf(v.streams, sid) <= s.ssn then s.ssn + 1 else SsnOf(v.streams, sid)
  {
    RegisterKeepsSsn(v.streams, s.sid, sid);
    RegisterKeepsSsn(v.streams, s.sid, s.sid);
    SetSsnFrame(Register(v.streams, s.sid), s.sid, s.ssn + 1, sid);
  }

  lemma OneSkip(streams: seq<Stream>, s: Stream, e: Entry)
    ensures Skipped(streams, [s], e) <==> Covers(streams, s, e)
  {
    assert [s][0] == s;
  }

  lemma SkipTurns(v: Receiver, s: Stream)
    requires Known(Register(v.streams, s.sid), s.sid)
    ensures SkipTurn(v, s, AfterSkip(v, s))
  {
    var w := AfterSkip(v, s);
    forall sid: nat ensures SsnOf(w.streams, sid) == if sid == s.sid && SsnOf(v.streams, sid) <= s.ssn then s.ssn + 1 else SsnOf(v.streams, sid) {
      SkipStreams(v, s, w.streams, sid);
    }
    RegisterKeepsSsn(v.streams, s.sid, s.sid);
    forall i | 0 <= i < |v.slots| && v.slots[i].Some?
      ensures w.slots[i] == Some(v.slots[i].value.(forwarded := v.slots[i].value.forwarded || Skipped(v.streams, [s], v.slots[i].value)))
    {
      OneSkip(v.streams, s, v.slots[i].value);
    }
  }

  ghost predicate AllMoved(streams: seq<Stream>, skips: seq<Stream>, after: seq<Stream>) {
    forall sid: nat :: MovedPast(streams, skips, sid, SsnOf(after, sid))
  }

  lemma FlagTwice(streams: seq<Stream>, middle: seq<Stream>, skips: seq<Stream>, a: Slots, b: Slots, c: Slots)
    requires skips != [] && Flagged(streams, [skips[0]], a, b) && Flagged(middle, skips[1..], b, c)
    requires forall k | 1 <= k < |skips| :: SsnOf(streams, skips[k].sid) == SsnOf(middle, skips[k].sid)
    ensures Flagged(streams, skips, a, c)
  {
    forall i | 0 <= i < |a| && a[i].Some?
      ensures c[i] == Some(a[i].value.(forwarded := a[i].value.forwarded || Skipped(streams, skips, a[i].value)))
    {
      FirstSkip(streams, skips, a[i].value);
      OtherSkips(streams, middle, skips[1..], a[i].value);
      assert Skipped(middle, skips[1..], b[i].value) <==> Skipped(middle, skips[1..], a[i].value) by {
        assert forall k | 0 <= k < |skips| - 1 :: Covers(middle, skips[1..][k], b[i].value) <==> Covers(middle, skips[1..][k], a[i].value);
      }
      assert Skipped(streams, [skips[0]], a[i].value) <==> Covers(streams, [skips[0]][0], a[i].value);
    }
  }

  lemma MoveTwice(streams: seq<Stream>, middle: seq<Stream>, skips: seq<Stream>, after: seq<Stream>, sid: nat)
    requires skips != [] && SctpForward.OneRowEach(skips) && MovedPast(middle, skips[1..], sid, SsnOf(after, sid))
    requires SsnOf(middle, sid) == if sid == skips[0].sid && SsnOf(streams, sid) <= skips[0].ssn then skips[0].ssn + 1 else SsnOf(streams, sid)
    ensures MovedPast(streams, skips, sid, SsnOf(after, sid))
  {
    assert forall k | 1 <= k < |skips| :: skips[k] == skips[1..][k - 1];
  }

  lemma {:induction false} ReleaseExact(v: Receiver, skips: seq<Stream>, w: Receiver)
    requires SctpForward.OneRowEach(skips) && ReleaseStreams(v, skips) == (w, Ok)
    ensures w.cum == v.cum && Flagged(v.streams, skips, v.slots, w.slots) && AllMoved(v.streams, skips, w.streams)
    decreases |skips|
  {
    if skips != [] {
      var u := AfterSkip(v, skips[0]);
      SkipTurns(v, skips[0]);
      assert forall k | 1 <= k < |skips| :: skips[1..][k - 1] == skips[k];
      ReleaseExact(u, skips[1..], w);
      FlagTwice(v.streams, u.streams, skips, v.slots, u.slots, w.slots);
      forall sid: nat ensures MovedPast(v.streams, skips, sid, SsnOf(w.streams, sid)) {
        MoveTwice(v.streams, u.streams, skips, w.streams, sid);
      }
    }
  }

  /** What a FORWARD TSN makes of a merged descriptor: at or below the new TSN all that is not a complete
      message is discarded, and what the skips cover is flagged. */
  function Forwarded(streams: seq<Stream>, newTsn: int, skips: seq<Stream>, e: Entry): Entry {
    e.(delivered := e.delivered || (e.tsn <= newTsn && !(e.begin && e.end)),
       forwarded := e.forwarded || Skipped(streams, skips, e))
  }

  /** The descriptor is freed, or only its bytes are, or it stays. */
  predicate LeftOver(e: Entry, cum: int, slot: Option<Entry>) {
    slot == if !e.delivered then Some(e) else if e.tsn <= cum then None else Some(e.(data := []))
  }

  /** A FORWARD TSN behind which merging succeeds: `m` is the table after merging. */
  predicate Handled(v: Receiver, newTsn: int, skips: seq<Stream>, m: Receiver, w: Receiver) {
    newTsn > v.cum && Merge(v.(sackNeeded := true, cum := newTsn)) == (m, Ok) && HandleForward(v, newTsn, skips) == (w, Ok)
  }

  lemma SkippedSame(streams: seq<Stream>, skips: seq<Stream>, e: Entry, f: Entry)
    requires f.sid == e.sid && f.unordered == e.unordered && f.ssn == e.ssn
    ensures Skipped(streams, skips, e) <==> Skipped(streams, skips, f)
  {
    assert forall k | 0 <= k < |skips| :: Covers(streams, skips[k], e) <==> Covers(streams, skips[k], f);
  }

  /** A FORWARD TSN that is accepted moves the cumulative TSN to its own and over everything held behind it,
      moves every stream it names past the skipped numbers, and leaves of each descriptor what Forwarded says. */
  lemma ForwardExact(v: Receiver, newTsn: int, skips: seq<Stream>, m: Receiver, w: Receiver)
    requires Handled(v, newTsn, skips, m, w) && SctpForward.OneRowEach(skips)
    ensures |w.slots| == |m.slots|
    ensures forall i | 0 <= i < |m.slots| ::
              if m.slots[i].None? then w.slots[i].None?
              else LeftOver(Forwarded(v.streams, newTsn, skips, m.slots[i].value), w.cum, w.slots[i])
    ensures Reaches(m, newTsn, newTsn, w.cum) && AllMoved(v.streams, skips, w.streams)
  {
    MergeAcked(v.(sackNeeded := true, cum := newTsn));
    var d := m.(slots := DiscardStranded(m.slots, newTsn));
    var r := ReleaseStreams(d, skips).0;
    ReleaseExact(d, skips, r);
    assert w == Drain(r);
    forall i | 0 <= i < |m.slots|
      ensures if m.slots[i].None? then w.slots[i].None?
              else LeftOver(Forwarded(v.streams, newTsn, skips, m.slots[i].value), w.cum, w.slots[i])
    {
      ForwardedSlot(v, newTsn, skips, m, d, r, w, i);
    }
    ForwardFront(m, d, r, newTsn);
  }

  lemma ForwardedSlot(v: Receiver, newTsn: int, skips: seq<Stream>, m: Receiver, d: Receiver, r: Receiver, w: Receiver, i: nat)
    requires i < |m.slots| && d == m.(slots := DiscardStranded(m.slots, newTsn)) && m.streams == v.streams
    requires Flagged(v.streams, skips, d.slots, r.slots) && w == Drain(r)
    ensures if m.slots[i].None? then w.slots[i].None?
            else LeftOver(Forwarded(v.streams, newTsn, skips, m.slots[i].value), w.cum, w.slots[i])
  {
    assert w.slots[i] == Reclaimed(r.slots[i], w.cum);
    if m.slots[i].Some? { SkippedSame(v.streams, skips, m.slots[i].value, d.slots[i].value); }
  }

  lemma SameTsns(a: Slots, b: Slots, t: int)
    requires |a| == |b| && forall i | 0 <= i < |a| :: a[i].Some? == b[i].Some? && (a[i].Some? ==> a[i].value.tsn == b[i].value.tsn)
    ensures Holds(a, t) <==> Holds(b, t)
  {
    if Holds(a, t) {
      var i :| 0 <= i < |a| && a[i].Some? && a[i].value.tsn == t;
      assert b[i].Some?;
    }
    if Holds(b, t) {
      var i :| 0 <= i < |b| && b[i].Some? && b[i].value.tsn == t;
      assert a[i].Some?;
    }
  }

  lemma ForwardFront(m: Receiver, d: Receiver, r: Receiver, newTsn: int)
    requires d == m.(slots := DiscardStranded(m.slots, newTsn)) && m.cum == newTsn == r.cum && |r.slots| == |d.slots|
    requires forall i | 0 <= i < |d.slots| :: d.slots[i].Some? == r.slots[i].Some? && (d.slots[i].Some? ==> d.slots[i].value.tsn == r.slots[i].value.tsn)
    ensures Reaches(m, newTsn, newTsn, Drain(r).cum)
  {
    forall t ensures Acked(r, t) <==> Acked(m, t) || t == newTsn {
      SameTsns(m.slots, d.slots, t);
      SameTsns(d.slots, r.slots, t);
    }
    FrontOf(m, r, newTsn);
  }
}
