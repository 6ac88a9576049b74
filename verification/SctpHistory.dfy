/** What an association has accepted for sending so far: the messages, the DATA
    chunk that each TSN stands for, and the message that owns it. TSNs count
    from 0, the association's initial TSN. History only ever grows. */
module SctpHistory {
  import opened SctpTypes

  datatype Accepted = Accepted(
    sid: nat, ppid: nat, unordered: bool, reliable: bool, ssn: nat,
    first: int, last: int, data: seq<Byte>)

  datatype History = History(accepted: seq<Accepted>, chunks: seq<Chunk>, owner: seq<nat>)

  /** Payloads of the TSNs from `lo` up to but not including `hi`. */
  function Payloads(chunks: seq<Chunk>, lo: int, hi: int): seq<Byte>
    requires 0 <= lo <= hi <= |chunks|
    decreases hi - lo
  {
    if lo == hi then [] else Payloads(chunks, lo, hi - 1) + chunks[hi - 1].payload
  }

  /** Indices of the ordered messages accepted on `sid`, in order of acceptance. */
  function OrderedOn(accepted: seq<Accepted>, sid: nat): seq<nat> {
    if accepted == [] then []
    else
      var n := |accepted| - 1;
      OrderedOn(accepted[..n], sid) +
      if accepted[n].sid == sid && !accepted[n].unordered then [n] else []
  }

  predicate ChunkOk(a: Accepted, c: Chunk, t: int) {
    && a.first <= t <= a.last
    && c.tsn == t && c.sid == a.sid && c.ssn == a.ssn && c.ppid == a.ppid && c.unordered == a.unordered
    && c.begin == (t == a.first) && c.end == (t == a.last)
    && (c.payload == [] ==> c.end)
  }

  predicate MessageOk(h: History, m: nat)
    requires m < |h.accepted|
  {
    var a := h.accepted[m];
    && 0 <= a.first <= a.last < |h.chunks|
    && |a.data| <= MAX_MESSAGE_SIZE
    && a.data == Payloads(h.chunks, a.first, a.last + 1)
    && (!a.unordered ==> a.ssn == |OrderedOn(h.accepted[..m], a.sid)|)
  }

  ghost predicate HistoryOk(h: History) {
    && |h.owner| == |h.chunks|
    && (forall t | 0 <= t < |h.chunks| :: h.owner[t] < |h.accepted| && ChunkOk(h.accepted[h.owner[t]], h.chunks[t], t))
    && (forall m | 0 <= m < |h.accepted| :: MessageOk(h, m))
    && (forall t, u | 0 <= t <= u < |h.chunks| :: h.owner[t] <= h.owner[u])
    && (forall m, t | 0 <= m < |h.accepted| && h.accepted[m].first <= t <= h.accepted[m].last :: 0 <= t < |h.chunks| && h.owner[t] == m)
  }

  /** `after` extends `before`. */
  predicate Extends(before: History, after: History) {
    && |before.accepted| <= |after.accepted| && after.accepted[..|before.accepted|] == before.accepted
    && |before.chunks| <= |after.chunks| && after.chunks[..|before.chunks|] == before.chunks
    && |before.owner| <= |after.owner| && after.owner[..|before.owner|] == before.owner
  }

  lemma {:induction false} PayloadsSplit(chunks: seq<Chunk>, lo: int, mid: int, hi: int)
    requires 0 <= lo <= mid <= hi <= |chunks|
    ensures Payloads(chunks, lo, hi) == Payloads(chunks, lo, mid) + Payloads(chunks, mid, hi)
    decreases hi
  {
    if mid < hi {
      PayloadsSplit(chunks, lo, mid, hi - 1);
    }
  }

  lemma {:induction false} PayloadsPrefix(a: seq<Chunk>, b: seq<Chunk>, lo: int, hi: int)
    requires 0 <= lo <= hi <= |a| <= |b|
    requires b[..|a|] == a
    ensures Payloads(a, lo, hi) == Payloads(b, lo, hi)
    decreases hi
  {
    if lo < hi {
      PayloadsPrefix(a, b, lo, hi - 1);
      assert a[hi - 1] == b[..|a|][hi - 1];
    }
  }

  /** The k-th ordered message of a stream is the one with SSN k. */
  lemma {:induction false} OrderedOnAt(accepted: seq<Accepted>, sid: nat, k: nat)
    requires k < |OrderedOn(accepted, sid)|
    ensures var m := OrderedOn(accepted, sid)[k];
            && m < |accepted| && accepted[m].sid == sid && !accepted[m].unordered
            && |OrderedOn(accepted[..m], sid)| == k
  {
    var n := |accepted| - 1;
    if k < |OrderedOn(accepted[..n], sid)| {
      OrderedOnAt(accepted[..n], sid, k);
      var m := OrderedOn(accepted[..n], sid)[k];
      assert accepted[..n][..m] == accepted[..m];
    }
  }

  /** An ordered message sits in its stream's list at the position its SSN gives. */
  lemma {:induction false} OrderedOnPosition(accepted: seq<Accepted>, m: nat)
    requires m < |accepted| && !accepted[m].unordered
    ensures var k := |OrderedOn(accepted[..m], accepted[m].sid)|;
            k < |OrderedOn(accepted, accepted[m].sid)| && OrderedOn(accepted, accepted[m].sid)[k] == m
  {
    var n := |accepted| - 1;
    if m < n {
      OrderedOnPosition(accepted[..n], m);
      assert accepted[..n][..m] == accepted[..m];
    }
  }

  /** A longer history keeps the stream lists of a shorter one as prefixes. */
  lemma {:induction false} OrderedOnPrefix(accepted: seq<Accepted>, m: nat, sid: nat)
    requires m <= |accepted|
    ensures OrderedOn(accepted[..m], sid) <= OrderedOn(accepted, sid)
  {
    if m == |accepted| {
      assert accepted[..m] == accepted;
    } else {
      var n := |accepted| - 1;
      OrderedOnPrefix(accepted[..n], m, sid);
      assert accepted[..n][..m] == accepted[..m];
    }
  }

  /** On one stream, earlier ordered messages have smaller SSNs and TSNs. */
  lemma SsnOrder(h: History, m: nat, n: nat)
    requires HistoryOk(h)
    requires m < |h.accepted| && n < |h.accepted|
    requires h.accepted[m].sid == h.accepted[n].sid && !h.accepted[m].unordered && !h.accepted[n].unordered
    ensures m < n <==> h.accepted[m].ssn < h.accepted[n].ssn
    ensures m == n <==> h.accepted[m].ssn == h.accepted[n].ssn
    ensures m <= n ==> h.accepted[m].last <= h.accepted[n].last
  {
    assert MessageOk(h, m) && MessageOk(h, n);
    if m < n { SsnOrderStrict(h, m, n); }
    if n < m { SsnOrderStrict(h, n, m); }
    assert h.owner[h.accepted[m].last] == m && h.owner[h.accepted[n].last] == n;
  }

  lemma SsnOrderStrict(h: History, m: nat, n: nat)
    requires HistoryOk(h) && m < n < |h.accepted|
    requires h.accepted[m].sid == h.accepted[n].sid && !h.accepted[m].unordered && !h.accepted[n].unordered
    ensures h.accepted[m].ssn < h.accepted[n].ssn
  {
    assert MessageOk(h, m) && MessageOk(h, n);
    var before := h.accepted[..n];
    OrderedOnPosition(before, m);
    assert before[..m] == h.accepted[..m];
  }

  /** A TSN that is not the last of its message is followed by the same message. */
  lemma NextOwner(h: History, t: int)
    requires HistoryOk(h) && 0 <= t < |h.chunks| && !h.chunks[t].end
    ensures t + 1 < |h.chunks| && h.owner[t + 1] == h.owner[t]
    ensures !h.chunks[t + 1].begin
  {
    var a := h.accepted[h.owner[t]];
    assert ChunkOk(a, h.chunks[t], t);
    assert MessageOk(h, h.owner[t]);
    assert a.first <= t + 1 <= a.last;
    assert ChunkOk(a, h.chunks[t + 1], t + 1);
  }

  lemma MessageKept(before: History, after: History, m: nat)
    requires Extends(before, after) && HistoryOk(before) && m < |before.accepted|
    ensures after.accepted[m] == before.accepted[m]
    ensures MessageOk(after, m)
  {
    assert after.accepted[m] == after.accepted[..|before.accepted|][m];
    assert after.accepted[..m] == before.accepted[..m];
    var a := before.accepted[m];
    assert MessageOk(before, m);
    PayloadsPrefix(before.chunks, after.chunks, a.first, a.last + 1);
  }

  function Appended(h: History, a: Accepted, chunks: seq<Chunk>): History {
    History(h.accepted + [a], h.chunks + chunks, h.owner + seq(|chunks|, k => |h.accepted|))
  }

  /** `a`, with the given chunks, can be accepted next. */
  ghost predicate Acceptable(h: History, a: Accepted, chunks: seq<Chunk>) {
    && chunks != [] && a.first == |h.chunks| && a.last == |h.chunks| + |chunks| - 1
    && (forall k | 0 <= k < |chunks| :: ChunkOk(a, chunks[k], |h.chunks| + k))
    && |a.data| <= MAX_MESSAGE_SIZE && a.data == Payloads(chunks, 0, |chunks|)
    && (!a.unordered ==> a.ssn == |OrderedOn(h.accepted, a.sid)|)
  }

  lemma AppendedMessages(h: History, a: Accepted, chunks: seq<Chunk>, m: nat)
    requires HistoryOk(h) && Acceptable(h, a, chunks) && m < |h.accepted| + 1
    ensures MessageOk(Appended(h, a, chunks), m)
  {
    var after := Appended(h, a, chunks);
    if m < |h.accepted| {
      MessageKept(h, after, m);
    } else {
      assert after.accepted[..m] == h.accepted;
      PayloadsShift(h.chunks, chunks, |chunks|);
    }
  }

  lemma AppendedChunks(h: History, a: Accepted, chunks: seq<Chunk>, t: nat)
    requires HistoryOk(h) && Acceptable(h, a, chunks) && t < |h.chunks| + |chunks|
    ensures var after := Appended(h, a, chunks);
            after.owner[t] < |after.accepted| && ChunkOk(after.accepted[after.owner[t]], after.chunks[t], t)
  {
    if t >= |h.chunks| { assert ChunkOk(a, chunks[t - |h.chunks|], t); }
  }

  lemma AppendedOwner(h: History, a: Accepted, chunks: seq<Chunk>, m: nat, t: int)
    requires HistoryOk(h) && Acceptable(h, a, chunks) && m < |h.accepted| + 1
    requires (h.accepted + [a])[m].first <= t <= (h.accepted + [a])[m].last
    ensures 0 <= t < |h.chunks| + |chunks| && Appended(h, a, chunks).owner[t] == m
  {
    if m < |h.accepted| {
      assert MessageOk(h, m);
      assert h.owner[t] == m;
    }
  }

  lemma AppendedOrder(h: History, a: Accepted, chunks: seq<Chunk>, t: nat, u: nat)
    requires HistoryOk(h) && Acceptable(h, a, chunks) && t <= u < |h.chunks| + |chunks|
    ensures Appended(h, a, chunks).owner[t] <= Appended(h, a, chunks).owner[u]
  {
    if t < |h.chunks| { assert h.owner[t] < |h.accepted|; }
  }

  lemma AppendedExtends(h: History, a: Accepted, chunks: seq<Chunk>)
    ensures Extends(h, Appended(h, a, chunks))
  {
  }

  /** Accepting one more message, whose chunks take the next TSNs, keeps the history consistent. */
  lemma AppendMessage(h: History, a: Accepted, chunks: seq<Chunk>, after: History)
    requires HistoryOk(h) && Acceptable(h, a, chunks) && after == Appended(h, a, chunks) && |h.owner| == |h.chunks|
    ensures HistoryOk(after)
  {
    assert |after.owner| == |after.chunks| == |h.chunks| + |chunks|;
    forall m | 0 <= m < |after.accepted| ensures MessageOk(after, m) {
      AppendedMessages(h, a, chunks, m);
    }
    forall t | 0 <= t < |after.chunks|
      ensures after.owner[t] < |after.accepted| && ChunkOk(after.accepted[after.owner[t]], after.chunks[t], t)
    {
      AppendedChunks(h, a, chunks, t);
    }
    forall t, u | 0 <= t <= u < |after.chunks| ensures after.owner[t] <= after.owner[u] {
      AppendedOrder(h, a, chunks, t, u);
    }
    forall m | 0 <= m < |after.accepted| ensures 0 <= after.accepted[m].first && after.accepted[m].last < |after.chunks| {
      assert MessageOk(after, m);
    }
    forall m, t | 0 <= m < |after.accepted| && after.accepted[m].first <= t <= after.accepted[m].last
      ensures 0 <= t < |after.chunks| && after.owner[t] == m
    {
      AppendedOwner(h, a, chunks, m, t);
    }
  }

  lemma {:induction false} PayloadsShift(front: seq<Chunk>, back: seq<Chunk>, n: nat)
    requires n <= |back|
    ensures Payloads(front + back, |front|, |front| + n) == Payloads(back, 0, n)
  {
    if n > 0 {
      PayloadsShift(front, back, n - 1);
      assert (front + back)[|front| + n - 1] == back[n - 1];
    }
  }
}
