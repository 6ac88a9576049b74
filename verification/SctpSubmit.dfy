/** Accepting a message: its fragments carry exactly its bytes, on the next TSNs. */
module SctpSubmit {
  import opened SctpTypes
  import opened SctpHistory
  import opened SctpSender
  import opened SctpSending

  function ChunksOf(queue: Queue): (r: seq<Chunk>)
    ensures |r| == |queue|
  {
    seq(|queue|, k requires 0 <= k < |queue| => queue[k].chunk)
  }

  /** `n` fragments are what `len` remaining bytes need; only an empty message has an empty fragment. */
  predicate Fits(len: nat, n: nat) {
    (n == 1 && len <= MTU_PAYLOAD) || (n > 1 && (n - 1) * MTU_PAYLOAD < len <= n * MTU_PAYLOAD)
  }

  lemma CountFits(len: nat)
    ensures FragmentCount(len) >= 1 && Fits(len, FragmentCount(len))
  {
  }

  lemma FitsTail(len: nat, n: nat)
    requires Fits(len, n) && n > 1
    ensures len > MTU_PAYLOAD && Fits(len - MTU_PAYLOAD, n - 1)
  {
  }

  /** The first fragment and what is left to split. */
  lemma FragmentsUnfold(p: Plan, rest: seq<Byte>, i: nat, q: Queue) returns (n: nat, tail: Queue)
    requires i < p.count && Fits(|rest|, p.count - i) && q == Fragments(p, rest, i)
    ensures n <= |rest| && n <= MTU_PAYLOAD && q == [Fragment(p, i, rest[..n])] + tail && tail == Fragments(p, rest[n..], i + 1)
    ensures i + 1 < p.count ==> n > 0 && Fits(|rest| - n, p.count - i - 1)
    ensures i + 1 == p.count ==> n == |rest| && tail == []
  {
    n := if |rest| > MTU_PAYLOAD then MTU_PAYLOAD else |rest|;
    tail := Fragments(p, rest[n..], i + 1);
    if i + 1 < p.count { FitsTail(|rest|, p.count - i); }
  }

  lemma {:induction false} PayloadsCons(c: Chunk, rest: seq<Chunk>)
    ensures Payloads([c] + rest, 0, 1 + |rest|) == c.payload + Payloads(rest, 0, |rest|)
  {
    PayloadsSplit([c] + rest, 0, 1, 1 + |rest|);
    PayloadsShift([c], rest, |rest|);
    assert Payloads([c] + rest, 0, 1) == c.payload by { assert Payloads([c] + rest, 0, 0) == []; }
  }

  /** Every fragment carries the plan's fields, and bytes unless it is the last. */
  lemma {:induction false} FragmentFields(p: Plan, rest: seq<Byte>, i: nat, k: nat)
    requires i + k < p.count && Fits(|rest|, p.count - i)
    ensures var e := Fragments(p, rest, i)[k];
            e == Fragment(p, i + k, e.chunk.payload) && (e.chunk.payload == [] ==> i + k + 1 == p.count) &&
            |e.chunk.payload| <= MTU_PAYLOAD
    decreases k
  {
    var n, tail := FragmentsUnfold(p, rest, i, Fragments(p, rest, i));
    if k > 0 { FragmentFields(p, rest[n..], i + 1, k - 1); }
  }

  lemma ChunksCons(e: SendEntry, tail: Queue)
    ensures ChunksOf([e] + tail) == [e.chunk] + ChunksOf(tail)
  {
    var a, b := ChunksOf([e] + tail), [e.chunk] + ChunksOf(tail);
    forall k | 0 <= k < |a| ensures a[k] == b[k] { assert ([e] + tail)[k] == if k == 0 then e else tail[k - 1]; }
  }

  lemma QueueCons(e: SendEntry, tail: Queue)
    ensures Payloads(ChunksOf([e] + tail), 0, 1 + |tail|) == e.chunk.payload + Payloads(ChunksOf(tail), 0, |tail|)
  {
    ChunksCons(e, tail);
    PayloadsCons(e.chunk, ChunksOf(tail));
  }

  lemma Rejoined(rest: seq<Byte>, n: nat, a: seq<Byte>, b: seq<Byte>, joined: seq<Byte>)
    requires n <= |rest| && a == rest[..n] && b == rest[n..] && joined == a + b
    ensures joined == rest
  {
  }

  /** Splitting and rejoining gives the bytes back. */
  lemma {:induction false} FragmentsJoin(p: Plan, rest: seq<Byte>, i: nat, q: Queue)
    requires i < p.count && Fits(|rest|, p.count - i) && q == Fragments(p, rest, i)
    ensures |q| == p.count - i && Payloads(ChunksOf(q), 0, |q|) == rest
    decreases p.count - i
  {
    var n, tail := FragmentsUnfold(p, rest, i, q);
    var behind := Payloads(ChunksOf(tail), 0, |tail|);
    QueueCons(Fragment(p, i, rest[..n]), tail);
    if i + 1 < p.count {
      FragmentsJoin(p, rest[n..], i + 1, tail);
    } else {
      NothingLeft(tail, rest, n);
    }
    Rejoined(rest, n, rest[..n], behind, Payloads(ChunksOf(q), 0, |q|));
  }

  lemma NothingLeft(tail: Queue, rest: seq<Byte>, n: nat)
    requires tail == [] && n == |rest|
    ensures Payloads(ChunksOf(tail), 0, |tail|) == rest[n..]
  {
  }

  /** The history entry of a message accepted now. */
  function Record(v: Sender, r: Request): Accepted {
    Accepted(r.sid, r.ppid, r.unordered, r.maxRetransmits == -1, PlanFor(v, r).ssn,
             v.nextTsn, v.nextTsn + FragmentCount(|r.data|) - 1, r.data)
  }

  /** How the history grows with a submission. */
  function SubmitHistory(h: History, v: Sender, r: Request): History {
    if Send(v, r).1 != Ok then h
    else Appended(h, Record(v, r), ChunksOf(Fragments(PlanFor(v, r), r.data, 0)))
  }

  lemma RecordAcceptable(h: History, abandoned: set<nat>, v: Sender, r: Request)
    requires SenderOk(h, abandoned, v) && SendCheck(v, r.sid, |r.data|, r.maxRetransmits) == Ok
    ensures Acceptable(h, Record(v, r), ChunksOf(Fragments(PlanFor(v, r), r.data, 0)))
  {
    var a, p := Record(v, r), PlanFor(v, r);
    var q := Fragments(p, r.data, 0);
    CountFits(|r.data|);
    FragmentsJoin(p, r.data, 0, q);
    forall k | 0 <= k < |q| ensures ChunkOk(a, ChunksOf(q)[k], |h.chunks| + k) {
      FragmentFields(p, r.data, 0, k);
    }
  }

  lemma QueueExtended(h: History, abandoned: set<nat>, queue: Queue, a: Accepted, more: Queue)
    requires HistoryOk(h) && QueueOk(h, abandoned, queue) && AbandonedOk(h, abandoned) && Acceptable(h, a, ChunksOf(more))
    requires forall k | 0 <= k < |more| ::
               !more[k].acked && !more[k].abandoned && -1 <= more[k].maxRetransmits && (more[k].maxRetransmits == -1 <==> a.reliable)
    ensures QueueOk(Appended(h, a, ChunksOf(more)), abandoned, queue + more)
    ensures AbandonedOk(Appended(h, a, ChunksOf(more)), abandoned)
  {
    var g, q := Appended(h, a, ChunksOf(more)), queue + more;
    forall k | 0 <= k < |q| ensures QueuedOk(g, abandoned, q, k) {
      if k < |queue| { assert QueuedOk(h, abandoned, queue, k); }
    }
  }

  lemma OrderedMore(accepted: seq<Accepted>, a: Accepted, other: nat)
    ensures |OrderedOn(accepted + [a], other)| == |OrderedOn(accepted, other)| + if a.sid == other && !a.unordered then 1 else 0
  {
    assert (accepted + [a])[..|accepted|] == accepted;
  }

  /** The stream table after an accepted message. */
  lemma SentStreams(v: Sender, r: Request, w: Sender)
    requires Send(v, r) == (w, Ok)
    ensures var known := Register(v.streams, r.sid);
            Known(known, r.sid) && w.streams == if r.unordered then known else SetSsn(known, r.sid, SsnOf(v.streams, r.sid) + 1)
  {
  }

  lemma StreamsExtended(h: History, v: Sender, r: Request, a: Accepted, other: nat, w: Sender)
    requires SsnOf(v.streams, other) == |OrderedOn(h.accepted, other)|
    requires Send(v, r) == (w, Ok) && a.sid == r.sid && a.unordered == r.unordered
    ensures SsnOf(w.streams, other) == |OrderedOn(h.accepted + [a], other)|
  {
    SentStreams(v, r, w);
    RegisterKeepsSsn(v.streams, r.sid, other);
    SetSsnFrame(Register(v.streams, r.sid), r.sid, SsnOf(v.streams, r.sid) + 1, other);
    OrderedMore(h.accepted, a, other);
  }

  lemma MoreFragments(v: Sender, r: Request, a: Accepted, more: Queue, k: nat)
    requires SendCheck(v, r.sid, |r.data|, r.maxRetransmits) == Ok && a == Record(v, r)
    requires more == Fragments(PlanFor(v, r), r.data, 0) && k < |more|
    ensures !more[k].acked && !more[k].abandoned && -1 <= more[k].maxRetransmits && (more[k].maxRetransmits == -1 <==> a.reliable)
  {
    CountFits(|r.data|);
    FragmentFields(PlanFor(v, r), r.data, 0, k);
  }

  /** The sender after an accepted message, field by field. */
  lemma SentFields(v: Sender, r: Request, w: Sender)
    requires Send(v, r) == (w, Ok)
    ensures SendCheck(v, r.sid, |r.data|, r.maxRetransmits) == Ok
    ensures w.queue == v.queue + Fragments(PlanFor(v, r), r.data, 0) && w.nextTsn == v.nextTsn + FragmentCount(|r.data|)
    ensures |w.queue| <= MAX_SEND_QUEUE && |Fragments(PlanFor(v, r), r.data, 0)| == FragmentCount(|r.data|)
  {
  }

  /** An accepted message joins the queue and the history. */
  lemma AcceptKeeps(h: History, abandoned: set<nat>, v: Sender, r: Request, g: History, w: Sender)
    requires SenderOk(h, abandoned, v) && Send(v, r) == (w, Ok) && g == SubmitHistory(h, v, r)
    ensures Extends(h, g) && SenderOk(g, abandoned, w) && Base(g, w.queue) == Base(h, v.queue)
  {
    var a := Record(v, r);
    var more := Fragments(PlanFor(v, r), r.data, 0);
    SentFields(v, r, w);
    RecordAcceptable(h, abandoned, v, r);
    AppendMessage(h, a, ChunksOf(more), g);
    AppendedExtends(h, a, ChunksOf(more));
    forall k | 0 <= k < |more|
      ensures !more[k].acked && !more[k].abandoned && -1 <= more[k].maxRetransmits && (more[k].maxRetransmits == -1 <==> a.reliable)
    {
      MoreFragments(v, r, a, more, k);
    }
    QueueExtended(h, abandoned, v.queue, a, more);
    forall s: nat ensures SsnOf(w.streams, s) == |OrderedOn(g.accepted, s)| {
      StreamsExtended(h, v, r, a, s, w);
    }
  }

  /** Submitting keeps the sender consistent; the history gains exactly the accepted message. */
  lemma SubmitKeeps(h: History, abandoned: set<nat>, v: Sender, r: Request)
    requires SenderOk(h, abandoned, v)
    ensures Extends(h, SubmitHistory(h, v, r)) && SenderOk(SubmitHistory(h, v, r), abandoned, Send(v, r).0)
    ensures Base(SubmitHistory(h, v, r), Send(v, r).0.queue) == Base(h, v.queue)
  {
    if Send(v, r).1 == Ok { AcceptKeeps(h, abandoned, v, r, SubmitHistory(h, v, r), Send(v, r).0); }
  }
}
