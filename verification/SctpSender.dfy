/** The send half of the SCTP association as functions on values. The class in
    SctpSendQueue.dfy refines these functions over a ring with wrapping cursors. */
module SctpSender {
  import opened SctpTypes

  /** One queued fragment. Times are 32-bit millisecond counters. */
  datatype SendEntry = SendEntry(
    chunk: Chunk, maxRetransmits: int, retransmits: nat, sentAt: nat,
    acked: bool, inFlight: bool, abandoned: bool)

  type Queue = seq<SendEntry>

  datatype Sender = Sender(
    established: bool, failed: bool, peerForward: bool, peerMaxMessage: nat,
    queue: Queue, nextTsn: int, streams: seq<Stream>, bufUsed: nat,
    now: nat, rto: nat, forwardSentAt: nat, forwardPending: bool)

  datatype Gap = Gap(start: nat, end: nat)

  datatype Output = Silence | SendData(chunk: Chunk) | SendForward(newTsn: int, skips: seq<Stream>)

  /** Elapsed milliseconds on a clock that wraps at 2^32. */
  function Elapsed(now: int, since: int): (r: nat) {
    (now - since) % 0x1_0000_0000
  }

  // ----- queueing a message -----

  /** Number of fragments of a message of `len` bytes; an empty message still has one. */
  function FragmentCount(len: nat): nat {
    if len == 0 then 1 else (len + MTU_PAYLOAD - 1) / MTU_PAYLOAD
  }

  /** A message to send: PPID, ordering and retry limit (-1: reliable) as the application asks. */
  datatype Request = Request(sid: nat, ppid: nat, data: seq<Byte>, unordered: bool, maxRetransmits: int)

  /** What the fragments of one message share. */
  datatype Plan = Plan(count: nat, tsn: int, sid: nat, ssn: nat, ppid: nat, unordered: bool, maxRetransmits: int)

  /** Fragment `i` of the plan with the given payload. */
  function Fragment(p: Plan, i: nat, payload: seq<Byte>): SendEntry {
    SendEntry(Chunk(p.tsn + i, p.sid, p.ssn, p.ppid, i == 0, i + 1 == p.count, p.unordered, payload),
              p.maxRetransmits, 0, 0, false, false, false)
  }

  /** Fragments `i` and later of a message whose bytes from fragment `i` on are `rest`. */
  function Fragments(p: Plan, rest: seq<Byte>, i: nat): (r: Queue)
    requires i <= p.count
    ensures |r| == p.count - i
    decreases p.count - i
  {
    if i == p.count then []
    else
      var n := if |rest| > MTU_PAYLOAD then MTU_PAYLOAD else |rest|;
      [Fragment(p, i, rest[..n])] + Fragments(p, rest[n..], i + 1)
  }

  /** Why a message is refused, in the order of the checks; `Ok` when it is accepted. */
  function SendCheck(v: Sender, sid: nat, len: nat, maxRetransmits: int): Status {
    if !v.established then State
    else if maxRetransmits < -1 || maxRetransmits > 0xFFFF then InvalidParam
    else if maxRetransmits >= 0 && !v.peerForward then NotImplemented
    else if len > MAX_MESSAGE_SIZE || len > SEND_BUF_SIZE || (v.peerMaxMessage != 0 && len > v.peerMaxMessage) then BufferTooSmall
    else if FragmentCount(len) > MAX_SEND_QUEUE then BufferTooSmall
    else if FragmentCount(len) + |v.queue| > MAX_SEND_QUEUE || len + v.bufUsed > SEND_BUF_SIZE then WouldBlock
    else if !Known(Register(v.streams, sid), sid) then BufferTooSmall
    else Ok
  }

  /** TSNs and stream sequence number that a message accepted now gets. */
  function PlanFor(v: Sender, r: Request): Plan {
    Plan(FragmentCount(|r.data|), v.nextTsn, r.sid, if r.unordered then 0 else SsnOf(v.streams, r.sid),
         r.ppid, r.unordered, r.maxRetransmits)
  }

  function Send(v: Sender, r: Request): (Sender, Status) {
    var status := SendCheck(v, r.sid, |r.data|, r.maxRetransmits);
    if status != Ok then (v, status)
    else
      var streams := Register(v.streams, r.sid);
      (v.(streams := if r.unordered then streams else SetSsn(streams, r.sid, SsnOf(v.streams, r.sid) + 1),
          bufUsed := v.bufUsed + |r.data|,
          nextTsn := v.nextTsn + FragmentCount(|r.data|),
          queue := v.queue + Fragments(PlanFor(v, r), r.data, 0)),
       Ok)
  }

  // ----- abandoning a message -----

  /** The first queued fragment of the message that fragment `i` belongs to. */
  function FirstOf(queue: Queue, i: nat): (r: nat)
    requires i < |queue|
    ensures r <= i
    ensures r == 0 || queue[r].chunk.begin
    ensures forall k | r < k <= i :: !queue[k].chunk.begin
  {
    if i == 0 || queue[i].chunk.begin then i else FirstOf(queue, i - 1)
  }

  /** Flags fragment `i` and those after it up to a last fragment. */
  function AbandonRun(queue: Queue, i: nat): (r: Queue)
    requires i <= |queue|
    ensures |r| == |queue|
    decreases |queue| - i
  {
    if i == |queue| then queue
    else
      var q := queue[i := queue[i].(abandoned := true)];
      if queue[i].chunk.end then q else AbandonRun(q, i + 1)
  }

  /** Abandonment always covers the whole queued part of the message. */
  function Abandon(queue: Queue, i: nat): (r: Queue)
    requires i < |queue|
    ensures |r| == |queue|
  {
    AbandonRun(queue, FirstOf(queue, i))
  }

  // ----- an incoming SACK -----

  /** The gap list is ascending, disjoint and non-empty block by block. */
  predicate ValidGaps(gaps: seq<Gap>, previousEnd: nat) {
    gaps == [] || (previousEnd < gaps[0].start <= gaps[0].end && ValidGaps(gaps[1..], gaps[0].end))
  }

  predicate GapAcked(gaps: seq<Gap>, offset: int) {
    0 < offset <= 0xFFFF && exists i | 0 <= i < |gaps| :: gaps[i].start <= offset <= gaps[i].end
  }

  /** The highest in-flight TSN that the SACK reports, at least `highest`. */
  function HighestAcked(queue: Queue, i: nat, highest: int, cum: int, gaps: seq<Gap>): (r: int)
    requires i <= |queue|
    decreases |queue| - i
  {
    if i == |queue| then highest
    else
      var e := queue[i];
      HighestAcked(queue, i + 1,
        if e.inFlight && e.chunk.tsn > highest && GapAcked(gaps, e.chunk.tsn - cum) then e.chunk.tsn else highest,
        cum, gaps)
  }

  /** A zero-retry fragment that the SACK shows overtaken by a later one. */
  predicate Overtaken(e: SendEntry, cum: int, highest: int, gaps: seq<Gap>) {
    && e.inFlight && !e.acked && !e.abandoned && e.maxRetransmits == 0
    && cum < e.chunk.tsn < highest
    && !GapAcked(gaps, e.chunk.tsn - cum)
  }

  function AbandonOvertaken(queue: Queue, i: nat, cum: int, highest: int, gaps: seq<Gap>): (r: Queue)
    requires i <= |queue|
    ensures |r| == |queue|
    decreases |queue| - i
  {
    if i == |queue| then queue
    else AbandonOvertaken(if Overtaken(queue[i], cum, highest, gaps) then Abandon(queue, i) else queue, i + 1, cum, highest, gaps)
  }

  /** Some fragment is abandoned by AbandonOvertaken from position `i` on. */
  predicate AnyOvertaken(queue: Queue, i: nat, cum: int, highest: int, gaps: seq<Gap>)
    requires i <= |queue|
    decreases |queue| - i
  {
    i < |queue| &&
    (Overtaken(queue[i], cum, highest, gaps) || AnyOvertaken(queue, i + 1, cum, highest, gaps))
  }

  function MarkAcked(queue: Queue, cum: int): (r: Queue)
    ensures |r| == |queue|
  {
    seq(|queue|, i requires 0 <= i < |queue| =>
      if queue[i].chunk.tsn <= cum then queue[i].(acked := true) else queue[i])
  }

  function PopAcked(queue: Queue): (r: Queue)
    ensures |r| <= |queue| && r == queue[|queue| - |r|..]
    ensures r != [] ==> !r[0].acked
    ensures forall k | 0 <= k < |queue| - |r| :: queue[k].acked
  {
    if queue != [] && queue[0].acked then
      assert forall r | |r| <= |queue| - 1 && r == queue[1..][|queue| - 1 - |r|..] :: r == queue[|queue| - |r|..];
      PopAcked(queue[1..])
    else queue
  }

  function HandleSack(v: Sender, cum: int, gaps: seq<Gap>): (Sender, Status) {
    if !ValidGaps(gaps, 0) then (v, Parse)
    else
      var highest := HighestAcked(v.queue, 0, cum, cum, gaps);
      var q := PopAcked(MarkAcked(AbandonOvertaken(v.queue, 0, cum, highest, gaps), cum));
      (v.(queue := q,
          forwardPending := v.forwardPending || AnyOvertaken(v.queue, 0, cum, highest, gaps),
          bufUsed := if q == [] then 0 else v.bufUsed),
       Ok)
  }

  // ----- FORWARD TSN -----

  /** Records `ssn` as the last skipped sequence number of stream `sid`. */
  function AddSkip(skips: seq<Stream>, sid: nat, ssn: nat): seq<Stream> {
    var row := RowOf(skips, sid);
    if row < |skips| then skips[row := Stream(sid, ssn)] else skips + [Stream(sid, ssn)]
  }

  /** The leading acknowledged or abandoned fragments: how many, and the streams they skip. */
  function SkipRun(queue: Queue, i: nat, skips: seq<Stream>): (r: (nat, seq<Stream>))
    requires i <= |queue|
    ensures i <= r.0 <= |queue|
    ensures forall k | i <= k < r.0 :: queue[k].acked || queue[k].abandoned
    ensures r.0 < |queue| ==> !queue[r.0].acked && !queue[r.0].abandoned
    decreases |queue| - i
  {
    if i == |queue| || (!queue[i].acked && !queue[i].abandoned) then (i, skips)
    else
      var e := queue[i];
      SkipRun(queue, i + 1,
        if e.abandoned && !e.chunk.unordered then AddSkip(skips, e.chunk.sid, e.chunk.ssn) else skips)
  }

  function ForwardOutput(v: Sender): (Sender, Output) {
    var (n, skips) := SkipRun(v.queue, 0, []);
    if exists k | 0 <= k < n :: v.queue[k].abandoned
    then (v.(forwardPending := false, forwardSentAt := v.now), SendForward(v.queue[n - 1].chunk.tsn, skips))
    else (v.(forwardPending := false), Silence)
  }

  // ----- output -----

  predicate Sendable(e: SendEntry) {
    !e.inFlight && !e.acked && !e.abandoned
  }

  /** The first fragment at `i` or later that waits for transmission, or `|queue|`. */
  function FirstSendable(queue: Queue, i: nat): (r: nat)
    requires i <= |queue|
    ensures i <= r <= |queue|
    ensures r < |queue| ==> Sendable(queue[r])
    ensures forall k | i <= k < r :: !Sendable(queue[k])
    decreases |queue| - i
  {
    if i == |queue| || Sendable(queue[i]) then i else FirstSendable(queue, i + 1)
  }

  function DataOutput(v: Sender): (Sender, Output) {
    var i := FirstSendable(v.queue, 0);
    if !v.established || i == |v.queue| then (v, Silence)
    else (v.(queue := v.queue[i := v.queue[i].(inFlight := true, sentAt := v.now)]), SendData(v.queue[i].chunk))
  }

  function PollOutput(v: Sender): (Sender, Output) {
    if v.forwardPending then
      var (w, out) := ForwardOutput(v);
      if out == Silence then DataOutput(w) else (w, out)
    else DataOutput(v)
  }

  // ----- timers -----

  function Min(a: nat, b: nat): nat { if a < b then a else b }

  predicate TimedOut(e: SendEntry, now: nat, rto: nat) {
    e.inFlight && !e.acked && !e.abandoned && Elapsed(now, e.sentAt) >= rto
  }

  /** Retransmission scan from position `i`; each retransmission doubles the timeout. */
  function TimeoutFrom(v: Sender, i: nat): (r: (Sender, Status))
    requires i <= |v.queue|
    ensures |r.0.queue| == |v.queue|
    decreases |v.queue| - i
  {
    if i == |v.queue| then (v, Ok)
    else
      var e := v.queue[i];
      if !TimedOut(e, v.now, v.rto) then TimeoutFrom(v, i + 1)
      else if e.maxRetransmits >= 0 && e.retransmits >= e.maxRetransmits then
        TimeoutFrom(v.(queue := Abandon(v.queue, i), forwardPending := true), i + 1)
      else if e.maxRetransmits < 0 && e.retransmits >= MAX_RETRANSMITS then
        (v.(established := false, failed := true), Protocol)
      else
        TimeoutFrom(v.(queue := v.queue[i := e.(inFlight := false, retransmits := e.retransmits + 1, sentAt := v.now)],
                       rto := Min(v.rto * 2, RTO_MAX_MS)), i + 1)
  }

  /** An abandoned fragment waits at the front of the queue for its acknowledgement. */
  predicate ForwardDue(queue: Queue) {
    exists k | 0 <= k < SkipRun(queue, 0, []).0 :: queue[k].abandoned
  }

  function HandleTimeout(v: Sender, now: nat): (Sender, Status) {
    var v1 := v.(now := now);
    if !v.established then (v1, Ok)
    else
      var (v2, status) := TimeoutFrom(v1, 0);
      if status != Ok then (v2, status)
      else (v2.(forwardPending := v2.forwardPending ||
                                  (Elapsed(now, v2.forwardSentAt) >= v2.rto && ForwardDue(v2.queue))), Ok)
  }
}
