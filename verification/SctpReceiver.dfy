/** The receive half of the SCTP association as functions on values: a table of
    descriptors, each with the bytes it owns, and the cumulative TSN. The class
    in SctpPool.dfy refines these functions over one byte pool. */
module SctpReceiver {
  import opened SctpTypes

  /** One occupied descriptor. It covers the TSNs first..tsn: one received
      fragment, or several that were merged once cumulatively acknowledged.
      Only `tsn`, the last of them, exists in the program. */
  datatype Entry = Entry(
    first: int, tsn: int, sid: nat, ssn: nat, ppid: nat,
    begin: bool, end: bool, unordered: bool,
    delivered: bool, forwarded: bool, data: seq<Byte>)

  type Slots = seq<Option<Entry>>

  datatype Receiver = Receiver(cum: int, slots: Slots, streams: seq<Stream>, sackNeeded: bool)

  /** A message handed to the application. */
  datatype Message = Message(sid: nat, ppid: nat, data: seq<Byte>)

  function HeldBytes(slot: Option<Entry>): nat {
    if slot.Some? then |slot.value.data| else 0
  }

  /** Bytes of the pool in use. */
  function TotalBytes(slots: Slots): nat {
    if slots == [] then 0 else TotalBytes(slots[..|slots| - 1]) + HeldBytes(slots[|slots| - 1])
  }

  /** Occupied descriptors. */
  function CountHeld(slots: Slots): (n: nat)
    ensures n <= |slots|
  {
    if slots == [] then 0
    else CountHeld(slots[..|slots| - 1]) + if slots[|slots| - 1].Some? then 1 else 0
  }

  lemma {:induction false} TotalBytesUpdate(slots: Slots, i: nat, x: Option<Entry>)
    requires i < |slots|
    ensures TotalBytes(slots[i := x]) == TotalBytes(slots) - HeldBytes(slots[i]) + HeldBytes(x)
    ensures CountHeld(slots[i := x]) ==
            CountHeld(slots) - (if slots[i].Some? then 1 else 0) + (if x.Some? then 1 else 0)
  {
    var n := |slots| - 1;
    if i == n {
      assert slots[i := x][..n] == slots[..n];
    } else {
      assert slots[i := x][..n] == slots[..n][i := x];
      TotalBytesUpdate(slots[..n], i, x);
    }
  }

  lemma {:induction false} CountHeldPositive(slots: Slots, i: nat)
    requires i < |slots| && slots[i].Some?
    ensures CountHeld(slots) > 0
  {
    if i < |slots| - 1 { CountHeldPositive(slots[..|slots| - 1], i); }
  }

  // ----- reclaiming delivered bytes -----

  /** What reclaiming does to one descriptor. */
  function Reclaimed(slot: Option<Entry>, cum: int): Option<Entry> {
    if slot.None? || !slot.value.delivered then slot
    else if slot.value.tsn <= cum then None
    else Some(slot.value.(data := []))
  }

  /** Reclaiming the first `n` descriptors. */
  function ReclaimedUpTo(slots: Slots, cum: int, n: nat): (r: Slots)
    requires n <= |slots|
    ensures |r| == |slots|
  {
    seq(|slots|, i requires 0 <= i < |slots| => if i < n then Reclaimed(slots[i], cum) else slots[i])
  }

  predicate Reopens(slot: Option<Entry>) {
    slot.Some? && slot.value.delivered && slot.value.data != []
  }

  /** Drops the bytes of delivered entries; an entry past the cumulative TSN keeps
      its descriptor as a gap-acknowledgement marker. */
  function Reclaim(v: Receiver): Receiver {
    v.(slots := ReclaimedUpTo(v.slots, v.cum, |v.slots|),
       sackNeeded := v.sackNeeded || exists i | 0 <= i < |v.slots| :: Reopens(v.slots[i]))
  }

  // ----- advancing the cumulative TSN -----

  predicate Holds(slots: Slots, tsn: int) {
    exists i | 0 <= i < |slots| :: slots[i].Some? && slots[i].value.tsn == tsn
  }

  function MaxTsn(slots: Slots): (m: int)
    ensures forall i | 0 <= i < |slots| && slots[i].Some? :: slots[i].value.tsn <= m
  {
    if slots == [] then 0
    else
      var m := MaxTsn(slots[1..]);
      assert forall i | 1 <= i < |slots| :: slots[i] == slots[1..][i - 1];
      if slots[0].Some? && slots[0].value.tsn > m then slots[0].value.tsn else m
  }

  /** Steps over every held TSN that follows `cum`. */
  function DrainCum(slots: Slots, cum: int): (r: int)
    ensures cum <= r
    ensures forall t | cum < t <= r :: Holds(slots, t)
    ensures !Holds(slots, r + 1)
    decreases MaxTsn(slots) - cum
  {
    if Holds(slots, cum + 1) then DrainCum(slots, cum + 1) else cum
  }

  function Drain(v: Receiver): Receiver {
    Reclaim(v.(cum := DrainCum(v.slots, v.cum)))
  }

  // ----- merging acknowledged fragments -----

  /** `b` continues the message of `a`: the next TSN of the same stream, SSN, PPID and
      ordering, where `a` is not a last fragment and `b` not a first one. */
  predicate Follows(a: Entry, b: Entry) {
    && b.tsn == a.tsn + 1
    && b.sid == a.sid && b.ssn == a.ssn && b.ppid == a.ppid && b.unordered == a.unordered
    && !a.end && !b.begin
  }

  predicate Pending(slots: Slots, i: nat) {
    i < |slots| && slots[i].Some? && !slots[i].value.delivered
  }

  predicate CanMerge(v: Receiver, i: nat, j: nat) {
    && Pending(v.slots, i) && Pending(v.slots, j)
    && v.slots[j].value.tsn <= v.cum
    && Follows(v.slots[i].value, v.slots[j].value)
  }

  /** The first mergeable pair in the order of two nested loops that have reached (i, j). */
  function FirstPair(v: Receiver, i: nat, j: nat): (r: Option<(nat, nat)>)
    requires i <= |v.slots| && j <= |v.slots|
    ensures r.Some? ==> CanMerge(v, r.value.0, r.value.1)
    decreases |v.slots| - i, |v.slots| - j
  {
    if i == |v.slots| then None
    else if j == |v.slots| then FirstPair(v, i + 1, 0)
    else if CanMerge(v, i, j) then Some((i, j))
    else FirstPair(v, i, j + 1)
  }

  /** No pair is found only when there is none. */
  lemma {:induction false} NoPairLeft(v: Receiver, i: nat, j: nat, a: nat, b: nat)
    requires i <= |v.slots| && j <= |v.slots| && FirstPair(v, i, j).None?
    requires a < |v.slots| && b < |v.slots| && (i < a || (i == a && j <= b))
    ensures !CanMerge(v, a, b)
    decreases |v.slots| - i, |v.slots| - j
  {
    if j == |v.slots| {
      NoPairLeft(v, i + 1, 0, a, b);
    } else if i != a || j != b {
      NoPairLeft(v, i, j + 1, a, b);
    }
  }

  function Merged(a: Entry, b: Entry): Entry {
    a.(tsn := b.tsn, end := a.end || b.end, forwarded := a.forwarded || b.forwarded, data := a.data + b.data)
  }

  function MergeAt(slots: Slots, i: nat, j: nat): Slots
    requires i < |slots| && j < |slots| && slots[i].Some? && slots[j].Some?
  {
    slots[i := Some(Merged(slots[i].value, slots[j].value))][j := None]
  }

  lemma CountHeldMergeAt(slots: Slots, i: nat, j: nat)
    requires i < |slots| && j < |slots| && slots[i].Some? && slots[j].Some? && i != j
    ensures CountHeld(MergeAt(slots, i, j)) == CountHeld(slots) - 1
    ensures TotalBytes(MergeAt(slots, i, j)) == TotalBytes(slots)
  {
    var m := Some(Merged(slots[i].value, slots[j].value));
    TotalBytesUpdate(slots, i, m);
    TotalBytesUpdate(slots[i := m], j, None);
  }

  /** Merges until no pair is left, or until a merged message would be too large. */
  function Merge(v: Receiver): (Receiver, Status)
    decreases CountHeld(v.slots)
  {
    match FirstPair(v, 0, 0)
    case None => (v, Ok)
    case Some((i, j)) =>
      if |v.slots[i].value.data| + |v.slots[j].value.data| > MAX_MESSAGE_SIZE then (v, BufferTooSmall)
      else
        CountHeldMergeAt(v.slots, i, j);
        Merge(v.(slots := MergeAt(v.slots, i, j)))
  }

  // ----- an incoming DATA chunk -----

  /** The highest free descriptor below `n`, or `|slots|` when there is none. */
  function LastFree(slots: Slots, n: nat): (r: nat)
    requires n <= |slots|
    ensures r < n ==> slots[r].None?
    ensures r < n || r == |slots|
    ensures r == |slots| ==> forall i | 0 <= i < n :: slots[i].Some?
  {
    if n == 0 then |slots| else if slots[n - 1].None? then n - 1 else LastFree(slots, n - 1)
  }

  function Incoming(c: Chunk): Entry {
    Entry(c.tsn, c.tsn, c.sid, c.ssn, c.ppid, c.begin, c.end, c.unordered, false, false, c.payload)
  }

  /** A held fragment, not a last one, that immediately precedes `e`. */
  predicate Precedes(slots: Slots, i: nat, e: Entry) {
    Pending(slots, i) && !slots[i].value.end && slots[i].value.tsn + 1 == e.tsn
  }

  /** The first permanent fragmentation error that a held predecessor at `i` or later reveals. */
  function FragmentError(slots: Slots, e: Entry, i: nat): (r: Status)
    requires i <= |slots|
    ensures r == Ok <==> forall k | i <= k < |slots| && Precedes(slots, k, e) ::
              Follows(slots[k].value, e) && |slots[k].value.data| + |e.data| <= MAX_MESSAGE_SIZE
    decreases |slots| - i
  {
    if i == |slots| then Ok
    else if !Precedes(slots, i, e) then FragmentError(slots, e, i + 1)
    else if !Follows(slots[i].value, e) then Protocol
    else if |e.data| + |slots[i].value.data| > MAX_MESSAGE_SIZE then BufferTooSmall
    else FragmentError(slots, e, i + 1)
  }

  /** Room for a payload of `n` bytes. An out-of-order chunk must leave one descriptor
      and one full payload for the missing leading packet. */
  predicate Admits(v: Receiver, tsn: int, n: nat) {
    var gap := tsn != v.cum + 1;
    var reserve := if gap then MTU - 28 else 0;
    && CountHeld(v.slots) < |v.slots|
    && (gap ==> CountHeld(v.slots) < |v.slots| - 1)
    && TotalBytes(v.slots) + reserve + n <= RECV_GAP_BUF_SIZE
  }

  lemma {:induction false} FreeSlotIffCount(slots: Slots, n: nat)
    requires n <= |slots|
    ensures LastFree(slots, n) < n <==> CountHeld(slots[..n]) < n
  {
    if n > 0 {
      FreeSlotIffCount(slots, n - 1);
      assert slots[..n][..n - 1] == slots[..n - 1];
    }
  }

  function HandleData(v: Receiver, c: Chunk): (Receiver, Status) {
    if |c.payload| > MAX_MESSAGE_SIZE then (v, BufferTooSmall)
    else
      var v1 := v.(sackNeeded := true);
      if c.tsn <= v1.cum then (v1, Ok) else HandleFresh(Reclaim(v1), c)
  }

  /** A chunk past the cumulative TSN, after reclaiming. */
  function HandleFresh(v: Receiver, c: Chunk): (Receiver, Status) {
    if Holds(v.slots, c.tsn) then (v, Ok)
    else
      var err := if c.begin then Ok else FragmentError(v.slots, Incoming(c), 0);
      if err != Ok then (v, err)
      else if !Admits(v, c.tsn, |c.payload|) then (v, WouldBlock)
      else if !Known(Register(v.streams, c.sid), c.sid) then (v, Protocol)
      else
        FreeSlotIffCount(v.slots, |v.slots|);
        assert v.slots[..|v.slots|] == v.slots;
        Merge(Drain(Admit(v, Incoming(c))))
  }

  function Admit(v: Receiver, e: Entry): Receiver
    requires LastFree(v.slots, |v.slots|) < |v.slots|
  {
    v.(slots := v.slots[LastFree(v.slots, |v.slots|) := Some(e)], streams := Register(v.streams, e.sid))
  }

  // ----- delivering messages -----

  /** The first pending descriptor whose last TSN is `tsn`, or `|slots|`. */
  function FindPending(slots: Slots, tsn: int, i: nat): (j: nat)
    requires i <= |slots|
    ensures i <= j <= |slots|
    ensures j < |slots| ==> Pending(slots, j) && slots[j].value.tsn == tsn
    ensures j == |slots| ==> forall k | i <= k < |slots| && Pending(slots, k) :: slots[k].value.tsn != tsn
    decreases |slots| - i
  {
    if i == |slots| then i
    else if Pending(slots, i) && slots[i].value.tsn == tsn then i
    else FindPending(slots, tsn, i + 1)
  }

  datatype Assembly = Incomplete | Complete(parts: seq<nat>) | Broken(error: Status)

  /** The listed descriptors are all occupied. */
  predicate AllHeld(slots: Slots, parts: seq<nat>) {
    forall k | 0 <= k < |parts| :: parts[k] < |slots| && slots[parts[k]].Some?
  }

  /** The listed descriptors all hold undelivered fragments. */
  predicate AllPending(slots: Slots, parts: seq<nat>) {
    forall k | 0 <= k < |parts| ::
      parts[k] < |slots| && slots[parts[k]].Some? && !slots[parts[k]].value.delivered
  }

  /** Bytes of the listed descriptors, in list order. */
  function Joined(slots: Slots, parts: seq<nat>): seq<Byte>
    requires AllHeld(slots, parts)
  {
    if parts == [] then []
    else Joined(slots, parts[..|parts| - 1]) + slots[parts[|parts| - 1]].value.data
  }

  /** Walks consecutive TSNs from `tsn` until a last fragment, with `parts` found so far. */
  function Assemble(slots: Slots, tsn: int, parts: seq<nat>): (r: Assembly)
    requires |parts| <= |slots|
    requires AllPending(slots, parts)
    ensures r.Complete? ==> AllPending(slots, r.parts)
    ensures r.Complete? ==> |parts| < |r.parts| <= |slots| && parts == r.parts[..|parts|]
    ensures r.Broken? ==> r.error == Protocol || r.error == BufferTooSmall
    decreases |slots| - |parts|
  {
    if |parts| == |slots| then Incomplete
    else
      var j := FindPending(slots, tsn, 0);
      if j == |slots| then Incomplete
      else if parts != [] && !Follows(slots[parts[|parts| - 1]].value, slots[j].value) then Broken(Protocol)
      else if |slots[j].value.data| + |Joined(slots, parts)| > MAX_MESSAGE_SIZE then Broken(BufferTooSmall)
      else if slots[j].value.end then Complete(parts + [j])
      else Assemble(slots, tsn + 1, parts + [j])
  }

  predicate TsnsFrom(slots: Slots, base: int, parts: seq<nat>)
    requires AllHeld(slots, parts)
  {
    forall k | 0 <= k < |parts| :: slots[parts[k]].value.tsn == base + k
  }

  /** The assembled parts have consecutive TSNs. */
  lemma {:induction false} AssembleTsns(slots: Slots, base: int, parts: seq<nat>)
    requires |parts| <= |slots| && AllPending(slots, parts) && TsnsFrom(slots, base, parts)
    ensures Assemble(slots, base + |parts|, parts).Complete? ==>
              TsnsFrom(slots, base, Assemble(slots, base + |parts|, parts).parts)
    decreases |slots| - |parts|
  {
    if |parts| < |slots| {
      var j := FindPending(slots, base + |parts|, 0);
      if j < |slots| && !slots[j].value.end { AssembleTsns(slots, base, parts + [j]); }
    }
  }

  /** An undelivered skipped-over message of the same stream comes before slot `i`. */
  predicate EarlierForwarded(slots: Slots, i: nat)
    requires i < |slots| && slots[i].Some?
  {
    exists j | 0 <= j < |slots| :: Pending(slots, j) && slots[j].value.forwarded &&
                                   slots[j].value.sid == slots[i].value.sid && slots[j].value.ssn < slots[i].value.ssn
  }

  /** Slot `i` begins a message whose turn it is. */
  predicate Eligible(v: Receiver, i: nat)
    requires i < |v.slots|
  {
    && Pending(v.slots, i) && v.slots[i].value.begin
    && Known(v.streams, v.slots[i].value.sid)
    && (v.slots[i].value.unordered || v.slots[i].value.forwarded ||
        v.slots[i].value.ssn == SsnOf(v.streams, v.slots[i].value.sid))
    && (v.slots[i].value.unordered || !EarlierForwarded(v.slots, i))
  }

  function MarkDelivered(slots: Slots, parts: seq<nat>): (r: Slots)
    requires AllHeld(slots, parts)
    ensures |r| == |slots|
    ensures forall i | 0 <= i < |slots| ::
              r[i] == if i in parts then Some(slots[i].value.(delivered := true)) else slots[i]
  {
    seq(|slots|, i requires 0 <= i < |slots| =>
      if i in parts then Some(slots[i].value.(delivered := true)) else slots[i])
  }

  /** State after delivering the message assembled from `parts`, begun in slot `i`. */
  function Deliver(v: Receiver, i: nat, parts: seq<nat>): Receiver
    requires i < |v.slots| && Eligible(v, i)
    requires AllHeld(v.slots, parts)
  {
    var e := v.slots[i].value;
    v.(slots := MarkDelivered(v.slots, parts),
       streams := if e.unordered || e.forwarded then v.streams
                  else SetSsn(v.streams, e.sid, SsnOf(v.streams, e.sid) + 1))
  }

  /** Delivery in terms of the entry's own sequence number. */
  lemma DeliverShape(v: Receiver, i: nat, parts: seq<nat>)
    requires i < |v.slots| && Eligible(v, i) && AllHeld(v.slots, parts)
    ensures var e := v.slots[i].value;
            Deliver(v, i, parts).slots == MarkDelivered(v.slots, parts) &&
            Deliver(v, i, parts).streams ==
              if e.unordered || e.forwarded then v.streams else SetSsn(v.streams, e.sid, e.ssn + 1)
  {
  }

  /** The stream lookup a candidate in slot `i` performs, which may register the stream. */
  function LookUp(v: Receiver, i: nat): Receiver
    requires i < |v.slots|
  {
    if Pending(v.slots, i) && v.slots[i].value.begin
    then v.(streams := Register(v.streams, v.slots[i].value.sid)) else v
  }

  /** Delivery scan from slot `i`. */
  function PollFrom(v: Receiver, i: nat): (Receiver, Status, Option<Message>)
    requires i <= |v.slots|
    decreases |v.slots| - i
  {
    if i == |v.slots| then (v, WouldBlock, None)
    else
      var w := LookUp(v, i);
      if !Eligible(w, i) then PollFrom(w, i + 1)
      else
        match Assemble(w.slots, w.slots[i].value.tsn, [])
        case Incomplete => PollFrom(w, i + 1)
        case Broken(error) => (w, error, None)
        case Complete(parts) =>
          (Deliver(w, i, parts), Ok,
           Some(Message(w.slots[i].value.sid, w.slots[i].value.ppid, Joined(w.slots, parts))))
  }

  /** What polling slot `i` comes to. */
  lemma PollTurn(v: Receiver, i: nat, r: (Receiver, Status, Option<Message>)) returns (w: Receiver, a: Assembly)
    requires i < |v.slots| && r == PollFrom(v, i)
    ensures w == LookUp(v, i) && a == if Eligible(w, i) then Assemble(w.slots, w.slots[i].value.tsn, []) else Incomplete
    ensures a.Incomplete? ==> r == PollFrom(w, i + 1)
    ensures a.Broken? ==> r.0 == w && r.2 == None
    ensures a.Complete? ==> r.0 == Deliver(w, i, a.parts) &&
                            r.2 == Some(Message(w.slots[i].value.sid, w.slots[i].value.ppid, Joined(w.slots, a.parts)))
  {
    w := LookUp(v, i);
    a := if Eligible(w, i) then Assemble(w.slots, w.slots[i].value.tsn, []) else Incomplete;
  }

  function PollDelivery(v: Receiver): (Receiver, Status, Option<Message>) {
    PollFrom(Reclaim(v), 0)
  }

  // ----- an incoming FORWARD TSN -----

  /** Everything at or below `tsn` that is not a complete message is discarded. */
  function DiscardStranded(slots: Slots, tsn: int): (r: Slots)
    ensures |r| == |slots|
  {
    seq(|slots|, i requires 0 <= i < |slots| =>
      if slots[i].Some? && slots[i].value.tsn <= tsn && !(slots[i].value.begin && slots[i].value.end)
      then Some(slots[i].value.(delivered := true)) else slots[i])
  }

  /** Marks held ordered messages of stream `sid` up to `ssn` as skipped over. */
  function MarkForwarded(slots: Slots, sid: nat, ssn: nat): (r: Slots)
    ensures |r| == |slots|
  {
    seq(|slots|, i requires 0 <= i < |slots| =>
      if slots[i].Some? && slots[i].value.sid == sid && !slots[i].value.unordered && slots[i].value.ssn <= ssn
      then Some(slots[i].value.(forwarded := true)) else slots[i])
  }

  /** Releases the skipped stream sequence numbers, one (stream, SSN) pair at a time. */
  function ReleaseStreams(v: Receiver, skips: seq<Stream>): (Receiver, Status)
    decreases |skips|
  {
    if skips == [] then (v, Ok)
    else
      var s := skips[0];
      var w := v.(streams := Register(v.streams, s.sid));
      if !Known(w.streams, s.sid) then (w, Protocol)
      else if s.ssn < SsnOf(w.streams, s.sid) then ReleaseStreams(w, skips[1..])
      else ReleaseStreams(w.(slots := MarkForwarded(w.slots, s.sid, s.ssn),
                             streams := SetSsn(w.streams, s.sid, s.ssn + 1)), skips[1..])
  }

  function HandleForward(v: Receiver, newTsn: int, skips: seq<Stream>): (Receiver, Status) {
    var v1 := v.(sackNeeded := true);
    if newTsn <= v1.cum then (v1, Ok)
    else
      var (v2, status) := Merge(v1.(cum := newTsn));
      if status != Ok then (v2, status)
      else
        var (v3, released) := ReleaseStreams(v2.(slots := DiscardStranded(v2.slots, newTsn)), skips);
        if released != Ok then (v3, released) else (Drain(v3), Ok)
  }
}
