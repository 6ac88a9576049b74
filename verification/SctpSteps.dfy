/** What single receiver calls do to small tables, for the lemmas that follow a run call by call. */
module SctpSteps {
  import opened SctpTypes
  import opened SctpReceiver
  import opened SctpMergeOrder

  /** A table whose first five descriptors are free. */
  function Tab(x: Option<Entry>, y: Option<Entry>, z: Option<Entry>): (r: Slots)
    ensures |r| == MAX_RECV_GAP
  {
    [None, None, None, None, None, x, y, z]
  }

  function One(x: Option<Entry>): nat {
    if x.Some? then 1 else 0
  }

  lemma TabTotals(x: Option<Entry>, y: Option<Entry>, z: Option<Entry>)
    ensures CountHeld(Tab(x, y, z)) == One(x) + One(y) + One(z)
    ensures TotalBytes(Tab(x, y, z)) == HeldBytes(x) + HeldBytes(y) + HeldBytes(z)
  {
    var t0 := Tab(None, None, None);
    NoneTotals(t0);
    TotalBytesUpdate(t0, 5, x);
    TotalBytesUpdate(t0[5 := x], 6, y);
    TotalBytesUpdate(t0[5 := x][6 := y], 7, z);
    assert t0[5 := x][6 := y][7 := z] == Tab(x, y, z);
  }

  lemma {:induction false} NoneTotals(slots: Slots)
    requires forall i | 0 <= i < |slots| :: slots[i].None?
    ensures TotalBytes(slots) == 0 && CountHeld(slots) == 0
  {
    if slots != [] { NoneTotals(slots[..|slots| - 1]); }
  }

  lemma TabFree(x: Option<Entry>, y: Option<Entry>, z: Option<Entry>)
    requires z.None? || y.None? || x.None?
    ensures LastFree(Tab(x, y, z), 8) == if z.None? then 7 else if y.None? then 6 else 5
  {
    var t := Tab(x, y, z);
    assert LastFree(t, 8) == if z.None? then 7 else LastFree(t, 7);
    assert LastFree(t, 7) == if y.None? then 6 else LastFree(t, 6);
    assert x.None? ==> LastFree(t, 6) == 5;
  }

  predicate NoneDelivered(slots: Slots) {
    forall i | 0 <= i < |slots| && slots[i].Some? :: !slots[i].value.delivered
  }

  /** Reclaiming changes nothing where nothing is delivered. */
  lemma NothingToReclaim(v: Receiver)
    requires NoneDelivered(v.slots)
    ensures Reclaim(v) == v
  {
    assert Reclaim(v).slots == v.slots;
  }

  lemma NothingToMerge(v: Receiver)
    requires Settled(v)
    ensures Merge(v) == (v, Ok)
  {
  }

  lemma DrainStops(v: Receiver, cum: int)
    requires v.cum <= cum && (forall t | v.cum < t <= cum :: Holds(v.slots, t)) && !Holds(v.slots, cum + 1)
    ensures DrainCum(v.slots, v.cum) == cum
  {
    var r := DrainCum(v.slots, v.cum);
  }

  /** A chunk past the cumulative TSN is stored in the highest free descriptor, and the cumulative TSN
      rises to `cum`; merging remains. */
  lemma Stored(v: Receiver, c: Chunk, w: Receiver)
    requires |c.payload| <= MAX_MESSAGE_SIZE && v.cum < c.tsn && !Holds(v.slots, c.tsn) && NoneDelivered(v.slots)
    requires c.begin || FragmentError(v.slots, Incoming(c), 0) == Ok
    requires Admits(v, c.tsn, |c.payload|) && w.streams == Register(v.streams, c.sid) && Known(w.streams, c.sid)
    requires LastFree(v.slots, |v.slots|) < |v.slots|
    requires w.slots == v.slots[LastFree(v.slots, |v.slots|) := Some(Incoming(c))] && w.sackNeeded
    requires v.cum <= w.cum && (forall t | v.cum < t <= w.cum :: Holds(w.slots, t)) && !Holds(w.slots, w.cum + 1)
    ensures HandleData(v, c) == Merge(w)
  {
    var v1 := v.(sackNeeded := true);
    NothingToReclaim(v1);
    StoredFresh(v1, c, w);
  }

  lemma StoredFresh(v: Receiver, c: Chunk, w: Receiver)
    requires v.cum < c.tsn && !Holds(v.slots, c.tsn) && NoneDelivered(v.slots)
    requires c.begin || FragmentError(v.slots, Incoming(c), 0) == Ok
    requires Admits(v, c.tsn, |c.payload|) && w.streams == Register(v.streams, c.sid) && Known(w.streams, c.sid)
    requires v.sackNeeded && LastFree(v.slots, |v.slots|) < |v.slots|
    requires w == Receiver(w.cum, v.slots[LastFree(v.slots, |v.slots|) := Some(Incoming(c))], w.streams, true)
    requires v.cum <= w.cum && (forall t | v.cum < t <= w.cum :: Holds(w.slots, t)) && !Holds(w.slots, w.cum + 1)
    ensures HandleFresh(v, c) == Merge(w)
  {
    var admitted := Admit(v, Incoming(c));
    DrainStops(admitted, w.cum);
    NothingToReclaim(w);
    assert Drain(admitted) == w;
  }

  /** The first chunk of an association, past a gap, takes the highest descriptor. */
  lemma FirstArrival(c: Chunk, w: Receiver)
    requires c.tsn > 0 && |c.payload| <= MTU_PAYLOAD
    requires w == Receiver(-1, Tab(None, None, Some(Incoming(c))), [Stream(c.sid, 0)], true)
    ensures HandleData(Receiver(-1, Tab(None, None, None), [], false), c).0 == w
  {
    var v := Receiver(-1, Tab(None, None, None), [], false);
    TabTotals(None, None, None);
    TabFree(None, None, None);
    assert Register([], c.sid) == [Stream(c.sid, 0)];
    assert v.slots[7 := Some(Incoming(c))] == w.slots;
    Stored(v, c, w);
    NothingToMerge(w);
  }
}
