/** How descriptors lie in the receive pool, and why compaction, rotation and
    merging keep every surviving fragment's bytes. */
module SctpLayout {
  import opened SctpTypes
  import opened SctpReceiver

  /** A receive descriptor. Offsets are 16 bits wide; the offset of an empty one means nothing. */
  datatype Desc = Desc(
    valid: bool, tsn: int, sid: nat, ssn: nat, ppid: nat, begin: bool, end: bool, unordered: bool,
    delivered: bool, forwarded: bool, off: nat, len: nat)

  function Bytes(d: Desc, pool: seq<Byte>): (r: seq<Byte>)
    ensures d.off + d.len <= |pool| ==> |r| == d.len
  {
    if 0 < d.len && d.off + d.len <= |pool| then pool[d.off..d.off + d.len] else []
  }

  function SlotOf(d: Desc, first: int, pool: seq<Byte>): Option<Entry> {
    if !d.valid then None
    else Some(Entry(first, d.tsn, d.sid, d.ssn, d.ppid, d.begin, d.end, d.unordered, d.delivered, d.forwarded, Bytes(d, pool)))
  }

  function SlotsOf(descs: seq<Desc>, firsts: seq<int>, pool: seq<Byte>): (r: Slots)
    requires |firsts| == |descs|
    ensures |r| == |descs|
  {
    seq(|descs|, i requires 0 <= i < |descs| => SlotOf(descs[i], firsts[i], pool))
  }

  /** The descriptor occupies pool bytes. */
  predicate Occupies(d: Desc) {
    d.valid && d.len > 0
  }

  predicate Clear(a: Desc, b: Desc) {
    Occupies(a) && Occupies(b) ==> a.off + a.len <= b.off || b.off + b.len <= a.off
  }

  /** Occupied stretches lie below `used` and do not overlap. */
  ghost predicate Laid(descs: seq<Desc>, used: nat) {
    && (forall i | 0 <= i < |descs| && Occupies(descs[i]) :: descs[i].off + descs[i].len <= used)
    && (forall i, j | 0 <= i < |descs| && 0 <= j < |descs| && i != j :: Clear(descs[i], descs[j]))
  }

  /** Table invariant: laid out, fully accounted for, and only a last fragment may be empty. */
  ghost predicate Sound(descs: seq<Desc>, firsts: seq<int>, pool: seq<Byte>, used: nat, count: nat) {
    && |firsts| == |descs| && used <= |pool| < WRAP
    && Laid(descs, used)
    && used == TotalBytes(SlotsOf(descs, firsts, pool))
    && count == CountHeld(SlotsOf(descs, firsts, pool))
    && (forall i | 0 <= i < |descs| && descs[i].valid && !descs[i].delivered && !descs[i].end :: descs[i].len > 0)
  }

  // ----- the pool is exactly tiled -----

  /** The `n` positions from `lo` on. */
  ghost function Interval(lo: nat, n: nat): (r: set<nat>)
    ensures forall p :: p in r <==> lo <= p < lo + n
    ensures |r| == n
  {
    if n == 0 then {} else Interval(lo, n - 1) + {lo + n - 1}
  }

  /** Positions occupied by the first `n` descriptors. */
  ghost function Positions(descs: seq<Desc>, n: nat): set<nat>
    requires n <= |descs|
  {
    if n == 0 then {}
    else Positions(descs, n - 1) +
         if Occupies(descs[n - 1]) then Interval(descs[n - 1].off, descs[n - 1].len) else {}
  }

  lemma {:induction false} InPositions(descs: seq<Desc>, n: nat, p: nat)
    requires n <= |descs|
    ensures p in Positions(descs, n) <==> exists i | 0 <= i < n :: Occupies(descs[i]) && descs[i].off <= p < descs[i].off + descs[i].len
  {
    if n > 0 { InPositions(descs, n - 1, p); }
  }

  lemma PositionsApart(descs: seq<Desc>, used: nat, n: nat)
    requires n < |descs| && Laid(descs, used) && Occupies(descs[n])
    ensures Positions(descs, n) !! Interval(descs[n].off, descs[n].len)
  {
    forall p | p in Positions(descs, n) ensures p !in Interval(descs[n].off, descs[n].len) {
      InPositions(descs, n, p);
      var i :| 0 <= i < n && Occupies(descs[i]) && descs[i].off <= p < descs[i].off + descs[i].len;
      assert Clear(descs[i], descs[n]);
    }
  }

  lemma {:induction false} PositionsSize(descs: seq<Desc>, firsts: seq<int>, pool: seq<Byte>, used: nat, n: nat)
    requires n <= |descs| == |firsts| && used <= |pool| && Laid(descs, used)
    ensures |Positions(descs, n)| == TotalBytes(SlotsOf(descs, firsts, pool)[..n])
  {
    if n > 0 {
      PositionsSize(descs, firsts, pool, used, n - 1);
      var slots, d := SlotsOf(descs, firsts, pool), descs[n - 1];
      assert slots[..n][..n - 1] == slots[..n - 1];
      if Occupies(d) { PositionsApart(descs, used, n - 1); }
    }
  }

  lemma SubsetFull(a: set<nat>, n: nat)
    requires |a| == n && (forall p | p in a :: p < n)
    ensures forall p: nat | p < n :: p in a
  {
    var all := Interval(0, n);
    assert a <= all;
    if a != all { SmallerSubset(a, all); }
  }

  lemma SmallerSubset(a: set<nat>, b: set<nat>)
    requires a < b
    ensures |a| < |b|
  {
    var x :| x in b && x !in a;
    assert |b - {x}| == |b| - 1;
    SubsetSize(a, b - {x});
  }

  lemma {:induction false} SubsetSize(a: set<nat>, b: set<nat>)
    requires a <= b
    ensures |a| <= |b|
    decreases |a|
  {
    if a != {} {
      var x :| x in a;
      SubsetSize(a - {x}, b - {x});
    }
  }

  /** Every pool byte below `used` belongs to exactly one descriptor. */
  lemma ExactlyTiled(descs: seq<Desc>, firsts: seq<int>, pool: seq<Byte>, used: nat, count: nat, p: nat)
    requires Sound(descs, firsts, pool, used, count) && p < used
    ensures exists i | 0 <= i < |descs| :: Occupies(descs[i]) && descs[i].off <= p < descs[i].off + descs[i].len
    ensures forall i, j | 0 <= i < j < |descs| && Occupies(descs[i]) && Occupies(descs[j]) ::
              !(descs[i].off <= p < descs[i].off + descs[i].len && descs[j].off <= p < descs[j].off + descs[j].len)
  {
    var n, slots := |descs|, SlotsOf(descs, firsts, pool);
    PositionsSize(descs, firsts, pool, used, n);
    assert slots[..n] == slots;
    forall q | q in Positions(descs, n) ensures q < used { InPositions(descs, n, q); }
    SubsetFull(Positions(descs, n), used);
    InPositions(descs, n, p);
    forall i, j | 0 <= i < j < |descs| && Occupies(descs[i]) && Occupies(descs[j])
      ensures !(descs[i].off <= p < descs[i].off + descs[i].len && descs[j].off <= p < descs[j].off + descs[j].len)
    {
      assert Clear(descs[i], descs[j]);
    }
  }
}
