/** Compaction, rotation and merging on the pool: what each does to every descriptor. */
module SctpMoves {
  import opened SctpTypes
  import opened SctpReceiver
  import opened SctpLayout
  import opened Slices

  // ----- compaction -----

  /** Adjusts a descriptor that lies past removed bytes off..off+n. */
  function Lowered(d: Desc, off: nat, n: nat): Desc {
    if d.valid && d.off > off then d.(off := (d.off - n) % WRAP) else d
  }

  /** `after` is `before` with the bytes off..off+n below `used` squeezed out. */
  predicate Squeezed(before: seq<Byte>, after: seq<Byte>, off: nat, n: nat, used: nat) {
    && |after| == |before| && off + n <= used <= |before|
    && after[..off] == before[..off]
    && after[off..used - n] == before[off + n..used]
  }

  /** Equal stretches give a moved descriptor the same bytes. */
  lemma MovedBytes(d: Desc, to: nat, before: seq<Byte>, after: seq<Byte>)
    requires Occupies(d) && d.off + d.len <= |before| && to + d.len <= |after|
    requires after[to..to + d.len] == before[d.off..d.off + d.len]
    ensures Bytes(d.(off := to), after) == Bytes(d, before)
  {
  }

  lemma SqueezedAbove(d: Desc, before: seq<Byte>, after: seq<Byte>, off: nat, n: nat, used: nat)
    requires Squeezed(before, after, off, n, used) && Occupies(d) && off + n <= d.off && d.off + d.len <= used
    ensures Bytes(d.(off := d.off - n), after) == Bytes(d, before)
  {
    SameWithin(after, before, off, off + n, used - n - off, d.off - n - off, d.len);
    MovedBytes(d, d.off - n, before, after);
  }

  lemma SqueezedBelow(d: Desc, before: seq<Byte>, after: seq<Byte>, off: nat, n: nat, used: nat)
    requires Squeezed(before, after, off, n, used) && Occupies(d) && d.off + d.len <= off
    ensures Bytes(d, after) == Bytes(d, before)
  {
    SameWithin(after, before, 0, 0, off, d.off, d.len);
    MovedBytes(d, d.off, before, after);
  }

  lemma SqueezedBytes(d: Desc, before: seq<Byte>, after: seq<Byte>, off: nat, n: nat, used: nat)
    requires Squeezed(before, after, off, n, used) && |before| < WRAP
    requires Occupies(d) && d.off + d.len <= used && (d.off + d.len <= off || off + n <= d.off) && n > 0
    ensures Bytes(Lowered(d, off, n), after) == Bytes(d, before)
    ensures Lowered(d, off, n).off == if d.off > off then d.off - n else d.off
    ensures d.off > off ==> d.off >= off + n
  {
    if d.off > off {
      assert (d.off - n) % WRAP == d.off - n;
      SqueezedAbove(d, before, after, off, n, used);
    } else {
      SqueezedBelow(d, before, after, off, n, used);
    }
  }

  /** Squeezing out the bytes of descriptor `i` leaves a laid-out table over the rest. */
  lemma SqueezeLaid(descs: seq<Desc>, moved: seq<Desc>, before: seq<Byte>, after: seq<Byte>, i: nat, used: nat)
    requires i < |descs| == |moved| && Occupies(descs[i]) && Laid(descs, used) && |before| < WRAP
    requires Squeezed(before, after, descs[i].off, descs[i].len, used)
    requires moved[i].len == 0
    requires forall k | 0 <= k < |descs| && k != i :: moved[k] == Lowered(descs[k], descs[i].off, descs[i].len)
    ensures Laid(moved, used - descs[i].len)
    ensures forall k | 0 <= k < |descs| && k != i && descs[k].valid :: Bytes(moved[k], after) == Bytes(descs[k], before)
  {
    var off, n := descs[i].off, descs[i].len;
    forall k | 0 <= k < |descs| && k != i && Occupies(descs[k])
      ensures Bytes(moved[k], after) == Bytes(descs[k], before)
      ensures moved[k].off == (if descs[k].off > off then descs[k].off - n else descs[k].off) && moved[k].off + moved[k].len <= used - n
    {
      assert Clear(descs[k], descs[i]);
      SqueezedBytes(descs[k], before, after, off, n, used);
    }
    forall k, l | 0 <= k < |moved| && 0 <= l < |moved| && k != l ensures Clear(moved[k], moved[l]) {
      assert Clear(descs[k], descs[l]);
      if k != i && l != i { assert Clear(descs[k], descs[i]) && Clear(descs[l], descs[i]); }
    }
  }

  /** The descriptor and byte changes that reclaiming descriptor `i` makes. */
  predicate ReclaimedAt(descs: seq<Desc>, moved: seq<Desc>, before: seq<Byte>, after: seq<Byte>, i: nat, used: nat, cum: int)
    requires i < |descs|
  {
    && |moved| == |descs| && descs[i].valid && descs[i].delivered
    && moved[i] == descs[i].(len := 0, valid := descs[i].tsn > cum)
    && if descs[i].len > 0 then
         && Squeezed(before, after, descs[i].off, descs[i].len, used)
         && forall k | 0 <= k < |descs| && k != i :: moved[k] == Lowered(descs[k], descs[i].off, descs[i].len)
       else after == before && forall k | 0 <= k < |descs| && k != i :: moved[k] == descs[k]
  }

  lemma ReclaimedSlots(descs: seq<Desc>, moved: seq<Desc>, firsts: seq<int>, before: seq<Byte>, after: seq<Byte>, i: nat, used: nat, cum: int)
    requires i < |descs| == |firsts| && used <= |before| < WRAP && Laid(descs, used)
    requires ReclaimedAt(descs, moved, before, after, i, used, cum)
    ensures Laid(moved, used - descs[i].len)
    ensures SlotsOf(moved, firsts, after) ==
            SlotsOf(descs, firsts, before)[i := Reclaimed(SlotsOf(descs, firsts, before)[i], cum)]
  {
    if descs[i].len > 0 {
      SqueezeLaid(descs, moved, before, after, i, used);
    } else {
      forall k, l | 0 <= k < |moved| && 0 <= l < |moved| && k != l ensures Clear(moved[k], moved[l]) {
        assert Clear(descs[k], descs[l]);
      }
    }
  }

  lemma ReclaimSound(descs: seq<Desc>, moved: seq<Desc>, firsts: seq<int>, before: seq<Byte>, after: seq<Byte>,
                     i: nat, used: nat, count: nat, cum: int)
    requires Sound(descs, firsts, before, used, count) && i < |descs|
    requires ReclaimedAt(descs, moved, before, after, i, used, cum)
    ensures descs[i].len <= used && (descs[i].tsn <= cum ==> count > 0)
    ensures Sound(moved, firsts, after, used - descs[i].len, if descs[i].tsn <= cum then count - 1 else count)
    ensures SlotsOf(moved, firsts, after) ==
            SlotsOf(descs, firsts, before)[i := Reclaimed(SlotsOf(descs, firsts, before)[i], cum)]
  {
    var slots := SlotsOf(descs, firsts, before);
    ReclaimedSlots(descs, moved, firsts, before, after, i, used, cum);
    TotalBytesUpdate(slots, i, Reclaimed(slots[i], cum));
  }

  // ----- rotation -----

  function Reversed(s: seq<Byte>): (r: seq<Byte>)
    ensures |r| == |s|
  {
    seq(|s|, k requires 0 <= k < |s| => s[|s| - 1 - k])
  }

  /** Three reversals exchange two neighbouring stretches. */
  lemma ThreeReversals(a: seq<Byte>, b: seq<Byte>)
    ensures Reversed(Reversed(a) + Reversed(b)) == b + a
  {
  }

  /** The bytes p..p+n in reverse order. */
  function Flipped(b: seq<Byte>, p: nat, n: nat): (r: seq<Byte>)
    requires p + n <= |b|
    ensures |r| == |b|
  {
    b[..p] + Reversed(b[p..p + n]) + b[p + n..]
  }

  /** Reversing a whole stretch of two reversed parts exchanges the parts. */
  lemma FlipWhole(x: seq<Byte>, a: seq<Byte>, c: seq<Byte>, y: seq<Byte>)
    ensures Flipped(x + (Reversed(a) + Reversed(c)) + y, |x|, |a| + |c|) == x + (c + a) + y
  {
    MiddleOf(x, Reversed(a) + Reversed(c), y);
    ThreeReversals(a, c);
  }

  lemma FlipMiddle(x: seq<Byte>, a: seq<Byte>, y: seq<Byte>)
    ensures Flipped(x + a + y, |x|, |a|) == x + Reversed(a) + y
  {
    MiddleOf(x, a, y);
  }

  /** `after` is `before` with the stretch off..off+n moved down to `pos`. */
  predicate Rotated(before: seq<Byte>, after: seq<Byte>, pos: nat, off: nat, n: nat) {
    pos <= off && off + n <= |before| && after == before[..pos] + before[off..off + n] + before[pos..off] + before[off + n..]
  }

  /** The program's three reversals rotate. */
  lemma ThreeFlips(b: seq<Byte>, pos: nat, off: nat, n: nat)
    requires pos <= off && off + n <= |b|
    ensures Rotated(b, Flipped(Flipped(Flipped(b, pos, off - pos), off, n), pos, off - pos + n), pos, off, n)
  {
    var x, a, c, y := b[..pos], b[pos..off], b[off..off + n], b[off + n..];
    assert b == x + a + (c + y);
    FlipMiddle(x, a, c + y);
    assert x + Reversed(a) + (c + y) == (x + Reversed(a)) + c + y;
    FlipMiddle(x + Reversed(a), c, y);
    assert (x + Reversed(a)) + Reversed(c) + y == x + (Reversed(a) + Reversed(c)) + y;
    FlipWhole(x, a, c, y);
    assert x + (c + a) + y == x + c + a + y;
  }

  /** Where the four stretches of a rotated pool lie. */
  lemma RotatedStretches(before: seq<Byte>, after: seq<Byte>, pos: nat, off: nat, n: nat)
    requires Rotated(before, after, pos, off, n)
    ensures |after| == |before|
    ensures after[0..pos] == before[0..pos] && after[pos..pos + n] == before[off..off + n]
    ensures after[pos + n..pos + n + (off - pos)] == before[pos..pos + (off - pos)]
    ensures after[off + n..off + n + (|before| - off - n)] == before[off + n..off + n + (|before| - off - n)]
  {
    var a, b, c, d := before[..pos], before[off..off + n], before[pos..off], before[off + n..];
    MiddleOf(a, b, c + d);
    MiddleOf(a + b, c, d);
    Regroup(a, b, c, d);
    assert a + b + (c + d) == after;
  }

  function Raised(d: Desc, pos: nat, off: nat, n: nat): Desc {
    if d.valid && pos <= d.off < off then d.(off := (d.off + n) % WRAP) else d
  }

  lemma RotatedAside(d: Desc, before: seq<Byte>, after: seq<Byte>, pos: nat, off: nat, n: nat)
    requires Rotated(before, after, pos, off, n) && Occupies(d) && d.off + d.len <= |before|
    requires d.off + d.len <= pos || off + n <= d.off
    ensures Bytes(d, after) == Bytes(d, before)
  {
    RotatedStretches(before, after, pos, off, n);
    if d.off + d.len <= pos {
      SameWithin(after, before, 0, 0, pos, d.off, d.len);
    } else {
      SameWithin(after, before, off + n, off + n, |before| - off - n, d.off - off - n, d.len);
    }
    MovedBytes(d, d.off, before, after);
  }

  lemma RotatedOver(d: Desc, before: seq<Byte>, after: seq<Byte>, pos: nat, off: nat, n: nat)
    requires Rotated(before, after, pos, off, n) && Occupies(d) && pos <= d.off && d.off + d.len <= off
    ensures d.off + n + d.len <= |after| && Bytes(d.(off := d.off + n), after) == Bytes(d, before)
  {
    RotatedStretches(before, after, pos, off, n);
    SameWithin(after, before, pos + n, pos, off - pos, d.off - pos, d.len);
    MovedBytes(d, d.off + n, before, after);
  }

  lemma RotatedBytes(d: Desc, before: seq<Byte>, after: seq<Byte>, pos: nat, off: nat, n: nat)
    requires Rotated(before, after, pos, off, n) && |before| < WRAP
    requires Occupies(d) && d.off + d.len <= |before|
    requires d.off + d.len <= off || off + n <= d.off
    requires d.off + d.len <= pos || pos <= d.off
    ensures Bytes(Raised(d, pos, off, n), after) == Bytes(d, before)
    ensures Raised(d, pos, off, n).off == if pos <= d.off < off then d.off + n else d.off
    ensures pos <= d.off < off ==> d.off + d.len <= off
  {
    if pos <= d.off < off {
      RotatedOver(d, before, after, pos, off, n);
    } else {
      RotatedAside(d, before, after, pos, off, n);
    }
  }

  /** No descriptor other than `slot` straddles position `pos`. */
  predicate Boundary(descs: seq<Desc>, slot: nat, pos: nat) {
    forall k | 0 <= k < |descs| && k != slot && Occupies(descs[k]) :: descs[k].off + descs[k].len <= pos || pos <= descs[k].off
  }

  /** Where a descriptor lies after fragment `slot` was rotated down to `pos`. */
  function RotatedOff(d: Desc, pos: nat, off: nat, n: nat): nat {
    if pos <= d.off < off then d.off + n else d.off
  }

  /** What a rotation does to the descriptors other than the one that moves. */
  predicate Turned(descs: seq<Desc>, moved: seq<Desc>, slot: nat, pos: nat)
    requires slot < |descs| == |moved|
  {
    && moved[slot] == descs[slot].(off := pos)
    && forall k | 0 <= k < |descs| && k != slot :: moved[k] == Raised(descs[k], pos, descs[slot].off, descs[slot].len)
  }

  lemma RotateOne(descs: seq<Desc>, moved: seq<Desc>, before: seq<Byte>, after: seq<Byte>, slot: nat, pos: nat, used: nat, k: nat)
    requires slot < |descs| == |moved| && Occupies(descs[slot]) && Laid(descs, used) && used <= |before| < WRAP
    requires Rotated(before, after, pos, descs[slot].off, descs[slot].len)
    requires Boundary(descs, slot, pos) && Turned(descs, moved, slot, pos)
    requires k < |descs| && k != slot && Occupies(descs[k])
    ensures Bytes(moved[k], after) == Bytes(descs[k], before)
    ensures moved[k] == descs[k].(off := RotatedOff(descs[k], pos, descs[slot].off, descs[slot].len))
    ensures pos <= descs[k].off < descs[slot].off ==> descs[k].off + descs[k].len <= descs[slot].off
    ensures descs[k].off >= descs[slot].off ==> descs[k].off >= descs[slot].off + descs[slot].len
    ensures descs[k].off < pos ==> descs[k].off + descs[k].len <= pos
  {
    assert Clear(descs[k], descs[slot]);
    RotatedBytes(descs[k], before, after, pos, descs[slot].off, descs[slot].len);
  }

  /** Two descriptors that a rotation moved apart or kept apart. */
  lemma RotatedClear(a: Desc, b: Desc, pos: nat, off: nat, n: nat)
    requires Clear(a, b)
    requires Occupies(a) ==> (pos <= a.off < off ==> a.off + a.len <= off) && (a.off < pos ==> a.off + a.len <= pos)
    requires Occupies(b) ==> (pos <= b.off < off ==> b.off + b.len <= off) && (b.off < pos ==> b.off + b.len <= pos)
    requires Occupies(a) ==> a.off < off || a.off >= off + n
    requires Occupies(b) ==> b.off < off || b.off >= off + n
    ensures Clear(a.(off := RotatedOff(a, pos, off, n)), b.(off := RotatedOff(b, pos, off, n)))
  {
  }

  lemma RotateLaid(descs: seq<Desc>, moved: seq<Desc>, before: seq<Byte>, after: seq<Byte>, slot: nat, pos: nat, used: nat)
    requires slot < |descs| == |moved| && Occupies(descs[slot]) && Laid(descs, used) && used <= |before| < WRAP
    requires pos <= descs[slot].off && Rotated(before, after, pos, descs[slot].off, descs[slot].len)
    requires Boundary(descs, slot, pos) && Turned(descs, moved, slot, pos)
    ensures Laid(moved, used)
  {
    var off, n := descs[slot].off, descs[slot].len;
    forall k | 0 <= k < |descs| && k != slot && Occupies(descs[k])
      ensures moved[k] == descs[k].(off := RotatedOff(descs[k], pos, off, n))
      ensures pos <= descs[k].off < off ==> descs[k].off + descs[k].len <= off
      ensures descs[k].off < pos ==> descs[k].off + descs[k].len <= pos
      ensures descs[k].off < off || descs[k].off >= off + n
    {
      RotateOne(descs, moved, before, after, slot, pos, used, k);
    }
    forall k, l | 0 <= k < |moved| && 0 <= l < |moved| && k != l ensures Clear(moved[k], moved[l]) {
      assert Clear(descs[k], descs[l]);
      if k != slot && l != slot && Occupies(descs[k]) && Occupies(descs[l]) {
        RotatedClear(descs[k], descs[l], pos, off, n);
      }
    }
  }

  lemma RotateBytes(descs: seq<Desc>, moved: seq<Desc>, before: seq<Byte>, after: seq<Byte>, slot: nat, pos: nat, used: nat, k: nat)
    requires slot < |descs| == |moved| && Occupies(descs[slot]) && Laid(descs, used) && used <= |before| < WRAP
    requires pos <= descs[slot].off && Rotated(before, after, pos, descs[slot].off, descs[slot].len)
    requires Boundary(descs, slot, pos) && Turned(descs, moved, slot, pos) && k < |descs| && descs[k].valid
    ensures Bytes(moved[k], after) == Bytes(descs[k], before)
  {
    if k == slot {
      RotatedStretches(before, after, pos, descs[slot].off, descs[slot].len);
      MovedBytes(descs[k], pos, before, after);
    } else if Occupies(descs[k]) {
      RotateOne(descs, moved, before, after, slot, pos, used, k);
    }
  }

  /** Offsets after fragment `slot` was moved to `pos`: what lay below stays, the rest lies behind it. */
  predicate Shifted(before: seq<Desc>, after: seq<Desc>, slot: nat, pos: nat)
    requires slot < |before| == |after|
  {
    && (forall k | 0 <= k < |before| :: after[k] == before[k].(off := after[k].off))
    && (if Occupies(before[slot]) then
          && after[slot].off == pos
          && forall k | 0 <= k < |before| && k != slot && Occupies(before[k]) ::
               if before[k].off < pos then after[k].off == before[k].off else after[k].off >= pos + before[slot].len
        else after == before)
  }

  /** A fragment in place at `pos` needs no move. */
  lemma ShiftedInPlace(descs: seq<Desc>, slot: nat, pos: nat, used: nat)
    requires slot < |descs| && Laid(descs, used)
    requires Occupies(descs[slot]) ==> descs[slot].off == pos
    ensures Shifted(descs, descs, slot, pos)
  {
    assert forall k | 0 <= k < |descs| && k != slot :: Clear(descs[k], descs[slot]);
  }

  /** What a move to the end of a fragment at the front requires. */
  lemma BehindFront(descs: seq<Desc>, i: nat, j: nat, used: nat)
    requires i < |descs| && j < |descs| && i != j && Laid(descs, used)
    requires Occupies(descs[i]) && descs[i].off == 0
    ensures Boundary(descs, j, descs[i].len)
    ensures Occupies(descs[j]) ==> descs[i].len <= descs[j].off
  {
    assert forall k | 0 <= k < |descs| && k != i :: Clear(descs[k], descs[i]);
  }

  // ----- merging -----

  /** The descriptor of `a` once the bytes of `b` directly follow its own. */
  function MergedDesc(a: Desc, b: Desc): Desc {
    a.(len := a.len + b.len, tsn := b.tsn, end := a.end || b.end, forwarded := a.forwarded || b.forwarded)
  }

  /** With `a` at the front of the pool and `b` right behind it, one descriptor covers both. */
  lemma MergeLaid(descs: seq<Desc>, pool: seq<Byte>, i: nat, j: nat, used: nat)
    requires i < |descs| && j < |descs| && i != j && Laid(descs, used) && used <= |pool|
    requires descs[i].valid && descs[j].valid && descs[i].len > 0 && descs[i].off == 0
    requires descs[j].len > 0 ==> descs[j].off == descs[i].len
    ensures var m := MergedDesc(descs[i], descs[j]);
            && Laid(descs[i := m][j := descs[j].(valid := false)], used)
            && Bytes(m, pool) == Bytes(descs[i], pool) + Bytes(descs[j], pool)
  {
    var m := MergedDesc(descs[i], descs[j]);
    var moved := descs[i := m][j := descs[j].(valid := false)];
    forall k, l | 0 <= k < |moved| && 0 <= l < |moved| && k != l ensures Clear(moved[k], moved[l]) {
      assert Clear(descs[k], descs[l]);
      if k == i && l != j { assert Clear(descs[j], descs[l]) && Clear(descs[i], descs[l]); }
      if l == i && k != j { assert Clear(descs[k], descs[j]) && Clear(descs[k], descs[i]); }
    }
    if descs[j].len > 0 {
      assert pool[0..m.len] == pool[0..descs[i].len] + pool[descs[i].len..m.len];
    }
  }

  /** Moving the two parts and extending the first descriptor joins their bytes
      exactly when the first part is not empty, the second is, or the stale
      offset of the empty first part happens to be the front of the pool. */
  lemma MergeJoinsIff(a: Desc, b: Desc)
    requires a.valid && b.valid
    requires a.len > 0 ==> a.off == 0
    requires b.len > 0 ==> b.off == a.len
    ensures (forall pool: seq<Byte> | a.len + b.len <= |pool| :: SameStretch(MergedDesc(a, b), a.len + b.len, pool)) <==>
            a.len > 0 || b.len == 0 || a.off == 0
  {
    if a.len == 0 && b.len > 0 && a.off > 0 {
      var pool := StaleNames(a, b);
      assert !SameStretch(MergedDesc(a, b), a.len + b.len, pool);
    } else {
      forall pool: seq<Byte> | a.len + b.len <= |pool| ensures SameStretch(MergedDesc(a, b), a.len + b.len, pool) {
        FreshNames(a, b, pool);
      }
    }
  }

  /** A pool in which the stale offset names other bytes. */
  lemma StaleNames(a: Desc, b: Desc) returns (pool: seq<Byte>)
    requires a.valid && b.valid && a.len == 0 && b.len > 0 && a.off > 0
    ensures a.len + b.len <= |pool| && !SameStretch(MergedDesc(a, b), a.len + b.len, pool)
  {
    pool := seq(a.off + b.len, k => if k == a.off then 1 else 0);
    var bytes := Bytes(MergedDesc(a, b), pool);
    assert bytes[0] == pool[a.off] == 1 && pool[..a.len + b.len][0] == 0;
  }

  lemma FreshNames(a: Desc, b: Desc, pool: seq<Byte>)
    requires a.valid && b.valid && (a.len > 0 ==> a.off == 0) && (b.len > 0 ==> b.off == a.len) && a.len + b.len <= |pool|
    requires a.len > 0 || b.len == 0 || a.off == 0
    ensures SameStretch(MergedDesc(a, b), a.len + b.len, pool)
  {
  }

  /** The descriptor of a chunk whose payload was put behind `used` bytes of the pool. */
  function StoredDesc(c: Chunk, used: nat): Desc {
    Desc(true, c.tsn, c.sid, c.ssn, c.ppid, c.begin, c.end, c.unordered, false, false, used, |c.payload|)
  }

  /** A last fragment of one byte arrives and then the empty first fragment. Joined, they name the byte
      behind the one that came. */
  lemma EmptyFirstExample(a: Chunk, b: Chunk, x: Byte, y: Byte)
    requires b.payload == [x] && a.payload == []
    ensures var last := StoredDesc(b, 0); var first := StoredDesc(a, |b.payload|);
            Bytes(first, [x, y]) + Bytes(last, [x, y]) == [x] && Bytes(MergedDesc(first, last), [x, y]) == [y]
  {
  }

  /** The descriptor names the first `n` bytes of the pool. */
  predicate SameStretch(d: Desc, n: nat, pool: seq<Byte>)
    requires n <= |pool|
  {
    Bytes(d, pool) == pool[..n]
  }

  // ----- whole-table consequences -----

  /** Same bytes and fields in every valid descriptor: the same slots. */
  lemma SameSlots(descs: seq<Desc>, moved: seq<Desc>, firsts: seq<int>, before: seq<Byte>, after: seq<Byte>)
    requires |descs| == |moved| == |firsts|
    requires forall k | 0 <= k < |descs| :: moved[k] == descs[k].(off := moved[k].off)
    requires forall k | 0 <= k < |descs| && descs[k].valid :: Bytes(moved[k], after) == Bytes(descs[k], before)
    ensures SlotsOf(moved, firsts, after) == SlotsOf(descs, firsts, before)
  {
    var a, b := SlotsOf(moved, firsts, after), SlotsOf(descs, firsts, before);
    forall k | 0 <= k < |a| ensures a[k] == b[k] { }
  }

  /** Rotating a fragment to a boundary changes no slot. */
  lemma RotateSound(descs: seq<Desc>, moved: seq<Desc>, firsts: seq<int>, before: seq<Byte>, after: seq<Byte>,
                    slot: nat, pos: nat, used: nat, count: nat)
    requires Sound(descs, firsts, before, used, count) && slot < |descs| == |moved| && Occupies(descs[slot])
    requires pos <= descs[slot].off && Rotated(before, after, pos, descs[slot].off, descs[slot].len)
    requires Boundary(descs, slot, pos) && Turned(descs, moved, slot, pos)
    ensures Sound(moved, firsts, after, used, count)
    ensures SlotsOf(moved, firsts, after) == SlotsOf(descs, firsts, before)
    ensures Shifted(descs, moved, slot, pos)
  {
    RotateLaid(descs, moved, before, after, slot, pos, used);
    forall k | 0 <= k < |descs| && descs[k].valid ensures Bytes(moved[k], after) == Bytes(descs[k], before) {
      RotateBytes(descs, moved, before, after, slot, pos, used, k);
    }
    SameSlots(descs, moved, firsts, before, after);
    forall k | 0 <= k < |descs| && k != slot && Occupies(descs[k])
      ensures if descs[k].off < pos then moved[k].off == descs[k].off else moved[k].off >= pos + descs[slot].len
    {
      RotateOne(descs, moved, before, after, slot, pos, used, k);
    }
  }

  /** Joining two neighbouring fragments is the merge of their slots. */
  lemma MergeSound(descs: seq<Desc>, firsts: seq<int>, pool: seq<Byte>, i: nat, j: nat, used: nat, count: nat)
    requires Sound(descs, firsts, pool, used, count) && i < |descs| && j < |descs| && i != j
    requires descs[i].valid && descs[j].valid && descs[i].len > 0 && descs[i].off == 0
    requires descs[j].len > 0 ==> descs[j].off == descs[i].len
    ensures var moved := descs[i := MergedDesc(descs[i], descs[j])][j := descs[j].(valid := false)];
            && SlotsOf(moved, firsts, pool) == MergeAt(SlotsOf(descs, firsts, pool), i, j)
            && count > 0 && Sound(moved, firsts, pool, used, count - 1)
  {
    var slots := SlotsOf(descs, firsts, pool);
    var moved := descs[i := MergedDesc(descs[i], descs[j])][j := descs[j].(valid := false)];
    MergeLaid(descs, pool, i, j, used);
    CountHeldMergeAt(slots, i, j);
    CountHeldPositive(slots, i);
    var merged := SlotsOf(moved, firsts, pool);
    forall k | 0 <= k < |merged| ensures merged[k] == MergeAt(slots, i, j)[k] { }
  }

  lemma AdmitLaid(descs: seq<Desc>, slot: nat, d: Desc, used: nat)
    requires Laid(descs, used) && slot < |descs| && d.off == used
    ensures Laid(descs[slot := d], used + d.len)
  {
    var moved := descs[slot := d];
    forall k, l | 0 <= k < |moved| && 0 <= l < |moved| && k != l ensures Clear(moved[k], moved[l]) {
      if k != slot && l != slot { assert Clear(descs[k], descs[l]); }
    }
  }

  lemma AdmitSlots(descs: seq<Desc>, firsts: seq<int>, before: seq<Byte>, after: seq<Byte>, slot: nat, d: Desc, first: int, used: nat)
    requires |firsts| == |descs| && Laid(descs, used) && slot < |descs| && used <= |before| == |after| && after[..used] == before[..used]
    ensures SlotsOf(descs[slot := d], firsts[slot := first], after) ==
            SlotsOf(descs, firsts, before)[slot := SlotOf(d, first, after)]
  {
    var filled, want := SlotsOf(descs[slot := d], firsts[slot := first], after), SlotsOf(descs, firsts, before)[slot := SlotOf(d, first, after)];
    forall k | 0 <= k < |filled| ensures filled[k] == want[k] {
      if k != slot && Occupies(descs[k]) {
        SameWithin(after, before, 0, 0, used, descs[k].off, descs[k].len);
      }
    }
  }

  /** Appending a fragment at the end of the used bytes fills its slot. */
  lemma AdmitSound(descs: seq<Desc>, firsts: seq<int>, before: seq<Byte>, after: seq<Byte>, slot: nat, d: Desc, first: int, used: nat, count: nat)
    requires Sound(descs, firsts, before, used, count) && slot < |descs| && !descs[slot].valid
    requires d.valid && d.off == used && used + d.len <= |before| == |after| && after[..used] == before[..used]
    requires !d.delivered && !d.end ==> d.len > 0
    ensures Sound(descs[slot := d], firsts[slot := first], after, used + d.len, count + 1)
    ensures SlotsOf(descs[slot := d], firsts[slot := first], after) ==
            SlotsOf(descs, firsts, before)[slot := SlotOf(d, first, after)]
  {
    var slots := SlotsOf(descs, firsts, before);
    AdmitLaid(descs, slot, d, used);
    AdmitSlots(descs, firsts, before, after, slot, d, first, used);
    TotalBytesUpdate(slots, slot, SlotOf(d, first, after));
    assert HeldBytes(SlotOf(d, first, after)) == d.len;
  }

  /** `moved` is `descs` with some entries marked delivered or forwarded. */
  predicate Flagged(descs: seq<Desc>, moved: seq<Desc>) {
    && |moved| == |descs|
    && forall k | 0 <= k < |descs| ::
         && moved[k] == descs[k].(delivered := moved[k].delivered, forwarded := moved[k].forwarded)
         && (descs[k].delivered ==> moved[k].delivered)
  }

  lemma {:induction false} FlaggedTotals(a: Slots, b: Slots)
    requires |a| == |b|
    requires forall k | 0 <= k < |a| :: HeldBytes(a[k]) == HeldBytes(b[k]) && (a[k].Some? <==> b[k].Some?)
    ensures TotalBytes(a) == TotalBytes(b) && CountHeld(a) == CountHeld(b)
  {
    if a != [] { FlaggedTotals(a[..|a| - 1], b[..|b| - 1]); }
  }

  /** Marking entries leaves the layout alone. */
  lemma FlagSound(descs: seq<Desc>, moved: seq<Desc>, firsts: seq<int>, pool: seq<Byte>, used: nat, count: nat)
    requires Sound(descs, firsts, pool, used, count) && Flagged(descs, moved)
    ensures Sound(moved, firsts, pool, used, count)
    ensures forall k | 0 <= k < |descs| :: SlotsOf(moved, firsts, pool)[k] ==
              if descs[k].valid then Some(SlotsOf(descs, firsts, pool)[k].value.(delivered := moved[k].delivered, forwarded := moved[k].forwarded))
              else None
  {
    FlaggedTotals(SlotsOf(descs, firsts, pool), SlotsOf(moved, firsts, pool));
    forall k, l | 0 <= k < |moved| && 0 <= l < |moved| && k != l ensures Clear(moved[k], moved[l]) {
      assert Clear(descs[k], descs[l]);
    }
  }
}
