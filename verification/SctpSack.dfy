/** Building the gap-acknowledgement blocks of a SACK from the descriptor table
    (section 3.3.4 of RFC 9260), and what the block list says. */
module SctpSack {
  import opened SctpTypes
  import opened SctpReceiver
  import opened SctpSteps
  import opened SctpSender

  // ----- sorting the held TSNs -----

  predicate Ascending(s: seq<int>) {
    forall i, j | 0 <= i < j < |s| :: s[i] < s[j]
  }

  predicate Distinct(s: seq<int>) {
    forall i, j | 0 <= i < j < |s| :: s[i] != s[j]
  }

  predicate AllPast(s: seq<int>, cum: int) {
    forall i | 0 <= i < |s| :: cum < s[i]
  }

  /** `key` inserted behind every element that is not larger. */
  function Insert(s: seq<int>, key: int): (r: seq<int>)
    ensures |r| == |s| + 1
  {
    if s == [] || s[|s| - 1] <= key then s + [key]
    else Insert(s[..|s| - 1], key) + [s[|s| - 1]]
  }

  /** Where an element goes: behind the last one that is not larger. */
  lemma {:induction false} InsertAt(s: seq<int>, key: int, at: nat)
    requires at <= |s| && (at > 0 ==> s[at - 1] <= key) && forall k | at <= k < |s| :: s[k] > key
    ensures Insert(s, key) == s[..at] + [key] + s[at..]
    decreases |s|
  {
    if at < |s| {
      var front := s[..|s| - 1];
      InsertAt(front, key, at);
      assert front[..at] == s[..at] && front[at..] + [s[|s| - 1]] == s[at..];
    }
  }

  function Sort(s: seq<int>): (r: seq<int>)
    ensures |r| == |s|
  {
    if s == [] then [] else Insert(Sort(s[..|s| - 1]), s[|s| - 1])
  }

  /** TSNs past `cum` held by the first `n` descriptors, in descriptor order. */
  function HeldPast(slots: Slots, cum: int, n: nat): (r: seq<int>)
    requires n <= |slots|
    ensures |r| <= n
  {
    if n == 0 then []
    else HeldPast(slots, cum, n - 1) +
         if slots[n - 1].Some? && slots[n - 1].value.tsn > cum then [slots[n - 1].value.tsn] else []
  }

  lemma {:induction false} InsertKeeps(s: seq<int>, key: int)
    requires Ascending(s) && key !in s
    ensures Ascending(Insert(s, key))
    ensures forall x :: x in Insert(s, key) <==> x in s || x == key
  {
    if s != [] && s[|s| - 1] > key {
      var n := |s| - 1;
      assert s == s[..n] + [s[n]];
      InsertKeeps(s[..n], key);
      var front := Insert(s[..n], key);
      forall i | 0 <= i < |front| ensures front[i] < s[n] { assert front[i] in front; }
    } else if s != [] {
      assert s[|s| - 1] in s;
    }
  }

  lemma {:induction false} SortSorts(s: seq<int>)
    requires Distinct(s)
    ensures Ascending(Sort(s))
    ensures forall x :: x in Sort(s) <==> x in s
  {
    if s != [] {
      var n := |s| - 1;
      assert s == s[..n] + [s[n]];
      SortSorts(s[..n]);
      InsertKeeps(Sort(s[..n]), s[n]);
    }
  }

  // ----- blocks -----

  /** Adds one 16-bit offset: it extends the last block or starts a new one. */
  function AddOffset(blocks: seq<Gap>, offset: nat): (r: seq<Gap>)
    ensures |blocks| <= |r| <= |blocks| + 1
  {
    if blocks != [] && offset == blocks[|blocks| - 1].end + 1
    then blocks[|blocks| - 1 := Gap(blocks[|blocks| - 1].start, offset)]
    else blocks + [Gap(offset, offset)]
  }

  /** Blocks after the TSNs from position `i` on, until the list is full. Offsets are 16 bits wide. */
  function BlocksFrom(tsns: seq<int>, cum: int, i: nat, blocks: seq<Gap>): seq<Gap>
    requires i <= |tsns|
    decreases |tsns| - i
  {
    if i == |tsns| || |blocks| >= MAX_GAP_BLOCKS then blocks
    else BlocksFrom(tsns, cum, i + 1, AddOffset(blocks, (tsns[i] - cum) % WRAP))
  }

  /** How many TSNs BlocksFrom looks at before it stops. */
  function Visited(tsns: seq<int>, cum: int, i: nat, blocks: seq<Gap>): (n: nat)
    requires i <= |tsns|
    ensures i <= n <= |tsns|
    ensures n < |tsns| ==> |BlocksFrom(tsns, cum, i, blocks)| >= MAX_GAP_BLOCKS
    decreases |tsns| - i
  {
    if i == |tsns| || |blocks| >= MAX_GAP_BLOCKS then i
    else Visited(tsns, cum, i + 1, AddOffset(blocks, (tsns[i] - cum) % WRAP))
  }

  function SackGaps(v: Receiver): seq<Gap> {
    BlocksFrom(Sort(HeldPast(v.slots, v.cum, |v.slots|)), v.cum, 0, [])
  }

  predicate Reports(blocks: seq<Gap>, offset: int) {
    exists k | 0 <= k < |blocks| :: blocks[k].start <= offset <= blocks[k].end
  }

  /** Ascending, disjoint blocks with at least one unreported offset between neighbours. */
  predicate Separated(blocks: seq<Gap>) {
    && (forall k | 0 <= k < |blocks| :: 0 < blocks[k].start <= blocks[k].end < WRAP)
    && (forall k, l | 0 <= k < l < |blocks| :: blocks[k].end + 1 < blocks[l].start)
  }

  /** What holds after the first `i` TSNs when all of them are within 16 bits. */
  ghost predicate Faithful(tsns: seq<int>, cum: int, i: nat, blocks: seq<Gap>)
    requires i <= |tsns|
  {
    && Separated(blocks)
    && (i == 0 <==> blocks == [])
    && (i > 0 ==> blocks != [] && blocks[|blocks| - 1].end == tsns[i - 1] - cum)
    && (forall x: int :: Reports(blocks, x) <==> cum + x in tsns[..i])
  }

  lemma ReportsAdded(blocks: seq<Gap>, offset: nat)
    requires Separated(blocks) && (blocks != [] ==> blocks[|blocks| - 1].end < offset)
    ensures forall x: int :: Reports(AddOffset(blocks, offset), x) <==> Reports(blocks, x) || x == offset
  {
    var r := AddOffset(blocks, offset);
    forall x: int ensures Reports(r, x) <==> Reports(blocks, x) || x == offset {
      if Reports(blocks, x) {
        var k :| 0 <= k < |blocks| && blocks[k].start <= x <= blocks[k].end;
        assert r[k].start <= x <= r[k].end;
      }
      if Reports(r, x) && x != offset {
        var k :| 0 <= k < |r| && r[k].start <= x <= r[k].end;
        assert k < |blocks| && blocks[k].start <= x <= blocks[k].end;
      }
      if x == offset { assert r[|r| - 1].start <= x <= r[|r| - 1].end; }
    }
  }

  lemma FaithfulStep(tsns: seq<int>, cum: int, i: nat, blocks: seq<Gap>)
    requires Ascending(tsns) && i < |tsns| && cum < tsns[i] && tsns[i] - cum < WRAP
    requires Faithful(tsns, cum, i, blocks)
    ensures Faithful(tsns, cum, i + 1, AddOffset(blocks, (tsns[i] - cum) % WRAP))
  {
    var d := tsns[i] - cum;
    assert d % WRAP == d;
    ReportsAdded(blocks, d);
    assert tsns[..i + 1] == tsns[..i] + [tsns[i]];
    if i > 0 { assert tsns[i - 1] < tsns[i]; }
  }

  lemma {:induction false} FaithfulRun(tsns: seq<int>, cum: int, i: nat, blocks: seq<Gap>)
    requires Ascending(tsns) && i <= |tsns| && AllPast(tsns, cum)
    requires Faithful(tsns, cum, i, blocks)
    requires forall k | i <= k < Visited(tsns, cum, i, blocks) :: tsns[k] - cum < WRAP
    ensures Faithful(tsns, cum, Visited(tsns, cum, i, blocks), BlocksFrom(tsns, cum, i, blocks))
    decreases |tsns| - i
  {
    if i < |tsns| && |blocks| < MAX_GAP_BLOCKS {
      FaithfulStep(tsns, cum, i, blocks);
      FaithfulRun(tsns, cum, i + 1, AddOffset(blocks, (tsns[i] - cum) % WRAP));
    }
  }

  lemma {:induction false} SeparatedIsValid(blocks: seq<Gap>, previousEnd: nat)
    requires Separated(blocks) && (blocks != [] ==> previousEnd < blocks[0].start)
    ensures ValidGaps(blocks, previousEnd)
  {
    if blocks != [] {
      SeparatedIsValid(blocks[1..], blocks[0].end);
    }
  }

  // ----- what a block list says about the table -----

  /** Every reported offset is the offset of a held TSN. */
  ghost predicate Genuine(slots: Slots, cum: int, blocks: seq<Gap>) {
    forall x: int | Reports(blocks, x) :: Holds(slots, cum + x)
  }

  /** Held TSNs past `cum` are pairwise different. */
  predicate DistinctPast(slots: Slots, cum: int) {
    forall i, j | 0 <= i < j < |slots| && slots[i].Some? && slots[j].Some? && slots[i].value.tsn > cum ::
      slots[i].value.tsn != slots[j].value.tsn
  }

  lemma {:induction false} HeldPastIn(slots: Slots, cum: int, n: nat)
    requires n <= |slots|
    ensures forall x :: x in HeldPast(slots, cum, n) <==>
              x > cum && exists i | 0 <= i < n :: slots[i].Some? && slots[i].value.tsn == x
  {
    if n > 0 { HeldPastIn(slots, cum, n - 1); }
  }

  lemma {:induction false} HeldPastDistinct(slots: Slots, cum: int, n: nat)
    requires n <= |slots| && DistinctPast(slots, cum)
    ensures Distinct(HeldPast(slots, cum, n))
  {
    if n > 0 {
      HeldPastDistinct(slots, cum, n - 1);
      HeldPastIn(slots, cum, n - 1);
      var s := HeldPast(slots, cum, n - 1);
      forall k | 0 <= k < |s| && slots[n - 1].Some? && slots[n - 1].value.tsn > cum ensures s[k] != slots[n - 1].value.tsn {
        assert s[k] in s;
        var i :| 0 <= i < n - 1 && slots[i].Some? && slots[i].value.tsn == s[k];
      }
    }
  }

  /** The held TSNs past the cumulative TSN, ascending. */
  function Held(v: Receiver): seq<int> {
    Sort(HeldPast(v.slots, v.cum, |v.slots|))
  }

  lemma HeldSorted(v: Receiver)
    requires DistinctPast(v.slots, v.cum)
    ensures Ascending(Held(v)) && AllPast(Held(v), v.cum)
    ensures forall x :: x in Held(v) <==> x > v.cum && Holds(v.slots, x)
  {
    HeldPastDistinct(v.slots, v.cum, |v.slots|);
    HeldPastIn(v.slots, v.cum, |v.slots|);
    SortSorts(HeldPast(v.slots, v.cum, |v.slots|));
    forall i | 0 <= i < |Held(v)| ensures v.cum < Held(v)[i] { assert Held(v)[i] in Held(v); }
  }

  /** Every TSN the encoder looks at lies within the 16-bit range of a gap block. */
  predicate InWindow(v: Receiver) {
    forall k | 0 <= k < Visited(Held(v), v.cum, 0, []) :: Held(v)[k] - v.cum < WRAP
  }

  lemma SackFaithful(v: Receiver)
    requires DistinctPast(v.slots, v.cum) && InWindow(v)
    ensures Faithful(Held(v), v.cum, Visited(Held(v), v.cum, 0, []), SackGaps(v))
  {
    var tsns := Held(v);
    HeldSorted(v);
    assert Faithful(tsns, v.cum, 0, []) by { assert tsns[..0] == []; }
    FaithfulRun(tsns, v.cum, 0, []);
  }

  /** In the window a SACK is valid and reports held TSNs only. */
  lemma SackInWindow(v: Receiver)
    requires DistinctPast(v.slots, v.cum) && InWindow(v)
    ensures Separated(SackGaps(v)) && ValidGaps(SackGaps(v), 0) && |SackGaps(v)| <= MAX_GAP_BLOCKS
    ensures Genuine(v.slots, v.cum, SackGaps(v))
  {
    SackFaithful(v);
    HeldSorted(v);
    BlockCount(Held(v), v.cum, 0, []);
    SeparatedIsValid(SackGaps(v), 0);
    forall x | Reports(SackGaps(v), x) ensures Holds(v.slots, v.cum + x) {
      assert v.cum + x in Held(v)[..Visited(Held(v), v.cum, 0, [])];
      assert v.cum + x in Held(v);
    }
  }

  /** A held TSN goes unreported only when the list is full and the TSN lies past its last block. */
  lemma SackCovers(v: Receiver, x: int)
    requires DistinctPast(v.slots, v.cum) && InWindow(v)
    requires x > 0 && Holds(v.slots, v.cum + x) && !Reports(SackGaps(v), x)
    ensures |SackGaps(v)| == MAX_GAP_BLOCKS && x > SackGaps(v)[MAX_GAP_BLOCKS - 1].end
  {
    var tsns, n := Held(v), Visited(Held(v), v.cum, 0, []);
    SackFaithful(v);
    HeldSorted(v);
    BlockCount(tsns, v.cum, 0, []);
    assert v.cum + x in tsns;
    var k :| 0 <= k < |tsns| && tsns[k] == v.cum + x;
    assert forall l | 0 <= l < n :: tsns[..n][l] == tsns[l] && tsns[l] in tsns[..n];
    assert k >= n;
    assert tsns[n - 1] < tsns[k];
  }

  lemma {:induction false} BlockCount(tsns: seq<int>, cum: int, i: nat, blocks: seq<Gap>)
    requires i <= |tsns| && |blocks| <= MAX_GAP_BLOCKS
    ensures |BlocksFrom(tsns, cum, i, blocks)| <= MAX_GAP_BLOCKS
    ensures |blocks| <= |BlocksFrom(tsns, cum, i, blocks)|
    decreases |tsns| - i
  {
    if i < |tsns| && |blocks| < MAX_GAP_BLOCKS {
      BlockCount(tsns, cum, i + 1, AddOffset(blocks, (tsns[i] - cum) % WRAP));
    }
  }

  // ----- beyond the window -----

  /** A block list that a receiver of the SACK rejects, or that reports a TSN past `cum` nobody holds. */
  ghost predicate Wrong(tsns: seq<int>, cum: int, blocks: seq<Gap>) {
    || (exists k | 0 <= k < |blocks| :: BadBlock(blocks, k))
    || (exists x: int :: Reports(blocks, x) && cum + x !in tsns)
  }

  /** Block `k` does not lie past its predecessor. */
  predicate BadBlock(blocks: seq<Gap>, k: nat) {
    k < |blocks| && blocks[k].start <= if k == 0 then 0 else blocks[k - 1].end
  }

  /** Once wrong, a block list stays wrong. */
  lemma WrongStays(tsns: seq<int>, cum: int, blocks: seq<Gap>, offset: nat)
    requires Wrong(tsns, cum, blocks)
    ensures Wrong(tsns, cum, AddOffset(blocks, offset))
  {
    var r := AddOffset(blocks, offset);
    if k :| 0 <= k < |blocks| && BadBlock(blocks, k) {
      assert BadBlock(r, k);
    } else {
      var x: int :| Reports(blocks, x) && cum + x !in tsns;
      var k :| 0 <= k < |blocks| && blocks[k].start <= x <= blocks[k].end;
      assert r[k].start <= x <= r[k].end;
      assert Reports(r, x);
    }
  }

  lemma {:induction false} WrongRun(tsns: seq<int>, cum: int, i: nat, blocks: seq<Gap>)
    requires i <= |tsns| && Wrong(tsns, cum, blocks)
    ensures Wrong(tsns, cum, BlocksFrom(tsns, cum, i, blocks))
    decreases |tsns| - i
  {
    if i < |tsns| && |blocks| < MAX_GAP_BLOCKS {
      WrongStays(tsns, cum, blocks, (tsns[i] - cum) % WRAP);
      WrongRun(tsns, cum, i + 1, AddOffset(blocks, (tsns[i] - cum) % WRAP));
    }
  }

  /** The first TSN beyond 16 bits makes the list wrong: its truncated offset is rejected or names a TSN not held. */
  lemma TruncationIsWrong(tsns: seq<int>, cum: int, i: nat, blocks: seq<Gap>)
    requires Ascending(tsns) && i < |tsns| && Faithful(tsns, cum, i, blocks) && tsns[i] - cum >= WRAP
    ensures Wrong(tsns, cum, AddOffset(blocks, (tsns[i] - cum) % WRAP))
  {
    var o := (tsns[i] - cum) % WRAP;
    var r := AddOffset(blocks, o);
    var last := if blocks == [] then 0 else blocks[|blocks| - 1].end;
    if o <= last {
      assert BadBlock(r, |r| - 1);
    } else {
      assert r[|r| - 1].start <= o <= r[|r| - 1].end;
      assert Reports(r, o);
      forall k | 0 <= k < |tsns| ensures tsns[k] != cum + o {
        if k < i && k < i - 1 { assert tsns[k] < tsns[i - 1]; }
        if k > i { assert tsns[i] < tsns[k]; }
      }
    }
  }

  lemma {:induction false} BeyondWindowRun(tsns: seq<int>, cum: int, i: nat, blocks: seq<Gap>, bad: nat, r: seq<Gap>)
    requires Ascending(tsns) && i <= |tsns| && AllPast(tsns, cum)
    requires Faithful(tsns, cum, i, blocks) && r == BlocksFrom(tsns, cum, i, blocks)
    requires i <= bad < Visited(tsns, cum, i, blocks) && tsns[bad] - cum >= WRAP
    ensures Wrong(tsns, cum, r)
    decreases |tsns| - i
  {
    var next := AddOffset(blocks, (tsns[i] - cum) % WRAP);
    if tsns[i] - cum >= WRAP {
      TruncationIsWrong(tsns, cum, i, blocks);
      WrongRun(tsns, cum, i + 1, next);
    } else {
      FaithfulStep(tsns, cum, i, blocks);
      BeyondWindowRun(tsns, cum, i + 1, next, bad, r);
    }
  }

  lemma {:induction false} ValidHasNoBadBlock(blocks: seq<Gap>, previousEnd: nat, k: nat)
    requires ValidGaps(blocks, previousEnd) && k < |blocks|
    ensures blocks[k].start > if k == 0 then previousEnd else blocks[k - 1].end
  {
    if k > 0 { ValidHasNoBadBlock(blocks[1..], blocks[0].end, k - 1); }
  }

  /** A SACK passes validation and reports held TSNs only, if and only if every
      TSN the encoder looks at is within 65535 of the cumulative TSN. */
  lemma SackGenuineIff(v: Receiver)
    requires DistinctPast(v.slots, v.cum)
    ensures ValidGaps(SackGaps(v), 0) && Genuine(v.slots, v.cum, SackGaps(v)) <==> InWindow(v)
  {
    if InWindow(v) {
      SackInWindow(v);
    } else {
      var tsns := Held(v);
      HeldSorted(v);
      var bad :| 0 <= bad < Visited(tsns, v.cum, 0, []) && tsns[bad] - v.cum >= WRAP;
      assert Faithful(tsns, v.cum, 0, []) by { assert tsns[..0] == []; }
      BeyondWindowRun(tsns, v.cum, 0, [], bad, BlocksFrom(tsns, v.cum, 0, []));
      var blocks := SackGaps(v);
      if ValidGaps(blocks, 0) {
        forall k | 0 <= k < |blocks| ensures !BadBlock(blocks, k) { ValidHasNoBadBlock(blocks, 0, k); }
        var x: int :| Reports(blocks, x) && v.cum + x !in tsns;
        assert x > 0 by { ReportedPositive(blocks, x); }
        assert !Holds(v.slots, v.cum + x);
      }
    }
  }

  lemma ReportedPositive(blocks: seq<Gap>, x: int)
    requires ValidGaps(blocks, 0) && Reports(blocks, x)
    ensures x > 0
  {
    var k :| 0 <= k < |blocks| && blocks[k].start <= x <= blocks[k].end;
    ValidHasNoBadBlock(blocks, 0, k);
  }

  /** The first chunk of an association arrives 65537 past the cumulative TSN. It is stored, and reported
      as the very next TSN. */
  lemma SackTruncationExample(c: Chunk, v: Receiver)
    requires c.tsn == 65536 && |c.payload| <= MTU_PAYLOAD
    requires v == HandleData(Receiver(-1, Tab(None, None, None), [], false), c).0
    ensures SackGaps(v) == [Gap(1, 1)] && !Genuine(v.slots, v.cum, SackGaps(v))
  {
    FirstArrival(c, Receiver(-1, Tab(None, None, Some(Incoming(c))), [Stream(c.sid, 0)], true));
    OnlyLastHeld(v.slots, -1, 7);
    OneReported(v, c.tsn);
  }

  lemma {:induction false} OnlyLastHeld(slots: Slots, cum: int, n: nat)
    requires n <= |slots| && forall i | 0 <= i < n :: slots[i].None?
    ensures HeldPast(slots, cum, n) == []
  {
    if n > 0 { OnlyLastHeld(slots, cum, n - 1); }
  }

  lemma OneReported(v: Receiver, tsn: int)
    requires |v.slots| == 8 && HeldPast(v.slots, v.cum, 7) == [] && v.slots[7].Some? && v.slots[7].value.tsn == tsn == v.cum + 65537
    requires forall i | 0 <= i < 7 :: v.slots[i].None?
    ensures SackGaps(v) == [Gap(1, 1)] && !Genuine(v.slots, v.cum, SackGaps(v))
  {
    assert HeldPast(v.slots, v.cum, 8) == [tsn];
    assert [tsn][..0] == [];
    assert Sort([tsn]) == [tsn];
    var one := [Gap(1, 1)];
    assert AddOffset([], (tsn - v.cum) % WRAP) == one;
    assert BlocksFrom([tsn], v.cum, 1, one) == one;
    assert SackGaps(v) == one;
    assert one[0].start <= 1 <= one[0].end && Reports(one, 1);
    assert !Holds(v.slots, v.cum + 1);
  }
}
