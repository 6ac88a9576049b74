/** The reorder buffer as it is built: slots found by the low bits of a 16-bit sequence number,
    and a window that moves over slots whose old packets were never cleared. */
module Reorder {
  import opened Bits
  import opened ReorderSpec

  type Seq16 = x: int | 0 <= x < 0x1_0000

  /** NANORTC_MEDIA_BUF_SIZE. */
  const MEDIA_BUF: nat := 1232

  datatype Slot = Slot(occupied: bool, seqno: Seq16, packet: Packet)

  function Cut(n: int): Seq16 {
    n % 0x1_0000
  }

  /** A difference of sequence numbers as a signed 16-bit number. */
  function Signed(d: int): (r: int)
    ensures -0x8000 <= r < 0x8000 && Cut(r) == Cut(d)
  {
    (d + 0x8000) % 0x1_0000 - 0x8000
  }

  function Index(n: int): (i: nat)
    ensures i < SLOTS
  {
    n % SLOTS
  }

  /** The slot of number `n` holds that sequence number. */
  predicate Matches(slots: seq<Slot>, n: int)
    requires |slots| == SLOTS
  {
    slots[Index(n)].occupied && slots[Index(n)].seqno == Cut(n)
  }

  /** The packets in the window that starts at `base`. */
  function Held(slots: seq<Slot>, base: int): (m: map<int, Packet>)
    requires |slots| == SLOTS
    ensures forall k | k in m :: base <= k < base + SLOTS
  {
    map k | base <= k < base + SLOTS && Matches(slots, k) :: slots[Index(k)].packet
  }

  // ----- a packet is stored -----

  function Stored(slots: seq<Slot>, n: int, p: Packet): (r: seq<Slot>)
    requires |slots| == SLOTS
    ensures |r| == SLOTS
  {
    if Matches(slots, n) then slots else slots[Index(n) := Slot(true, Cut(n), p)]
  }

  /** No packet left over from an older window lies in the part of the window from `from` to `to`. */
  predicate Quiet(slots: seq<Slot>, from: int, to: int)
    requires |slots| == SLOTS
  {
    forall k | from <= k < to :: !Matches(slots, k)
  }

  lemma IndexApart(j: int, k: int)
    requires j != k && j < k + SLOTS && k < j + SLOTS
    ensures Index(j) != Index(k)
  {
  }

  lemma StoredAt(slots: seq<Slot>, n: int, p: Packet, k: int)
    requires |slots| == SLOTS && n - SLOTS < k < n + SLOTS
    ensures Matches(Stored(slots, n, p), n)
    ensures k != n ==> (Matches(Stored(slots, n, p), k) <==> Matches(slots, k))
    ensures k != n ==> Stored(slots, n, p)[Index(k)] == slots[Index(k)]
  {
    if k != n { IndexApart(n, k); }
  }

  /** Where the part of a window that starts at `next` begins that was not in the one at `base`. */
  function NewPart(base: int, next: int): int {
    if next > base + SLOTS then next else base + SLOTS
  }

  /** The window start after packet `n`. */
  function Moved(base: int, n: int): (r: int)
    ensures r >= base
  {
    if n >= base + SLOTS then n - SLOTS + 1 else base
  }

  /** No old packet lies in the new part of the window, but perhaps the very packet stored. */
  predicate Clean(slots: seq<Slot>, base: int, n: int, p: Packet)
    requires |slots| == SLOTS && base <= n
  {
    && (forall k | NewPart(base, Moved(base, n)) <= k < Moved(base, n) + SLOTS && k != n :: !Matches(slots, k))
    && (n >= base + SLOTS && Matches(slots, n) ==> slots[Index(n)].packet == p)
  }

  /** What the slots and the window of packets say at number `k`. */
  lemma StoredShows(slots: seq<Slot>, base: int, n: int, p: Packet, lost: bool, k: int)
    requires |slots| == SLOTS && base <= n && Moved(base, n) <= k < Moved(base, n) + SLOTS
    ensures var got, want := Held(Stored(slots, n, p), Moved(base, n)), Push(State(base, Held(slots, base), lost), n, p).held;
            && (k != n ==> (k in got <==> Matches(slots, k)) && (k in want <==> Matches(slots, k) && k < base + SLOTS))
            && (k == n ==> k in got && k in want)
            && (k in got && k in want && (k != n || n < base + SLOTS) ==> got[k] == want[k])
            && (k == n >= base + SLOTS ==> want[k] == p && got[k] == if Matches(slots, n) then slots[Index(n)].packet else p)
  {
    StoredAt(slots, n, p, k);
  }

  lemma StoredIs(slots: seq<Slot>, base: int, n: int, p: Packet, lost: bool)
    requires |slots| == SLOTS && base <= n && Clean(slots, base, n, p)
    ensures Held(Stored(slots, n, p), Moved(base, n)) == Push(State(base, Held(slots, base), lost), n, p).held
  {
    var got, want := Held(Stored(slots, n, p), Moved(base, n)), Push(State(base, Held(slots, base), lost), n, p).held;
    forall k | Moved(base, n) <= k < Moved(base, n) + SLOTS
      ensures (k in want <==> k in got) && (k in want ==> want[k] == got[k])
    {
      StoredShows(slots, base, n, p, lost, k);
    }
    assert got.Keys == want.Keys;
  }

  lemma StoredOnlyIf(slots: seq<Slot>, base: int, n: int, p: Packet, lost: bool)
    requires |slots| == SLOTS && base <= n
    requires Held(Stored(slots, n, p), Moved(base, n)) == Push(State(base, Held(slots, base), lost), n, p).held
    ensures Clean(slots, base, n, p)
  {
    forall k | NewPart(base, Moved(base, n)) <= k < Moved(base, n) + SLOTS && k != n ensures !Matches(slots, k) {
      StoredShows(slots, base, n, p, lost, k);
    }
    StoredShows(slots, base, n, p, lost, n);
  }

  /** Storing refines the window of packets exactly when no old packet lies in the new part of
      the window; an old slot of the very number stored must hold the same packet. */
  lemma StoreRefinesIff(slots: seq<Slot>, base: int, n: int, p: Packet, lost: bool)
    requires |slots| == SLOTS && base <= n
    ensures Held(Stored(slots, n, p), Moved(base, n)) == Push(State(base, Held(slots, base), lost), n, p).held <==>
            Clean(slots, base, n, p)
  {
    if Clean(slots, base, n, p) { StoredIs(slots, base, n, p, lost); }
    if Held(Stored(slots, n, p), Moved(base, n)) == Push(State(base, Held(slots, base), lost), n, p).held {
      StoredOnlyIf(slots, base, n, p, lost);
    }
  }

  // ----- a packet is released -----

  function Cleared(slots: seq<Slot>, m: int): (r: seq<Slot>)
    requires |slots| == SLOTS
    ensures |r| == SLOTS
  {
    slots[Index(m) := slots[Index(m)].(occupied := false)]
  }

  /** What the slots show at number `k` after packet `m` is released. */
  lemma ClearedShows(slots: seq<Slot>, base: int, lost: bool, m: int, k: int)
    requires |slots| == SLOTS && base <= m < base + SLOTS && m == NearestFrom(State(base, Held(slots, base), lost), base)
    requires base <= k < m + 1 + SLOTS
    ensures var got, want := Held(Cleared(slots, m), m + 1), Held(slots, base) - {m};
            && (k < base + SLOTS ==> (k in got <==> k in want))
            && (k in got && k in want ==> got[k] == want[k])
            && (k >= base + SLOTS ==> k !in want && (k in got <==> Matches(Cleared(slots, m), k)))
  {
    if k < base + SLOTS && k != m { IndexApart(k, m); }
    if k < m { assert k !in Held(slots, base); }
  }

  /** Releasing refines the window of packets exactly when no old packet lies in the new part. */
  lemma ReleaseRefinesIff(slots: seq<Slot>, base: int, lost: bool, m: int)
    requires |slots| == SLOTS && base <= m < base + SLOTS && m == NearestFrom(State(base, Held(slots, base), lost), base)
    ensures Held(Cleared(slots, m), m + 1) == Held(slots, base) - {m} <==> Quiet(Cleared(slots, m), base + SLOTS, m + 1 + SLOTS)
  {
    var got, want := Held(Cleared(slots, m), m + 1), Held(slots, base) - {m};
    forall k | base <= k < m + 1 + SLOTS
      ensures k < base + SLOTS ==> (k in got <==> k in want)
      ensures k in got && k in want ==> got[k] == want[k]
      ensures k >= base + SLOTS ==> k !in want && (k in got <==> Matches(Cleared(slots, m), k))
    {
      ClearedShows(slots, base, lost, m, k);
    }
    if Quiet(Cleared(slots, m), base + SLOTS, m + 1 + SLOTS) {
      assert got.Keys == want.Keys;
    }
  }

  // ----- sequence numbers in the window -----

  /** Slots hold only sequence numbers that belong there. */
  predicate Placed(slots: seq<Slot>) {
    forall i | 0 <= i < |slots| :: slots[i].occupied ==> Index(slots[i].seqno) == i
  }

  lemma CutOf(a: int, r: Seq16)
    ensures Cut(0x1_0000 * a + r) == r
  {
  }

  lemma CutParts(n: int) returns (a: int)
    ensures n == 0x1_0000 * a + Cut(n)
  {
    a := n / 0x1_0000;
  }

  lemma CutIndex(n: int)
    ensures Index(Cut(n)) == Index(n)
  {
    var a := CutParts(n);
    assert n == 8 * (0x2000 * a) + Cut(n);
  }

  /** The signed difference tells how far ahead in the window a number is. */
  lemma WindowNumber(base: int, k: int)
    requires base <= k < base + SLOTS
    ensures Signed(Cut(k) - Cut(base)) == k - base
  {
    var a := CutParts(base);
    var b := CutParts(k);
    assert Cut(k) - Cut(base) == (k - base) + 0x1_0000 * (a - b);
    assert -1 <= a - b <= 1;
  }

  lemma NumberOf(base: int, q: Seq16)
    ensures var k := base + Signed(q - Cut(base)); Cut(k) == q && Index(k) == Index(q)
  {
    var a := CutParts(base);
    var d := q - Cut(base);
    var k := base + Signed(d);
    var c := if d >= 0x8000 then -1 else if d < -0x8000 then 1 else 0;
    assert Signed(d) == d + 0x1_0000 * c;
    assert k == 0x1_0000 * (a + c) + q;
    CutOf(a + c, q);
    CutIndex(k);
  }

  lemma WindowStart(n: int)
    ensures Cut(Cut(n) - SLOTS + 1) == Cut(n - SLOTS + 1)
  {
    var a := CutParts(n);
    var b := CutParts(Cut(n) - 7);
    assert n - 7 == 0x1_0000 * (a + b) + Cut(Cut(n) - 7);
    CutOf(a + b, Cut(Cut(n) - 7));
  }

  lemma NextCut(n: int)
    ensures Cut(Cut(n) + 1) == Cut(n + 1)
  {
    var a := CutParts(n);
    var b := CutParts(Cut(n) + 1);
    assert n + 1 == 0x1_0000 * (a + b) + Cut(Cut(n) + 1);
    CutOf(a + b, Cut(Cut(n) + 1));
  }

  lemma PlacedStored(slots: seq<Slot>, n: int, p: Packet)
    requires |slots| == SLOTS && Placed(slots)
    ensures Placed(Stored(slots, n, p))
  {
    CutIndex(n);
  }

  lemma NothingHeld(slots: seq<Slot>, base: int)
    requires |slots| == SLOTS && forall i | 0 <= i < SLOTS :: !slots[i].occupied
    ensures Held(slots, base) == map[]
  {
    assert Held(slots, base).Keys == {};
  }

  /** At a gap, a waiting packet ahead is still the one that ends the gap. */
  lemma AtGap(was: State, slots: seq<Slot>, now: Millis, base: int, m: int, lost: bool)
    requires |slots| == SLOTS && was.held == Held(slots, was.next) && m == NearestFrom(was, was.next)
    requires was.next <= base <= m && (base > was.next ==> GapOver(was, now)) && !Matches(slots, base)
    ensures base < m
    ensures GapOver(State(base, Held(slots, base), lost), now) <==> GapOver(was, now)
  {
    var v := State(base, Held(slots, base), lost);
    if GapOver(was, now) {
      var k :| k in was.held && k > was.next && Age(was.held[k], now) >= MAX_WAIT;
      assert k >= m;
      assert base != m;
      assert k in v.held && v.held[k] == was.held[k];
    }
  }

  lemma NearestIsHere(was: State, slots: seq<Slot>, base: int, m: int)
    requires |slots| == SLOTS && was.held == Held(slots, was.next) && m == NearestFrom(was, was.next)
    requires was.next <= base <= m && Matches(slots, base) && (base > was.next ==> exists k | k in was.held :: k > was.next)
    ensures base == m && base in was.held
  {
    if base > was.next {
      var k :| k in was.held && k > was.next;
      assert k >= m;
    }
    assert base in was.held;
  }

  // ----- the slots as a value -----

  /** What the buffer keeps: `base` is the next number to release without the wrap. */
  datatype Window = Window(base: int, lost: bool, slots: seq<Slot>)

  /** What happens to the buffer, and what it hands out. */
  datatype Call = Arrived(seqno: Seq16, packet: Packet) | Asked(now: Millis)

  datatype Out = Out(seqno: Seq16, packet: Packet, lost: bool)

  predicate Formed(w: Window) {
    |w.slots| == SLOTS
  }

  /** The packets in the window. */
  function Shown(w: Window): (s: State)
    requires Formed(w)
    ensures ReorderSpec.Valid(s)
  {
    State(w.base, Held(w.slots, w.base), w.lost)
  }

  /** The number that a sequence number means. */
  function NumberIn(w: Window, seqno: Seq16): int {
    w.base + Signed(seqno - Cut(w.base))
  }

  predicate Accepted(p: Packet) {
    p.data != [] && |p.data| <= MEDIA_BUF
  }

  /** A packet is stored unless it is malformed or late. */
  function Arrive(w: Window, seqno: Seq16, p: Packet): (r: Window)
    requires Formed(w)
    ensures Formed(r)
  {
    var n := NumberIn(w, seqno);
    if !Accepted(p) || n < w.base then w
    else Window(Moved(w.base, n), w.lost || n >= w.base + SLOTS, Stored(w.slots, n, p))
  }

  /** The lowest packet in the window is handed out when it is next or the gap is over. */
  function Answer(w: Window, now: Millis): (r: (Window, Option<Out>))
    requires Formed(w)
    ensures Formed(r.0)
  {
    if !Ready(Shown(w), now) then (w, None)
    else
      var m := NearestFrom(Shown(w), w.base);
      (Window(m + 1, false, Cleared(w.slots, m)), Some(Out(Cut(m), w.slots[Index(m)].packet, w.lost || m > w.base)))
  }

  /** Storing a packet refines the window exactly when it is late or finds no old packet there. */
  lemma ArriveRefinesIff(w: Window, q: Seq16, p: Packet)
    requires Formed(w) && Accepted(p)
    ensures var n := NumberIn(w, q);
            Shown(Arrive(w, q, p)) == Push(Shown(w), n, p) <==> n < w.base || Clean(w.slots, w.base, n, p)
  {
    if NumberIn(w, q) >= w.base { StoreRefinesIff(w.slots, w.base, NumberIn(w, q), p, w.lost); }
  }

  /** Handing out a packet does exactly when no old packet lies where the window moves to. */
  lemma AnswerRefinesIff(w: Window, now: Millis)
    requires Formed(w) && Ready(Shown(w), now)
    ensures var (after, r) := Answer(w, now);
            && r == Some(Out(Cut(after.base - 1), Pop(Shown(w), now).1.value.packet, Pop(Shown(w), now).1.value.lost))
            && Pop(Shown(w), now).1.value.number == after.base - 1
            && (Shown(after) == Pop(Shown(w), now).0 <==> Quiet(after.slots, w.base + SLOTS, after.base + SLOTS))
  {
    var m := NearestFrom(Shown(w), w.base);
    assert m in Held(w.slots, w.base);
    ReleaseRefinesIff(w.slots, w.base, w.lost, m);
  }

  // ----- the buffer -----

  datatype Status = Ok | InvalidParam | NoData

  class Buffer {
    const slots: array<Slot>
    var next: Seq16
    var inited: bool
    var pendingLost: bool
    /** The number of `next` without the wrap. */
    ghost var base: int

    ghost predicate Valid()
      reads this, slots
    {
      && slots.Length == SLOTS && Cut(base) == next && Placed(slots[..])
      && (!inited ==> !pendingLost && forall i | 0 <= i < SLOTS :: !slots[i].occupied)
    }

    /** The slots and the window, before the first packet too. */
    ghost function Contents(first: Seq16): (w: Window)
      reads this, slots
      requires Valid()
      ensures Formed(w)
    {
      Window(if inited then base else first, pendingLost, slots[..])
    }

    ghost function View(): (s: State)
      reads this, slots
      requires Valid()
      ensures ReorderSpec.Valid(s)
    {
      State(base, Held(slots[..], base), pendingLost)
    }

    constructor ()
      ensures Valid() && !inited && View() == First(base) && fresh(slots)
    {
      slots := new Slot[SLOTS](i => Slot(false, 0, Packet(0, 0, [], 0)));
      next, inited, pendingLost, base := 0, false, false, 0;
      new;
      NothingHeld(slots[..], base);
    }

    /** A packet arrives; the first one says where the window starts. */
    method PushPacket(seqno: Seq16, p: Packet) returns (status: Status)
      requires Valid()
      modifies this, slots
      ensures Valid() && inited == (old(inited) || Accepted(p))
      ensures status == if Accepted(p) then Ok else InvalidParam
      ensures Contents(seqno) == Arrive(old(Contents(seqno)), seqno, p)
    {
      if |p.data| == 0 || |p.data| > MEDIA_BUF { return InvalidParam; }
      if !inited { inited, next, base := true, seqno, seqno; }
      Admit(seqno, p);
      return Ok;
    }

    /** The window moves if it must, and the packet takes its slot. */
    method Admit(seqno: Seq16, p: Packet)
      requires Valid() && inited && Accepted(p)
      modifies slots, this`next, this`pendingLost, this`base
      ensures Valid() && Contents(seqno) == Arrive(old(Contents(seqno)), seqno, p)
    {
      var diff := Signed(seqno - next);
      ghost var n := base + diff;
      if diff < 0 { return; }
      NumberOf(base, seqno);
      if diff >= SLOTS {
        WindowStart(n);
        next := Cut(seqno - SLOTS + 1);
        base := n - SLOTS + 1;
        pendingLost := true;
      }
      Store(seqno, p, n);
    }

    /** The packet takes its slot, unless it is there already. */
    method Store(seqno: Seq16, p: Packet, ghost n: int)
      requires Valid() && inited && Cut(n) == seqno && Index(n) == Index(seqno)
      modifies slots
      ensures Valid() && slots[..] == Stored(old(slots[..]), n, p)
    {
      ghost var before := slots[..];
      var i := seqno % SLOTS;
      if !(slots[i].occupied && slots[i].seqno == seqno) {
        slots[i] := Slot(true, seqno, p);
      }
      assert slots[..] == Stored(before, n, p);
      PlacedStored(before, n, p);
    }

    /** The slot at `i` tells which packet ahead in the window it holds, if any. */
    lemma SlotAhead(i: nat)
      requires Valid() && i < SLOTS && slots[i].occupied
      ensures var ahead := Signed(slots[i].seqno - next);
              && (0 < ahead < SLOTS ==> base + ahead in View().held && View().held[base + ahead] == slots[i].packet)
              && (forall k | k in View().held && k > base && Index(k) == i :: ahead == k - base)
    {
      NumberOf(base, slots[i].seqno);
      forall k | k in View().held && k > base && Index(k) == i
        ensures Signed(slots[i].seqno - next) == k - base
      {
        WindowNumber(base, k);
      }
    }

    /** Whether a packet ahead of a gap has waited long enough. */
    method ShouldSkip(now: Millis) returns (skip: bool)
      requires Valid()
      ensures skip <==> GapOver(View(), now)
    {
      ghost var s := View();
      for i := 0 to SLOTS
        invariant forall k | k in s.held && k > base && Index(k) < i :: Age(s.held[k], now) < MAX_WAIT
      {
        if slots[i].occupied {
          SlotAhead(i);
          var ahead := Signed(slots[i].seqno - next);
          if 0 < ahead < SLOTS && Age(slots[i].packet, now) >= MAX_WAIT {
            assert base + ahead in s.held;
            return true;
          }
        }
      }
      return false;
    }

    /** Takes the packet that is next out of its slot. */
    method Release() returns (seqno: Seq16, packet: Packet, lost: bool)
      requires Valid() && inited && Matches(slots[..], base)
      modifies slots, this`next, this`pendingLost, this`base
      ensures Valid() && base == old(base) + 1 && !pendingLost && slots[..] == Cleared(old(slots[..]), old(base))
      ensures seqno == Cut(old(base)) && packet == old(slots[Index(base)].packet) && lost == old(pendingLost)
    {
      CutIndex(base);
      NextCut(base);
      ghost var before := slots[..];
      var i := next % SLOTS;
      seqno, packet, lost := slots[i].seqno, slots[i].packet, pendingLost;
      pendingLost := false;
      slots[i] := slots[i].(occupied := false);
      next, base := Cut(next + 1), base + 1;
      assert slots[..] == Cleared(before, base - 1);
    }

    /** Moves on to the packet that ends the gap, if the next one is there or the gap is over. */
    method Seek(now: Millis) returns (found: bool)
      requires Valid() && inited
      modifies this`next, this`pendingLost, this`base
      ensures Valid() && found == Ready(old(View()), now)
      ensures found ==> base == NearestFrom(old(View()), old(base)) && Matches(slots[..], base)
      ensures found ==> pendingLost == (old(pendingLost) || base > old(base))
      ensures !found ==> base == old(base) && next == old(next) && pendingLost == old(pendingLost)
    {
      ghost var was := View();
      ghost var m := NearestFrom(was, was.next);
      while true
        invariant Valid() && was.next <= base <= m
        invariant pendingLost == (was.lost || base > was.next) && (base > was.next ==> GapOver(was, now))
        decreases m - base
      {
        CutIndex(base);
        var i := next % SLOTS;
        if slots[i].occupied && slots[i].seqno == next {
          NearestIsHere(was, slots[..], base, m);
          return true;
        }
        AtGap(was, slots[..], now, base, m, pendingLost);
        var skip := ShouldSkip(now);
        if !skip { return false; }
        NextCut(base);
        next, base := Cut(next + 1), base + 1;
        pendingLost := true;
      }
    }

    /** Releases the next packet, or gives up a gap that has lasted long enough. */
    method PopPacket(now: Millis) returns (status: Status, seqno: Seq16, packet: Packet, lost: bool)
      requires Valid()
      modifies this, slots
      ensures Valid() && inited == old(inited)
      ensures Contents(0) == if inited then Answer(old(Contents(0)), now).0 else old(Contents(0))
      ensures var r := if inited then Answer(old(Contents(0)), now).1 else None;
              if r.Some? then status == Ok && Out(seqno, packet, lost) == r.value else status == NoData
    {
      seqno, packet, lost := 0, Packet(0, 0, [], 0), false;
      if !inited { return NoData, seqno, packet, lost; }
      var found := Seek(now);
      if !found { return NoData, seqno, packet, lost; }
      seqno, packet, lost := Release();
      status := Ok;
    }

    /** How long the packet in slot `i` still holds up a gap before it. */
    method Remaining(i: nat, now: Millis) returns (left: nat)
      requires Valid() && i < SLOTS
      ensures forall k | k in View().held && k > base && Index(k) == i :: left == Left(View().held[k], now)
      ensures left == NEVER || exists k | k in View().held :: k > base && Left(View().held[k], now) == left
    {
      left := NEVER;
      if slots[i].occupied {
        SlotAhead(i);
        var ahead := Signed(slots[i].seqno - next);
        if 0 < ahead < SLOTS {
          left := Left(slots[i].packet, now);
          assert base + ahead in View().held;
        }
      }
    }

    /** How long until a pop releases a packet. */
    method NextTimeout(now: Millis) returns (d: nat)
      requires Valid()
      ensures d == if inited then Timeout(View(), now) else NEVER
    {
      if !inited { return NEVER; }
      CutIndex(base);
      var h := next % SLOTS;
      if slots[h].occupied && slots[h].seqno == next { return 0; }
      ghost var s := View();
      d := NEVER;
      for i := 0 to SLOTS
        invariant forall k | k in s.held && k > base && Index(k) < i :: d <= Left(s.held[k], now)
        invariant d == NEVER || exists k | k in s.held :: k > base && Left(s.held[k], now) == d
      {
        var left := Remaining(i, now);
        if left < d { d := left; }
      }
      BestIs(s, now, d);
    }
  }
}
