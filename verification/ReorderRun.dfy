/** Runs of the slots against runs of the window of packets: the same packets come out as long as
    no slot that was passed over keeps its packet for a whole turn of sequence numbers. */
module ReorderRun {
  import opened ReorderSpec
  import opened Reorder

  /** One turn of sequence numbers. */
  const TURN: nat := 0x1_0000

  function Perform(w: Window, c: Call): (r: (Window, Option<Out>))
    requires Formed(w)
    ensures Formed(r.0)
  {
    match c
    case Arrived(q, p) => (Arrive(w, q, p), None)
    case Asked(now) => Answer(w, now)
  }

  function Given(o: Option<Out>): seq<Out> {
    if o.Some? then [o.value] else []
  }

  function Calls(w: Window, calls: seq<Call>): (r: (Window, seq<Out>))
    requires Formed(w)
    ensures Formed(r.0)
    decreases |calls|
  {
    if calls == [] then (w, [])
    else
      var (w1, o) := Perform(w, calls[0]);
      var (w2, outs) := Calls(w1, calls[1..]);
      (w2, Given(o) + outs)
  }

  // ----- which number each slot was filled with -----

  function Refilled(w: Window, from: seq<int>, c: Call): (r: seq<int>)
    requires Formed(w) && |from| == SLOTS
    ensures |r| == SLOTS
  {
    if c.Arrived? && Accepted(c.packet) && NumberIn(w, c.seqno) >= w.base && !Matches(w.slots, NumberIn(w, c.seqno))
    then from[Index(NumberIn(w, c.seqno)) := NumberIn(w, c.seqno)] else from
  }

  /** `from` says which number each occupied slot was filled with. */
  predicate Tracked(w: Window, from: seq<int>) {
    && Formed(w) && |from| == SLOTS
    && forall i | 0 <= i < SLOTS && w.slots[i].occupied ::
         w.slots[i].seqno == Cut(from[i]) && Index(from[i]) == i && from[i] < w.base + SLOTS
  }

  /** No occupied slot is further behind the window than a turn allows. */
  predicate NoneOld(w: Window, from: seq<int>)
    requires Formed(w) && |from| == SLOTS
  {
    forall i | 0 <= i < SLOTS && w.slots[i].occupied :: w.base - from[i] <= TURN - SLOTS
  }

  /** No state of the run has an old slot. */
  predicate NeverOld(w: Window, from: seq<int>, calls: seq<Call>)
    requires Formed(w) && |from| == SLOTS
    decreases |calls|
  {
    NoneOld(w, from) && (calls == [] || NeverOld(Perform(w, calls[0]).0, Refilled(w, from, calls[0]), calls[1..]))
  }

  /** Two numbers less than a turn apart have different sequence numbers. */
  lemma CutApart(a: int, k: int)
    requires a != k && a - TURN < k < a + TURN
    ensures Cut(a) != Cut(k)
  {
  }

  /** Without old slots, a slot that matches a number of the window holds that number. */
  lemma MatchIsGenuine(w: Window, from: seq<int>, k: int)
    requires Tracked(w, from) && NoneOld(w, from) && w.base <= k < w.base + SLOTS && Matches(w.slots, k)
    ensures from[Index(k)] == k
  {
    if from[Index(k)] != k { CutApart(from[Index(k)], k); }
  }

  // ----- one call -----

  lemma ArriveTracked(w: Window, from: seq<int>, q: Seq16, p: Packet)
    requires Tracked(w, from)
    ensures Tracked(Arrive(w, q, p), Refilled(w, from, Arrived(q, p)))
  {
    var n := NumberIn(w, q);
    NumberOf(w.base, q);
    var after, filled := Arrive(w, q, p), Refilled(w, from, Arrived(q, p));
    forall i | 0 <= i < SLOTS && after.slots[i].occupied
      ensures after.slots[i].seqno == Cut(filled[i]) && Index(filled[i]) == i && filled[i] < after.base + SLOTS
    {
      assert after.slots[i] == w.slots[i] || i == Index(n);
    }
  }

  /** Storing without leaving an old slot finds no old packet in the new part of the window. */
  lemma ArriveClean(w: Window, from: seq<int>, q: Seq16, p: Packet, n: int)
    requires Tracked(w, from) && n == NumberIn(w, q) >= w.base && Accepted(p)
    requires NoneOld(Arrive(w, q, p), Refilled(w, from, Arrived(q, p)))
    ensures Clean(w.slots, w.base, n, p)
  {
    ArriveTracked(w, from, q, p);
    var after, filled := Arrive(w, q, p), Refilled(w, from, Arrived(q, p));
    forall k | NewPart(w.base, Moved(w.base, n)) <= k < Moved(w.base, n) + SLOTS && k != n ensures !Matches(w.slots, k) {
      StoredAt(w.slots, n, p, k);
      IndexApart(n, k);
      if Matches(w.slots, k) { MatchIsGenuine(after, filled, k); }
    }
    if n >= w.base + SLOTS && Matches(w.slots, n) { MatchIsGenuine(after, filled, n); }
  }

  lemma ArriveRefines(w: Window, from: seq<int>, q: Seq16, p: Packet)
    requires Tracked(w, from) && Accepted(p)
    requires NoneOld(Arrive(w, q, p), Refilled(w, from, Arrived(q, p)))
    ensures Shown(Arrive(w, q, p)) == Push(Shown(w), NumberIn(w, q), p)
  {
    var n := NumberIn(w, q);
    if n >= w.base {
      ArriveClean(w, from, q, p, n);
      StoreRefinesIff(w.slots, w.base, n, p, w.lost);
    }
  }

  function Unwrapped(o: Option<Released>): Option<Out> {
    if o.Some? then Some(Out(Cut(o.value.number), o.value.packet, o.value.lost)) else None
  }

  lemma AnswerRefines(w: Window, from: seq<int>, now: Millis)
    requires Tracked(w, from) && NoneOld(Answer(w, now).0, from)
    ensures Tracked(Answer(w, now).0, from)
    ensures Shown(Answer(w, now).0) == Pop(Shown(w), now).0 && Answer(w, now).1 == Unwrapped(Pop(Shown(w), now).1)
  {
    if Ready(Shown(w), now) {
      var m := NearestFrom(Shown(w), w.base);
      var after := Answer(w, now).0;
      assert m in Held(w.slots, w.base);
      assert Tracked(after, from);
      forall k | w.base + SLOTS <= k < m + 1 + SLOTS ensures !Matches(Cleared(w.slots, m), k) {
        if Matches(Cleared(w.slots, m), k) { MatchIsGenuine(after, from, k); }
      }
      ReleaseRefinesIff(w.slots, w.base, w.lost, m);
    }
  }

  // ----- runs -----

  /** What a call means in numbers without the wrap; a malformed packet means nothing. */
  function Meant(w: Window, c: Call): seq<Event>
    requires Formed(w)
  {
    match c
    case Arrived(q, p) => if Accepted(p) then [Pushed(NumberIn(w, q), p)] else []
    case Asked(now) => [Popped(now)]
  }

  function Meaning(w: Window, calls: seq<Call>): seq<Event>
    requires Formed(w)
    decreases |calls|
  {
    if calls == [] then [] else Meant(w, calls[0]) + Meaning(Perform(w, calls[0]).0, calls[1..])
  }

  /** What comes out of the slots: sequence numbers instead of numbers. */
  function Wire(outs: seq<Released>): (r: seq<Out>)
    ensures |r| == |outs|
  {
    seq(|outs|, i requires 0 <= i < |outs| => Out(Cut(outs[i].number), outs[i].packet, outs[i].lost))
  }

  lemma WireOf(o: Option<Released>, outs: seq<Released>)
    ensures Wire(Listed(o) + outs) == Given(Unwrapped(o)) + Wire(outs)
  {
  }

  /** The specification's run begins with what the first call means. */
  lemma RunFirst(s: State, e: Event, rest: seq<Event>)
    requires ReorderSpec.Valid(s)
    ensures Run(s, [e] + rest) == (Run(Step(s, e).0, rest).0, Listed(Step(s, e).1) + Run(Step(s, e).0, rest).1)
  {
    assert ([e] + rest)[1..] == rest;
  }

  /** Over any run that never leaves a slot a whole turn behind the window, the slots hand out
      what the window of packets releases, and end up showing the same window. */
  lemma {:induction false} SlotsRefineWindow(w: Window, from: seq<int>, calls: seq<Call>)
    requires Tracked(w, from) && NeverOld(w, from, calls)
    ensures Shown(Calls(w, calls).0) == Run(Shown(w), Meaning(w, calls)).0
    ensures Calls(w, calls).1 == Wire(Run(Shown(w), Meaning(w, calls)).1)
    decreases |calls|
  {
    if calls != [] {
      var c, later := calls[0], calls[1..];
      var w1, from1 := Perform(w, c).0, Refilled(w, from, c);
      var rest := Meaning(w1, later);
      match c {
        case Arrived(q, p) =>
          ArriveTracked(w, from, q, p);
          SlotsRefineWindow(w1, from1, later);
          if Accepted(p) {
            ArriveRefines(w, from, q, p);
            RunFirst(Shown(w), Pushed(NumberIn(w, q), p), rest);
            WireOf(None, Run(Shown(w1), rest).1);
          } else {
            assert Meaning(w, calls) == rest && Calls(w, calls).1 == Calls(w1, later).1;
          }
        case Asked(now) =>
          AnswerRefines(w, from, now);
          SlotsRefineWindow(w1, from1, later);
          RunFirst(Shown(w), Popped(now), rest);
          WireOf(Pop(Shown(w), now).1, Run(Shown(w1), rest).1);
      }
    }
  }

  /** From the first packet on, over such a run, what comes out has strictly increasing numbers, each
      skip flagged exactly where it is, and every packet is one that was stored under its number. */
  lemma FromFirstPacket(slots: seq<Slot>, q: Seq16, from: seq<int>, calls: seq<Call>)
    requires |slots| == |from| == SLOTS && (forall i | 0 <= i < SLOTS :: !slots[i].occupied)
    requires NeverOld(Window(q, false, slots), from, calls)
    ensures var events := Meaning(Window(q, false, slots), calls);
            var outs := Run(First(q), events).1;
            Calls(Window(q, false, slots), calls).1 == Wire(outs) && Chain(q - 1, outs) && AllGenuine(outs, events)
  {
    var w := Window(q, false, slots);
    NothingHeld(slots, q);
    SlotsRefineWindow(w, from, calls);
    RunFromFirst(q, Meaning(w, calls));
  }

  // ----- an old packet that comes back -----

  function Bare(p: Packet, a: Slot, b: Slot, c: Slot): (r: seq<Slot>)
    ensures |r| == SLOTS
  {
    var e := Slot(false, 0, p);
    [a, b, c, e, e, e, e, e]
  }

  lemma CallFirst(w: Window, c: Call, rest: seq<Call>)
    requires Formed(w)
    ensures Calls(w, [c] + rest).1 == Given(Perform(w, c).1) + Calls(Perform(w, c).0, rest).1
    ensures Meaning(w, [c] + rest) == Meant(w, c) + Meaning(Perform(w, c).0, rest)
  {
    assert ([c] + rest)[1..] == rest;
  }

  /** Packet 0 is released, 2 waits behind the gap at 1, and jumps of less than half a turn each
      move the window a whole turn, to where sequence number 2 comes next. */
  function Jumps(p: Packet, now: Millis): seq<Call> {
    [Arrived(0, p)] + ([Asked(now)] + ([Arrived(2, p)] + ([Arrived(1000, p)] + ([Arrived(33760, p)] + ([Arrived(9, p)] + ([Asked(now)] + []))))))
  }

  /** Packets of one kind that arrive at `now`. */
  predicate Same(p: Packet, now: Millis) {
    Accepted(p) && p.arrival == now
  }

  /** The window before each call. */
  function Stage(p: Packet, k: nat): (w: Window)
    ensures Formed(w)
  {
    var e, y := Slot(false, 0, p), Slot(true, 2, p);
    if k == 1 then Window(0, false, Bare(p, Slot(true, 0, p), e, e))
    else if k == 0 || k == 2 then Window(if k == 0 then 0 else 1, false, Bare(p, e, e, e))
    else if k == 3 then Window(1, false, Bare(p, e, e, y))
    else if k == 4 then Window(993, true, Bare(p, Slot(true, 1000, p), e, y))
    else if k == 5 then Window(33753, true, Bare(p, Slot(true, 33760, p), e, y))
    else Window(65538, true, Bare(p, Slot(true, 33760, p), Slot(true, 9, p), y))
  }

  /** A packet that finds no duplicate. */
  lemma Lands(w: Window, q: Seq16, n: int, p: Packet, after: Window)
    requires Formed(w) && Accepted(p) && NumberIn(w, q) == n >= w.base && Cut(n) == q && !Matches(w.slots, n)
    requires after == Window(Moved(w.base, n), w.lost || n >= w.base + SLOTS, w.slots[Index(n) := Slot(true, q, p)])
    ensures Perform(w, Arrived(q, p)) == (after, None) && Meant(w, Arrived(q, p)) == [Pushed(n, p)]
  {
  }

  lemma LandsNear(p: Packet)
    requires Accepted(p)
    ensures Perform(Stage(p, 0), Arrived(0, p)) == (Stage(p, 1), None) && Meant(Stage(p, 0), Arrived(0, p)) == [Pushed(0, p)]
    ensures Perform(Stage(p, 2), Arrived(2, p)) == (Stage(p, 3), None) && Meant(Stage(p, 2), Arrived(2, p)) == [Pushed(2, p)]
  {
    assert Stage(p, 0).slots[0 := Slot(true, 0, p)] == Stage(p, 1).slots;
    Lands(Stage(p, 0), 0, 0, p, Stage(p, 1));
    assert Stage(p, 2).slots[2 := Slot(true, 2, p)] == Stage(p, 3).slots;
    Lands(Stage(p, 2), 2, 2, p, Stage(p, 3));
  }

  lemma LandsFar(p: Packet)
    requires Accepted(p)
    ensures Perform(Stage(p, 3), Arrived(1000, p)) == (Stage(p, 4), None) && Meant(Stage(p, 3), Arrived(1000, p)) == [Pushed(1000, p)]
    ensures Perform(Stage(p, 4), Arrived(33760, p)) == (Stage(p, 5), None) && Meant(Stage(p, 4), Arrived(33760, p)) == [Pushed(33760, p)]
  {
    assert Stage(p, 3).slots[0 := Slot(true, 1000, p)] == Stage(p, 4).slots;
    Lands(Stage(p, 3), 1000, 1000, p, Stage(p, 4));
    assert Stage(p, 4).slots[0 := Slot(true, 33760, p)] == Stage(p, 5).slots;
    Lands(Stage(p, 4), 33760, 33760, p, Stage(p, 5));
  }

  lemma LandsAround(p: Packet)
    requires Accepted(p)
    ensures Perform(Stage(p, 5), Arrived(9, p)) == (Stage(p, 6), None) && Meant(Stage(p, 5), Arrived(9, p)) == [Pushed(65545, p)]
  {
    assert Stage(p, 5).slots[1 := Slot(true, 9, p)] == Stage(p, 6).slots;
    Lands(Stage(p, 5), 9, 65545, p, Stage(p, 6));
  }

  lemma FirstOut(p: Packet, now: Millis)
    requires Same(p, now)
    ensures Perform(Stage(p, 1), Asked(now)) == (Stage(p, 2), Some(Out(0, p, false)))
  {
    var w := Stage(p, 1);
    assert w.slots[0 := Slot(false, 0, p)] == Stage(p, 2).slots;
    assert Matches(w.slots, 0) && 0 in Held(w.slots, 0);
    assert NearestFrom(Shown(w), 0) == 0;
  }

  lemma OldIsNext(p: Packet, now: Millis)
    ensures Perform(Stage(p, 6), Asked(now)).1 == Some(Out(2, p, true))
  {
    var w := Stage(p, 6);
    assert Matches(w.slots, 65538) && 65538 in Held(w.slots, 65538);
    assert NearestFrom(Shown(w), 65538) == 65538;
  }

  lemma CallThen(w: Window, c: Call, rest: seq<Call>, w1: Window, outs: seq<Out>, events: seq<Event>)
    requires Formed(w) && Perform(w, c).0 == w1 && Calls(w1, rest).1 == outs && Meaning(w1, rest) == events
    ensures Calls(w, [c] + rest).1 == Given(Perform(w, c).1) + outs && Meaning(w, [c] + rest) == Meant(w, c) + events
  {
    CallFirst(w, c, rest);
  }

  /** What the slots hand out, and the numbers that the calls mean. */
  lemma JumpsOfSlots(p: Packet, now: Millis)
    requires Same(p, now)
    ensures Calls(Stage(p, 0), Jumps(p, now)).1 == [Out(0, p, false), Out(2, p, true)]
    ensures Meaning(Stage(p, 0), Jumps(p, now)) ==
            [Pushed(0, p), Popped(now), Pushed(2, p), Pushed(1000, p), Pushed(33760, p), Pushed(65545, p), Popped(now)]
  {
    LandsNear(p);
    var last, e5 := Out(2, p, true), [Popped(now)];
    LaterJumps(p, now);
    var c2 := [Arrived(2, p)] + ([Arrived(1000, p)] + ([Arrived(33760, p)] + ([Arrived(9, p)] + ([Asked(now)] + []))));
    var e2 := [Pushed(2, p), Pushed(1000, p), Pushed(33760, p), Pushed(65545, p), Popped(now)];
    FirstOut(p, now);
    CallThen(Stage(p, 1), Asked(now), c2, Stage(p, 2), [last], e2);
    CallThen(Stage(p, 0), Arrived(0, p), [Asked(now)] + c2, Stage(p, 1), [Out(0, p, false), last], [Popped(now)] + e2);
  }

  lemma LaterJumps(p: Packet, now: Millis)
    requires Same(p, now)
    ensures var c := [Arrived(2, p)] + ([Arrived(1000, p)] + ([Arrived(33760, p)] + ([Arrived(9, p)] + ([Asked(now)] + []))));
            && Calls(Stage(p, 2), c).1 == [Out(2, p, true)]
            && Meaning(Stage(p, 2), c) == [Pushed(2, p), Pushed(1000, p), Pushed(33760, p), Pushed(65545, p), Popped(now)]
  {
    var outs := [Out(2, p, true)];
    var c5 := [Arrived(33760, p)] + ([Arrived(9, p)] + ([Asked(now)] + []));
    var e5 := [Pushed(33760, p), Pushed(65545, p), Popped(now)];
    LastJumps(p, now);
    LandsFar(p);
    CallThen(Stage(p, 3), Arrived(1000, p), c5, Stage(p, 4), outs, e5);
    LandsNear(p);
    CallThen(Stage(p, 2), Arrived(2, p), [Arrived(1000, p)] + c5, Stage(p, 3), outs, [Pushed(1000, p)] + e5);
  }

  lemma LastJumps(p: Packet, now: Millis)
    requires Same(p, now)
    ensures var c := [Arrived(33760, p)] + ([Arrived(9, p)] + ([Asked(now)] + []));
            && Calls(Stage(p, 4), c).1 == [Out(2, p, true)]
            && Meaning(Stage(p, 4), c) == [Pushed(33760, p), Pushed(65545, p), Popped(now)]
  {
    var outs := [Out(2, p, true)];
    OldIsNext(p, now);
    CallThen(Stage(p, 6), Asked(now), [], Perform(Stage(p, 6), Asked(now)).0, [], []);
    LandsAround(p);
    CallThen(Stage(p, 5), Arrived(9, p), [Asked(now)] + [], Stage(p, 6), outs, [Popped(now)]);
    LandsFar(p);
    CallThen(Stage(p, 4), Arrived(33760, p), [Arrived(9, p)] + ([Asked(now)] + []), Stage(p, 5), outs, [Pushed(65545, p), Popped(now)]);
  }

  // ----- the same run of the window of packets -----

  lemma PushFar(s: State, n: int, p: Packet)
    requires ReorderSpec.Valid(s) && n >= s.next + SLOTS && (forall k | k in s.held :: k < n - SLOTS + 1)
    ensures Push(s, n, p) == State(n - SLOTS + 1, map[n := p], true)
  {
  }

  lemma JumpsOfWindow(p: Packet, now: Millis)
    requires Same(p, now)
    ensures Run(First(0), [Pushed(0, p), Popped(now), Pushed(2, p), Pushed(1000, p), Pushed(33760, p), Pushed(65545, p), Popped(now)]).1
            == [Released(0, p, false)]
  {
    var s1, s2 := State(0, map[0 := p], false), State(1, map[], false);
    var s6 := State(65538, map[65545 := p], true);
    assert Push(First(0), 0, p) == s1;
    assert NearestFrom(s1, 0) == 0 && map[0 := p] - {0} == map[];
    assert Pop(s1, now) == (s2, Some(Released(0, p, false)));
    assert Push(s2, 2, p) == State(1, map[2 := p], false);
    PushFar(State(1, map[2 := p], false), 1000, p);
    PushFar(State(993, map[1000 := p], true), 33760, p);
    PushFar(State(33753, map[33760 := p], true), 65545, p);
    assert Pop(s6, now) == (s6, None);
    RunFirst(s6, Popped(now), []);
    var e5 := [Popped(now)] + [];
    RunFirst(State(33753, map[33760 := p], true), Pushed(65545, p), e5);
    var e4 := [Pushed(65545, p)] + e5;
    RunFirst(State(993, map[1000 := p], true), Pushed(33760, p), e4);
    var e3 := [Pushed(33760, p)] + e4;
    RunFirst(State(1, map[2 := p], false), Pushed(1000, p), e3);
    var e2 := [Pushed(1000, p)] + e3;
    RunFirst(s2, Pushed(2, p), e2);
    var e1 := [Pushed(2, p)] + e2;
    RunFirst(s1, Popped(now), e1);
    RunFirst(First(0), Pushed(0, p), [Popped(now)] + e1);
    assert [Pushed(0, p)] + ([Popped(now)] + e1) ==
           [Pushed(0, p), Popped(now), Pushed(2, p), Pushed(1000, p), Pushed(33760, p), Pushed(65545, p), Popped(now)];
  }

  /** The window of packets releases packet 0 only; the slots also hand out, as number 65538, the
      packet that was stored as number 2 and passed over. */
  lemma OldPacketReturns(p: Packet, now: Millis)
    requires Same(p, now)
    ensures Calls(Stage(p, 0), Jumps(p, now)).1 == [Out(0, p, false), Out(2, p, true)]
    ensures Wire(Run(Shown(Stage(p, 0)), Meaning(Stage(p, 0), Jumps(p, now))).1) == [Out(0, p, false)]
  {
    NothingHeld(Stage(p, 0).slots, 0);
    JumpsOfSlots(p, now);
    JumpsOfWindow(p, now);
  }
}
