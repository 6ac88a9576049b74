/** The video reorder buffer as a window of numbered packets: what may come out of it over any
    run, and when. Packet numbers are sequence numbers without the 16-bit wrap. */
module ReorderSpec {
  import opened Bits

  /** NANORTC_VIDEO_REORDER_SLOTS and NANORTC_VIDEO_REORDER_MAX_WAIT_MS. */
  const SLOTS: nat := 8
  const MAX_WAIT: nat := 30

  const CLOCK: nat := 0x1_0000_0000
  const NEVER: nat := 0xFFFF_FFFF

  type Millis = x: int | 0 <= x < 0x1_0000_0000

  datatype Packet = Packet(ts: nat, marker: nat, data: seq<Byte>, arrival: Millis)

  /** The next number to release, the packets held, and whether a gap precedes the next one. */
  datatype State = State(next: int, held: map<int, Packet>, lost: bool)

  datatype Option<+T> = None | Some(value: T)

  datatype Released = Released(number: int, packet: Packet, lost: bool)

  predicate Valid(s: State) {
    forall k | k in s.held :: s.next <= k < s.next + SLOTS
  }

  function Age(p: Packet, now: Millis): (a: nat)
    ensures a < CLOCK
  {
    (now - p.arrival) % CLOCK
  }

  /** The state before the first packet `n` is stored. */
  function First(n: int): (s: State)
    ensures Valid(s)
  {
    State(n, map[], false)
  }

  /** A late packet or a duplicate is dropped; a packet beyond the window moves the window. */
  function Push(s: State, n: int, p: Packet): (r: State)
    requires Valid(s)
    ensures Valid(r)
  {
    if n < s.next then s
    else
      var next := if n >= s.next + SLOTS then n - SLOTS + 1 else s.next;
      var kept := map k | k in s.held && k >= next :: s.held[k];
      State(next, if n in kept then kept else kept[n := p], s.lost || next > s.next)
  }

  /** The lowest number held from `k` on, the end of the window when there is none. */
  function NearestFrom(s: State, k: int): (m: int)
    requires s.next <= k <= s.next + SLOTS
    ensures k <= m <= s.next + SLOTS && (m < s.next + SLOTS ==> m in s.held)
    ensures forall j | k <= j < m :: j !in s.held
    decreases s.next + SLOTS - k
  {
    if k == s.next + SLOTS || k in s.held then k else NearestFrom(s, k + 1)
  }

  /** Some packet has waited long enough to give up the gap before it. */
  predicate GapOver(s: State, now: Millis) {
    exists k | k in s.held :: k > s.next && Age(s.held[k], now) >= MAX_WAIT
  }

  predicate Ready(s: State, now: Millis) {
    s.next in s.held || GapOver(s, now)
  }

  /** Releases the lowest packet when it is next or the gap is over. */
  function Pop(s: State, now: Millis): (r: (State, Option<Released>))
    requires Valid(s)
    ensures Valid(r.0) && (r.1.Some? <==> Ready(s, now))
  {
    if !Ready(s, now) then (s, None)
    else
      var m := NearestFrom(s, s.next);
      assert m in s.held;
      (State(m + 1, s.held - {m}, false), Some(Released(m, s.held[m], s.lost || m > s.next)))
  }

  // ----- timeouts -----

  function Left(p: Packet, now: Millis): nat {
    if Age(p, now) >= MAX_WAIT then 0 else MAX_WAIT - Age(p, now)
  }

  /** The least time left of the packets from `k` on. */
  function BestFrom(s: State, now: Millis, k: int): (d: nat)
    requires s.next <= k <= s.next + SLOTS
    decreases s.next + SLOTS - k
  {
    if k == s.next + SLOTS then NEVER
    else
      var rest := BestFrom(s, now, k + 1);
      if k in s.held && Left(s.held[k], now) < rest then Left(s.held[k], now) else rest
  }

  function Timeout(s: State, now: Millis): nat {
    if s.next in s.held then 0 else BestFrom(s, now, s.next + 1)
  }

  lemma {:induction false} BestIsLeast(s: State, now: Millis, k: int)
    requires s.next <= k <= s.next + SLOTS
    ensures forall j | j in s.held && k <= j < s.next + SLOTS :: BestFrom(s, now, k) <= Left(s.held[j], now)
    ensures BestFrom(s, now, k) == NEVER || exists j | j in s.held :: k <= j && Left(s.held[j], now) == BestFrom(s, now, k)
    decreases s.next + SLOTS - k
  {
    if k < s.next + SLOTS {
      BestIsLeast(s, now, k + 1);
      if k in s.held {
        assert k <= k && Left(s.held[k], now) <= MAX_WAIT;
      }
    }
  }

  /** The time that is least and belongs to a packet is the one reported. */
  lemma BestIs(s: State, now: Millis, d: nat)
    requires Valid(s)
    requires forall j | j in s.held && s.next < j :: d <= Left(s.held[j], now)
    requires d == NEVER || exists j | j in s.held :: s.next < j && Left(s.held[j], now) == d
    ensures BestFrom(s, now, s.next + 1) == d
  {
    BestIsLeast(s, now, s.next + 1);
  }

  function Later(now: Millis, e: nat): Millis {
    (now + e) % CLOCK
  }

  lemma AgeLater(p: Packet, now: Millis, e: nat)
    requires Age(p, now) < MAX_WAIT && e <= MAX_WAIT
    ensures Age(p, Later(now, e)) == Age(p, now) + e
  {
    var d := now - p.arrival;
    assert Age(p, now) == if d >= 0 then d else d + 0x1_0000_0000;
    assert Later(now, e) == if now + e < 0x1_0000_0000 then now + e else now + e - 0x1_0000_0000;
  }

  lemma AgesWith(p: Packet, now: Millis, e: nat)
    requires e <= Left(p, now)
    ensures Age(p, Later(now, e)) >= MAX_WAIT <==> e == Left(p, now)
  {
    if Age(p, now) < MAX_WAIT {
      AgeLater(p, now, e);
    } else {
      assert Later(now, 0) == now;
    }
  }

  /** With no further packet, a pop succeeds at the reported time and not before it. */
  lemma TimeoutIsExact(s: State, now: Millis, e: nat)
    requires Valid(s) && e <= Timeout(s, now) && (Timeout(s, now) == NEVER ==> e <= MAX_WAIT)
    ensures Ready(s, Later(now, e)) <==> e == Timeout(s, now)
  {
    var d := Timeout(s, now);
    if s.next in s.held {
    } else {
      BestIsLeast(s, now, s.next + 1);
      if GapOver(s, Later(now, e)) {
        var k :| k in s.held && k > s.next && Age(s.held[k], Later(now, e)) >= MAX_WAIT;
        AgesWith(s.held[k], now, e);
      }
      if d != NEVER && e == d {
        var j :| j in s.held && s.next + 1 <= j && Left(s.held[j], now) == d;
        AgesWith(s.held[j], now, e);
      }
    }
  }

  /** The timeout is 0 exactly when a pop succeeds now. */
  lemma TimeoutZeroIff(s: State, now: Millis)
    requires Valid(s)
    ensures Timeout(s, now) == 0 <==> Pop(s, now).1.Some?
  {
    TimeoutIsExact(s, now, 0);
    assert Later(now, 0) == now;
  }

  // ----- runs -----

  datatype Event = Pushed(number: int, packet: Packet) | Popped(now: Millis)

  function Step(s: State, e: Event): (r: (State, Option<Released>))
    requires Valid(s)
    ensures Valid(r.0)
  {
    match e
    case Pushed(n, p) => (Push(s, n, p), None)
    case Popped(now) => Pop(s, now)
  }

  function Listed(o: Option<Released>): seq<Released> {
    if o.Some? then [o.value] else []
  }

  function Run(s: State, events: seq<Event>): (r: (State, seq<Released>))
    requires Valid(s)
    ensures Valid(r.0)
    decreases |events|
  {
    if events == [] then (s, [])
    else
      var (s1, o) := Step(s, events[0]);
      var (s2, outs) := Run(s1, events[1..]);
      (s2, Listed(o) + outs)
  }

  /** Numbers strictly increase from `last` on, and `lost` says exactly where one is skipped. */
  predicate Chain(last: int, outs: seq<Released>)
    decreases |outs|
  {
    outs == [] || (&& outs[0].number > last
                   && (outs[0].lost <==> outs[0].number != last + 1)
                   && Chain(outs[0].number, outs[1..]))
  }

  /** The number released last fits the state. */
  predicate Since(s: State, last: int) {
    last < s.next && (s.lost <==> s.next != last + 1)
  }

  lemma StepSince(s: State, last: int, e: Event)
    requires Valid(s) && Since(s, last)
    ensures var (s1, o) := Step(s, e);
            if o.Some? then o.value.number > last && (o.value.lost <==> o.value.number != last + 1) && Since(s1, o.value.number)
            else Since(s1, last)
  {
  }

  /** Over any run, the numbers released strictly increase and `lost` is exact. */
  lemma {:induction false} RunIsOrdered(s: State, last: int, events: seq<Event>)
    requires Valid(s) && Since(s, last)
    ensures Chain(last, Run(s, events).1)
    decreases |events|
  {
    if events != [] {
      StepSince(s, last, events[0]);
      var (s1, o) := Step(s, events[0]);
      var outs := Run(s1, events[1..]).1;
      RunIsOrdered(s1, if o.Some? then o.value.number else last, events[1..]);
      if o.Some? { assert ([o.value] + outs)[1..] == outs; } else { assert [] + outs == outs; }
    }
  }

  // ----- contents -----

  /** Packet `p` was pushed under number `n`. */
  predicate WasPushed(events: seq<Event>, n: int, p: Packet) {
    Pushed(n, p) in events
  }

  predicate Genuine(s: State, before: seq<Event>) {
    forall k | k in s.held :: WasPushed(before, k, s.held[k])
  }

  lemma StepGenuine(s: State, before: seq<Event>, e: Event)
    requires Valid(s) && Genuine(s, before)
    ensures Genuine(Step(s, e).0, before + [e])
    ensures Step(s, e).1.Some? ==> WasPushed(before, Step(s, e).1.value.number, Step(s, e).1.value.packet)
  {
    var s1 := Step(s, e).0;
    forall k | k in s1.held ensures WasPushed(before + [e], k, s1.held[k]) {
      if k in s.held && s1.held[k] == s.held[k] {
        assert WasPushed(before, k, s.held[k]);
      } else {
        assert e == Pushed(k, s1.held[k]) && (before + [e])[|before|] == e;
      }
    }
  }

  predicate AllGenuine(outs: seq<Released>, events: seq<Event>) {
    forall i | 0 <= i < |outs| :: WasPushed(events, outs[i].number, outs[i].packet)
  }

  /** Every packet released was pushed under its number. */
  lemma {:induction false} RunIsGenuine(s: State, before: seq<Event>, events: seq<Event>)
    requires Valid(s) && Genuine(s, before)
    ensures AllGenuine(Run(s, events).1, before + events)
    decreases |events|
  {
    if events != [] {
      var e, later := events[0], events[1..];
      var (s1, o) := Step(s, e);
      StepGenuine(s, before, e);
      RunIsGenuine(s1, before + [e], later);
      assert (before + [e]) + later == before + events;
      var outs, rest := Run(s, events).1, Run(s1, later).1;
      forall i | 0 <= i < |outs| ensures WasPushed(before + events, outs[i].number, outs[i].packet) {
        if o.Some? && i == 0 {
          assert WasPushed(before, outs[0].number, outs[0].packet);
        } else {
          assert outs[i] == rest[if o.Some? then i - 1 else i];
        }
      }
    }
  }

  /** Some event moved the window past number `k`. */
  predicate Overrun(events: seq<Event>, k: int) {
    exists i | 0 <= i < |events| :: events[i].Pushed? && events[i].number >= k + SLOTS
  }

  predicate Contains(outs: seq<Released>, k: int, p: Packet) {
    exists i | 0 <= i < |outs| :: outs[i].number == k && outs[i].packet == p
  }

  predicate Holds(s: State, k: int, p: Packet) {
    k in s.held && s.held[k] == p
  }

  lemma StepKeeps(s: State, k: int, p: Packet, e: Event)
    requires Valid(s) && Holds(s, k, p)
    ensures var (s1, o) := Step(s, e);
            Holds(s1, k, p) || (o.Some? && o.value.number == k && o.value.packet == p) || (e.Pushed? && e.number >= k + SLOTS)
  {
  }

  /** A packet in the window is never replaced: it stays until it is released, or until a packet
      a whole window ahead of it arrives. */
  lemma {:induction false} RunKeeps(s: State, k: int, p: Packet, events: seq<Event>)
    requires Valid(s) && Holds(s, k, p)
    ensures Holds(Run(s, events).0, k, p) || Contains(Run(s, events).1, k, p) || Overrun(events, k)
    decreases |events|
  {
    if events != [] {
      var (s1, o) := Step(s, events[0]);
      StepKeeps(s, k, p, events[0]);
      var outs, rest := Run(s, events).1, Run(s1, events[1..]).1;
      if Holds(s1, k, p) {
        RunKeeps(s1, k, p, events[1..]);
        if Contains(rest, k, p) {
          var i :| 0 <= i < |rest| && rest[i].number == k && rest[i].packet == p;
          assert outs[|Listed(o)| + i] == rest[i];
        }
        if Overrun(events[1..], k) {
          var i :| 0 <= i < |events| - 1 && events[1..][i].Pushed? && events[1..][i].number >= k + SLOTS;
          assert events[i + 1] == events[1..][i];
        }
      } else if o.Some? && o.value.number == k && o.value.packet == p {
        assert outs[0] == o.value;
      }
    }
  }

  /** From the first packet on: numbers strictly increase, a skipped number is flagged exactly
      where it is skipped, and every packet is one that was pushed under its number. */
  lemma RunFromFirst(n: int, events: seq<Event>)
    ensures Chain(n - 1, Run(First(n), events).1) && AllGenuine(Run(First(n), events).1, events)
  {
    RunIsOrdered(First(n), n - 1, events);
    RunIsGenuine(First(n), [], events);
    assert [] + events == events;
  }
}
