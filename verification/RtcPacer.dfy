/** The send pacer: a token bucket that meters video fragments into the output queue,
    with a latency cap. Fragments are their lengths and enqueue times. */
module RtcPacer {
  const FACTOR_PCT: nat := 150
  const MAX_BURST: nat := 3000
  const MIN_RATE: nat := 100000
  const MAX_QUEUE_MS: nat := 40

  /** Largest fragment: one media buffer. */
  const MEDIA_BUF: nat := 1232

  type Time = t: nat | t < 0x1_0000_0000

  function Elapsed(now: Time, since: Time): Time {
    if now >= since then now - since else now - since + 0x1_0000_0000
  }

  function Later(now: Time, d: nat): Time
    requires d < 0x1_0000_0000
  {
    if now + d < 0x1_0000_0000 then now + d else now + d - 0x1_0000_0000
  }

  /** Zero is reserved for deadlines that are not armed. */
  function Deadline(now: Time, d: nat): Time
    requires d < 0x1_0000_0000
  {
    if Later(now, d) == 0 then 1 else Later(now, d)
  }

  datatype Frag = Frag(len: nat, at: Time)

  datatype Pacer = Pacer(backlog: seq<Frag>, budget: nat, lastRefill: Time, inited: bool, nextRelease: Time)

  /** Pacing rate in bits per second from the bandwidth estimate. */
  function Rate(estimate: nat): (r: nat)
    ensures 0 < r < 0x1_0000_0000
  {
    var est := if estimate < MIN_RATE then MIN_RATE else estimate;
    var rate := est * FACTOR_PCT / 100;
    if rate > 0xFFFF_FFFF then 0xFFFF_FFFF else rate
  }

  /** One and a half times the estimate, which counts as 100 kbit/s at least, rounded down to whole bits
      and capped at 32 bits. */
  lemma RateIs(estimate: nat)
    ensures Rate(estimate) >= 150_000
    ensures Rate(estimate) < 0xFFFF_FFFF && estimate >= 100_000 ==> 2 * Rate(estimate) <= 3 * estimate < 2 * Rate(estimate) + 2
    ensures Rate(estimate) == 0xFFFF_FFFF <==> 3 * estimate >= 2 * 0xFFFF_FFFF
    ensures estimate <= 100_000 ==> Rate(estimate) == 150_000
  {
  }

  /** Bytes earned in `elapsed` milliseconds. */
  function Credit(rate: nat, elapsed: nat): nat {
    rate * elapsed / 8000
  }

  /** Milliseconds that earn credit: one second at most. */
  function Counted(p: Pacer, now: Time): (ms: nat)
    ensures ms <= 1000
  {
    var e := if p.inited then Elapsed(now, p.lastRefill) else 0;
    if e > 1000 then 1000 else e
  }

  function Refill(p: Pacer, now: Time, rate: nat): Pacer {
    var ms := Counted(p, now);
    if ms == 0 then p.(inited := true, lastRefill := if p.inited then p.lastRefill else now)
    else
      var budget := p.budget + Credit(rate, ms);
      p.(budget := if budget > MAX_BURST then MAX_BURST else budget, lastRefill := now, inited := true)
  }

  predicate Aged(f: Frag, now: Time) {
    Elapsed(now, f.at) >= MAX_QUEUE_MS
  }

  /** What one pump releases: the fragments, and how many of their bytes were on credit. */
  datatype Release = Release(p: Pacer, out: seq<Frag>, credited: nat)

  /** Releases due fragments from the front while the output queue has room. */
  function Drain(p: Pacer, now: Time, room: nat): (r: Release)
    ensures r.out + r.p.backlog == p.backlog && |r.out| <= room
    ensures r.p.budget + r.credited <= p.budget
    ensures r.p == p.(backlog := r.p.backlog, budget := r.p.budget)
    decreases |p.backlog|
  {
    if p.backlog == [] || room == 0 then Release(p, [], 0)
    else
      var f := p.backlog[0];
      if p.budget < f.len && !Aged(f, now) then Release(p, [], 0)
      else
        var onCredit := p.budget >= f.len;
        var rest := Drain(p.(backlog := p.backlog[1..], budget := if onCredit then p.budget - f.len else 0), now, room - 1);
        assert p.backlog == [f] + p.backlog[1..];
        Release(rest.p, [f] + rest.out, (if onCredit then f.len else 0) + rest.credited)
  }

  /** When the head fragment will be due. */
  function NextRelease(p: Pacer, now: Time, rate: nat): Time
    requires rate > 0
  {
    if p.backlog == [] then now
    else
      var f := p.backlog[0];
      var deficit := if f.len > p.budget then f.len - p.budget else 0;
      var wait := (deficit * 8000 + rate - 1) / rate;
      var age := Elapsed(now, f.at);
      var untilAge := if age >= MAX_QUEUE_MS then 0 else MAX_QUEUE_MS - age;
      var w := if untilAge < wait then untilAge else wait;
      if w == 0 then now else Deadline(now, w)
  }

  function Pump(p: Pacer, now: Time, estimate: nat, room: nat): (r: Release)
    ensures r.out + r.p.backlog == p.backlog && |r.out| <= room
  {
    if p.backlog == [] then Release(p, [], 0)
    else
      var rate := Rate(estimate);
      var d := Drain(Refill(p, now, rate), now, room);
      d.(p := d.p.(nextRelease := NextRelease(d.p, now, rate)))
  }

  function Enqueue(p: Pacer, f: Frag): Pacer {
    p.(backlog := p.backlog + [f])
  }

  // ----- the rate bound -----

  datatype Step = Arrive(f: Frag) | PumpAt(now: Time, estimate: nat, room: nat)

  /** A run: the pacer, all fragments released, bytes released on credit, and the sum of
      rate times counted milliseconds. */
  datatype Run = Run(p: Pacer, arrived: seq<Frag>, released: seq<Frag>, credited: nat, earned: nat)

  function Next(r: Run, step: Step): Run {
    match step
    case Arrive(f) => r.(p := Enqueue(r.p, f), arrived := r.arrived + [f])
    case PumpAt(now, estimate, room) =>
      var d := Pump(r.p, now, estimate, room);
      Run(d.p, r.arrived, r.released + d.out, r.credited + d.credited,
          r.earned + if r.p.backlog == [] then 0 else Rate(estimate) * Counted(r.p, now))
  }

  function After(r: Run, steps: seq<Step>): Run {
    if steps == [] then r else Next(After(r, steps[..|steps| - 1]), steps[|steps| - 1])
  }

  lemma CreditBound(rate: nat, ms: nat)
    ensures 8000 * Credit(rate, ms) <= rate * ms
  {
  }

  lemma RefillBound(p: Pacer, now: Time, rate: nat)
    ensures 8000 * Refill(p, now, rate).budget <= 8000 * p.budget + rate * Counted(p, now)
    ensures p.budget <= MAX_BURST ==> Refill(p, now, rate).budget <= MAX_BURST
  {
    CreditBound(rate, Counted(p, now));
  }

  lemma StepBound(r: Run, step: Step)
    ensures 8000 * (Next(r, step).credited + Next(r, step).p.budget) - Next(r, step).earned
            <= 8000 * (r.credited + r.p.budget) - r.earned
    ensures r.p.budget <= MAX_BURST ==> Next(r, step).p.budget <= MAX_BURST
  {
    match step
    case Arrive(f) =>
    case PumpAt(now, estimate, room) => RefillBound(r.p, now, Rate(estimate));
  }

  lemma {:induction false} RunBound(r: Run, steps: seq<Step>)
    ensures 8000 * (After(r, steps).credited + After(r, steps).p.budget) - After(r, steps).earned
            <= 8000 * (r.credited + r.p.budget) - r.earned
    ensures r.p.budget <= MAX_BURST ==> After(r, steps).p.budget <= MAX_BURST
  {
    if steps != [] {
      RunBound(r, steps[..|steps| - 1]);
      StepBound(After(r, steps[..|steps| - 1]), steps[|steps| - 1]);
    }
  }

  /** Over any stretch of a run, bytes released on credit plus the budget left are at most one
      burst plus the integral of the rate. */
  lemma RateBound(p: Pacer, steps: seq<Step>)
    requires p.budget <= MAX_BURST
    ensures var r := After(Run(p, [], [], 0, 0), steps);
            (r.credited + r.p.budget) as real <= MAX_BURST as real + r.earned as real / 8000.0
  {
    RunBound(Run(p, [], [], 0, 0), steps);
    var r := After(Run(p, [], [], 0, 0), steps);
    assert 8000 * (r.credited + r.p.budget) <= 8000 * MAX_BURST + r.earned;
    assert 8000.0 * (r.credited + r.p.budget) as real <= 8000.0 * MAX_BURST as real + r.earned as real;
  }

  /** Release is first in, first out, and loses nothing. */
  lemma {:induction false} ReleaseIsFifo(p: Pacer, steps: seq<Step>)
    ensures var r := After(Run(p, [], [], 0, 0), steps);
            r.released + r.p.backlog == p.backlog + r.arrived
  {
    if steps != [] {
      var front, step := steps[..|steps| - 1], steps[|steps| - 1];
      var q := After(Run(p, [], [], 0, 0), front);
      ReleaseIsFifo(p, front);
      match step
      case Arrive(f) =>
        assert q.released + (q.p.backlog + [f]) == q.released + q.p.backlog + [f];
        assert p.backlog + (q.arrived + [f]) == p.backlog + q.arrived + [f];
      case PumpAt(now, estimate, room) =>
        var d := Pump(q.p, now, estimate, room);
        assert q.released + d.out + d.p.backlog == q.released + (d.out + d.p.backlog);
    }
  }

  // ----- waking up in time -----

  /** The cached deadline was computed by a pump at `now` that left the fragment at the front. */
  predicate Cached(p: Pacer, now: Time, rate: nat) {
    rate > 0 && p.backlog != [] && p.inited && p.lastRefill == now && p.nextRelease == NextRelease(p, now, rate)
  }

  /** A pump that leaves a backlog caches the deadline of the new head. */
  lemma PumpCaches(p: Pacer, now: Time, estimate: nat, room: nat)
    requires Pump(p, now, estimate, room).p.backlog != []
    ensures Cached(Pump(p, now, estimate, room).p, now, Rate(estimate))
  {
    var rate := Rate(estimate);
    var refilled := Refill(p, now, rate);
    assert refilled.inited && refilled.lastRefill == now;
  }

  lemma DivCeil(deficit: nat, rate: nat, ms: nat)
    requires rate > 0 && ms >= (deficit * 8000 + rate - 1) / rate
    ensures rate * ms >= deficit * 8000
  {
    var w := (deficit * 8000 + rate - 1) / rate;
    assert rate * w > deficit * 8000 - 1 by { DivMod(deficit * 8000 + rate - 1, rate); }
    MulMono(rate, w, ms);
  }

  lemma DivMod(x: nat, d: nat)
    requires d > 0
    ensures d * (x / d) > x - d
  {
    assert x == d * (x / d) + x % d;
  }

  lemma MulMono(a: nat, b: nat, c: nat)
    requires b <= c
    ensures a * b <= a * c
  {
  }

  lemma EnoughCredit(deficit: nat, rate: nat, ms: nat)
    requires rate * ms >= deficit * 8000
    ensures Credit(rate, ms) >= deficit
  {
    assert rate * ms / 8000 >= deficit * 8000 / 8000;
  }

  /** The wait until the cached deadline never exceeds the latency cap, give or take the
      millisecond that keeps zero free. */
  lemma WaitBound(p: Pacer, now: Time, rate: nat)
    requires Cached(p, now, rate)
    ensures Elapsed(p.nextRelease, now) <= MAX_QUEUE_MS + 1
    ensures var f := p.backlog[0];
            var deficit := if f.len > p.budget then f.len - p.budget else 0;
            || Elapsed(p.nextRelease, now) >= (deficit * 8000 + rate - 1) / rate
            || Aged(f, p.nextRelease)
  {
    var f := p.backlog[0];
    var age := Elapsed(now, f.at);
    var deficit := if f.len > p.budget then f.len - p.budget else 0;
    var wait := (deficit * 8000 + rate - 1) / rate;
    var untilAge := if age >= MAX_QUEUE_MS then 0 else MAX_QUEUE_MS - age;
    var w := if untilAge < wait then untilAge else wait;
    assert w <= MAX_QUEUE_MS;
    if w > 0 { assert w <= Elapsed(Deadline(now, w), now) <= w + 1; }
    if untilAge < wait && age < MAX_QUEUE_MS {
      assert Elapsed(Deadline(now, w), f.at) >= age + w;
    }
  }

  /** With an unchanged estimate and room in the output queue, a pump at the cached deadline
      releases at least the head fragment. */
  lemma DeadlineReleases(p: Pacer, now: Time, estimate: nat, room: nat)
    requires Cached(p, now, Rate(estimate)) && p.budget <= MAX_BURST && p.backlog[0].len <= MEDIA_BUF && room > 0
    ensures Pump(p, p.nextRelease, estimate, room).out != []
    ensures Pump(p, p.nextRelease, estimate, room).out[0] == p.backlog[0]
  {
    var rate, t, f := Rate(estimate), p.nextRelease, p.backlog[0];
    var deficit := if f.len > p.budget then f.len - p.budget else 0;
    WaitBound(p, now, rate);
    if !Aged(f, t) {
      var ms := Elapsed(t, now);
      assert Counted(p, t) == ms;
      DivCeil(deficit, rate, ms);
      EnoughCredit(deficit, rate, ms);
      assert Refill(p, t, rate).budget >= f.len;
    }
    var d := Drain(Refill(p, t, rate), t, room);
    assert d.out[0] == f;
  }

  /** Once the queue has room for everything, a pump leaves no fragment past the latency cap. */
  lemma NothingAges(p: Pacer, now: Time, estimate: nat, room: nat)
    requires room >= |p.backlog|
    ensures var left := Pump(p, now, estimate, room).p.backlog; left != [] ==> !Aged(left[0], now)
  {
    if p.backlog != [] { DrainLeaves(Refill(p, now, Rate(estimate)), now, room); }
  }

  lemma {:induction false} DrainLeaves(p: Pacer, now: Time, room: nat)
    requires room >= |p.backlog|
    ensures var d := Drain(p, now, room).p; d.backlog != [] ==> !Aged(d.backlog[0], now) && d.budget < d.backlog[0].len
    decreases |p.backlog|
  {
    if p.backlog != [] {
      var f := p.backlog[0];
      if p.budget >= f.len || Aged(f, now) {
        DrainLeaves(p.(backlog := p.backlog[1..], budget := if p.budget >= f.len then p.budget - f.len else 0), now, room - 1);
      }
    }
  }
}
