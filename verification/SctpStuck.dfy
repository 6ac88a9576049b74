/** A message that was acknowledged but merged in the wrong order: it is never delivered, and on a
    reliable ordered stream nothing behind it is. Lemma StuckRun reaches this state from the start
    of an association; MergeCompletesIff says exactly when merging leads there. */
module SctpStuck {
  import opened SctpTypes
  import opened SctpHistory
  import opened SctpReceiver
  import opened SctpDelivery
  import opened SctpDeliverStep
  import opened SctpSender
  import opened SctpSending
  import opened SctpSubmit
  import opened SctpSystem
  import opened SctpTheorems
  import opened SctpMergeOrder

  /** The message with TSNs t0..t0+n-1 is acknowledged and stuck in descriptors `h` and `s`. */
  predicate Stuck(v: Receiver, t0: int, n: nat, s: nat, h: nat) {
    StuckAt(v.slots, t0, n, s, h) && t0 + n - 1 <= v.cum
  }

  // ----- receiver steps -----

  /** Other descriptors may be marked delivered or freed. */
  lemma StuckFades(a: Slots, b: Slots, cum: int, t0: int, n: nat, s: nat, h: nat)
    requires StuckAt(a, t0, n, s, h) && |b| == |a| && b[s] == a[s] && b[h] == a[h]
    requires forall i | 0 <= i < |a| :: FadesTo(a[i], b[i], cum)
    ensures StuckAt(b, t0, n, s, h)
  {
    forall i | 0 <= i < |b| && b[i].Some?
      ensures a[i].Some? && b[i].value.first == a[i].value.first && b[i].value.tsn == a[i].value.tsn && b[i].value.end == a[i].value.end
    {
      assert FadesTo(a[i], b[i], cum);
    }
  }

  lemma StuckReclaim(v: Receiver, t0: int, n: nat, s: nat, h: nat)
    requires Stuck(v, t0, n, s, h)
    ensures Stuck(Reclaim(v), t0, n, s, h)
  {
    assert forall i | 0 <= i < |v.slots| :: Reclaim(v).slots[i] == Reclaimed(v.slots[i], v.cum);
    StuckFades(v.slots, Reclaim(v).slots, v.cum, t0, n, s, h);
  }

  lemma TableDisjoint(h: History, v: Receiver)
    requires TableOk(h, v)
    ensures Disjoint(v.slots)
  {
    forall i | 0 <= i < |v.slots| && v.slots[i].Some? ensures v.slots[i].value.first <= v.slots[i].value.tsn {
      assert EntryOk(h, v.cum, v.slots[i].value);
    }
    forall i, j | 0 <= i < |v.slots| && 0 <= j < |v.slots| && i != j && v.slots[i].Some? && v.slots[j].Some?
      ensures v.slots[i].value.tsn < v.slots[j].value.first || v.slots[j].value.tsn < v.slots[i].value.first
    {
      if i < j { assert Apart(v.slots[i].value, v.slots[j].value); } else { assert Apart(v.slots[j].value, v.slots[i].value); }
    }
  }

  lemma StuckAdmit(g: History, v: Receiver, c: Chunk, w: Receiver, t0: int, n: nat, s: nat, h: nat)
    requires HistoryOk(g) && TableOk(g, v) && Stuck(v, t0, n, s, h)
    requires v.cum < c.tsn < |g.chunks| && 0 <= c.tsn && c == g.chunks[c.tsn] && !Holds(v.slots, c.tsn)
    requires LastFree(v.slots, |v.slots|) < |v.slots| && w == Admit(v, Incoming(c))
    ensures Stuck(w, t0, n, s, h)
  {
    AdmitKeepsTable(g, v, c);
    TableDisjoint(g, w);
  }

  /** A chunk past the cumulative TSN is refused, or stored, drained and merged. */
  lemma FreshShape(v: Receiver, c: Chunk, w: Receiver)
    requires w == HandleFresh(v, c).0
    ensures w == v || (!Holds(v.slots, c.tsn) && LastFree(v.slots, |v.slots|) < |v.slots| &&
                       w == Merge(Drain(Admit(v, Incoming(c)))).0)
  {
    FreeSlotIffCount(v.slots, |v.slots|);
    assert v.slots[..|v.slots|] == v.slots;
  }

  lemma StuckDrain(v: Receiver, t0: int, n: nat, s: nat, h: nat)
    requires Stuck(v, t0, n, s, h)
    ensures Stuck(Merge(Drain(v)).0, t0, n, s, h)
  {
    StuckReclaim(v.(cum := DrainCum(v.slots, v.cum)), t0, n, s, h);
    StuckForever(Drain(v), t0, n, s, h, Merge(Drain(v)).0);
    MergeCum(Drain(v), Merge(Drain(v)).0);
  }

  lemma StuckFresh(g: History, v: Receiver, c: Chunk, w: Receiver, t0: int, n: nat, s: nat, h: nat)
    requires HistoryOk(g) && TableOk(g, v) && Stuck(v, t0, n, s, h) && w == HandleFresh(v, c).0
    requires v.cum < c.tsn < |g.chunks| && 0 <= c.tsn && c == g.chunks[c.tsn]
    ensures Stuck(w, t0, n, s, h)
  {
    FreshShape(v, c, w);
    if w != v {
      var admitted := Admit(v, Incoming(c));
      StuckAdmit(g, v, c, admitted, t0, n, s, h);
      StuckDrain(admitted, t0, n, s, h);
    }
  }

  lemma {:induction false} MergeCum(v: Receiver, w: Receiver)
    requires w == Merge(v).0
    ensures w.cum == v.cum
    decreases CountHeld(v.slots)
  {
    match FirstPair(v, 0, 0)
    case None =>
    case Some((i, j)) =>
      if |v.slots[i].value.data| + |v.slots[j].value.data| <= MAX_MESSAGE_SIZE {
        CountHeldMergeAt(v.slots, i, j);
        MergeCum(v.(slots := MergeAt(v.slots, i, j)), w);
      }
  }

  lemma StuckData(g: History, skippable: set<nat>, v: Receiver, log: seq<nat>, c: Chunk, t0: int, n: nat, s: nat, h: nat)
    requires ReceiverOk(g, skippable, v, log) && Stuck(v, t0, n, s, h)
    requires 0 <= c.tsn < |g.chunks| && c == g.chunks[c.tsn]
    ensures Stuck(HandleData(v, c).0, t0, n, s, h)
  {
    var v1 := v.(sackNeeded := true);
    if |c.payload| <= MAX_MESSAGE_SIZE && c.tsn > v1.cum {
      SameSsnKeeps(g, skippable, v, v1, log);
      ReclaimKeeps(g, skippable, v1, log);
      StuckReclaim(v1, t0, n, s, h);
      StuckFresh(g, Reclaim(v1), c, HandleData(v, c).0, t0, n, s, h);
    }
  }

  // ----- polling -----

  /** Behind the first part of an assembled message there is no first fragment. */
  lemma {:induction false} AssembleBegins(slots: Slots, tsn: int, parts: seq<nat>, all: seq<nat>)
    requires |parts| <= |slots| && AllPending(slots, parts) && Assemble(slots, tsn, parts) == Complete(all)
    requires forall k | 0 < k < |parts| :: !slots[parts[k]].value.begin
    ensures forall k | 0 < k < |all| :: !slots[all[k]].value.begin
    decreases |slots| - |parts|
  {
    var j := FindPending(slots, tsn, 0);
    if !slots[j].value.end { AssembleBegins(slots, tsn + 1, parts + [j], all); }
  }

  /** No part of the stuck message is part of a message that assembles completely. */
  lemma StuckNotAmong(slots: Slots, t0: int, n: nat, s: nat, h: nat, i: nat, parts: seq<nat>)
    requires StuckAt(slots, t0, n, s, h) && Pending(slots, i) && slots[i].value.begin
    requires Assemble(slots, slots[i].value.tsn, []) == Complete(parts)
    ensures s !in parts && h !in parts
  {
    var base := slots[i].value.tsn;
    AssembleTsns(slots, base, []);
    AssembleBegins(slots, base, [], parts);
    if base == slots[h].value.tsn { StuckNeverAssembles(slots, t0, n, s, h, base, []); }
    forall k | 0 <= k < |parts| ensures parts[k] != s && parts[k] != h {
      if k > 0 { assert slots[parts[k - 1]].value.tsn == base + (k - 1); }
    }
  }

  lemma StuckDeliver(v: Receiver, i: nat, parts: seq<nat>, t0: int, n: nat, s: nat, h: nat)
    requires Stuck(v, t0, n, s, h) && i < |v.slots| && Eligible(v, i)
    requires Assemble(v.slots, v.slots[i].value.tsn, []) == Complete(parts)
    ensures AllHeld(v.slots, parts) && Stuck(Deliver(v, i, parts), t0, n, s, h)
  {
    StuckNotAmong(v.slots, t0, n, s, h, i, parts);
    StuckFades(v.slots, MarkDelivered(v.slots, parts), v.cum, t0, n, s, h);
    DeliverShape(v, i, parts);
  }

  lemma {:induction false} StuckPollFrom(v: Receiver, i: nat, r: (Receiver, Status, Option<Message>), t0: int, n: nat, s: nat, h: nat)
    requires Stuck(v, t0, n, s, h) && i <= |v.slots| && r == PollFrom(v, i)
    ensures Stuck(r.0, t0, n, s, h)
    decreases |v.slots| - i
  {
    if i < |v.slots| {
      var w, a := PollTurn(v, i, r);
      match a
      case Incomplete => StuckPollFrom(w, i + 1, r, t0, n, s, h);
      case Broken(_) =>
      case Complete(parts) => StuckDeliver(w, i, parts, t0, n, s, h);
    }
  }

  lemma StuckPoll(v: Receiver, t0: int, n: nat, s: nat, h: nat)
    requires Stuck(v, t0, n, s, h)
    ensures Stuck(PollDelivery(v).0, t0, n, s, h)
  {
    StuckReclaim(v, t0, n, s, h);
    StuckPollFrom(Reclaim(v), 0, PollDelivery(v), t0, n, s, h);
  }

  // ----- runs -----

  /** No FORWARD TSN beyond `last` arrives. */
  predicate NoForwardPast(steps: seq<Step>, last: int) {
    forall k | 0 <= k < |steps| && steps[k].Arrive? && steps[k].packet.ForwardPacket? :: steps[k].packet.newTsn <= last
  }

  lemma StuckStep(x: System, step: Step, abandoned: set<nat>, log: seq<nat>, t0: int, n: nat, s: nat, h: nat)
    requires Inv(x, abandoned, log) && Enabled(x, step) && Stuck(x.rx, t0, n, s, h)
    requires step.Arrive? && step.packet.ForwardPacket? ==> step.packet.newTsn <= t0 + n - 1
    ensures Stuck(Next(x, step).rx, t0, n, s, h)
  {
    match step {
      case Arrive(DataPacket(c)) =>
        assert PacketOk(x, abandoned, DataPacket(c));
        StuckData(x.history, Skippable(x.history, abandoned), x.rx, log, c, t0, n, s, h);
      case Poll =>
        PolledIsNext(x);
        StuckPoll(x.rx, t0, n, s, h);
      case _ =>
    }
  }

  lemma {:induction false} StuckRunKeeps(x: System, steps: seq<Step>, abandoned: set<nat>, log: seq<nat>, t0: int, n: nat, s: nat, h: nat)
    requires Inv(x, abandoned, log) && Runnable(x, steps) && Stuck(x.rx, t0, n, s, h) && NoForwardPast(steps, t0 + n - 1)
    ensures Stuck(Run(x, steps).rx, t0, n, s, h)
    decreases |steps|
  {
    if steps != [] {
      StuckStep(x, steps[0], abandoned, log, t0, n, s, h);
      var more, longer := StepKeeps(x, steps[0], abandoned, log);
      forall k | 0 <= k < |steps[1..]| && steps[1..][k].Arrive? && steps[1..][k].packet.ForwardPacket?
        ensures steps[1..][k].packet.newTsn <= t0 + n - 1
      {
        assert steps[1..][k] == steps[k + 1];
      }
      StuckRunKeeps(Next(x, steps[0]), steps[1..], more, longer, t0, n, s, h);
    }
  }

  /** The message that owns the stuck fragments has not been delivered. */
  lemma StuckOwner(x: System, abandoned: set<nat>, log: seq<nat>, t0: int, n: nat, s: nat, h: nat) returns (m: nat)
    requires Inv(x, abandoned, log) && Stuck(x.rx, t0, n, s, h)
    ensures 0 <= t0 < |x.history.owner| && m == x.history.owner[t0] < |x.history.accepted| && m !in log
  {
    var e := x.rx.slots[h].value;
    assert EntryOk(x.history, x.rx.cum, e);
    m := x.history.owner[t0];
    assert ChunkOk(x.history.accepted[m], x.history.chunks[t0], t0);
  }

  /** Along every run without a FORWARD TSN past it, a stuck message is never delivered. */
  lemma StuckIsNeverDelivered(x: System, steps: seq<Step>, t0: int, n: nat, s: nat, h: nat)
    requires Reachable(x) && Stuck(x.rx, t0, n, s, h) && Runnable(x, steps) && NoForwardPast(steps, t0 + n - 1)
    ensures var y := Run(x, steps);
            && Stuck(y.rx, t0, n, s, h) && 0 <= t0 < |y.history.owner|
            && exists from :: Explains(y, from) && y.history.owner[t0] !in from
  {
    var abandoned, log := ReachableInv(x);
    StuckRunKeeps(x, steps, abandoned, log, t0, n, s, h);
    var y := Run(x, steps);
    var more, longer := RunKeeps(x, steps, abandoned, log);
    var m := StuckOwner(y, more, longer, t0, n, s, h);
    ExplainedBy(y, more, longer);
  }

  /** A DATA chunk acknowledges fragments of a message, whose acknowledged part `n` fragments long is
      held in the descriptors `p`: it is then all in its front, if the front sits below every middle
      piece, and otherwise the message is never delivered, unless a FORWARD TSN passes it. */
  lemma AssembledOrNeverDelivered(x: System, c: Chunk, d: Receiver, p: seq<nat>, t0: int, m: nat, n: nat, steps: seq<Step>)
    requires Reachable(x) && DataPacket(c) in x.net && HandleData(x.rx, c) == Merge(d) && Merge(d).1 == Ok
    requires Partly(d, p, t0, m) && n == m + |p|
    requires Runnable(Next(x, Arrive(DataPacket(c))), steps) && NoForwardPast(steps, t0 + n - 1)
    ensures FrontFirst(p) ==> Assembled(Next(x, Arrive(DataPacket(c))).rx.slots, t0, n)
    ensures !FrontFirst(p) ==>
              var y := Run(Next(x, Arrive(DataPacket(c))), steps);
              0 <= t0 < |y.history.owner| && exists from :: Explains(y, from) && y.history.owner[t0] !in from
  {
    MergeCompletesIff(d, p, t0, m, Merge(d).0, n);
    if !FrontFirst(p) {
      var y := Next(x, Arrive(DataPacket(c)));
      ReachableMore(x, Arrive(DataPacket(c)));
      MergeCum(d, y.rx);
      var s :| 0 <= s < |y.rx.slots| && StuckAt(y.rx.slots, t0, n, s, p[0]);
      StuckIsNeverDelivered(y, steps, t0, n, s, p[0]);
    }
  }

  // ----- what stays behind it -----

  /** A delivered prefix that reaches past an ordered message contains it. */
  lemma {:induction false} InLogOn(h: History, log: seq<nat>, sid: nat, m: nat)
    requires m in LogOn(h, log, sid)
    ensures m in log
    decreases |log|
  {
    var k := |log| - 1;
    if m in LogOn(h, log[..k], sid) { InLogOn(h, log[..k], sid, m); }
  }

  /** On a reliable ordered stream nothing from the stuck message on is delivered. */
  lemma NothingBehindStuck(x: System, steps: seq<Step>, t0: int, n: nat, s: nat, h: nat, sid: nat)
    requires Reachable(x) && Stuck(x.rx, t0, n, s, h) && Runnable(x, steps) && NoForwardPast(steps, t0 + n - 1)
    requires var y := Run(x, steps);
             && OrderedStream(y.history.accepted, sid) && ReliableStream(y.history.accepted, sid)
             && 0 <= t0 < |y.history.owner| && y.history.owner[t0] < |y.history.accepted|
             && y.history.accepted[y.history.owner[t0]].sid == sid
    ensures var y := Run(x, steps);
            |DeliveredOn(y.out, sid)| <= y.history.accepted[y.history.owner[t0]].ssn
  {
    var abandoned, log := ReachableInv(x);
    StuckRunKeeps(x, steps, abandoned, log, t0, n, s, h);
    var y := Run(x, steps);
    var more, longer := RunKeeps(x, steps, abandoned, log);
    var m := StuckOwner(y, more, longer, t0, n, s, h);
    PrefixStops(y, more, longer, sid, m);
  }

  lemma PrefixStops(y: System, abandoned: set<nat>, log: seq<nat>, sid: nat, m: nat)
    requires Inv(y, abandoned, log) && OrderedStream(y.history.accepted, sid) && ReliableStream(y.history.accepted, sid)
    requires m < |y.history.accepted| && m !in log && y.history.accepted[m].sid == sid
    ensures |DeliveredOn(y.out, sid)| <= y.history.accepted[m].ssn
  {
    var g := y.history;
    NotSkippable(g, abandoned, sid);
    assert PrefixOk(g, y.rx.streams, log, sid);
    assert y.out[..|y.out|] == y.out && log[..|log|] == log;
    DeliveredOnContents(y, log, |log|, sid);
    assert MessageOk(g, m);
    OrderedOnPosition(g.accepted, m);
    var k := SsnOf(y.rx.streams, sid);
    if g.accepted[m].ssn < k {
      assert OrderedOn(g.accepted, sid)[..k][g.accepted[m].ssn] == m;
      InLogOn(g, log, sid, m);
      assert false;
    }
  }
}
