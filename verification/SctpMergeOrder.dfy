/** When does merging collect the acknowledged part of a message? The scan takes the lowest
    descriptor that can absorb a successor, and a descriptor that absorbed one is known by its last
    TSN only. So a middle fragment in a lower descriptor than the front absorbs its successor first,
    and can then never be absorbed itself. Lemma MergeCompletesIff gives the exact condition. */
module SctpMergeOrder {
  import opened SctpTypes
  import opened SctpReceiver
  import Slices

  /** Descriptors cover disjoint, non-empty TSN ranges. */
  predicate Disjoint(slots: Slots) {
    && (forall i | 0 <= i < |slots| && slots[i].Some? :: slots[i].value.first <= slots[i].value.tsn)
    && forall i, j | 0 <= i < |slots| && 0 <= j < |slots| && i != j && slots[i].Some? && slots[j].Some? ::
         slots[i].value.tsn < slots[j].value.first || slots[j].value.tsn < slots[i].value.first
  }

  predicate Kin(a: Entry, b: Entry) {
    a.sid == b.sid && a.ssn == b.ssn && a.ppid == b.ppid && a.unordered == b.unordered
  }

  /** The piece `p[k]` of the message at TSN `t0`, whose front ends at fragment `m`, is one fragment. */
  predicate Alone(slots: Slots, p: seq<nat>, t0: int, m: nat, k: nat)
    requires k < |p|
  {
    && Pending(slots, p[0]) && Pending(slots, p[k])
    && var e := slots[p[k]].value;
       e.first == e.tsn == t0 + m + k && !e.begin && (e.end ==> k == |p| - 1) && Kin(slots[p[0]].value, e)
  }

  /** The first piece holds the fragments 0..m. */
  predicate Front(slots: Slots, p: seq<nat>, t0: int, m: nat)
    requires p != []
  {
    && Pending(slots, p[0])
    && var e := slots[p[0]].value;
       e.first == t0 && e.tsn == t0 + m && e.begin && (e.end ==> |p| == 1)
  }

  /** The acknowledged part of a message in the descriptors `p`: the front with the fragments 0..m,
      then one fragment in each, as far as the message or the cumulative TSN goes. */
  ghost predicate Partly(v: Receiver, p: seq<nat>, t0: int, m: nat) {
    && p != [] && t0 + m + |p| - 1 <= v.cum && Disjoint(v.slots)
    && Front(v.slots, p, t0, m)
    && (forall k | 0 < k < |p| :: Alone(v.slots, p, t0, m, k))
    && Ends(v, p, t0, m)
  }

  /** No acknowledged fragment continues the last piece. */
  predicate Ends(v: Receiver, p: seq<nat>, t0: int, m: nat)
    requires p != []
  {
    t0 + m + |p| - 1 == v.cum || (Pending(v.slots, p[|p| - 1]) && v.slots[p[|p| - 1]].value.end)
  }

  /** One descriptor holds the fragments 0..n-1. */
  ghost predicate Assembled(slots: Slots, t0: int, n: nat) {
    exists s | 0 <= s < |slots| :: slots[s].Some? && slots[s].value.first == t0 && slots[s].value.tsn == t0 + n - 1
  }

  /** No two descriptors can be merged. */
  predicate Settled(v: Receiver) {
    forall i: nat, j: nat | i < |v.slots| && j < |v.slots| :: !CanMerge(v, i, j)
  }

  // ----- which pair is merged -----

  lemma {:induction false} FirstPairIsLowest(v: Receiver, i: nat, j: nat, a: nat, b: nat)
    requires i <= |v.slots| && j <= |v.slots| && b < |v.slots|
    requires FirstPair(v, i, j).Some? && FirstPair(v, i, j).value.0 > a
    requires i < a || (i == a && j <= b)
    ensures !CanMerge(v, a, b)
    decreases |v.slots| - i, |v.slots| - j
  {
    if j == |v.slots| {
      FirstPairIsLowest(v, i + 1, 0, a, b);
    } else if !CanMerge(v, i, j) && !(i == a && j == b) {
      FirstPairIsLowest(v, i, j + 1, a, b);
    }
  }

  /** The descriptor that is absorbed holds a single fragment. */
  lemma AbsorbedIsSingle(v: Receiver, i: nat, j: nat)
    requires Disjoint(v.slots) && CanMerge(v, i, j)
    ensures i != j && v.slots[j].value.first == v.slots[j].value.tsn
  {
  }

  lemma MergeKeepsDisjoint(v: Receiver, i: nat, j: nat)
    requires Disjoint(v.slots) && CanMerge(v, i, j)
    ensures i != j && Disjoint(MergeAt(v.slots, i, j))
  {
    AbsorbedIsSingle(v, i, j);
    var after := MergeAt(v.slots, i, j);
    assert forall k | 0 <= k < |after| && k != i && k != j :: after[k] == v.slots[k];
  }

  /** The next fragment can be absorbed by the front. */
  lemma FrontCanMerge(v: Receiver, p: seq<nat>, t0: int, m: nat)
    requires Partly(v, p, t0, m) && |p| > 1
    ensures CanMerge(v, p[0], p[1])
  {
    assert Alone(v.slots, p, t0, m, 1);
  }

  /** Two neighbours past the front can be merged. */
  lemma NeighboursCanMerge(v: Receiver, p: seq<nat>, t0: int, m: nat, k: nat)
    requires Partly(v, p, t0, m) && 0 < k && k + 1 < |p|
    ensures CanMerge(v, p[k], p[k + 1])
  {
    assert Alone(v.slots, p, t0, m, k) && Alone(v.slots, p, t0, m, k + 1);
  }

  /** What a merge can be to the message: the front growing, two neighbours past the front, or nothing. */
  lemma MergeCases(v: Receiver, p: seq<nat>, t0: int, m: nat, i: nat, j: nat)
    requires Partly(v, p, t0, m) && CanMerge(v, i, j)
    ensures forall k | 0 <= k < |p| && i == p[k] :: k + 1 < |p| && j == p[k + 1]
    ensures (forall k | 0 <= k < |p| :: i != p[k]) ==> forall k | 0 <= k < |p| :: j != p[k]
  {
    forall k | 0 <= k < |p| && i == p[k] ensures k + 1 < |p| && j == p[k + 1] {
      if k > 0 { assert Alone(v.slots, p, t0, m, k); }
      assert v.slots[i].value.tsn == t0 + m + k;
      if k + 1 < |p| { assert Alone(v.slots, p, t0, m, k + 1); }
    }
    if forall k | 0 <= k < |p| :: i != p[k] {
      forall k | 0 <= k < |p| ensures j != p[k] {
        if k > 0 { assert Alone(v.slots, p, t0, m, k); }
        if k > 1 { assert Alone(v.slots, p, t0, m, k - 1); }
      }
    }
  }

  // ----- the front absorbs the rest -----

  /** The listed descriptors are unchanged. */
  predicate Unchanged(a: Slots, b: Slots, p: seq<nat>) {
    forall k | 0 <= k < |p| :: p[k] < |a| && p[k] < |b| && b[p[k]] == a[p[k]]
  }

  lemma {:induction false} JoinedUnchanged(a: Slots, b: Slots, p: seq<nat>)
    requires AllHeld(a, p) && Unchanged(a, b, p)
    ensures AllHeld(b, p) && Joined(b, p) == Joined(a, p)
  {
    if p != [] { JoinedUnchanged(a, b, p[..|p| - 1]); }
  }

  lemma PartsHeld(slots: Slots, p: seq<nat>, lo: nat, hi: nat)
    requires AllHeld(slots, p) && lo <= hi <= |p|
    ensures AllHeld(slots, p[lo..hi])
  {
    forall k | 0 <= k < hi - lo ensures p[lo..hi][k] < |slots| && slots[p[lo..hi][k]].Some? {
      assert p[lo..hi][k] == p[lo + k];
    }
  }

  lemma {:induction false} JoinedFirst(slots: Slots, p: seq<nat>, q: seq<nat>)
    requires p != [] && AllHeld(slots, p) && q == p[1..]
    ensures AllHeld(slots, q) && Joined(slots, p) == slots[p[0]].value.data + Joined(slots, q)
    decreases |p|
  {
    var n := |p| - 1;
    PartsHeld(slots, p, 1, |p|);
    if n == 0 {
      assert p[..0] == [] && q == [];
    } else {
      PartsHeld(slots, p, 0, n);
      assert p[0..n] == p[..n] && p[..n][1..] == q[..n - 1];
      JoinedFirst(slots, p[..n], q[..n - 1]);
      Slices.Assoc(slots[p[0]].value.data, Joined(slots, q[..n - 1]), slots[p[n]].value.data);
    }
  }

  lemma PiecesHeld(v: Receiver, p: seq<nat>, t0: int, m: nat)
    requires Partly(v, p, t0, m)
    ensures AllHeld(v.slots, p)
    ensures forall j, k | 0 <= j < k < |p| :: p[j] != p[k]
  {
    forall k | 0 <= k < |p| ensures p[k] < |v.slots| && v.slots[p[k]].Some? && v.slots[p[k]].value.tsn == t0 + m + k {
      if k > 0 { assert Alone(v.slots, p, t0, m, k); }
    }
  }

  /** A merge of other descriptors. */
  lemma ElsewhereKeeps(v: Receiver, p: seq<nat>, t0: int, m: nat, i: nat, j: nat, w: Receiver)
    requires Partly(v, p, t0, m) && CanMerge(v, i, j) && forall k | 0 <= k < |p| :: i != p[k]
    requires w == v.(slots := MergeAt(v.slots, i, j))
    ensures i != j && Partly(w, p, t0, m) && AllHeld(v.slots, p) && AllHeld(w.slots, p)
    ensures Joined(w.slots, p) == Joined(v.slots, p)
  {
    MergeCases(v, p, t0, m, i, j);
    MergeKeepsDisjoint(v, i, j);
    PiecesHeld(v, p, t0, m);
    JoinedUnchanged(v.slots, w.slots, p);
    forall k | 0 < k < |p| ensures Alone(w.slots, p, t0, m, k) {
      assert Alone(v.slots, p, t0, m, k);
    }
  }

  /** The pieces after the front absorbed the next one. */
  function Rest(p: seq<nat>): (r: seq<nat>)
    requires |p| > 1
    ensures |r| == |p| - 1 && r[0] == p[0] && forall k | 0 < k < |r| :: r[k] == p[k + 1]
  {
    [p[0]] + p[2..]
  }

  lemma FrontGrows(v: Receiver, p: seq<nat>, t0: int, m: nat, w: Receiver, rest: seq<nat>, n: nat)
    requires Partly(v, p, t0, m) && |p| > 1 && CanMerge(v, p[0], p[1])
    requires w == v.(slots := MergeAt(v.slots, p[0], p[1])) && rest == Rest(p) && n == m + 1
    ensures p[0] != p[1] && Partly(w, rest, t0, n)
  {
    MergeKeepsDisjoint(v, p[0], p[1]);
    PiecesHeld(v, p, t0, m);
    assert Alone(v.slots, p, t0, m, 1);
    forall k | 0 < k < |rest| ensures Alone(w.slots, rest, t0, n, k) {
      assert Alone(v.slots, p, t0, m, k + 1);
    }
  }

  /** The bytes of all pieces stay the same when the first absorbs the second. */
  lemma AbsorbedBytes(a: Slots, b: Slots, p: seq<nat>, rest: seq<nat>)
    requires |p| > 1 && AllHeld(a, p) && rest == Rest(p) && Unchanged(a, b, p[2..])
    requires p[0] < |b| && b[p[0]] == Some(Merged(a[p[0]].value, a[p[1]].value))
    ensures AllHeld(b, rest) && Joined(b, rest) == Joined(a, p)
  {
    assert p[1..][1..] == p[2..] && rest[1..] == p[2..];
    JoinedFirst(a, p, p[1..]);
    JoinedFirst(a, p[1..], p[2..]);
    JoinedUnchanged(a, b, p[2..]);
    forall k | 0 <= k < |rest| ensures rest[k] < |b| && b[rest[k]].Some? {
      if k > 0 { assert rest[k] == p[2..][k - 1]; }
    }
    JoinedFirst(b, rest, p[2..]);
    Slices.Assoc(a[p[0]].value.data, a[p[1]].value.data, Joined(a, p[2..]));
  }

  lemma FrontGrowsBytes(v: Receiver, p: seq<nat>, t0: int, m: nat, w: Slots, rest: seq<nat>)
    requires Partly(v, p, t0, m) && |p| > 1 && CanMerge(v, p[0], p[1])
    requires w == MergeAt(v.slots, p[0], p[1]) && rest == Rest(p)
    ensures AllHeld(v.slots, p) && AllHeld(w, rest) && Joined(w, rest) == Joined(v.slots, p)
  {
    PiecesHeld(v, p, t0, m);
    forall k | 0 <= k < |p[2..]| ensures p[2..][k] < |v.slots| && w[p[2..][k]] == v.slots[p[2..][k]] {
      assert p[2..][k] == p[k + 2];
    }
    AbsorbedBytes(v.slots, w, p, rest);
  }

  /** The front sits below every middle piece. */
  predicate FrontFirst(p: seq<nat>) {
    p != [] && forall k | 0 < k < |p| - 1 :: p[0] < p[k]
  }

  /** The pair that merges first lies past the message, or it is the front and the next piece. */
  lemma FirstIsFrontOrElsewhere(v: Receiver, p: seq<nat>, t0: int, m: nat, i: nat, j: nat)
    requires Partly(v, p, t0, m) && FrontFirst(p) && FirstPair(v, 0, 0) == Some((i, j))
    ensures i == p[0] ==> |p| > 1 && j == p[1]
    ensures i != p[0] ==> forall k | 0 <= k < |p| :: i != p[k]
  {
    MergeCases(v, p, t0, m, i, j);
    if |p| > 1 {
      FrontCanMerge(v, p, t0, m);
      if i > p[0] { FirstPairIsLowest(v, 0, 0, p[0], p[1]); }
    }
  }

  lemma NothingLeftIsWhole(v: Receiver, p: seq<nat>, t0: int, m: nat)
    requires Partly(v, p, t0, m) && FirstPair(v, 0, 0).None?
    ensures |p| == 1 && p == [p[0]]
  {
    if |p| > 1 {
      FrontCanMerge(v, p, t0, m);
      NoPairLeft(v, 0, 0, p[0], p[1]);
    }
  }

  /** What one merge leaves to be done for the message. */
  lemma FrontStep(v: Receiver, p: seq<nat>, t0: int, m: nat, i: nat, j: nat, u: Receiver) returns (rest: seq<nat>, n: nat)
    requires Partly(v, p, t0, m) && FrontFirst(p) && FirstPair(v, 0, 0) == Some((i, j)) && u == v.(slots := MergeAt(v.slots, i, j))
    ensures i != j && Partly(u, rest, t0, n) && FrontFirst(rest) && rest[0] == p[0] && n + |rest| == m + |p|
    ensures AllHeld(v.slots, p) && AllHeld(u.slots, rest) && Joined(u.slots, rest) == Joined(v.slots, p)
  {
    FirstIsFrontOrElsewhere(v, p, t0, m, i, j);
    if i == p[0] {
      rest, n := Rest(p), m + 1;
      FrontGrows(v, p, t0, m, u, rest, n);
      FrontGrowsBytes(v, p, t0, m, u.slots, rest);
    } else {
      rest, n := p, m;
      ElsewhereKeeps(v, p, t0, m, i, j, u);
    }
  }

  /** Then merging ends with all of it, byte for byte, in the descriptor of the front. */
  lemma {:induction false} MergeCompletes(v: Receiver, p: seq<nat>, t0: int, m: nat, w: Receiver, n: nat)
    requires Partly(v, p, t0, m) && FrontFirst(p) && Merge(v) == (w, Ok) && n == m + |p| - 1
    ensures Partly(w, [p[0]], t0, n)
    ensures AllHeld(v.slots, p) && AllHeld(w.slots, [p[0]]) && Joined(w.slots, [p[0]]) == Joined(v.slots, p)
    decreases CountHeld(v.slots)
  {
    match FirstPair(v, 0, 0)
    case None =>
      NothingLeftIsWhole(v, p, t0, m);
      PiecesHeld(v, p, t0, m);
    case Some((i, j)) =>
      var u := v.(slots := MergeAt(v.slots, i, j));
      var rest, k := FrontStep(v, p, t0, m, i, j, u);
      CountHeldMergeAt(v.slots, i, j);
      MergeCompletes(u, rest, t0, k, w, n);
  }

  // ----- the message is stuck -----

  /** Descriptor `s`, past the first fragment of a message, has absorbed its successor; descriptor
      `h` holds the first fragment. No last fragment lies between the two. */
  predicate StuckAt(slots: Slots, t0: int, n: nat, s: nat, h: nat) {
    && Disjoint(slots) && Pending(slots, s) && Pending(slots, h)
    && slots[h].value.first == t0 && slots[h].value.begin && !slots[s].value.begin
    && t0 < slots[s].value.first < t0 + n && slots[s].value.first < slots[s].value.tsn
    && forall k | 0 <= k < |slots| && slots[k].Some? && t0 <= slots[k].value.first && slots[k].value.tsn < slots[s].value.first ::
         !slots[k].value.end
  }

  lemma StuckStays(v: Receiver, t0: int, n: nat, s: nat, h: nat, i: nat, j: nat)
    requires StuckAt(v.slots, t0, n, s, h) && CanMerge(v, i, j)
    ensures i != j && StuckAt(MergeAt(v.slots, i, j), t0, n, s, h)
  {
    AbsorbedIsSingle(v, i, j);
    MergeKeepsDisjoint(v, i, j);
    var after := MergeAt(v.slots, i, j);
    assert after[s].value.first == v.slots[s].value.first;
    assert forall k | 0 <= k < |after| && k != i && k != j :: after[k] == v.slots[k];
  }

  /** The message at TSN `t0`, whose front is in descriptor `h`, is stuck somewhere in its first `n` fragments. */
  predicate Sticks(slots: Slots, t0: int, n: nat, h: nat) {
    exists s | 0 <= s < |slots| :: StuckAt(slots, t0, n, s, h)
  }

  /** Merging never frees a stuck message. */
  lemma {:induction false} StuckForever(v: Receiver, t0: int, n: nat, s: nat, h: nat, w: Receiver)
    requires StuckAt(v.slots, t0, n, s, h) && w == Merge(v).0
    ensures StuckAt(w.slots, t0, n, s, h)
    decreases CountHeld(v.slots)
  {
    match FirstPair(v, 0, 0)
    case None =>
    case Some((i, j)) =>
      CountHeldMergeAt(v.slots, i, j);
      StuckStays(v, t0, n, s, h, i, j);
      if |v.slots[i].value.data| + |v.slots[j].value.data| <= MAX_MESSAGE_SIZE {
        StuckForever(v.(slots := MergeAt(v.slots, i, j)), t0, n, s, h, w);
      }
  }

  /** Two neighbours past the front merge: the message is stuck. */
  lemma NeighboursStick(v: Receiver, p: seq<nat>, t0: int, m: nat, k: nat)
    requires Partly(v, p, t0, m) && 0 < k && k + 1 < |p| && CanMerge(v, p[k], p[k + 1])
    ensures p[k] != p[k + 1] && StuckAt(MergeAt(v.slots, p[k], p[k + 1]), t0, m + |p|, p[k], p[0])
  {
    MergeKeepsDisjoint(v, p[k], p[k + 1]);
    var after := MergeAt(v.slots, p[k], p[k + 1]);
    assert Alone(v.slots, p, t0, m, k) && Alone(v.slots, p, t0, m, k + 1);
    forall s | 0 <= s < |after| && after[s].Some? && t0 <= after[s].value.first && after[s].value.tsn < t0 + m + k
      ensures !after[s].value.end
    {
      if s != p[k] && s != p[0] {
        var t := after[s].value.tsn - t0 - m;
        assert after[s] == v.slots[s];
        if t > 0 { assert Alone(v.slots, p, t0, m, t); }
      }
    }
  }

  /** A middle piece below the front: the message ends up stuck, wherever other messages merge. */
  lemma {:induction false} MergeSticks(v: Receiver, p: seq<nat>, t0: int, m: nat, q: nat, w: Receiver, n: nat) returns (s: nat)
    requires Partly(v, p, t0, m) && 0 < q < |p| - 1 && p[q] < p[0] && Merge(v) == (w, Ok) && n == m + |p|
    ensures StuckAt(w.slots, t0, n, s, p[0])
    decreases CountHeld(v.slots)
  {
    NeighboursCanMerge(v, p, t0, m, q);
    match FirstPair(v, 0, 0)
    case None =>
      NoPairLeft(v, 0, 0, p[q], p[q + 1]);
      assert false;
    case Some((i, j)) =>
      CountHeldMergeAt(v.slots, i, j);
      if i > p[q] {
        FirstPairIsLowest(v, 0, 0, p[q], p[q + 1]);
        assert false;
      } else {
        MergeCases(v, p, t0, m, i, j);
        if k :| 0 <= k < |p| && i == p[k] {
          NeighboursStick(v, p, t0, m, k);
          s := p[k];
          StuckForever(v.(slots := MergeAt(v.slots, i, j)), t0, n, s, p[0], w);
        } else {
          ElsewhereKeeps(v, p, t0, m, i, j, v.(slots := MergeAt(v.slots, i, j)));
          s := MergeSticks(v.(slots := MergeAt(v.slots, i, j)), p, t0, m, q, w, n);
        }
      }
  }

  /** A stuck message is never found complete by delivery. */
  lemma {:induction false} StuckNeverAssembles(slots: Slots, t0: int, n: nat, s: nat, h: nat, tsn: int, parts: seq<nat>)
    requires StuckAt(slots, t0, n, s, h)
    requires t0 <= tsn <= slots[s].value.first
    requires |parts| <= |slots| && AllPending(slots, parts)
    ensures !Assemble(slots, tsn, parts).Complete?
    decreases slots[s].value.first - tsn
  {
    var j := FindPending(slots, tsn, 0);
    if |parts| < |slots| && j < |slots| {
      assert slots[j].value.tsn == tsn;
      assert j != s;
      assert tsn < slots[s].value.first;
      assert slots[j].value.first >= t0;
      StuckNeverAssembles(slots, t0, n, s, h, tsn + 1, if |parts| < |slots| then parts + [j] else parts);
    }
  }

  /** The acknowledged part of a message, however much of it the front holds already, is assembled
      in the front exactly when the front sits below every middle piece; otherwise it is stuck. */
  lemma MergeCompletesIff(v: Receiver, p: seq<nat>, t0: int, m: nat, w: Receiver, n: nat)
    requires Partly(v, p, t0, m) && Merge(v) == (w, Ok) && n == m + |p|
    ensures Assembled(w.slots, t0, n) <==> FrontFirst(p)
    ensures FrontFirst(p) ==> AllHeld(v.slots, p) && AllHeld(w.slots, [p[0]]) && Joined(w.slots, [p[0]]) == Joined(v.slots, p)
    ensures !FrontFirst(p) ==> Sticks(w.slots, t0, n, p[0])
  {
    if FrontFirst(p) {
      MergeCompletes(v, p, t0, m, w, n - 1);
    } else {
      PiecesHeld(v, p, t0, m);
      var q :| 0 < q < |p| - 1 && p[0] >= p[q];
      var s := MergeSticks(v, p, t0, m, q, w, n);
      StuckIsApart(w.slots, t0, n, s, p[0]);
    }
  }

  lemma StuckIsApart(slots: Slots, t0: int, n: nat, s: nat, h: nat)
    requires StuckAt(slots, t0, n, s, h)
    ensures !Assembled(slots, t0, n)
  {
  }
}
