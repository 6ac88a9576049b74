/** Application events: they travel in the output queue while it has room; otherwise a
    bounded list keeps the latest event of each kind and key. */
module RtcEvents {
  const MAX_MEDIA_TRACKS: nat := 2
  const MAX_DATACHANNELS: nat := 8

  /** Connection states, three per track, two per channel, two of the rate control. */
  const PENDING_EVENT_SLOTS: nat := 3 + 3 * MAX_MEDIA_TRACKS + 2 * MAX_DATACHANNELS + 2

  datatype Status = Ok | BufferTooSmall | WouldBlock

  datatype Kind =
    | ConnectedEvent | DisconnectedEvent | IceStateChange
    | MediaAdded | MediaChanged | MediaData | KeyframeRequest
    | ChannelOpen | ChannelData | ChannelClose | BufferedLow
    | BitrateEstimate | IceCandidate | SpecRecommendation

  /** `id` is the track or channel of the kinds that have one; `body` is everything else. */
  datatype Event = Event(kind: Kind, id: nat, body: nat)

  datatype Key = Key(kind: Kind, id: nat)

  /** Kinds that tell tracks or channels apart. */
  predicate PerObject(kind: Kind) {
    kind == MediaAdded || kind == MediaChanged || kind == KeyframeRequest || kind == ChannelClose || kind == BufferedLow
  }

  function KeyOf(e: Event): Key {
    Key(e.kind, if PerObject(e.kind) then e.id else 0)
  }

  /** Kinds of event with a payload are never held back. */
  predicate PayloadKind(kind: Kind) {
    kind == MediaData || kind == ChannelData || kind == ChannelOpen || kind == IceCandidate
  }

  predicate Payload(e: Event) {
    PayloadKind(e.kind)
  }

  /** The events in the output queue, in order, and the events held back. */
  datatype Events = Events(queued: seq<Event>, pending: seq<Event>)

  /** The first held event with the key, or the number of them. */
  function Find(pending: seq<Event>, key: Key, i: nat): (r: nat)
    requires i <= |pending|
    ensures i <= r <= |pending|
    ensures r < |pending| ==> KeyOf(pending[r]) == key
    ensures forall k | i <= k < r :: KeyOf(pending[k]) != key
    decreases |pending| - i
  {
    if i == |pending| || KeyOf(pending[i]) == key then i else Find(pending, key, i + 1)
  }

  /** Emits an event; `full` says that the output queue has no room. */
  function Emit(s: Events, e: Event, full: bool): (Events, Status) {
    if !Payload(e) && (s.pending != [] || full) then
      var i := Find(s.pending, KeyOf(e), 0);
      if i < |s.pending| then (s.(pending := Supersede(s.pending, i, e)), Ok)
      else if |s.pending| == PENDING_EVENT_SLOTS then (s, WouldBlock)
      else (s.(pending := s.pending + [e]), Ok)
    else if full then (s, BufferTooSmall)
    else (s.(queued := s.queued + [e]), Ok)
  }

  /** The next event out: a queued one, else a held one. */
  function Take(s: Events): (Events, seq<Event>) {
    if s.queued != [] then (s.(queued := s.queued[1..]), [s.queued[0]])
    else if s.pending != [] then (s.(pending := s.pending[1..]), [s.pending[0]])
    else (s, [])
  }

  // ----- runs -----

  datatype Step = Emission(e: Event, full: bool) | Poll

  /** A run so far: the events, those accepted (in order) and their keys, those delivered;
      then everything delivered, queued or held, in that order, and for each of these its
      place among the accepted ones. */
  datatype Trace = Trace(s: Events, accepted: seq<Event>, keys: seq<Key>, delivered: seq<Event>, kept: seq<Event>, places: seq<nat>)

  const START := Trace(Events([], []), [], [], [], [], [])

  function Insert<T>(s: seq<T>, at: nat, x: T): (r: seq<T>)
    requires at <= |s|
    ensures |r| == |s| + 1
    ensures forall k | 0 <= k < |r| :: r[k] == if k < at then s[k] else if k == at then x else s[k - 1]
  {
    s[..at] + [x] + s[at..]
  }

  /** `x` at the end replaces the element at `at`. */
  function Supersede<T>(s: seq<T>, at: nat, x: T): (r: seq<T>)
    requires at < |s|
    ensures |r| == |s|
    ensures forall k | 0 <= k < |r| :: r[k] == if k < at then s[k] else if k < |s| - 1 then s[k + 1] else x
  {
    s[..at] + s[at + 1..] + [x]
  }

  predicate KeptIs(t: Trace) {
    t.kept == t.delivered + t.s.queued + t.s.pending && |t.places| == |t.kept|
  }

  predicate Sizes(t: Trace) {
    |t.delivered| + |t.s.queued| + |t.s.pending| == |t.kept| == |t.places|
  }

  /** The kept events end with the held ones. */
  predicate Tail(t: Trace) {
    var d := |t.delivered| + |t.s.queued|;
    Sizes(t) && forall k | d <= k < |t.kept| :: t.kept[k] == t.s.pending[k - d]
  }

  lemma TailOf(t: Trace)
    requires KeptIs(t)
    ensures Tail(t)
  {
  }

  /** The event is accepted; its key is recorded. */
  function Accept(t: Trace, e: Event, s: Events): Trace {
    t.(s := s, accepted := t.accepted + [e], keys := t.keys + [KeyOf(e)])
  }

  /** It went into the output queue, */
  function Queued(t: Trace, e: Event): Trace
    requires Sizes(t)
  {
    var d := |t.delivered| + |t.s.queued|;
    Accept(t, e, t.s.(queued := t.s.queued + [e])).(kept := Insert(t.kept, d, e), places := Insert<nat>(t.places, d, |t.accepted|))
  }

  /** or it is held back under a new key, */
  function Held(t: Trace, e: Event): Trace
    requires Sizes(t)
  {
    var n := |t.kept|;
    Accept(t, e, t.s.(pending := t.s.pending + [e])).(kept := Insert(t.kept, n, e), places := Insert<nat>(t.places, n, |t.accepted|))
  }

  /** or in place of the held event `i`. */
  function Replaced(t: Trace, e: Event, i: nat): Trace
    requires Sizes(t) && i < |t.s.pending|
  {
    var at := |t.delivered| + |t.s.queued| + i;
    Accept(t, e, t.s.(pending := Supersede(t.s.pending, i, e))).(
      kept := Supersede(t.kept, at, e), places := Supersede<nat>(t.places, at, |t.accepted|))
  }

  function Next(t: Trace, step: Step): Trace
    requires Sizes(t)
  {
    match step
    case Poll =>
      var (s, out) := Take(t.s);
      t.(s := s, delivered := t.delivered + out)
    case Emission(e, full) =>
      var i := Find(t.s.pending, KeyOf(e), 0);
      if Emit(t.s, e, full).1 != Ok then t
      else if Payload(e) || (t.s.pending == [] && !full) then Queued(t, e)
      else if i < |t.s.pending| then Replaced(t, e, i)
      else Held(t, e)
  }

  /** The bookkeeping follows the events. */
  lemma NextEvents(t: Trace, e: Event, full: bool)
    requires Sizes(t)
    ensures Next(t, Emission(e, full)).s == Emit(t.s, e, full).0
  {
  }

  function Run(steps: seq<Step>): (t: Trace)
    ensures KeptIs(t)
  {
    if steps == [] then START
    else
      var t, step := Run(steps[..|steps| - 1]), steps[|steps| - 1];
      TailOf(t);
      NextKept(t, step);
      Next(t, step)
  }

  lemma KeptReplaced(t: Trace, e: Event, i: nat)
    requires KeptIs(t) && Sizes(t) && i < |t.s.pending|
    ensures KeptIs(Replaced(t, e, i))
  {
  }

  lemma KeptQueued(t: Trace, e: Event)
    requires KeptIs(t) && Sizes(t)
    ensures KeptIs(Queued(t, e))
  {
  }

  lemma KeptHeld(t: Trace, e: Event)
    requires KeptIs(t) && Sizes(t)
    ensures KeptIs(Held(t, e))
  {
  }

  lemma KeptTaken(t: Trace)
    requires KeptIs(t) && Tail(t)
    ensures KeptIs(Next(t, Poll))
  {
    var out, s := Take(t.s).1, Take(t.s).0;
    assert out + s.queued + s.pending == t.s.queued + t.s.pending;
    assert t.delivered + out + s.queued + s.pending == t.delivered + (out + s.queued + s.pending);
    assert t.delivered + t.s.queued + t.s.pending == t.delivered + (t.s.queued + t.s.pending);
  }

  /** The list of kept events is what was delivered, is queued and is held. */
  lemma NextKept(t: Trace, step: Step)
    requires KeptIs(t) && Tail(t)
    ensures KeptIs(Next(t, step))
  {
    match step
    case Poll => KeptTaken(t);
    case Emission(e, full) =>
      var i := Find(t.s.pending, KeyOf(e), 0);
      KeptQueued(t, e);
      KeptHeld(t, e);
      if i < |t.s.pending| { KeptReplaced(t, e, i); }
  }

  // ----- which accepted events are kept -----

  predicate Superseded(keys: seq<Key>, p: nat)
    requires p < |keys|
  {
    exists q | p < q < |keys| :: keys[q] == keys[p]
  }

  /** The kept places of accepted events with these keys: each once, and places of one key
      in ascending order. */
  predicate Ordered(keys: seq<Key>, places: seq<nat>) {
    && (forall k | 0 <= k < |places| :: places[k] < |keys|)
    && (forall j, k | 0 <= j < k < |places| :: places[j] != places[k])
    && (forall j, k | 0 <= j < k < |places| && keys[places[j]] == keys[places[k]] :: places[j] < places[k])
  }

  /** A place is missing only when a later event has its key, and never for an event with a payload. */
  predicate Complete(keys: seq<Key>, places: seq<nat>) {
    forall p | 0 <= p < |keys| && p !in places :: !PayloadKind(keys[p].kind) && Superseded(keys, p)
  }

  predicate PlacesOk(keys: seq<Key>, places: seq<nat>) {
    Ordered(keys, places) && Complete(keys, places)
  }

  lemma InsertMembers<T>(s: seq<T>, at: nat, x: T)
    requires at <= |s|
    ensures forall p :: p in Insert(s, at, x) <==> p in s || p == x
  {
    var r := Insert(s, at, x);
    assert r[at] == x;
    forall p | p in s ensures p in r {
      var k :| 0 <= k < |s| && s[k] == p;
      assert r[if k < at then k else k + 1] == p;
    }
  }

  lemma SupersedeMembers<T>(s: seq<T>, at: nat, x: T)
    requires at < |s| && (forall j, k | 0 <= j < k < |s| :: s[j] != s[k]) && x !in s
    ensures forall p :: p in Supersede(s, at, x) <==> (p in s && p != s[at]) || p == x
  {
    var r := Supersede(s, at, x);
    assert r[|s| - 1] == x;
    forall p | p in s && p != s[at] ensures p in r {
      var k :| 0 <= k < |s| && s[k] == p;
      assert r[if k < at then k else k - 1] == p;
    }
    forall p | p in r && p != x ensures p in s && p != s[at] {
      var k :| 0 <= k < |r| && r[k] == p;
      assert s[if k < at then k else k + 1] == p;
    }
  }

  lemma InsertOrdered(keys: seq<Key>, places: seq<nat>, key: Key, at: nat)
    requires Ordered(keys, places) && at <= |places|
    requires forall k | at <= k < |places| :: keys[places[k]] != key
    ensures Ordered(keys + [key], Insert<nat>(places, at, |keys|))
  {
  }

  lemma InsertComplete(keys: seq<Key>, places: seq<nat>, key: Key, at: nat)
    requires Complete(keys, places) && at <= |places|
    ensures Complete(keys + [key], Insert<nat>(places, at, |keys|))
  {
    var all, r := keys + [key], Insert<nat>(places, at, |keys|);
    InsertMembers<nat>(places, at, |keys|);
    forall p | 0 <= p < |all| && p !in r ensures !PayloadKind(all[p].kind) && Superseded(all, p) {
      assert Superseded(keys, p);
      var q :| p < q < |keys| && keys[q] == keys[p];
      assert all[q] == all[p];
    }
  }

  lemma SupersedeOrdered(keys: seq<Key>, places: seq<nat>, key: Key, at: nat)
    requires Ordered(keys, places) && at < |places|
    ensures Ordered(keys + [key], Supersede<nat>(places, at, |keys|))
  {
  }

  lemma SupersedeComplete(keys: seq<Key>, places: seq<nat>, key: Key, at: nat)
    requires PlacesOk(keys, places) && at < |places| && keys[places[at]] == key && !PayloadKind(key.kind)
    ensures Complete(keys + [key], Supersede<nat>(places, at, |keys|))
  {
    var all, r := keys + [key], Supersede<nat>(places, at, |keys|);
    SupersedeMembers<nat>(places, at, |keys|);
    forall p | 0 <= p < |all| && p !in r ensures !PayloadKind(all[p].kind) && Superseded(all, p) {
      if p == places[at] {
        assert all[|keys|] == all[p];
      } else {
        assert Superseded(keys, p);
        var q :| p < q < |keys| && keys[q] == keys[p];
        assert all[q] == all[p];
      }
    }
  }

  // ----- what every run keeps -----

  /** Every kept event is the accepted event of its place. */
  predicate Genuine(kept: seq<Event>, places: seq<nat>, accepted: seq<Event>) {
    |places| == |kept| && forall k | 0 <= k < |places| :: places[k] < |accepted| && kept[k] == accepted[places[k]]
  }

  predicate AreKeys(keys: seq<Key>, accepted: seq<Event>) {
    |keys| == |accepted| && forall p | 0 <= p < |keys| :: keys[p] == KeyOf(accepted[p])
  }

  /** At most one held event per key, none with a payload. */
  predicate OnePerKey(pending: seq<Event>) {
    && (forall i, j | 0 <= i < j < |pending| :: KeyOf(pending[i]) != KeyOf(pending[j]))
    && (forall i | 0 <= i < |pending| :: !Payload(pending[i]))
  }

  /** What a run keeps of its kept events. */
  predicate Sound(kept: seq<Event>, places: seq<nat>, accepted: seq<Event>, keys: seq<Key>) {
    Genuine(kept, places, accepted) && AreKeys(keys, accepted) && PlacesOk(keys, places)
  }

  predicate TraceOk(t: Trace) {
    Sound(t.kept, t.places, t.accepted, t.keys) && OnePerKey(t.s.pending)
  }

  lemma KeyAt(kept: seq<Event>, places: seq<nat>, accepted: seq<Event>, keys: seq<Key>, k: nat)
    requires Genuine(kept, places, accepted) && AreKeys(keys, accepted) && k < |kept|
    ensures keys[places[k]] == KeyOf(kept[k])
  {
  }

  /** A new event at position `at` of the kept ones; no later kept event has its key. */
  lemma AcceptKeeps(kept: seq<Event>, places: seq<nat>, accepted: seq<Event>, keys: seq<Key>, e: Event, at: nat)
    requires Sound(kept, places, accepted, keys) && at <= |kept|
    requires forall k | at <= k < |kept| :: KeyOf(kept[k]) != KeyOf(e)
    ensures Sound(Insert(kept, at, e), Insert<nat>(places, at, |accepted|), accepted + [e], keys + [KeyOf(e)])
  {
    forall k | at <= k < |places| ensures keys[places[k]] != KeyOf(e) {
      KeyAt(kept, places, accepted, keys, k);
    }
    InsertOrdered(keys, places, KeyOf(e), at);
    InsertComplete(keys, places, KeyOf(e), at);
  }

  lemma OnePerKeyMoves(pending: seq<Event>, e: Event, i: nat)
    requires OnePerKey(pending) && !Payload(e) && i < |pending| && KeyOf(pending[i]) == KeyOf(e)
    ensures OnePerKey(Supersede(pending, i, e))
  {
    var r := Supersede(pending, i, e);
    forall a, b | 0 <= a < b < |r| ensures KeyOf(r[a]) != KeyOf(r[b]) {
      assert r[a] == pending[if a < i then a else a + 1];
      if b < |r| - 1 { assert r[b] == pending[if b < i then b else b + 1]; }
    }
  }

  lemma HeldKeys(t: Trace, e: Event)
    requires Tail(t) && TraceOk(t) && forall i | 0 <= i < |t.s.pending| :: KeyOf(t.s.pending[i]) != KeyOf(e)
    ensures forall k | |t.delivered| + |t.s.queued| <= k < |t.places| :: t.keys[t.places[k]] != KeyOf(e)
  {
    var d := |t.delivered| + |t.s.queued|;
    forall k | d <= k < |t.places| ensures t.keys[t.places[k]] != KeyOf(e) {
      KeyAt(t.kept, t.places, t.accepted, t.keys, k);
      assert t.kept[k] == t.s.pending[k - d];
    }
  }

  lemma QueuedGenuine(t: Trace, e: Event)
    requires Sizes(t) && Genuine(t.kept, t.places, t.accepted) && AreKeys(t.keys, t.accepted)
    ensures var u := Queued(t, e); Genuine(u.kept, u.places, u.accepted) && AreKeys(u.keys, u.accepted)
  {
  }

  lemma QueuedOrdered(t: Trace, e: Event)
    requires Sizes(t) && Ordered(t.keys, t.places) && |t.accepted| == |t.keys|
    requires forall k | |t.delivered| + |t.s.queued| <= k < |t.places| :: t.keys[t.places[k]] != KeyOf(e)
    ensures Ordered(Queued(t, e).keys, Queued(t, e).places)
  {
    InsertOrdered(t.keys, t.places, KeyOf(e), |t.delivered| + |t.s.queued|);
  }

  lemma QueuedComplete(t: Trace, e: Event)
    requires Sizes(t) && Complete(t.keys, t.places) && |t.accepted| == |t.keys|
    ensures Complete(Queued(t, e).keys, Queued(t, e).places)
  {
    InsertComplete(t.keys, t.places, KeyOf(e), |t.delivered| + |t.s.queued|);
  }

  lemma HeldSound(t: Trace, e: Event)
    requires Sizes(t) && TraceOk(t)
    ensures var u := Held(t, e); Sound(u.kept, u.places, u.accepted, u.keys)
  {
    AcceptKeeps(t.kept, t.places, t.accepted, t.keys, e, |t.kept|);
  }

  lemma ReplacedGenuine(t: Trace, e: Event, i: nat)
    requires Sizes(t) && Genuine(t.kept, t.places, t.accepted) && AreKeys(t.keys, t.accepted) && i < |t.s.pending|
    ensures var u := Replaced(t, e, i); Genuine(u.kept, u.places, u.accepted) && AreKeys(u.keys, u.accepted)
  {
  }

  lemma ReplacedOrdered(t: Trace, e: Event, i: nat)
    requires Sizes(t) && Ordered(t.keys, t.places) && |t.accepted| == |t.keys| && i < |t.s.pending|
    ensures Ordered(Replaced(t, e, i).keys, Replaced(t, e, i).places)
  {
    SupersedeOrdered(t.keys, t.places, KeyOf(e), |t.delivered| + |t.s.queued| + i);
  }

  lemma ReplacedComplete(t: Trace, e: Event, i: nat)
    requires Sizes(t) && PlacesOk(t.keys, t.places) && |t.accepted| == |t.keys| && !Payload(e) && i < |t.s.pending|
    requires t.keys[t.places[|t.delivered| + |t.s.queued| + i]] == KeyOf(e)
    ensures Complete(Replaced(t, e, i).keys, Replaced(t, e, i).places)
  {
    SupersedeComplete(t.keys, t.places, KeyOf(e), |t.delivered| + |t.s.queued| + i);
  }

  lemma EmissionSound(t: Trace, e: Event, full: bool)
    requires Tail(t) && TraceOk(t)
    ensures var u := Next(t, Emission(e, full)); Sound(u.kept, u.places, u.accepted, u.keys)
  {
    var i := Find(t.s.pending, KeyOf(e), 0);
    if Payload(e) || (t.s.pending == [] && !full) {
      HeldKeys(t, e);
      QueuedGenuine(t, e);
      QueuedOrdered(t, e);
      QueuedComplete(t, e);
    } else if i < |t.s.pending| {
      KeyAt(t.kept, t.places, t.accepted, t.keys, |t.delivered| + |t.s.queued| + i);
      ReplacedGenuine(t, e, i);
      ReplacedOrdered(t, e, i);
      ReplacedComplete(t, e, i);
    } else {
      HeldSound(t, e);
    }
  }

  lemma EmissionHolds(s: Events, e: Event, full: bool)
    requires OnePerKey(s.pending)
    ensures OnePerKey(Emit(s, e, full).0.pending)
  {
    var i := Find(s.pending, KeyOf(e), 0);
    if !Payload(e) && i < |s.pending| { OnePerKeyMoves(s.pending, e, i); }
  }

  lemma StepKeeps(t: Trace, step: Step)
    requires Tail(t) && TraceOk(t)
    ensures TraceOk(Next(t, step))
  {
    match step
    case Poll =>
      if t.s.queued == [] && t.s.pending != [] {
        assert forall i | 0 <= i < |t.s.pending| - 1 :: t.s.pending[1..][i] == t.s.pending[i + 1];
      }
    case Emission(e, full) =>
      NextEvents(t, e, full);
      EmissionSound(t, e, full);
      EmissionHolds(t.s, e, full);
  }

  /** In every run: what is delivered or held is genuine, events of one key come out in the
      order they were accepted, and an accepted event goes missing only when a later one of
      its key was accepted; payload events never go missing. */
  lemma {:induction false} RunKeeps(steps: seq<Step>)
    ensures TraceOk(Run(steps))
  {
    if steps != [] {
      var front := steps[..|steps| - 1];
      RunKeeps(front);
      TailOf(Run(front));
      StepKeeps(Run(front), steps[|steps| - 1]);
    }
  }

  /** The latest accepted event of every key is delivered, queued or held. */
  lemma LatestIsKept(steps: seq<Step>, p: nat)
    requires p < |Run(steps).accepted|
    requires forall q | p < q < |Run(steps).accepted| :: KeyOf(Run(steps).accepted[q]) != KeyOf(Run(steps).accepted[p])
    ensures var t := Run(steps);
            t.accepted[p] in t.delivered + t.s.queued + t.s.pending
  {
    RunKeeps(steps);
    var t := Run(steps);
    assert !Superseded(t.keys, p);
    assert p in t.places;
    var k :| 0 <= k < |t.places| && t.places[k] == p;
    assert t.kept[k] == t.accepted[p];
  }

  // ----- the held list is large enough -----

  /** The track or channel of the event exists. */
  predicate Known(e: Event, tracks: set<nat>, channels: set<nat>) {
    match e.kind
    case MediaAdded => e.id in tracks
    case MediaChanged => e.id in tracks
    case KeyframeRequest => e.id in tracks
    case ChannelClose => e.id in channels
    case BufferedLow => e.id in channels
    case _ => true
  }

  /** Keys of one kind for the given ids. */
  ghost function Keys(kind: Kind, ids: set<nat>): (r: set<Key>)
    ensures forall i :: Key(kind, i) in r <==> i in ids
    ensures forall k | k in r :: k.kind == kind
    ensures |r| == |ids|
  {
    if ids == {} then {}
    else
      var i :| i in ids;
      Keys(kind, ids - {i}) + {Key(kind, i)}
  }

  ghost function FixedKeys(): (r: set<Key>)
    ensures |r| == 5
  {
    {Key(ConnectedEvent, 0), Key(DisconnectedEvent, 0), Key(IceStateChange, 0), Key(BitrateEstimate, 0), Key(SpecRecommendation, 0)}
  }

  /** Every key that a held event can have. */
  ghost function Universe(tracks: set<nat>, channels: set<nat>): set<Key> {
    FixedKeys() + Keys(MediaAdded, tracks) + Keys(MediaChanged, tracks) + Keys(KeyframeRequest, tracks)
    + Keys(ChannelClose, channels) + Keys(BufferedLow, channels)
  }

  lemma UnionBound<T>(a: set<T>, b: set<T>)
    ensures |a + b| <= |a| + |b|
  {
    assert a + b == a + (b - a);
    assert |a + (b - a)| == |a| + |b - a|;
    assert b == (b - a) + (b * a);
    assert |b| == |b - a| + |b * a|;
  }

  lemma UnionBounds(a: set<Key>, b: set<Key>, c: set<Key>, d: set<Key>, e: set<Key>, f: set<Key>)
    ensures |a + b + c + d + e + f| <= |a| + |b| + |c| + |d| + |e| + |f|
  {
    UnionBound(a, b);
    UnionBound(a + b, c);
    UnionBound(a + b + c, d);
    UnionBound(a + b + c + d, e);
    UnionBound(a + b + c + d + e, f);
  }

  lemma UniverseSize(tracks: set<nat>, channels: set<nat>)
    requires |tracks| <= MAX_MEDIA_TRACKS && |channels| <= MAX_DATACHANNELS
    ensures |Universe(tracks, channels)| <= PENDING_EVENT_SLOTS
  {
    UnionBounds(FixedKeys(), Keys(MediaAdded, tracks), Keys(MediaChanged, tracks), Keys(KeyframeRequest, tracks),
                Keys(ChannelClose, channels), Keys(BufferedLow, channels));
  }

  ghost function KeySet(pending: seq<Event>): (r: set<Key>)
    ensures forall k :: k in r <==> exists i | 0 <= i < |pending| :: KeyOf(pending[i]) == k
  {
    set i | 0 <= i < |pending| :: KeyOf(pending[i])
  }

  lemma {:induction false} KeySetSize(pending: seq<Event>)
    requires OnePerKey(pending)
    ensures |KeySet(pending)| == |pending|
  {
    if pending != [] {
      var front, e := pending[..|pending| - 1], pending[|pending| - 1];
      assert pending == front + [e];
      KeySetStep(front, e);
      KeySetSize(front);
    }
  }

  lemma KeySetStep(front: seq<Event>, e: Event)
    requires OnePerKey(front + [e])
    ensures KeySet(front + [e]) == KeySet(front) + {KeyOf(e)} && KeyOf(e) !in KeySet(front) && OnePerKey(front)
  {
    var all := front + [e];
    assert all[|front|] == e && forall i | 0 <= i < |front| :: all[i] == front[i];
    forall k ensures k in KeySet(all) <==> k in KeySet(front) || k == KeyOf(e) {
      if k in KeySet(front) {
        var i :| 0 <= i < |front| && KeyOf(front[i]) == k;
        assert KeyOf(all[i]) == k;
      }
    }
  }

  lemma KeyInUniverse(e: Event, tracks: set<nat>, channels: set<nat>)
    requires !Payload(e) && Known(e, tracks, channels)
    ensures KeyOf(e) in Universe(tracks, channels)
  {
  }

  lemma SubsetSize<T>(a: set<T>, b: set<T>)
    requires a <= b
    ensures |a| <= |b|
  {
    assert b == a + (b - a);
    assert |b| == |a| + |b - a|;
  }

  /** The channel table: a stream id takes the next entry while there is one, and entries are
      never given back, so no more ids than entries ever name a channel. */
  function Allocate(channels: set<nat>, id: nat): (r: set<nat>)
    requires |channels| <= MAX_DATACHANNELS
    ensures channels <= r && |r| <= MAX_DATACHANNELS && r <= channels + {id}
    ensures id in r <==> id in channels || |channels| < MAX_DATACHANNELS
  {
    if |channels| == MAX_DATACHANNELS then channels else channels + {id}
  }

  /** The ids that name a channel after these were asked for. */
  function Opened(ids: seq<nat>): (r: set<nat>)
    ensures |r| <= MAX_DATACHANNELS
  {
    if ids == [] then {} else Allocate(Opened(ids[..|ids| - 1]), ids[|ids| - 1])
  }

  /** Every event concerns a track or channel of the connection. */
  predicate AllKnown(steps: seq<Step>, tracks: set<nat>, channels: set<nat>) {
    forall k | 0 <= k < |steps| && steps[k].Emission? :: Known(steps[k].e, tracks, channels)
  }

  lemma TakeKnown(s: Events, tracks: set<nat>, channels: set<nat>)
    requires forall i | 0 <= i < |s.pending| :: Known(s.pending[i], tracks, channels)
    ensures forall i | 0 <= i < |Take(s).0.pending| :: Known(Take(s).0.pending[i], tracks, channels)
  {
    assert forall i | 0 <= i < |s.pending| - 1 :: s.pending[1..][i] == s.pending[i + 1];
  }

  lemma {:induction false} HeldKnown(steps: seq<Step>, tracks: set<nat>, channels: set<nat>)
    requires AllKnown(steps, tracks, channels)
    ensures forall i | 0 <= i < |Run(steps).s.pending| :: Known(Run(steps).s.pending[i], tracks, channels)
  {
    if steps != [] {
      var front, step := steps[..|steps| - 1], steps[|steps| - 1];
      HeldKnown(front, tracks, channels);
      TailOf(Run(front));
      match step
      case Poll => TakeKnown(Run(front).s, tracks, channels);
      case Emission(e, full) =>
        NextEvents(Run(front), e, full);
        EmitKnown(Run(front).s, e, full, tracks, channels);
    }
  }

  lemma EmitKnown(s: Events, e: Event, full: bool, tracks: set<nat>, channels: set<nat>)
    requires forall i | 0 <= i < |s.pending| :: Known(s.pending[i], tracks, channels)
    requires Known(e, tracks, channels)
    ensures forall i | 0 <= i < |Emit(s, e, full).0.pending| :: Known(Emit(s, e, full).0.pending[i], tracks, channels)
  {
    var r := Emit(s, e, full).0.pending;
    forall i | 0 <= i < |r| ensures r[i] == e || exists k | 0 <= k < |s.pending| :: r[i] == s.pending[k] {
      if i < |s.pending| && r[i] == s.pending[i] {
      } else if i + 1 < |s.pending| && r[i] == s.pending[i + 1] {
      }
    }
  }

  /** Over every run from the empty queue, whose events concern the tracks of the connection and
      the channels opened in it, an event without payload is never refused. */
  lemma NeverBlocks(steps: seq<Step>, e: Event, full: bool, tracks: set<nat>, ids: seq<nat>)
    requires |tracks| <= MAX_MEDIA_TRACKS
    requires AllKnown(steps, tracks, Opened(ids)) && Known(e, tracks, Opened(ids))
    requires e.kind != MediaData && e.kind != ChannelData && e.kind != ChannelOpen && e.kind != IceCandidate
    ensures Emit(Run(steps).s, e, full).1 == Ok
  {
    var channels := Opened(ids);
    RunKeeps(steps);
    HeldKnown(steps, tracks, channels);
    var pending := Run(steps).s.pending;
    if Find(pending, KeyOf(e), 0) == |pending| {
      RoomForKey(pending, e, tracks, channels);
    }
  }

  lemma RoomForKey(pending: seq<Event>, e: Event, tracks: set<nat>, channels: set<nat>)
    requires |tracks| <= MAX_MEDIA_TRACKS && |channels| <= MAX_DATACHANNELS
    requires OnePerKey(pending) && !Payload(e) && Known(e, tracks, channels)
    requires forall i | 0 <= i < |pending| :: Known(pending[i], tracks, channels) && KeyOf(pending[i]) != KeyOf(e)
    ensures |pending| < PENDING_EVENT_SLOTS
  {
    KeySetSize(pending);
    UniverseSize(tracks, channels);
    KeyInUniverse(e, tracks, channels);
    var all, held := Universe(tracks, channels), KeySet(pending);
    forall k | k in held ensures k in all {
      var j :| 0 <= j < |pending| && KeyOf(pending[j]) == k;
      KeyInUniverse(pending[j], tracks, channels);
    }
    SubsetSize(held, all - {KeyOf(e)});
  }
}
