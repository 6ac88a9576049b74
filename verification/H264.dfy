/** H.264 over RTP (RFC 6184): single NAL unit packets and FU-A fragments, and the
    depacketizer that puts fragments together again. */
module H264 {
  import opened Bits

  type Bytes = seq<Byte>

  const FUA: nat := 28
  const STAPA: nat := 24
  const FUA_HEADER: nat := 2

  /** NANORTC_VIDEO_NAL_BUF_SIZE. */
  const NAL_BUF: nat := 16384

  datatype Option<+T> = None | Some(value: T)

  datatype Status = Ok | InvalidParam | BufferTooSmall | Parse

  function NalType(b: Byte): nat {
    b % 32
  }

  /** The NRI bits, in place. */
  function Nri(b: Byte): Byte {
    b / 32 % 4 * 32
  }

  /** A unit that single packets and FU-A carry: types 1 to 23, forbidden bit clear. */
  predicate Carried(nal: Bytes) {
    nal != [] && nal[0] < 128 && 1 <= NalType(nal[0]) <= 23
  }

  // ----- fragmenting -----

  function FuIndicator(nal: Bytes): Byte
    requires nal != []
  {
    Nri(nal[0]) + FUA
  }

  function FuHeader(nal: Bytes, first: bool, last: bool): Byte
    requires nal != []
  {
    NalType(nal[0]) + (if first then 128 else 0) + if last then 64 else 0
  }

  /** FU-A payloads for the bytes from `pos` on. */
  function FuaFrom(nal: Bytes, pos: nat, mtu: nat): (r: seq<Bytes>)
    requires nal != [] && 1 <= pos <= |nal| && mtu > FUA_HEADER
    decreases |nal| - pos
  {
    if pos == |nal| then []
    else
      var n := if |nal| - pos < mtu - FUA_HEADER then |nal| - pos else mtu - FUA_HEADER;
      [[FuIndicator(nal), FuHeader(nal, pos == 1, pos + n == |nal|)] + nal[pos..pos + n]] + FuaFrom(nal, pos + n, mtu)
  }

  /** The RTP payloads of one unit. */
  function Fragments(nal: Bytes, mtu: nat): seq<Bytes>
    requires nal != [] && mtu > FUA_HEADER
  {
    if |nal| <= mtu then [nal] else FuaFrom(nal, 1, mtu)
  }

  lemma {:induction false} FuaFits(nal: Bytes, pos: nat, mtu: nat)
    requires nal != [] && 1 <= pos <= |nal| && mtu > FUA_HEADER
    ensures forall k | 0 <= k < |FuaFrom(nal, pos, mtu)| :: FUA_HEADER < |FuaFrom(nal, pos, mtu)[k]| <= mtu
    decreases |nal| - pos
  {
    if pos < |nal| {
      var n := if |nal| - pos < mtu - FUA_HEADER then |nal| - pos else mtu - FUA_HEADER;
      FuaFits(nal, pos + n, mtu);
    }
  }

  /** Every payload fits the MTU and is not empty. */
  lemma FragmentsFit(nal: Bytes, mtu: nat)
    requires nal != [] && mtu > FUA_HEADER
    ensures Fragments(nal, mtu) != []
    ensures forall k | 0 <= k < |Fragments(nal, mtu)| :: 0 < |Fragments(nal, mtu)[k]| <= mtu
  {
    if |nal| > mtu { FuaFits(nal, 1, mtu); }
  }

  /** The start and end bits of an FU-A payload. */
  predicate Starts(payload: Bytes) {
    |payload| > 1 && payload[1] / 128 == 1
  }

  predicate Ends(payload: Bytes) {
    |payload| > 1 && payload[1] / 64 % 2 == 1
  }

  lemma HeaderFields(nal: Bytes, first: bool, last: bool)
    requires Carried(nal)
    ensures var h, i := FuHeader(nal, first, last), FuIndicator(nal);
            && (h / 128 == 1 <==> first) && (h / 64 % 2 == 1 <==> last) && h % 32 == NalType(nal[0])
            && i % 32 == FUA && Nri(i) + h % 32 == nal[0]
  {
  }

  lemma {:induction false} FuaEnds(nal: Bytes, pos: nat, mtu: nat)
    requires Carried(nal) && 1 < pos < |nal| && mtu > FUA_HEADER
    ensures var f := FuaFrom(nal, pos, mtu);
            f != [] && forall k | 0 <= k < |f| :: !Starts(f[k]) && (Ends(f[k]) <==> k == |f| - 1)
    decreases |nal| - pos
  {
    var n := if |nal| - pos < mtu - FUA_HEADER then |nal| - pos else mtu - FUA_HEADER;
    HeaderFields(nal, false, pos + n == |nal|);
    if pos + n < |nal| { FuaEnds(nal, pos + n, mtu); }
  }

  /** Of a fragmented unit exactly the first payload has S, exactly the last has E, and they differ. */
  lemma StartAndEnd(nal: Bytes, mtu: nat)
    requires Carried(nal) && FUA_HEADER < mtu < |nal|
    ensures var f := Fragments(nal, mtu);
            |f| >= 2 && forall k | 0 <= k < |f| :: (Starts(f[k]) <==> k == 0) && (Ends(f[k]) <==> k == |f| - 1)
  {
    HeaderFields(nal, true, false);
    FuaEnds(nal, 1 + mtu - FUA_HEADER, mtu);
  }

  // ----- reassembly -----

  /** The depacketizer: the bytes it holds, and whether a fragmented unit is in progress. */
  datatype Depkt = Depkt(held: Bytes, inProgress: bool)

  /** Walks the units of an aggregation packet: a length that runs past the end is an error. */
  function StapWalk(payload: Bytes, offset: nat, first: Option<Bytes>): (r: (Status, Option<Bytes>))
    decreases |payload| - offset
  {
    if offset + 2 > |payload| then (Ok, first)
    else
      var len := Word(payload[offset], payload[offset + 1]);
      if len > |payload| - offset - 2 then (Parse, first)
      else if len == 0 then (Ok, first)
      else if first.None? && len > NAL_BUF then (BufferTooSmall, first)
      else StapWalk(payload, offset + 2 + len, if first.None? then Some(payload[offset + 2..offset + 2 + len]) else first)
  }

  function Abort(d: Depkt): Depkt {
    if d.inProgress then Depkt([], false) else d
  }

  /** A fragment joins the unit in progress, and completes it with the end bit. */
  function Join(held: Bytes, data: Bytes, ends: bool): (Depkt, Option<Bytes>, Status) {
    if |held| + |data| > NAL_BUF then (Depkt([], false), None, BufferTooSmall)
    else (Depkt(held + data, !ends), if ends then Some(held + data) else None, Ok)
  }

  function Push(d: Depkt, payload: Bytes): (Depkt, Option<Bytes>, Status) {
    if payload == [] then (d, None, InvalidParam)
    else
      var t := NalType(payload[0]);
      if 1 <= t <= 23 then
        if |payload| > NAL_BUF then (Abort(d), None, BufferTooSmall)
        else (Depkt(payload, false), Some(payload), Ok)
      else if t == STAPA then
        var (status, first) := StapWalk(payload, 1, None);
        var held := if first.Some? then Depkt(first.value, false) else Abort(d);
        (held, if status == Ok then first else None, status)
      else if t == FUA then
        if |payload| < FUA_HEADER then (d, None, Parse)
        else
          var data := payload[FUA_HEADER..];
          if Starts(payload) then Join([Nri(payload[0]) + payload[1] % 32], data, Ends(payload))
          else if d.inProgress then Join(d.held, data, Ends(payload))
          else (d, None, Ok)
      else (d, None, Ok)
  }

  /** Pushes payloads in order and collects the completed units. */
  function PushAll(d: Depkt, payloads: seq<Bytes>): (Depkt, seq<Bytes>)
    decreases |payloads|
  {
    if payloads == [] then (d, [])
    else
      var (d1, out, status) := Push(d, payloads[0]);
      var (d2, outs) := PushAll(d1, payloads[1..]);
      (d2, (if out.Some? then [out.value] else []) + outs)
  }

  lemma PushFirst(d: Depkt, p: Bytes, rest: seq<Bytes>)
    ensures PushAll(d, [p] + rest) ==
            (PushAll(Push(d, p).0, rest).0, (if Push(d, p).1.Some? then [Push(d, p).1.value] else []) + PushAll(Push(d, p).0, rest).1)
  {
    assert ([p] + rest)[0] == p && ([p] + rest)[1..] == rest;
  }

  lemma {:induction false} PushConcat(d: Depkt, a: seq<Bytes>, b: seq<Bytes>)
    ensures PushAll(d, a + b) == (PushAll(PushAll(d, a).0, b).0, PushAll(d, a).1 + PushAll(PushAll(d, a).0, b).1)
    decreases |a|
  {
    if a == [] {
      assert a + b == b;
      assert PushAll(d, a) == (d, []) && [] + PushAll(d, b).1 == PushAll(d, b).1;
    } else {
      var d1, out := Push(d, a[0]).0, if Push(d, a[0]).1.Some? then [Push(d, a[0]).1.value] else [];
      assert a + b == [a[0]] + (a[1..] + b) && a == [a[0]] + a[1..];
      PushFirst(d, a[0], a[1..] + b);
      PushFirst(d, a[0], a[1..]);
      PushConcat(d1, a[1..], b);
      var x, y := PushAll(d1, a[1..]).1, PushAll(PushAll(d1, a[1..]).0, b).1;
      assert out + (x + y) == (out + x) + y;
    }
  }

  /** The next fragment of a unit in progress. */
  lemma FuaJoins(d: Depkt, nal: Bytes, pos: nat, n: nat)
    requires Carried(nal) && 1 < pos && pos + n <= |nal| && d == Depkt(nal[..pos], true)
    ensures var p := [FuIndicator(nal), FuHeader(nal, false, pos + n == |nal|)] + nal[pos..pos + n];
            Push(d, p) == if pos + n > NAL_BUF then (Depkt([], false), None, BufferTooSmall)
                          else (Depkt(nal[..pos + n], pos + n < |nal|), if pos + n == |nal| then Some(nal) else None, Ok)
  {
    var p := [FuIndicator(nal), FuHeader(nal, false, pos + n == |nal|)] + nal[pos..pos + n];
    HeaderFields(nal, false, pos + n == |nal|);
    assert p[FUA_HEADER..] == nal[pos..pos + n];
    assert nal[..pos] + nal[pos..pos + n] == nal[..pos + n];
    if pos + n == |nal| { assert nal[..pos + n] == nal; }
  }

  /** Continuations without a unit in progress are ignored. */
  lemma {:induction false} FuaIgnored(d: Depkt, nal: Bytes, pos: nat, mtu: nat)
    requires Carried(nal) && 1 < pos <= |nal| && mtu > FUA_HEADER && !d.inProgress
    ensures PushAll(d, FuaFrom(nal, pos, mtu)) == (d, [])
    decreases |nal| - pos
  {
    if pos < |nal| {
      var n := if |nal| - pos < mtu - FUA_HEADER then |nal| - pos else mtu - FUA_HEADER;
      HeaderFields(nal, false, pos + n == |nal|);
      FuaIgnored(d, nal, pos + n, mtu);
      PushFirst(d, [FuIndicator(nal), FuHeader(nal, false, pos + n == |nal|)] + nal[pos..pos + n], FuaFrom(nal, pos + n, mtu));
    }
  }

  /** What the next fragment comes to. */
  lemma FuaTurn(nal: Bytes, pos: nat, mtu: nat, payloads: seq<Bytes>, outs: seq<Bytes>) returns (n: nat, rest: seq<Bytes>)
    requires Carried(nal) && 1 < pos < |nal| && mtu > FUA_HEADER
    requires payloads == FuaFrom(nal, pos, mtu) && outs == PushAll(Depkt(nal[..pos], true), payloads).1
    ensures 1 <= n <= |nal| - pos && rest == FuaFrom(nal, pos + n, mtu)
    ensures pos + n > NAL_BUF ==> outs == []
    ensures pos + n <= NAL_BUF && pos + n < |nal| ==> outs == PushAll(Depkt(nal[..pos + n], true), rest).1
    ensures pos + n <= NAL_BUF && pos + n == |nal| ==> outs == [nal]
  {
    n := if |nal| - pos < mtu - FUA_HEADER then |nal| - pos else mtu - FUA_HEADER;
    rest := FuaFrom(nal, pos + n, mtu);
    FuaJoins(Depkt(nal[..pos], true), nal, pos, n);
    PushFirst(Depkt(nal[..pos], true), [FuIndicator(nal), FuHeader(nal, false, pos + n == |nal|)] + nal[pos..pos + n], rest);
    FuaIgnored(Depkt([], false), nal, pos + n, mtu);
  }

  lemma {:induction false} FuaContinues(nal: Bytes, pos: nat, mtu: nat, payloads: seq<Bytes>, outs: seq<Bytes>)
    requires Carried(nal) && 1 < pos < |nal| && mtu > FUA_HEADER
    requires payloads == FuaFrom(nal, pos, mtu) && outs == PushAll(Depkt(nal[..pos], true), payloads).1
    ensures outs == if |nal| <= NAL_BUF then [nal] else []
    decreases |nal| - pos
  {
    var n, rest := FuaTurn(nal, pos, mtu, payloads, outs);
    if pos + n <= NAL_BUF && pos + n < |nal| { FuaContinues(nal, pos + n, mtu, rest, outs); }
  }

  /** The first fragment starts the unit. */
  lemma FuaStarts(d: Depkt, nal: Bytes, n: nat)
    requires Carried(nal) && 1 + n < |nal|
    ensures Push(d, [FuIndicator(nal), FuHeader(nal, true, false)] + nal[1..1 + n]) ==
            if 1 + n > NAL_BUF then (Depkt([], false), None, BufferTooSmall) else (Depkt(nal[..1 + n], true), None, Ok)
  {
    var p := [FuIndicator(nal), FuHeader(nal, true, false)] + nal[1..1 + n];
    HeaderFields(nal, true, false);
    assert p[FUA_HEADER..] == nal[1..1 + n];
    assert [nal[0]] + nal[1..1 + n] == nal[..1 + n];
  }

  lemma FuaReassembles(d: Depkt, nal: Bytes, mtu: nat)
    requires Carried(nal) && FUA_HEADER < mtu < |nal|
    ensures PushAll(d, FuaFrom(nal, 1, mtu)).1 == if |nal| <= NAL_BUF then [nal] else []
  {
    var n := mtu - FUA_HEADER;
    var rest := FuaFrom(nal, 1 + n, mtu);
    FuaStarts(d, nal, n);
    PushFirst(d, [FuIndicator(nal), FuHeader(nal, true, false)] + nal[1..1 + n], rest);
    if 1 + n > NAL_BUF {
      FuaIgnored(Depkt([], false), nal, 1 + n, mtu);
    } else {
      FuaContinues(nal, 1 + n, mtu, rest, PushAll(Depkt(nal[..1 + n], true), rest).1);
    }
  }

  /** Pushing the payloads of a unit returns the unit, whatever was in progress before,
      exactly when the unit fits the reassembly buffer. */
  lemma ReassemblesIff(d: Depkt, nal: Bytes, mtu: nat)
    requires Carried(nal) && mtu > FUA_HEADER
    ensures PushAll(d, Fragments(nal, mtu)).1 == if |nal| <= NAL_BUF then [nal] else []
  {
    if |nal| <= mtu {
      PushFirst(d, nal, []);
      assert [nal] + [] == [nal];
    } else {
      FuaReassembles(d, nal, mtu);
    }
  }

  // ----- aggregation packets -----

  /** The units of an aggregation packet: each follows its length, high byte first. */
  function StapBody(units: seq<Bytes>): Bytes {
    if units == [] then [] else Size16(|units[0]|) + units[0] + StapBody(units[1..])
  }

  predicate Sized(units: seq<Bytes>) {
    forall k | 0 <= k < |units| :: 0 < |units[k]| < 0x1_0000
  }

  /** The next length and unit. */
  lemma UnitAt(p: Bytes, at: nat, unit: Bytes, rest: Bytes)
    requires |unit| < 0x1_0000 && LiesAt(p, at, Size16(|unit|) + unit + rest)
    ensures at + 2 + |unit| + |rest| <= |p| && Word(p[at], p[at + 1]) == |unit| && p[at + 2..at + 2 + |unit|] == unit
    ensures LiesAt(p, at + 2 + |unit|, rest)
  {
    LiesParts(p, at, Size16(|unit|), unit, rest);
    assert p[at + 0] == Size16(|unit|)[0] && p[at + 1] == Size16(|unit|)[1];
  }

  lemma {:induction false} StapFound(p: Bytes, at: nat, units: seq<Bytes>, first: Option<Bytes>)
    requires Sized(units) && at + |StapBody(units)| == |p| && LiesAt(p, at, StapBody(units))
    requires first.None? && units != [] ==> |units[0]| <= NAL_BUF
    ensures StapWalk(p, at, first) == (Ok, if first.None? && units != [] then Some(units[0]) else first)
    decreases |units|
  {
    if units != [] {
      UnitAt(p, at, units[0], StapBody(units[1..]));
      StapFound(p, at + 2 + |units[0]|, units[1..], if first.None? then Some(units[0]) else first);
    }
  }

  /** An aggregation packet gives its first unit, and its other units are lost; a first unit that does not
      fit the reassembly buffer is refused. */
  lemma StapGivesFirst(d: Depkt, header: Byte, units: seq<Bytes>)
    requires NalType(header) == STAPA && Sized(units) && units != []
    ensures var r := Push(d, [header] + StapBody(units));
            if |units[0]| <= NAL_BUF then r == (Depkt(units[0], false), Some(units[0]), Ok)
            else r.1 == None && r.2 == BufferTooSmall && !r.0.inProgress
  {
    var p := [header] + StapBody(units);
    UnitAt(p, 1, units[0], StapBody(units[1..]));
    if |units[0]| <= NAL_BUF { StapFound(p, 1, units, None); }
  }

  // ----- the iterator and the depacketizer as objects -----

  /** Hands out the payloads of one unit, one at a time. */
  class FragmentIter {
    const nal: Bytes
    const mtu: nat
    var pos: nat
    var done: bool

    /** The payloads still to come. */
    ghost function Rest(): seq<Bytes>
      reads this
      requires Valid()
    {
      if done then [] else if |nal| <= mtu then [nal] else FuaFrom(nal, pos, mtu)
    }

    ghost predicate Valid()
      reads this
    {
      nal != [] && mtu > FUA_HEADER && 1 <= pos <= |nal| && (pos == |nal| && |nal| > mtu ==> done)
    }

    constructor (nal: Bytes, mtu: nat)
      requires nal != [] && mtu > FUA_HEADER
      ensures Valid() && this.nal == nal && this.mtu == mtu && Rest() == Fragments(nal, mtu)
    {
      this.nal, this.mtu := nal, mtu;
      pos, done := 1, false;
    }

    method HasNext() returns (more: bool)
      requires Valid()
      ensures more <==> Rest() != []
    {
      more := !done && (|nal| <= mtu || |nal| - pos > 0);
    }

    /** The next payload, and whether it is the last. */
    method Next() returns (payload: Bytes, last: bool)
      requires Valid() && Rest() != []
      modifies this
      ensures Valid() && old(Rest()) == [payload] + Rest() && (last <==> Rest() == [])
    {
      if |nal| <= mtu {
        done := true;
        return nal, true;
      }
      var remaining := |nal| - pos;
      var n := if remaining < mtu - FUA_HEADER then remaining else mtu - FUA_HEADER;
      var header := NalType(nal[0]);
      if pos == 1 { header := header + 128; }
      last := remaining == n;
      if last { header := header + 64; }
      assert header == FuHeader(nal, pos == 1, pos + n == |nal|);
      payload := [FuIndicator(nal), header] + nal[pos..pos + n];
      ghost var rest := FuaFrom(nal, pos + n, mtu);
      assert Rest() == [payload] + rest;
      pos := pos + n;
      if last { done := true; }
      assert Rest() == rest;
    }
  }

  /** The depacketizer over its reassembly buffer. */
  class Depacketizer {
    const buf: array<Byte>
    var len: nat
    var inProgress: bool

    ghost predicate Valid()
      reads this
    {
      buf.Length == NAL_BUF && len <= NAL_BUF
    }

    ghost function View(): Depkt
      reads this, buf
      requires Valid()
    {
      Depkt(buf[..len], inProgress)
    }

    constructor ()
      ensures Valid() && View() == Depkt([], false) && fresh(buf)
    {
      buf := new Byte[NAL_BUF](i => 0);
      len, inProgress := 0, false;
    }

    /** Copies `data` behind the first `at` bytes. */
    method Store(at: nat, data: Bytes)
      requires Valid() && at + |data| <= NAL_BUF
      modifies buf, this`len
      ensures Valid() && len == at + |data| && buf[..len] == old(buf[..at]) + data
    {
      ghost var before := buf[..at];
      forall i | 0 <= i < |data| { buf[at + i] := data[i]; }
      len := at + |data|;
      assert buf[..at] == before;
      assert buf[..len] == before + data;
    }

    method AbortUnit()
      requires Valid()
      modifies this
      ensures Valid() && View() == Abort(old(View()))
    {
      if inProgress {
        inProgress, len := false, 0;
      }
    }

    /** One RTP payload. */
    method PushPayload(payload: Bytes) returns (nal: Option<Bytes>, status: Status)
      requires Valid()
      modifies this, buf
      ensures Valid() && (View(), nal, status) == Push(old(View()), payload)
    {
      nal := None;
      if |payload| == 0 { return None, InvalidParam; }
      var t := NalType(payload[0]);
      if 1 <= t <= 23 {
        AbortUnit();
        if |payload| > NAL_BUF { return None, BufferTooSmall; }
        Store(0, payload);
        assert buf[..len] == payload;
        return Some(payload), Ok;
      } else if t == STAPA {
        nal, status := PushAggregate(payload);
      } else if t == FUA {
        nal, status := PushFragment(payload);
      } else {
        status := Ok;
      }
    }

    /** An aggregation packet: only its first unit is returned. */
    method PushAggregate(payload: Bytes) returns (nal: Option<Bytes>, status: Status)
      requires Valid() && payload != [] && NalType(payload[0]) == STAPA
      modifies this, buf
      ensures Valid() && (View(), nal, status) == Push(old(View()), payload)
    {
      AbortUnit();
      ghost var aborted := View();
      var offset := 1;
      var first: Option<Bytes> := None;
      status := Ok;
      while offset + 2 <= |payload|
        invariant Valid() && status == Ok && offset >= 1
        invariant View() == if first.Some? then Depkt(first.value, false) else aborted
        invariant StapWalk(payload, 1, None) == StapWalk(payload, offset, first)
        decreases |payload| - offset
      {
        var sub := Word(payload[offset], payload[offset + 1]);
        if sub > |payload| - offset - 2 { return None, Parse; }
        if sub == 0 { break; }
        if first.None? {
          if sub > NAL_BUF { return None, BufferTooSmall; }
          Store(0, payload[offset + 2..offset + 2 + sub]);
          first := Some(payload[offset + 2..offset + 2 + sub]);
          assert buf[..len] == first.value;
        }
        offset := offset + 2 + sub;
      }
      nal := first;
    }

    /** A fragment. */
    method PushFragment(payload: Bytes) returns (nal: Option<Bytes>, status: Status)
      requires Valid() && payload != [] && NalType(payload[0]) == FUA
      modifies this, buf
      ensures Valid() && (View(), nal, status) == Push(old(View()), payload)
    {
      if |payload| < FUA_HEADER { return None, Parse; }
      var header, data := payload[1], payload[FUA_HEADER..];
      var isEnd := header / 64 % 2 == 1;
      if header / 128 == 1 {
        Store(0, [Nri(payload[0]) + header % 32]);
        nal, status := Append([Nri(payload[0]) + header % 32], data, isEnd);
      } else if inProgress {
        nal, status := Append(buf[..len], data, isEnd);
      } else {
        nal, status := None, Ok;
      }
    }

    method Append(held: Bytes, data: Bytes, ends: bool) returns (nal: Option<Bytes>, status: Status)
      requires Valid() && buf[..len] == held
      modifies this, buf
      ensures Valid() && (View(), nal, status) == Join(held, data, ends)
    {
      if len + |data| > NAL_BUF {
        inProgress, len := false, 0;
        return None, BufferTooSmall;
      }
      Store(len, data);
      inProgress := !ends;
      nal := if ends then Some(buf[..len]) else None;
      status := Ok;
    }
  }
}
