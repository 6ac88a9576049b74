/** The H.265 depacketizer: what the receiver hands to the application, and its buffer. */
module H265Depkt {
  import opened Bits
  import opened H265
  import H265Theorem
  import H264

  /** A fragment joins the unit in progress, and completes it with the end bit. */
  function Join(held: Bytes, data: Bytes, ends: bool): (Partial, H264.Option<Bytes>, H264.Status) {
    if |held| + |data| > H264.NAL_BUF then (Idle, H264.None, H264.BufferTooSmall)
    else if ends then (Idle, H264.Some(held + data), H264.Ok)
    else (Collecting(held + data), H264.None, H264.Ok)
  }

  /** The unit header, put together from both headers of a first fragment. */
  function Rebuilt(p: Bytes): (r: Bytes)
    requires |p| >= FU_HEADER
    ensures |r| == NAL_HEADER
  {
    [p[0] / 128 * 128 + p[2] % 64 * 2 + p[0] % 2, p[1]]
  }

  /** One payload: only the first unit of an aggregate is returned. */
  function Push(d: Partial, p: Bytes): (Partial, H264.Option<Bytes>, H264.Status) {
    if |p| < NAL_HEADER then (d, H264.None, H264.InvalidParam)
    else if Type(p) < AP then
      if |p| > H264.NAL_BUF then (Idle, H264.None, H264.BufferTooSmall) else (Idle, H264.Some(p), H264.Ok)
    else if Type(p) == AP then
      var (status, first) := H264.StapWalk(p, 2, H264.None);
      (Idle, if status == H264.Ok then first else H264.None, status)
    else if Type(p) == FU then
      if |p| < FU_HEADER then (d, H264.None, H264.Parse)
      else if p[2] >= 128 then Join(Rebuilt(p), p[FU_HEADER..], p[2] / 64 % 2 == 1)
      else if d.Collecting? then Join(d.bytes, p[FU_HEADER..], p[2] / 64 % 2 == 1)
      else (Idle, H264.None, H264.Ok)
    else (d, H264.None, H264.Ok)
  }

  function Listed(o: H264.Option<Bytes>): seq<Bytes> {
    if o.Some? then [o.value] else []
  }

  /** The units that the payloads yield, in order. */
  function Outs(d: Partial, ps: seq<Payload>): seq<Bytes>
    decreases |ps|
  {
    if ps == [] then [] else Listed(Push(d, ps[0].bytes).1) + Outs(Push(d, ps[0].bytes).0, ps[1..])
  }

  lemma OutsFirst(d: Partial, p: Payload, rest: seq<Payload>)
    ensures Outs(d, [p] + rest) == Listed(Push(d, p.bytes).1) + Outs(Push(d, p.bytes).0, rest)
  {
    assert ([p] + rest)[0] == p && ([p] + rest)[1..] == rest;
  }

  /** The unit, if it fits the reassembly buffer, and what comes behind it. */
  function Kept(nal: Bytes, rest: seq<Bytes>): seq<Bytes> {
    if |nal| <= H264.NAL_BUF then [nal] + rest else rest
  }

  // ----- fragments -----

  lemma FuPush(d: Partial, nal: Bytes, pos: nat, n: nat)
    requires Carried(nal) && NAL_HEADER <= pos && pos + n <= |nal|
    requires pos > NAL_HEADER ==> d == Collecting(nal[..pos])
    ensures Push(d, FuPacket(nal, pos == NAL_HEADER, pos + n == |nal|, nal[pos..pos + n])) ==
            Join(nal[..pos], nal[pos..pos + n], pos + n == |nal|)
  {
    FuFields(nal, pos == NAL_HEADER, pos + n == |nal|, nal[pos..pos + n]);
    if pos == NAL_HEADER { assert Rebuilt(FuPacket(nal, true, pos + n == |nal|, nal[pos..pos + n])) == nal[..pos]; }
  }

  lemma JoinIs(nal: Bytes, pos: nat, n: nat)
    requires pos + n <= |nal|
    ensures Join(nal[..pos], nal[pos..pos + n], pos + n == |nal|) ==
            if pos + n > H264.NAL_BUF then (Idle, H264.None, H264.BufferTooSmall)
            else if pos + n == |nal| then (Idle, H264.Some(nal), H264.Ok)
            else (Collecting(nal[..pos + n]), H264.None, H264.Ok)
  {
    assert nal[..pos] + nal[pos..pos + n] == nal[..pos + n];
    if pos + n == |nal| { assert nal[..pos + n] == nal; }
  }

  /** Fragments behind an overflow are ignored. */
  lemma {:induction false} FuIgnored(nal: Bytes, pos: nat, mtu: nat, closes: bool, rest: seq<Payload>)
    requires Carried(nal) && NAL_HEADER < pos <= |nal| && mtu > FU_HEADER
    ensures Outs(Idle, FuFrom(nal, pos, mtu, closes) + rest) == Outs(Idle, rest)
    decreases |nal| - pos
  {
    var f := FuFrom(nal, pos, mtu, closes);
    if pos < |nal| {
      var n := FuStep(nal, pos, mtu);
      var p := Payload(FuPacket(nal, false, pos + n == |nal|, nal[pos..pos + n]), pos + n == |nal| && closes);
      var more := FuFrom(nal, pos + n, mtu, closes);
      FuFields(nal, false, pos + n == |nal|, nal[pos..pos + n]);
      assert f + rest == [p] + (more + rest);
      OutsFirst(Idle, p, more + rest);
      FuIgnored(nal, pos + n, mtu, closes, rest);
    } else {
      assert f + rest == rest;
    }
  }

  lemma FuPushIs(d: Partial, nal: Bytes, pos: nat, n: nat)
    requires Carried(nal) && NAL_HEADER <= pos && pos + n <= |nal|
    requires pos > NAL_HEADER ==> d == Collecting(nal[..pos])
    ensures Push(d, FuPacket(nal, pos == NAL_HEADER, pos + n == |nal|, nal[pos..pos + n])) ==
            FuResult(nal, pos + n)
  {
    FuPush(d, nal, pos, n);
    JoinIs(nal, pos, n);
  }

  lemma FuFirst(nal: Bytes, pos: nat, mtu: nat, closes: bool, rest: seq<Payload>, ps: seq<Payload>)
    returns (n: nat, p: Payload, more: seq<Payload>)
    requires |nal| >= NAL_HEADER && NAL_HEADER <= pos < |nal| && mtu > FU_HEADER && ps == FuFrom(nal, pos, mtu, closes) + rest
    ensures n == FuStep(nal, pos, mtu) && more == FuFrom(nal, pos + n, mtu, closes) + rest
    ensures p.bytes == FuPacket(nal, pos == NAL_HEADER, pos + n == |nal|, nal[pos..pos + n]) && ps == [p] + more
  {
    n := FuStep(nal, pos, mtu);
    more := FuFrom(nal, pos + n, mtu, closes) + rest;
    p := Payload(FuPacket(nal, pos == NAL_HEADER, pos + n == |nal|, nal[pos..pos + n]), pos + n == |nal| && closes);
  }

  lemma OutsTurn(d: Partial, p: Payload, more: seq<Payload>, ps: seq<Payload>, d1: Partial, o: H264.Option<Bytes>, status: H264.Status)
    requires ps == [p] + more && Push(d, p.bytes) == (d1, o, status)
    ensures Outs(d, ps) == if o.Some? then [o.value] + Outs(d1, more) else Outs(d1, more)
  {
    OutsFirst(d, p, more);
  }

  /** What a fragment does: overflow, the whole unit, or more of it. */
  function FuResult(nal: Bytes, next: nat): (Partial, H264.Option<Bytes>, H264.Status)
    requires next <= |nal|
  {
    if next > H264.NAL_BUF then (Idle, H264.None, H264.BufferTooSmall)
    else if next == |nal| then (Idle, H264.Some(nal), H264.Ok)
    else (Collecting(nal[..next]), H264.None, H264.Ok)
  }

  lemma FuPushed(d: Partial, nal: Bytes, pos: nat, mtu: nat, closes: bool, rest: seq<Payload>, ps: seq<Payload>)
    returns (next: nat, p: Payload, more: seq<Payload>)
    requires Carried(nal) && NAL_HEADER <= pos < |nal| && mtu > FU_HEADER
    requires pos > NAL_HEADER ==> d == Collecting(nal[..pos])
    requires ps == FuFrom(nal, pos, mtu, closes) + rest
    ensures pos < next <= |nal| && more == FuFrom(nal, next, mtu, closes) + rest
    ensures ps == [p] + more && Push(d, p.bytes) == FuResult(nal, next)
  {
    var n;
    n, p, more := FuFirst(nal, pos, mtu, closes, rest, ps);
    next := pos + n;
    FuPushIs(d, nal, pos, n);
  }

  /** One fragment of a unit, and what is left. */
  lemma FuTurn(d: Partial, nal: Bytes, pos: nat, mtu: nat, closes: bool, rest: seq<Payload>, ps: seq<Payload>)
    returns (next: nat, more: seq<Payload>)
    requires Carried(nal) && NAL_HEADER <= pos < |nal| && mtu > FU_HEADER
    requires pos > NAL_HEADER ==> d == Collecting(nal[..pos])
    requires ps == FuFrom(nal, pos, mtu, closes) + rest
    ensures pos < next <= |nal| && more == FuFrom(nal, next, mtu, closes) + rest
    ensures Outs(d, ps) == if next > H264.NAL_BUF then Outs(Idle, more)
                           else if next == |nal| then [nal] + Outs(Idle, more)
                           else Outs(Collecting(nal[..next]), more)
  {
    var p;
    next, p, more := FuPushed(d, nal, pos, mtu, closes, rest, ps);
    var (d1, o, status) := FuResult(nal, next);
    OutsTurn(d, p, more, ps, d1, o, status);
  }

  lemma {:induction false} FuOuts(d: Partial, nal: Bytes, pos: nat, mtu: nat, closes: bool, rest: seq<Payload>,
                                  ps: seq<Payload>, tail: seq<Bytes>)
    requires Carried(nal) && NAL_HEADER <= pos < |nal| && mtu > FU_HEADER
    requires pos > NAL_HEADER ==> d == Collecting(nal[..pos])
    requires ps == FuFrom(nal, pos, mtu, closes) + rest && Outs(Idle, rest) == tail
    ensures Outs(d, ps) == Kept(nal, tail)
    decreases |nal| - pos
  {
    var next, more := FuTurn(d, nal, pos, mtu, closes, rest, ps);
    if next > H264.NAL_BUF {
      FuIgnored(nal, next, mtu, closes, rest);
    } else if next == |nal| {
      assert more == rest;
    } else {
      FuOuts(Collecting(nal[..next]), nal, next, mtu, closes, rest, more, tail);
    }
  }

  // ----- aggregates -----

  lemma {:induction false} WalkIsOk(p: Bytes, at: nat, nals: seq<Bytes>, i: nat, j: nat, first: Bytes)
    requires i <= j <= |nals| && Headed(nals, i, j) && LiesAt(p, at, ApBody(nals, i, j)) && at + |ApBody(nals, i, j)| == |p| < 0x1_0000
    ensures H264.StapWalk(p, at, H264.Some(first)) == (H264.Ok, H264.Some(first))
    decreases j - i
  {
    if i < j {
      var n := |nals[i]|;
      LiesParts(p, at, Size16(n), nals[i], ApBody(nals, i + 1, j));
      LengthRead(p, at, n);
      WalkIsOk(p, at + 2 + n, nals, i + 1, j, first);
    }
  }

  lemma ApWalk(p: Bytes, nals: seq<Bytes>, i: nat, j: nat)
    requires i < j <= |nals| && Headed(nals, i, j) && LiesAt(p, 2, ApBody(nals, i, j)) && 2 + |ApBody(nals, i, j)| == |p| <= VIDEO_MTU
    ensures H264.StapWalk(p, 2, H264.None) == (H264.Ok, H264.Some(nals[i]))
  {
    var n := |nals[i]|;
    LiesParts(p, 2, Size16(n), nals[i], ApBody(nals, i + 1, j));
    LengthRead(p, 2, n);
    assert p[4..4 + n] == nals[i];
    WalkIsOk(p, 4 + n, nals, i + 1, j, nals[i]);
  }

  lemma ApPush(d: Partial, nals: seq<Bytes>, i: nat, j: nat)
    requires i < j <= |nals| && Headed(nals, i, j) && |ApPacket(nals, i, j)| <= VIDEO_MTU
    ensures Push(d, ApPacket(nals, i, j)) == (Idle, H264.Some(nals[i]), H264.Ok)
  {
    ApFields(AnyForbidden(nals, i, j), MinLayer(nals, i, j), MinTid(nals, i, j), ApBody(nals, i, j));
    ApWalk(ApPacket(nals, i, j), nals, i, j);
  }

  // ----- what arrives -----

  /** The first unit of every packet group, when it fits the reassembly buffer. */
  function Received(nals: seq<Bytes>, i: nat): (r: seq<Bytes>)
    requires i <= |nals|
    decreases |nals| - i
  {
    if i == |nals| then [] else Kept(nals[i], Received(nals, GroupEnd(nals, i, VIDEO_MTU) + 1))
  }

  lemma GroupOuts(d: Partial, nals: seq<Bytes>, i: nat, rest: seq<Payload>, tail: seq<Bytes>, ps: seq<Payload>)
    requires i < |nals| && Carried(nals[i]) && Outs(Idle, rest) == tail && ps == Group(nals, i, VIDEO_MTU).payloads + rest
    ensures Outs(d, ps) == Kept(nals[i], tail)
  {
    var j := GroupEnd(nals, i, VIDEO_MTU);
    var closes := j + 1 == |nals|;
    GroupOk(nals, i, VIDEO_MTU);
    if |nals[i]| > VIDEO_MTU {
      FuOuts(d, nals[i], NAL_HEADER, VIDEO_MTU, closes, rest, ps, tail);
    } else if j > i {
      ApPush(d, nals, i, j + 1);
      OutsTurn(d, Payload(ApPacket(nals, i, j + 1), closes), rest, ps, Idle, H264.Some(nals[i]), H264.Ok);
    } else {
      OutsTurn(d, Payload(nals[i], closes), rest, ps, Idle, H264.Some(nals[i]), H264.Ok);
    }
  }

  lemma ReceivedStep(nals: seq<Bytes>, i: nat, r: seq<Bytes>) returns (tail: seq<Bytes>)
    requires i < |nals| && r == Received(nals, i)
    ensures tail == Received(nals, GroupEnd(nals, i, VIDEO_MTU) + 1) && r == Kept(nals[i], tail)
  {
    tail := Received(nals, GroupEnd(nals, i, VIDEO_MTU) + 1);
  }

  lemma ReceivedGroup(d: Partial, nals: seq<Bytes>, i: nat, out: Out, outs: seq<Bytes>, j: nat, rest: Out, tail: seq<Bytes>)
    requires i < |nals| && AllCarried(nals) && out == PackFrom(nals, i, VIDEO_MTU) && outs == Outs(d, out.payloads)
    requires j == GroupEnd(nals, i, VIDEO_MTU) + 1 && rest == PackFrom(nals, j, VIDEO_MTU) && Outs(Idle, rest.payloads) == tail
    ensures outs == Kept(nals[i], tail)
  {
    var k, g, more := PackStep(nals, i, VIDEO_MTU, out);
    GroupOuts(d, nals, i, rest.payloads, tail, out.payloads);
  }

  /** The receiver gets exactly the first unit of every group that fits its buffer. */
  lemma {:induction false} ReceivedFrom(d: Partial, nals: seq<Bytes>, i: nat, out: Out, r: seq<Bytes>, outs: seq<Bytes>)
    requires i <= |nals| && AllCarried(nals) && out == PackFrom(nals, i, VIDEO_MTU) && r == Received(nals, i)
    requires outs == Outs(d, out.payloads)
    ensures outs == r
    decreases |nals| - i
  {
    if i < |nals| {
      var j := GroupEnd(nals, i, VIDEO_MTU) + 1;
      var rest := PackFrom(nals, j, VIDEO_MTU);
      var tail := ReceivedStep(nals, i, r);
      ReceivedFrom(Idle, nals, j, rest, tail, Outs(Idle, rest.payloads));
      ReceivedGroup(d, nals, i, out, outs, j, rest, tail);
    }
  }

  predicate Fit(nals: seq<Bytes>, i: nat) {
    forall k: nat | i <= k < |nals| :: |nals[k]| <= H264.NAL_BUF
  }

  lemma FitStep(nals: seq<Bytes>, i: nat)
    requires i < |nals|
    ensures Fit(nals, i) <==> |nals[i]| <= H264.NAL_BUF && Fit(nals, i + 1)
  {
  }

  lemma {:induction false} CompleteFrom(nals: seq<Bytes>, i: nat, r: seq<Bytes>)
    requires i <= |nals| && Headed(nals, 0, |nals|) && r == Received(nals, i)
    ensures |r| <= |nals| - i
    ensures |r| == |nals| - i <==> H265Theorem.NoPair(nals, i) && Fit(nals, i)
    ensures |r| == |nals| - i ==> r == nals[i..]
    decreases |nals| - i
  {
    if i < |nals| {
      var j := GroupEnd(nals, i, VIDEO_MTU) + 1;
      H265Theorem.GroupCount(nals, i);
      H265Theorem.NoPairStep(nals, i);
      FitStep(nals, i);
      CompleteFrom(nals, j, Received(nals, j));
      if j == i + 1 { assert nals[i..] == [nals[i]] + nals[i + 1..]; }
    }
  }

  /** This receiver gets back a whole access unit of this sender exactly when no two neighbours
      fit one aggregate and every unit fits the reassembly buffer. */
  lemma CompleteIff(d: Partial, nals: seq<Bytes>)
    requires AllCarried(nals)
    ensures Outs(d, PackFrom(nals, 0, VIDEO_MTU).payloads) == nals <==>
            (forall k: nat | k < |nals| :: !H265Theorem.Pair(nals, k)) && forall k: nat | k < |nals| :: |nals[k]| <= H264.NAL_BUF
  {
    var out := PackFrom(nals, 0, VIDEO_MTU);
    ReceivedFrom(d, nals, 0, out, Received(nals, 0), Outs(d, out.payloads));
    CompleteFrom(nals, 0, Received(nals, 0));
    assert nals[0..] == nals;
    assert H265Theorem.NoPair(nals, 0) <==> forall k: nat | k < |nals| :: !H265Theorem.Pair(nals, k);
    assert Fit(nals, 0) <==> forall k: nat | k < |nals| :: |nals[k]| <= H264.NAL_BUF;
  }

  /** Two small units share a packet, and the second one is not received. */
  lemma SecondUnitIsLost(d: Partial, a: Bytes, b: Bytes)
    requires Carried(a) && Carried(b) && 6 + |a| + |b| <= VIDEO_MTU
    ensures Outs(d, PackFrom([a, b], 0, VIDEO_MTU).payloads) != [a, b]
  {
    assert H265Theorem.Pair([a, b], 0);
    CompleteIff(d, [a, b]);
  }

  // ----- the depacketizer -----

  /** The depacketizer over its reassembly buffer. */
  class Depacketizer {
    const buf: array<Byte>
    var len: nat
    var inProgress: bool

    ghost predicate Valid()
      reads this
    {
      buf.Length == H264.NAL_BUF && len <= H264.NAL_BUF
    }

    ghost function View(): Partial
      reads this, buf
      requires Valid()
    {
      if inProgress then Collecting(buf[..len]) else Idle
    }

    constructor ()
      ensures Valid() && View() == Idle && fresh(buf)
    {
      buf := new Byte[H264.NAL_BUF](i => 0);
      len, inProgress := 0, false;
    }

    /** Copies `data` behind the first `at` bytes. */
    method Store(at: nat, data: Bytes)
      requires Valid() && at + |data| <= H264.NAL_BUF
      modifies buf, this`len
      ensures Valid() && len == at + |data| && buf[..len] == old(buf[..at]) + data
    {
      ghost var before := buf[..at];
      forall i | 0 <= i < |data| { buf[at + i] := data[i]; }
      len := at + |data|;
      assert buf[..at] == before;
      assert buf[..len] == before + data;
    }

    method Append(held: Bytes, data: Bytes, ends: bool) returns (nal: H264.Option<Bytes>, status: H264.Status)
      requires Valid() && buf[..len] == held
      modifies this, buf
      ensures Valid() && (View(), nal, status) == Join(held, data, ends)
    {
      if len + |data| > H264.NAL_BUF {
        inProgress, len := false, 0;
        return H264.None, H264.BufferTooSmall;
      }
      Store(len, data);
      inProgress := !ends;
      nal := if ends then H264.Some(buf[..len]) else H264.None;
      status := H264.Ok;
    }

    method PushSingle(p: Bytes) returns (nal: H264.Option<Bytes>, status: H264.Status)
      requires Valid() && |p| >= NAL_HEADER && Type(p) < AP
      modifies this, buf
      ensures Valid() && (View(), nal, status) == Push(old(View()), p)
    {
      if inProgress { inProgress, len := false, 0; }
      if |p| > H264.NAL_BUF { return H264.None, H264.BufferTooSmall; }
      Store(0, p);
      assert buf[..len] == p;
      nal, status := H264.Some(buf[..len]), H264.Ok;
    }

    method PushAggregate(p: Bytes) returns (nal: H264.Option<Bytes>, status: H264.Status)
      requires Valid() && |p| >= NAL_HEADER && Type(p) == AP
      modifies this, buf
      ensures Valid() && (View(), nal, status) == Push(old(View()), p)
    {
      if inProgress { inProgress, len := false, 0; }
      var offset := 2;
      var first: H264.Option<Bytes> := H264.None;
      status := H264.Ok;
      while offset + 2 <= |p|
        invariant Valid() && !inProgress && status == H264.Ok && offset >= 2
        invariant H264.StapWalk(p, 2, H264.None) == H264.StapWalk(p, offset, first)
        decreases |p| - offset
      {
        var sub := Word(p[offset], p[offset + 1]);
        if sub > |p| - offset - 2 { return H264.None, H264.Parse; }
        if sub == 0 { break; }
        if first.None? {
          if sub > H264.NAL_BUF { return H264.None, H264.BufferTooSmall; }
          Store(0, p[offset + 2..offset + 2 + sub]);
          first := H264.Some(p[offset + 2..offset + 2 + sub]);
        }
        offset := offset + 2 + sub;
      }
      nal := first;
    }

    method PushFragment(p: Bytes) returns (nal: H264.Option<Bytes>, status: H264.Status)
      requires Valid() && |p| >= NAL_HEADER && Type(p) == FU
      modifies this, buf
      ensures Valid() && (View(), nal, status) == Push(old(View()), p)
    {
      if |p| < FU_HEADER { return H264.None, H264.Parse; }
      var header, data := p[2], p[FU_HEADER..];
      var isEnd := header / 64 % 2 == 1;
      if header >= 128 {
        Store(0, Rebuilt(p));
        assert buf[..len] == Rebuilt(p);
        nal, status := Append(Rebuilt(p), data, isEnd);
      } else if inProgress {
        nal, status := Append(buf[..len], data, isEnd);
      } else {
        nal, status := H264.None, H264.Ok;
      }
    }

    /** One RTP payload. */
    method PushPayload(p: Bytes) returns (nal: H264.Option<Bytes>, status: H264.Status)
      requires Valid()
      modifies this, buf
      ensures Valid() && (View(), nal, status) == Push(old(View()), p)
    {
      if |p| < NAL_HEADER { return H264.None, H264.InvalidParam; }
      var t := Type(p);
      if t < AP {
        nal, status := PushSingle(p);
      } else if t == AP {
        nal, status := PushAggregate(p);
      } else if t == FU {
        nal, status := PushFragment(p);
      } else {
        nal, status := H264.None, H264.Ok;
      }
    }
  }
}
