/** The H.265 packetizer as the sender runs it: the loops over units, runs and fragments. */
module H265Pack {
  import opened Bits
  import opened H265
  import opened H265Theorem
  import AnnexB
  import Slices
  import H264

  // ----- admission -----

  lemma GroupBound(nals: seq<Bytes>, i: nat)
    requires i < |nals| && |nals[i]| >= NAL_HEADER
    ensures |Group(nals, i, VIDEO_MTU).payloads| <= PacketsFor(|nals[i]|)
  {
    GroupOk(nals, i, VIDEO_MTU);
    if |nals[i]| > VIDEO_MTU { FuCount(nals[i], NAL_HEADER, i + 1 == |nals|); }
  }

  lemma {:induction false} BoundFrom(nals: seq<Bytes>, i: nat, out: Out)
    requires i <= |nals| && out == PackFrom(nals, i, VIDEO_MTU)
    ensures |out.payloads| <= Worst(nals, i)
    decreases |nals| - i
  {
    if i < |nals| && |nals[i]| >= NAL_HEADER {
      var j, g, rest := PackStep(nals, i, VIDEO_MTU, out);
      GroupBound(nals, i);
      BoundFrom(nals, j, rest);
      WorstDrops(nals, i + 1, j);
    }
  }

  lemma {:induction false} WorstOfTake(nals: seq<Bytes>, i: nat, n: nat)
    requires i <= n <= |nals|
    ensures Worst(nals[..n], i) <= Worst(nals, i)
    decreases n - i
  {
    if i < n { WorstOfTake(nals, i + 1, n); }
  }

  /** What is sent of any buffer never exceeds the count that admitted it. */
  lemma AdmissionIsSound(data: Bytes)
    ensures |PackFrom(Collected(data), 0, VIDEO_MTU).payloads| <= Worst(BytesOf(AnnexB.Units(data)), 0)
  {
    var nals := BytesOf(AnnexB.Units(data));
    BoundFrom(Collected(data), 0, PackFrom(Collected(data), 0, VIDEO_MTU));
    if |nals| > MAX_UNITS { WorstOfTake(nals, 0, MAX_UNITS); }
  }

  // ----- packets -----

  /** Fragments a unit. */
  method EmitFu(nal: Bytes, mtu: nat, closes: bool) returns (sent: seq<Payload>, status: H264.Status)
    ensures |nal| <= NAL_HEADER || mtu <= FU_HEADER ==> status == H264.InvalidParam && sent == []
    ensures |nal| > NAL_HEADER && mtu > VIDEO_MTU ==> status == H264.BufferTooSmall && sent == []
    ensures |nal| > NAL_HEADER && FU_HEADER < mtu <= VIDEO_MTU ==>
              status == H264.Ok && sent == FuFrom(nal, NAL_HEADER, mtu, closes)
  {
    sent := [];
    if |nal| <= NAL_HEADER || mtu <= FU_HEADER { return [], H264.InvalidParam; }
    if mtu > VIDEO_MTU { return [], H264.BufferTooSmall; }
    var pos, first := NAL_HEADER, true;
    ghost var goal, rest := FuFrom(nal, pos, mtu, closes), FuFrom(nal, pos, mtu, closes);
    while pos < |nal|
      invariant NAL_HEADER <= pos <= |nal| && (first <==> pos == NAL_HEADER)
      invariant rest == FuFrom(nal, pos, mtu, closes) && goal == sent + rest
    {
      var n := FuStep(nal, pos, mtu);
      var last := |nal| - pos == n;
      var p := Payload(FuPacket(nal, first, last, nal[pos..pos + n]), last && closes);
      ghost var done := sent;
      rest := FuFrom(nal, pos + n, mtu, closes);
      Slices.Assoc(done, [p], rest);
      sent, pos, first := sent + [p], pos + n, false;
    }
    assert sent + [] == sent;
    status := H264.Ok;
  }

  /** The header fields of an aggregate. */
  method LeastOf(nals: seq<Bytes>, i: nat, j: nat) returns (f: bool, layer: nat, tid: nat)
    requires i <= j <= |nals| && Headed(nals, i, j)
    ensures f == AnyForbidden(nals, i, j) && layer == MinLayer(nals, i, j) && tid == MinTid(nals, i, j)
  {
    f, layer, tid := false, 63, 7;
    for k := i to j
      invariant layer < 64 && tid < 8
      invariant var rest := MinLayer(nals, k, j); MinLayer(nals, i, j) == if layer < rest then layer else rest
      invariant var rest := MinTid(nals, k, j); MinTid(nals, i, j) == if tid < rest then tid else rest
      invariant AnyForbidden(nals, i, j) <==> f || AnyForbidden(nals, k, j)
    {
      if nals[k][0] >= 128 { f := true; }
      if LayerId(nals[k]) < layer { layer := LayerId(nals[k]); }
      if Tid(nals[k]) < tid { tid := Tid(nals[k]); }
    }
  }

  /** One aggregation packet of the units from `i` to `j`. */
  method EmitAp(nals: seq<Bytes>, i: nat, j: nat, marker: bool) returns (sent: seq<Payload>, status: H264.Status)
    requires i <= j <= |nals| && Headed(nals, i, j)
    ensures j - i < 2 ==> status == H264.InvalidParam && sent == []
    ensures j - i >= 2 && |ApPacket(nals, i, j)| > VIDEO_MTU ==> status == H264.BufferTooSmall && sent == []
    ensures j - i >= 2 && |ApPacket(nals, i, j)| <= VIDEO_MTU ==>
              status == H264.Ok && sent == [Payload(ApPacket(nals, i, j), marker)]
  {
    sent := [];
    if j - i < 2 { return [], H264.InvalidParam; }
    var f, layer, tid := LeastOf(nals, i, j);
    var pkt := ApHeader(f, layer, tid);
    ghost var goal := ApPacket(nals, i, j);
    for k := i to j
      invariant goal == pkt + ApBody(nals, k, j) && |pkt| <= VIDEO_MTU
    {
      var n := |nals[k]|;
      if |pkt| + 2 + n > VIDEO_MTU { return [], H264.BufferTooSmall; }
      ghost var before := pkt;
      pkt := pkt + Size16(n) + nals[k];
      Slices.Assoc(before, Size16(n) + nals[k], ApBody(nals, k + 1, j));
      Slices.Assoc(before, Size16(n), nals[k]);
    }
    assert pkt + [] == pkt;
    sent, status := [Payload(pkt, marker)], H264.Ok;
  }

  /** How far the run that starts with unit `i` goes. */
  method FindRun(nals: seq<Bytes>, i: nat, mtu: nat) returns (j: nat)
    requires i < |nals| && |nals[i]| <= mtu
    ensures j == GroupEnd(nals, i, mtu)
  {
    j := i;
    var size: nat := 4 + |nals[i]|;
    while j + 1 < |nals|
      invariant i <= j < |nals| && RunEnd(nals, i, 4 + |nals[i]|, mtu) == RunEnd(nals, j, size, mtu)
      decreases |nals| - j
    {
      var n := |nals[j + 1]|;
      if n < NAL_HEADER { break; }
      if n > mtu { break; }
      if size + 2 + n > mtu { break; }
      size := size + 2 + n;
      j := j + 1;
    }
  }

  /** The packets of the group that starts with unit `i`, and where the next group starts. */
  method EmitGroup(nals: seq<Bytes>, i: nat, mtu: nat) returns (sent: seq<Payload>, status: H264.Status, next: nat)
    requires i < |nals| && |nals[i]| >= NAL_HEADER && mtu > FU_HEADER
    ensures Out(sent, status) == Group(nals, i, mtu) && next == GroupEnd(nals, i, mtu) + 1
  {
    if |nals[i]| > mtu {
      sent, status := EmitFu(nals[i], mtu, i + 1 == |nals|);
      return sent, status, i + 1;
    }
    var j := FindRun(nals, i, mtu);
    next := j + 1;
    if j > i {
      sent, status := EmitAp(nals, i, j + 1, j + 1 == |nals|);
    } else {
      sent, status := [Payload(nals[i], i + 1 == |nals|)], H264.Ok;
    }
  }

  /** Packs an access unit: fragments, aggregates and single units in order. */
  method PacketizeAu(nals: seq<Bytes>, mtu: nat) returns (sent: seq<Payload>, status: H264.Status)
    ensures nals == [] || mtu <= FU_HEADER ==> sent == [] && status == H264.InvalidParam
    ensures nals != [] && mtu > FU_HEADER ==> Out(sent, status) == PackFrom(nals, 0, mtu)
  {
    sent := [];
    if |nals| == 0 || mtu < FU_HEADER + 1 { return [], H264.InvalidParam; }
    var i := 0;
    ghost var goal, rest := PackFrom(nals, 0, mtu), PackFrom(nals, 0, mtu);
    while i < |nals|
      invariant i <= |nals| && rest == PackFrom(nals, i, mtu) && goal == Out(sent + rest.payloads, rest.status)
      decreases |nals| - i
    {
      if |nals[i]| < NAL_HEADER {
        assert sent + [] == sent;
        return sent, H264.InvalidParam;
      }
      var some, rc, next := EmitGroup(nals, i, mtu);
      ghost var done := sent;
      sent := sent + some;
      if rc != H264.Ok { return sent, rc; }
      rest := PackFrom(nals, next, mtu);
      Slices.Assoc(done, some, rest.payloads);
      i := next;
    }
    assert sent + [] == sent;
    status := H264.Ok;
  }

  // ----- frames -----

  /** The units of the marks taken so far. */
  ghost predicate Taken(data: Bytes, all: seq<AnnexB.Mark>, rest: seq<AnnexB.Mark>, nals: seq<Bytes>)
    requires AnnexB.InBounds(|data|, all)
  {
    && |nals| <= |all| && rest == all[|nals|..]
    && forall k | 0 <= k < |nals| :: nals[k] == AnnexB.UnitOf(data, all[k]).bytes
  }

  lemma TakenGrows(data: Bytes, all: seq<AnnexB.Mark>, m: AnnexB.Mark, rest: seq<AnnexB.Mark>, nals: seq<Bytes>)
    requires AnnexB.InBounds(|data|, all) && Taken(data, all, [m] + rest, nals)
    ensures m.start + m.len <= |data|
    ensures Taken(data, all, rest, nals + [data[m.start..m.start + m.len]])
  {
    var left, n := [m] + rest, |nals|;
    assert left == all[n..];
    assert all[n] == all[n..][0] == m;
    assert all[n + 1..] == all[n..][1..] == left[1..] == rest;
  }

  lemma Table(nals: seq<Bytes>, units: seq<Bytes>)
    requires |nals| <= |units| && forall k | 0 <= k < |nals| :: nals[k] == units[k]
    requires |nals| == MAX_UNITS || |nals| == |units| <= MAX_UNITS
    ensures nals == if |units| <= MAX_UNITS then units else units[..MAX_UNITS]
  {
  }

  lemma TakenAll(data: Bytes, all: seq<AnnexB.Mark>, rest: seq<AnnexB.Mark>, nals: seq<Bytes>)
    requires all == AnnexB.Marks(data, 0) && AnnexB.InBounds(|data|, all) && Taken(data, all, rest, nals)
    requires |nals| == MAX_UNITS || (|nals| <= MAX_UNITS && rest == [])
    ensures nals == Collected(data)
  {
    var units := BytesOf(AnnexB.Units(data));
    assert |units| == |all|;
    forall k | 0 <= k < |nals| ensures nals[k] == units[k] {
      UnitsAt(data, k);
    }
    Table(nals, units);
  }

  lemma UnitsAt(data: Bytes, k: nat)
    requires AnnexB.InBounds(|data|, AnnexB.Marks(data, 0)) && k < |AnnexB.Marks(data, 0)|
    ensures |AnnexB.Units(data)| == |AnnexB.Marks(data, 0)|
    ensures BytesOf(AnnexB.Units(data))[k] == AnnexB.UnitOf(data, AnnexB.Marks(data, 0)[k]).bytes
  {
  }

  /** The units in the table are those of the first marks, and those behind `offset` are left. */
  ghost predicate Filled(data: Bytes, all: seq<AnnexB.Mark>, offset: nat, nals: seq<Bytes>) {
    AnnexB.InBounds(|data|, all) && Taken(data, all, AnnexB.Marks(data, offset), nals)
  }

  /** Adds the next unit, if there is one. */
  method FillNext(data: Bytes, offset: nat, nals: seq<Bytes>, ghost all: seq<AnnexB.Mark>) returns (more: bool, next: nat, grown: seq<Bytes>)
    requires offset < |data| && Filled(data, all, offset, nals)
    ensures more ==> offset < next && |grown| == |nals| + 1 && Filled(data, all, next, grown)
    ensures !more ==> grown == nals && next == offset && AnnexB.Marks(data, offset) == []
  {
    var f;
    ghost var m;
    more, f, m := AnnexB.NextFound(data, offset);
    next, grown := offset, nals;
    if more {
      TakenGrows(data, all, m, AnnexB.Marks(data, f.next), nals);
      grown := nals + [data[f.start..f.start + f.len]];
      next := f.next;
    }
  }

  /** Fills the sender's table with the units of a buffer. */
  method Collect(data: Bytes) returns (nals: seq<Bytes>)
    ensures nals == Collected(data)
  {
    nals := [];
    var offset: nat := 0;
    ghost var all := AnnexB.Marks(data, 0);
    AnnexB.MarksInBounds(data, 0);
    while offset < |data| && |nals| < MAX_UNITS
      invariant Filled(data, all, offset, nals) && |nals| <= MAX_UNITS
      decreases |data| - offset
    {
      var more;
      more, offset, nals := FillNext(data, offset, nals, all);
      if !more { break; }
    }
    ghost var rest := AnnexB.Marks(data, offset);
    TakenAll(data, all, rest, nals);
  }

  /** Sends the units of a buffer as H.265 packets. */
  method SendUnits(data: Bytes) returns (sent: seq<Payload>, status: H264.Status)
    ensures Collected(data) == [] ==> sent == [] && status == H264.Ok
    ensures Collected(data) != [] ==> Out(sent, status) == PackFrom(Collected(data), 0, VIDEO_MTU)
  {
    var nals := Collect(data);
    if |nals| == 0 { return [], H264.Ok; }
    sent, status := PacketizeAu(nals, VIDEO_MTU);
  }
}
