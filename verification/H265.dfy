/** H.265 over RTP (RFC 7798): single unit, aggregation and fragmentation packets of an
    access unit, and what a conforming receiver makes of them. */
module H265 {
  import opened Bits
  import H264

  type Bytes = seq<Byte>

  const AP: nat := 48
  const FU: nat := 49
  const NAL_HEADER: nat := 2
  const FU_HEADER: nat := 3

  /** NANORTC_VIDEO_MTU, the size of the packet scratch buffers. */
  const VIDEO_MTU: nat := 1200

  /** An RTP payload and its marker bit. */
  datatype Payload = Payload(bytes: Bytes, marker: bool)

  datatype Out = Out(payloads: seq<Payload>, status: H264.Status)

  // ----- the two-byte unit header: F(1) Type(6) LayerId(6) TID(3) -----

  function Type(u: Bytes): nat
    requires |u| >= 2
  {
    u[0] / 2 % 64
  }

  function LayerId(u: Bytes): nat
    requires |u| >= 2
  {
    u[0] % 2 * 32 + u[1] / 8
  }

  function Tid(u: Bytes): nat
    requires |u| >= 2
  {
    u[1] % 8
  }

  predicate Forbidden(u: Bytes)
    requires |u| >= 2
  {
    u[0] >= 128
  }

  /** The units from `i` to `j` have a full header. */
  predicate Headed(nals: seq<Bytes>, i: nat, j: nat) {
    forall k | i <= k < j && k < |nals| :: |nals[k]| >= NAL_HEADER
  }

  /** A unit that packets carry: a full header and a type below the packet types. */
  predicate Carried(nal: Bytes) {
    |nal| >= NAL_HEADER && Type(nal) < AP
  }

  predicate AllCarried(nals: seq<Bytes>) {
    forall k | 0 <= k < |nals| :: Carried(nals[k])
  }

  // ----- fragmentation packets -----

  /** The unit header with type 49, then the fragment header with the unit's own type. */
  function FuPacket(nal: Bytes, first: bool, last: bool, data: Bytes): (p: Bytes)
    requires |nal| >= NAL_HEADER
    ensures |p| == FU_HEADER + |data|
  {
    [nal[0] / 128 * 128 + 2 * FU + nal[0] % 2, nal[1],
     Type(nal) + (if first then 128 else 0) + if last then 64 else 0] + data
  }

  function FuStep(nal: Bytes, pos: nat, mtu: nat): (n: nat)
    requires pos < |nal| && mtu > FU_HEADER
    ensures 1 <= n <= |nal| - pos && n <= mtu - FU_HEADER
  {
    if |nal| - pos < mtu - FU_HEADER then |nal| - pos else mtu - FU_HEADER
  }

  function FuFrom(nal: Bytes, pos: nat, mtu: nat, closes: bool): (r: seq<Payload>)
    requires NAL_HEADER <= pos <= |nal| && mtu > FU_HEADER
    decreases |nal| - pos
  {
    if pos == |nal| then []
    else
      var n := FuStep(nal, pos, mtu);
      var last := pos + n == |nal|;
      [Payload(FuPacket(nal, pos == NAL_HEADER, last, nal[pos..pos + n]), last && closes)] + FuFrom(nal, pos + n, mtu, closes)
  }

  // ----- aggregation packets -----

  function MinLayer(nals: seq<Bytes>, i: nat, j: nat): (r: nat)
    requires i <= j <= |nals| && Headed(nals, i, j)
    ensures r < 64
    decreases j - i
  {
    if i == j then 63
    else
      var rest := MinLayer(nals, i + 1, j);
      if LayerId(nals[i]) < rest then LayerId(nals[i]) else rest
  }

  function MinTid(nals: seq<Bytes>, i: nat, j: nat): (r: nat)
    requires i <= j <= |nals| && Headed(nals, i, j)
    ensures r < 8
    decreases j - i
  {
    if i == j then 7
    else
      var rest := MinTid(nals, i + 1, j);
      if Tid(nals[i]) < rest then Tid(nals[i]) else rest
  }

  predicate AnyForbidden(nals: seq<Bytes>, i: nat, j: nat)
    requires i <= j <= |nals| && Headed(nals, i, j)
  {
    exists k | i <= k < j :: Forbidden(nals[k])
  }

  /** Each unit behind its 16-bit length. */
  function ApBody(nals: seq<Bytes>, i: nat, j: nat): (r: Bytes)
    requires i <= j <= |nals|
    decreases j - i
  {
    if i == j then [] else Size16(|nals[i]|) + nals[i] + ApBody(nals, i + 1, j)
  }

  function ApHeader(forbidden: bool, layer: nat, tid: nat): (r: Bytes)
    requires layer < 64 && tid < 8
    ensures |r| == 2
  {
    [(if forbidden then 128 else 0) + 2 * AP + layer / 32, layer % 32 * 8 + if tid == 0 then 1 else tid]
  }

  function ApPacket(nals: seq<Bytes>, i: nat, j: nat): (r: Bytes)
    requires i <= j <= |nals| && Headed(nals, i, j)
  {
    ApHeader(AnyForbidden(nals, i, j), MinLayer(nals, i, j), MinTid(nals, i, j)) + ApBody(nals, i, j)
  }

  // ----- the packetizer -----

  /** The last unit of the run that starts as an aggregate of `size` bytes and ends at `j`. */
  function RunEnd(nals: seq<Bytes>, j: nat, size: nat, mtu: nat): (r: nat)
    requires j < |nals|
    ensures j <= r < |nals| && Headed(nals, j + 1, r + 1)
    decreases |nals| - j
  {
    if j + 1 < |nals| && NAL_HEADER <= |nals[j + 1]| <= mtu && size + 2 + |nals[j + 1]| <= mtu then
      RunEnd(nals, j + 1, size + 2 + |nals[j + 1]|, mtu)
    else j
  }

  /** The last unit of the packet group that starts with unit `i`. */
  function GroupEnd(nals: seq<Bytes>, i: nat, mtu: nat): (r: nat)
    requires i < |nals|
    ensures i <= r < |nals| && Headed(nals, i + 1, r + 1)
  {
    if |nals[i]| > mtu then i else RunEnd(nals, i, 4 + |nals[i]|, mtu)
  }

  /** The payloads of one group. */
  function Group(nals: seq<Bytes>, i: nat, mtu: nat): (r: Out)
    requires i < |nals| && |nals[i]| >= NAL_HEADER && mtu > FU_HEADER
  {
    var j := GroupEnd(nals, i, mtu);
    var closes := j + 1 == |nals|;
    if |nals[i]| > mtu then
      if mtu > VIDEO_MTU then Out([], H264.BufferTooSmall) else Out(FuFrom(nals[i], NAL_HEADER, mtu, closes), H264.Ok)
    else if j > i then
      if |ApPacket(nals, i, j + 1)| > VIDEO_MTU then Out([], H264.BufferTooSmall)
      else Out([Payload(ApPacket(nals, i, j + 1), closes)], H264.Ok)
    else Out([Payload(nals[i], closes)], H264.Ok)
  }

  function PackFrom(nals: seq<Bytes>, i: nat, mtu: nat): (r: Out)
    requires i <= |nals| && mtu > FU_HEADER
    decreases |nals| - i
  {
    if i == |nals| then Out([], H264.Ok)
    else if |nals[i]| < NAL_HEADER then Out([], H264.InvalidParam)
    else
      var g := Group(nals, i, mtu);
      if g.status != H264.Ok then g
      else
        var rest := PackFrom(nals, GroupEnd(nals, i, mtu) + 1, mtu);
        Out(g.payloads + rest.payloads, rest.status)
  }

  // ----- what a receiver gets -----

  /** The units of an aggregation packet from `offset` on. */
  function SubUnits(p: Bytes, offset: nat): (r: seq<Bytes>)
    decreases |p| - offset
  {
    if offset + 2 > |p| then []
    else
      var len := Word(p[offset], p[offset + 1]);
      if len == 0 || offset + 2 + len > |p| then []
      else [p[offset + 2..offset + 2 + len]] + SubUnits(p, offset + 2 + len)
  }

  datatype Partial = Idle | Collecting(bytes: Bytes)

  function FuJoin(d: Partial, p: Bytes): (r: Partial)
    requires |p| >= FU_HEADER
  {
    if p[2] >= 128 then Collecting([p[0] / 128 * 128 + p[2] % 64 * 2 + p[0] % 2, p[1]] + p[FU_HEADER..])
    else if d.Collecting? then Collecting(d.bytes + p[FU_HEADER..])
    else Idle
  }

  /** Reads payloads in order, as sections 4.4.1 to 4.4.3 of RFC 7798 define them. */
  function Unpack(d: Partial, ps: seq<Payload>): (r: seq<Bytes>)
    decreases |ps|
  {
    if ps == [] then []
    else
      var p := ps[0].bytes;
      if |p| < 2 then Unpack(d, ps[1..])
      else if Type(p) < AP then [p] + Unpack(Idle, ps[1..])
      else if Type(p) == AP then SubUnits(p, 2) + Unpack(Idle, ps[1..])
      else if Type(p) == FU && |p| >= FU_HEADER then
        var j := FuJoin(d, p);
        if j.Collecting? && p[2] / 64 % 2 == 1 then [j.bytes] + Unpack(Idle, ps[1..]) else Unpack(j, ps[1..])
      else Unpack(d, ps[1..])
  }

  // ----- fragments come together -----

  lemma FuFields(nal: Bytes, first: bool, last: bool, data: Bytes)
    requires Carried(nal)
    ensures var p := FuPacket(nal, first, last, data);
            && Type(p) == FU && (p[2] >= 128 <==> first) && (p[2] / 64 % 2 == 1 <==> last) && p[1] == nal[1]
            && p[0] / 128 * 128 + p[2] % 64 * 2 + p[0] % 2 == nal[0]
            && p[FU_HEADER..] == data && LayerId(p) == LayerId(nal) && Tid(p) == Tid(nal) && Forbidden(p) == Forbidden(nal)
  {
    HeaderByte(nal[0], nal[0] / 128 * 128 + 2 * FU + nal[0] % 2);
    FragmentByte(Type(nal), first, last);
  }

  /** The first byte with another type keeps the bits beside it. */
  lemma HeaderByte(b: Byte, c: int)
    requires c == b / 128 * 128 + 2 * FU + b % 2
    ensures 0 <= c < 256 && c / 2 % 64 == FU && c / 128 == b / 128 && c % 2 == b % 2
    ensures b / 128 * 128 + b / 2 % 64 * 2 + b % 2 == b
  {
    assert b == 128 * (b / 128) + b % 128 && b % 128 == 2 * (b / 2 % 64) + b % 2;
  }

  lemma FragmentByte(t: nat, first: bool, last: bool)
    requires t < 64
    ensures var c := t + (if first then 128 else 0) + if last then 64 else 0;
            c < 256 && (c >= 128 <==> first) && (c / 64 % 2 == 1 <==> last) && c % 64 == t
  {
  }

  lemma UnpackFirst(d: Partial, p: Payload, rest: seq<Payload>)
    ensures ([p] + rest)[0] == p && ([p] + rest)[1..] == rest
  {
  }

  /** The next fragment of a unit that is being collected. */
  lemma FuContinues(nal: Bytes, pos: nat, n: nat, m: bool, rest: seq<Payload>)
    requires Carried(nal) && NAL_HEADER < pos && pos + n <= |nal|
    ensures var p := Payload(FuPacket(nal, false, pos + n == |nal|, nal[pos..pos + n]), m);
            Unpack(Collecting(nal[..pos]), [p] + rest) ==
            if pos + n == |nal| then [nal] + Unpack(Idle, rest) else Unpack(Collecting(nal[..pos + n]), rest)
  {
    var p := Payload(FuPacket(nal, false, pos + n == |nal|, nal[pos..pos + n]), m);
    FuFields(nal, false, pos + n == |nal|, nal[pos..pos + n]);
    UnpackFirst(Collecting(nal[..pos]), p, rest);
    assert nal[..pos] + nal[pos..pos + n] == nal[..pos + n];
    if pos + n == |nal| { assert nal[..pos + n] == nal; }
  }

  lemma FuStarts(d: Partial, nal: Bytes, n: nat, m: bool, rest: seq<Payload>)
    requires Carried(nal) && NAL_HEADER + n <= |nal|
    ensures var p := Payload(FuPacket(nal, true, NAL_HEADER + n == |nal|, nal[NAL_HEADER..NAL_HEADER + n]), m);
            Unpack(d, [p] + rest) ==
            if NAL_HEADER + n == |nal| then [nal] + Unpack(Idle, rest) else Unpack(Collecting(nal[..NAL_HEADER + n]), rest)
  {
    var data := nal[NAL_HEADER..NAL_HEADER + n];
    var p := Payload(FuPacket(nal, true, NAL_HEADER + n == |nal|, data), m);
    FuFields(nal, true, NAL_HEADER + n == |nal|, data);
    UnpackFirst(d, p, rest);
    assert [nal[0], nal[1]] + data == nal[..NAL_HEADER + n];
    if NAL_HEADER + n == |nal| { assert nal[..NAL_HEADER + n] == nal; }
  }

  /** What the next fragment of a unit comes to. */
  lemma FuTurn(nal: Bytes, pos: nat, mtu: nat, closes: bool, rest: seq<Payload>, units: seq<Bytes>) returns (n: nat, more: seq<Payload>)
    requires Carried(nal) && NAL_HEADER < pos < |nal| && mtu > FU_HEADER
    requires units == Unpack(Collecting(nal[..pos]), FuFrom(nal, pos, mtu, closes) + rest)
    ensures 1 <= n <= |nal| - pos && more == FuFrom(nal, pos + n, mtu, closes)
    ensures units == if pos + n == |nal| then [nal] + Unpack(Idle, more + rest) else Unpack(Collecting(nal[..pos + n]), more + rest)
  {
    n := FuStep(nal, pos, mtu);
    more := FuFrom(nal, pos + n, mtu, closes);
    var last := pos + n == |nal|;
    var p := Payload(FuPacket(nal, false, last, nal[pos..pos + n]), last && closes);
    assert FuFrom(nal, pos, mtu, closes) + rest == [p] + (more + rest);
    FuContinues(nal, pos, n, last && closes, more + rest);
  }

  lemma {:induction false} FuCollects(nal: Bytes, pos: nat, mtu: nat, closes: bool, rest: seq<Payload>, units: seq<Bytes>)
    requires Carried(nal) && NAL_HEADER < pos < |nal| && mtu > FU_HEADER
    requires units == Unpack(Collecting(nal[..pos]), FuFrom(nal, pos, mtu, closes) + rest)
    ensures units == [nal] + Unpack(Idle, rest)
    decreases |nal| - pos
  {
    var n, more := FuTurn(nal, pos, mtu, closes, rest, units);
    if pos + n == |nal| {
      assert more + rest == rest;
    } else {
      FuCollects(nal, pos + n, mtu, closes, rest, units);
    }
  }

  /** The fragments of a unit give the unit, whatever was being collected before. */
  lemma FuUnpacks(d: Partial, nal: Bytes, mtu: nat, closes: bool, rest: seq<Payload>)
    requires Carried(nal) && NAL_HEADER < |nal| && mtu > FU_HEADER
    ensures Unpack(d, FuFrom(nal, NAL_HEADER, mtu, closes) + rest) == [nal] + Unpack(Idle, rest)
  {
    var n := FuStep(nal, NAL_HEADER, mtu);
    var last := NAL_HEADER + n == |nal|;
    var p := Payload(FuPacket(nal, true, last, nal[NAL_HEADER..NAL_HEADER + n]), last && closes);
    var more := FuFrom(nal, NAL_HEADER + n, mtu, closes);
    assert FuFrom(nal, NAL_HEADER, mtu, closes) + rest == [p] + (more + rest);
    FuStarts(d, nal, n, last && closes, more + rest);
    if last {
      assert more + rest == rest;
    } else {
      FuCollects(nal, NAL_HEADER + n, mtu, closes, rest, Unpack(Collecting(nal[..NAL_HEADER + n]), more + rest));
    }
  }

  // ----- aggregates come apart -----

  /** The bytes an aggregate of these units takes. */
  function Total(nals: seq<Bytes>, i: nat, j: nat): nat
    requires i <= j <= |nals|
    decreases j - i
  {
    if i == j then 0 else 2 + |nals[i]| + Total(nals, i + 1, j)
  }

  lemma {:induction false} BodySize(nals: seq<Bytes>, i: nat, j: nat)
    requires i <= j <= |nals|
    ensures |ApBody(nals, i, j)| == Total(nals, i, j)
    decreases j - i
  {
    if i < j { BodySize(nals, i + 1, j); }
  }

  lemma {:induction false} TotalGrows(nals: seq<Bytes>, i: nat, j: nat)
    requires i <= j < |nals|
    ensures Total(nals, i, j + 1) == Total(nals, i, j) + 2 + |nals[j]|
    decreases j - i
  {
    if i < j {
      TotalGrows(nals, i + 1, j);
    } else {
      assert Total(nals, j + 1, j + 1) == 0;
    }
  }

  /** A run that grew fits the MTU. */
  lemma {:induction false} RunFits(nals: seq<Bytes>, i: nat, j: nat, size: nat, mtu: nat)
    requires i <= j < |nals| && size == 2 + Total(nals, i, j + 1) && (j == i || size <= mtu)
    ensures RunEnd(nals, j, size, mtu) > i ==> 2 + Total(nals, i, RunEnd(nals, j, size, mtu) + 1) <= mtu
    decreases |nals| - j
  {
    if j + 1 < |nals| && NAL_HEADER <= |nals[j + 1]| <= mtu && size + 2 + |nals[j + 1]| <= mtu {
      TotalGrows(nals, i, j + 1);
      RunFits(nals, i, j + 1, size + 2 + |nals[j + 1]|, mtu);
    }
  }

  lemma GroupFits(nals: seq<Bytes>, i: nat, mtu: nat)
    requires i < |nals| && |nals[i]| <= mtu && GroupEnd(nals, i, mtu) > i
    ensures 2 + |ApBody(nals, i, GroupEnd(nals, i, mtu) + 1)| <= mtu
  {
    assert Total(nals, i + 1, i + 1) == 0;
    RunFits(nals, i, i, 4 + |nals[i]|, mtu);
    BodySize(nals, i, GroupEnd(nals, i, mtu) + 1);
  }

  lemma LengthRead(p: Bytes, at: nat, n: nat)
    requires n < 0x1_0000 && LiesAt(p, at, Size16(n))
    ensures Word(p[at], p[at + 1]) == n
  {
    assert p[at + 0] == Size16(n)[0] && p[at + 1] == Size16(n)[1];
  }

  /** One unit is read, and the rest follows. */
  lemma SubUnitRead(p: Bytes, at: nat, nal: Bytes)
    requires 0 < |nal| < 0x1_0000 && LiesAt(p, at, Size16(|nal|)) && LiesAt(p, at + 2, nal)
    ensures SubUnits(p, at) == [nal] + SubUnits(p, at + 2 + |nal|)
  {
    LengthRead(p, at, |nal|);
    assert p[at + 2..at + 2 + |nal|] == nal;
  }

  lemma {:induction false} SubUnitsAreAll(p: Bytes, at: nat, nals: seq<Bytes>, i: nat, j: nat)
    requires i <= j <= |nals| && Headed(nals, i, j) && LiesAt(p, at, ApBody(nals, i, j)) && at + |ApBody(nals, i, j)| == |p| < 0x1_0000
    ensures SubUnits(p, at) == nals[i..j]
    decreases j - i
  {
    if i < j {
      var n := |nals[i]|;
      LiesParts(p, at, Size16(n), nals[i], ApBody(nals, i + 1, j));
      SubUnitRead(p, at, nals[i]);
      SubUnitsAreAll(p, at + 2 + n, nals, i + 1, j);
      assert [nals[i]] + nals[i + 1..j] == nals[i..j];
    }
  }

  /** An aggregation packet gives back its units. */
  lemma ApUnpacks(d: Partial, nals: seq<Bytes>, i: nat, j: nat, m: bool, rest: seq<Payload>)
    requires i <= j <= |nals| && Headed(nals, i, j) && |ApPacket(nals, i, j)| < 0x1_0000
    ensures Unpack(d, [Payload(ApPacket(nals, i, j), m)] + rest) == nals[i..j] + Unpack(Idle, rest)
  {
    var p := ApPacket(nals, i, j);
    ApFields(AnyForbidden(nals, i, j), MinLayer(nals, i, j), MinTid(nals, i, j), ApBody(nals, i, j));
    UnpackFirst(d, Payload(p, m), rest);
    SubUnitsAreAll(p, 2, nals, i, j);
  }

  lemma ApFields(forbidden: bool, layer: nat, tid: nat, body: Bytes)
    requires layer < 64 && tid < 8
    ensures var p := ApHeader(forbidden, layer, tid) + body;
            && Type(p) == AP && LayerId(p) == layer && Tid(p) == (if tid == 0 then 1 else tid) && Forbidden(p) == forbidden
            && LiesAt(p, 2, body)
  {
  }

  lemma {:induction false} MinLayerIs(nals: seq<Bytes>, i: nat, j: nat, k: nat)
    requires i <= k < j <= |nals| && Headed(nals, i, j)
    ensures MinLayer(nals, i, j) <= LayerId(nals[k])
    ensures exists m | i <= m < j :: LayerId(nals[m]) == MinLayer(nals, i, j)
    decreases j - i
  {
    if i + 1 < j {
      MinLayerIs(nals, i + 1, j, if k > i then k else i + 1);
      var m :| i + 1 <= m < j && LayerId(nals[m]) == MinLayer(nals, i + 1, j);
      assert LayerId(nals[m]) == MinLayer(nals, i, j) || LayerId(nals[i]) == MinLayer(nals, i, j);
    } else {
      assert MinLayer(nals, j, j) == 63 && LayerId(nals[i]) <= 63;
    }
  }

  lemma {:induction false} MinTidIs(nals: seq<Bytes>, i: nat, j: nat, k: nat)
    requires i <= k < j <= |nals| && Headed(nals, i, j)
    ensures MinTid(nals, i, j) <= Tid(nals[k])
    ensures exists m | i <= m < j :: Tid(nals[m]) == MinTid(nals, i, j)
    decreases j - i
  {
    if i + 1 < j {
      MinTidIs(nals, i + 1, j, if k > i then k else i + 1);
      var m :| i + 1 <= m < j && Tid(nals[m]) == MinTid(nals, i + 1, j);
      assert Tid(nals[m]) == MinTid(nals, i, j) || Tid(nals[i]) == MinTid(nals, i, j);
    } else {
      assert MinTid(nals, j, j) == 7 && Tid(nals[i]) <= 7;
    }
  }

  /** Section 4.4.2: an aggregate has the smallest layer and temporal id of its units, and F
      when any of them has it; a temporal id of 0, which H.265 forbids, becomes 1. */
  lemma ApHeaderIsLeast(nals: seq<Bytes>, i: nat, j: nat)
    requires i < j <= |nals| && Headed(nals, i, j)
    ensures var p := ApPacket(nals, i, j);
            && |p| >= 2 && Type(p) == AP
            && (Forbidden(p) <==> exists k | i <= k < j :: Forbidden(nals[k]))
            && (forall k | i <= k < j :: LayerId(p) <= LayerId(nals[k]))
            && (exists k | i <= k < j :: LayerId(nals[k]) == LayerId(p))
            && ((forall k | i <= k < j :: Tid(nals[k]) > 0) ==>
                  (forall k | i <= k < j :: Tid(p) <= Tid(nals[k])) && exists k | i <= k < j :: Tid(nals[k]) == Tid(p))
  {
    ApFields(AnyForbidden(nals, i, j), MinLayer(nals, i, j), MinTid(nals, i, j), ApBody(nals, i, j));
    forall k | i <= k < j
      ensures MinLayer(nals, i, j) <= LayerId(nals[k]) && MinTid(nals, i, j) <= Tid(nals[k])
    {
      MinLayerIs(nals, i, j, k);
      MinTidIs(nals, i, j, k);
    }
    MinLayerIs(nals, i, j, i);
    MinTidIs(nals, i, j, i);
  }

  // ----- nothing is lost or reordered -----

  /** The three kinds of a group. */
  lemma GroupOk(nals: seq<Bytes>, i: nat, mtu: nat)
    requires i < |nals| && |nals[i]| >= NAL_HEADER && FU_HEADER < mtu <= VIDEO_MTU
    ensures var j := GroupEnd(nals, i, mtu);
            var g := Group(nals, i, mtu);
            && g.status == H264.Ok
            && (|nals[i]| > mtu ==> j == i && g.payloads == FuFrom(nals[i], NAL_HEADER, mtu, j + 1 == |nals|))
            && (|nals[i]| <= mtu && j > i ==> |ApPacket(nals, i, j + 1)| <= mtu)
            && (|nals[i]| <= mtu && j > i ==> g.payloads == [Payload(ApPacket(nals, i, j + 1), j + 1 == |nals|)])
            && (|nals[i]| <= mtu && j == i ==> g.payloads == [Payload(nals[i], j + 1 == |nals|)])
  {
    if |nals[i]| <= mtu && GroupEnd(nals, i, mtu) > i { GroupFits(nals, i, mtu); }
  }

  lemma SingleUnpacks(d: Partial, nal: Bytes, m: bool, rest: seq<Payload>)
    requires Carried(nal)
    ensures Unpack(d, [Payload(nal, m)] + rest) == [nal] + Unpack(Idle, rest)
  {
    UnpackFirst(d, Payload(nal, m), rest);
  }

  lemma GroupUnpacks(d: Partial, nals: seq<Bytes>, i: nat, mtu: nat, rest: seq<Payload>, tail: seq<Bytes>)
    requires i < |nals| && Carried(nals[i]) && FU_HEADER < mtu <= VIDEO_MTU && Unpack(Idle, rest) == tail
    ensures Unpack(d, Group(nals, i, mtu).payloads + rest) == nals[i..GroupEnd(nals, i, mtu) + 1] + tail
  {
    var j := GroupEnd(nals, i, mtu);
    GroupOk(nals, i, mtu);
    if |nals[i]| > mtu {
      FuUnpacks(d, nals[i], mtu, j + 1 == |nals|, rest);
      assert nals[i..j + 1] == [nals[i]];
    } else if j > i {
      ApUnpacks(d, nals, i, j + 1, j + 1 == |nals|, rest);
    } else {
      SingleUnpacks(d, nals[i], j + 1 == |nals|, rest);
      assert nals[i..j + 1] == [nals[i]];
    }
  }

  lemma PackStep(nals: seq<Bytes>, i: nat, mtu: nat, out: Out) returns (j: nat, g: seq<Payload>, rest: Out)
    requires i < |nals| && |nals[i]| >= NAL_HEADER && FU_HEADER < mtu <= VIDEO_MTU && out == PackFrom(nals, i, mtu)
    ensures j == GroupEnd(nals, i, mtu) + 1 && g == Group(nals, i, mtu).payloads && rest == PackFrom(nals, j, mtu)
    ensures out == Out(g + rest.payloads, rest.status)
  {
    GroupOk(nals, i, mtu);
    j, g := GroupEnd(nals, i, mtu) + 1, Group(nals, i, mtu).payloads;
    rest := PackFrom(nals, j, mtu);
  }

  lemma SliceJoin(nals: seq<Bytes>, i: nat, j: nat)
    requires i <= j <= |nals|
    ensures nals[i..j] + nals[j..] == nals[i..]
  {
  }

  lemma {:induction false} PackFromUnpacks(d: Partial, nals: seq<Bytes>, i: nat, mtu: nat, out: Out)
    requires i <= |nals| && AllCarried(nals) && FU_HEADER < mtu <= VIDEO_MTU && out == PackFrom(nals, i, mtu)
    ensures out.status == H264.Ok && Unpack(d, out.payloads) == nals[i..]
    decreases |nals| - i
  {
    if i < |nals| {
      var j, g, rest := PackStep(nals, i, mtu, out);
      PackFromUnpacks(Idle, nals, j, mtu, rest);
      GroupUnpacks(d, nals, i, mtu, rest.payloads, nals[j..]);
      SliceJoin(nals, i, j);
    }
  }
}
