/** One H.264 access unit from the application's Annex-B buffer to the units a receiver
    gets: scanning, fragmenting, RTP, and back; and the packet count that admits it. */
module VideoFrame {
  import opened Bits
  import AnnexB
  import Slices
  import H264
  import RtpPacket

  type Bytes = seq<Byte>

  const VIDEO_MTU: nat := 1200

  // ----- sending -----

  /** Packs payloads in order; the last one gets the marker when it ends the access unit. */
  function SendPayloads(r: RtpPacket.Rtp, ts: RtpPacket.U32, payloads: seq<Bytes>, last: bool): (RtpPacket.Rtp, seq<Bytes>)
    decreases |payloads|
  {
    if payloads == [] then (r, [])
    else
      var m := r.(marker := last && |payloads| == 1);
      var (after, packets) := SendPayloads(RtpPacket.Advanced(m), ts, payloads[1..], last);
      (after, [RtpPacket.Packet(m, ts, payloads[0])] + packets)
  }

  /** Sends units in order. */
  function SendUnits(r: RtpPacket.Rtp, ts: RtpPacket.U32, units: seq<AnnexB.Unit>): (RtpPacket.Rtp, seq<Bytes>)
    requires AnnexB.NonEmpty(units)
    decreases |units|
  {
    if units == [] then (r, [])
    else
      var (r1, packets) := SendPayloads(r, ts, H264.Fragments(units[0].bytes, VIDEO_MTU), units[0].last);
      var (r2, more) := SendUnits(r1, ts, units[1..]);
      (r2, packets + more)
  }

  /** Sends an Annex-B buffer: the units found in it, the marker on the unit that has no successor. */
  function Send(r: RtpPacket.Rtp, ts: RtpPacket.U32, data: Bytes): (RtpPacket.Rtp, seq<Bytes>) {
    SendUnits(r, ts, AnnexB.Units(data))
  }

  // ----- receiving -----

  /** Unpacks packets in order and pushes their payloads. */
  function Receive(d: H264.Depkt, packets: seq<Bytes>): (H264.Depkt, seq<Bytes>)
    decreases |packets|
  {
    if packets == [] then (d, [])
    else
      match RtpPacket.Unpack(packets[0])
      case Bad(_) => Receive(d, packets[1..])
      case Good(_, _, _, _, payload) =>
        var (d1, out, status) := H264.Push(d, payload);
        var (d2, outs) := Receive(d1, packets[1..]);
        (d2, (if out.Some? then [out.value] else []) + outs)
  }

  lemma {:induction false} ReceiveConcat(d: H264.Depkt, a: seq<Bytes>, b: seq<Bytes>)
    ensures Receive(d, a + b) == (Receive(Receive(d, a).0, b).0, Receive(d, a).1 + Receive(Receive(d, a).0, b).1)
    decreases |a|
  {
    if a == [] {
      assert a + b == b;
      assert Receive(d, a) == (d, []) && [] + Receive(d, b).1 == Receive(d, b).1;
    } else {
      assert (a + b)[0] == a[0] && (a + b)[1..] == a[1..] + b;
      match RtpPacket.Unpack(a[0])
      case Bad(_) => ReceiveConcat(d, a[1..], b);
      case Good(_, _, _, _, payload) =>
        var (d1, unit, _) := H264.Push(d, payload);
        var out := if unit.Some? then [unit.value] else [];
        ReceiveConcat(d1, a[1..], b);
        var x, y := Receive(d1, a[1..]).1, Receive(Receive(d1, a[1..]).0, b).1;
        assert out + (x + y) == (out + x) + y;
    }
  }

  /** Receiving what was sent pushes exactly the payloads. */
  lemma {:induction false} ReceivePayloads(d: H264.Depkt, r: RtpPacket.Rtp, ts: RtpPacket.U32, payloads: seq<Bytes>, last: bool)
    ensures Receive(d, SendPayloads(r, ts, payloads, last).1) == H264.PushAll(d, payloads)
    decreases |payloads|
  {
    if payloads != [] {
      var m := r.(marker := last && |payloads| == 1);
      var packets := SendPayloads(RtpPacket.Advanced(m), ts, payloads[1..], last).1;
      RtpPacket.PackUnpack(m, ts, payloads[0]);
      var all := [RtpPacket.Packet(m, ts, payloads[0])] + packets;
      assert all[0] == RtpPacket.Packet(m, ts, payloads[0]) && all[1..] == packets;
      ReceivePayloads(H264.Push(d, payloads[0]).0, RtpPacket.Advanced(m), ts, payloads[1..], last);
    }
  }

  predicate Marked(packet: Bytes) {
    |packet| > 1 && packet[1] / 128 == 1
  }

  /** Only the last packet is marked, and only at the end of the access unit. */
  predicate MarkedLast(packets: seq<Bytes>, last: bool) {
    forall k | 0 <= k < |packets| :: Marked(packets[k]) <==> last && k == |packets| - 1
  }

  /** Every payload fits: the packet is a header of at most 20 bytes and at most one MTU. */
  predicate AllFit(packets: seq<Bytes>) {
    forall k | 0 <= k < |packets| :: |packets[k]| <= VIDEO_MTU + 20
  }

  lemma {:induction false} PayloadsMarked(r: RtpPacket.Rtp, ts: RtpPacket.U32, payloads: seq<Bytes>, last: bool)
    ensures |SendPayloads(r, ts, payloads, last).1| == |payloads| && MarkedLast(SendPayloads(r, ts, payloads, last).1, last)
    decreases |payloads|
  {
    if payloads != [] {
      var m := r.(marker := last && |payloads| == 1);
      PayloadsMarked(RtpPacket.Advanced(m), ts, payloads[1..], last);
      var packets := SendPayloads(RtpPacket.Advanced(m), ts, payloads[1..], last).1;
      RtpPacket.PackUnpack(m, ts, payloads[0]);
      assert SendPayloads(r, ts, payloads, last).1 == [RtpPacket.Packet(m, ts, payloads[0])] + packets;
    }
  }

  lemma {:induction false} PayloadsFit(r: RtpPacket.Rtp, ts: RtpPacket.U32, payloads: seq<Bytes>, last: bool)
    requires forall k | 0 <= k < |payloads| :: |payloads[k]| <= VIDEO_MTU
    ensures AllFit(SendPayloads(r, ts, payloads, last).1)
    decreases |payloads|
  {
    if payloads != [] {
      var m := r.(marker := last && |payloads| == 1);
      assert forall k | 0 <= k < |payloads[1..]| :: payloads[1..][k] == payloads[k + 1];
      PayloadsFit(RtpPacket.Advanced(m), ts, payloads[1..], last);
    }
  }

  // ----- how many packets -----

  /** Packets of one unit, as counted before anything is sent. */
  function PacketsFor(len: nat): nat {
    if len <= VIDEO_MTU then 1
    else (len - 1 + (VIDEO_MTU - H264.FUA_HEADER) - 1) / (VIDEO_MTU - H264.FUA_HEADER)
  }

  /** Packets of the units of a buffer. */
  function WorstOf(units: seq<AnnexB.Unit>): nat {
    if units == [] then 0 else PacketsFor(|units[0].bytes|) + WorstOf(units[1..])
  }

  function WorstPackets(data: Bytes): nat {
    WorstOf(AnnexB.Units(data))
  }

  lemma {:induction false} FuaCount(nal: Bytes, pos: nat)
    requires nal != [] && 1 <= pos <= |nal|
    ensures |H264.FuaFrom(nal, pos, VIDEO_MTU)| == (|nal| - pos + 1197) / 1198
    decreases |nal| - pos
  {
    if pos < |nal| {
      var n := if |nal| - pos < 1198 then |nal| - pos else 1198;
      FuaCount(nal, pos + n);
    }
  }

  lemma {:induction false} SendCount(r: RtpPacket.Rtp, ts: RtpPacket.U32, payloads: seq<Bytes>, last: bool)
    ensures |SendPayloads(r, ts, payloads, last).1| == |payloads|
    decreases |payloads|
  {
    if payloads != [] {
      SendCount(RtpPacket.Advanced(r.(marker := last && |payloads| == 1)), ts, payloads[1..], last);
    }
  }

  lemma UnitCount(nal: Bytes)
    requires nal != []
    ensures |H264.Fragments(nal, VIDEO_MTU)| == PacketsFor(|nal|)
  {
    if |nal| > VIDEO_MTU { FuaCount(nal, 1); }
  }

  lemma {:induction false} WorstOfIsExact(r: RtpPacket.Rtp, ts: RtpPacket.U32, units: seq<AnnexB.Unit>)
    requires AnnexB.NonEmpty(units)
    ensures |SendUnits(r, ts, units).1| == WorstOf(units)
    decreases |units|
  {
    if units != [] {
      var payloads := H264.Fragments(units[0].bytes, VIDEO_MTU);
      UnitCount(units[0].bytes);
      SendCount(r, ts, payloads, units[0].last);
      WorstOfIsExact(SendPayloads(r, ts, payloads, units[0].last).0, ts, units[1..]);
    }
  }

  /** The admission count is exact for every input, well-formed or not. */
  lemma WorstIsExact(r: RtpPacket.Rtp, ts: RtpPacket.U32, data: Bytes)
    ensures |Send(r, ts, data).1| == WorstPackets(data)
  {
    WorstOfIsExact(r, ts, AnnexB.Units(data));
  }

  // ----- the whole path -----

  /** Units that H.264 carries and Annex-B frames unambiguously. */
  predicate Sendable(nals: seq<Bytes>) {
    AnnexB.AllWellFormed(nals) && forall k | 0 <= k < |nals| :: H264.Carried(nals[k])
  }

  /** The units that fit the receiver's reassembly buffer. */
  function Fitting(nals: seq<Bytes>): seq<Bytes> {
    if nals == [] then [] else (if |nals[0]| <= H264.NAL_BUF then [nals[0]] else []) + Fitting(nals[1..])
  }

  function BytesOf(units: seq<AnnexB.Unit>): (r: seq<Bytes>)
    ensures |r| == |units|
  {
    seq(|units|, i requires 0 <= i < |units| => units[i].bytes)
  }

  predicate AllCarried(units: seq<AnnexB.Unit>) {
    forall k | 0 <= k < |units| :: units[k].bytes != [] && H264.Carried(units[k].bytes)
  }

  /** The units of a frame come out of the receiver, those that fit its buffer. */
  lemma {:induction false} UnitsRoundTrip(d: H264.Depkt, r: RtpPacket.Rtp, ts: RtpPacket.U32, units: seq<AnnexB.Unit>)
    requires AllCarried(units)
    ensures AnnexB.NonEmpty(units) && Receive(d, SendUnits(r, ts, units).1).1 == Fitting(BytesOf(units))
    decreases |units|
  {
    if units != [] {
      var nal, last := units[0].bytes, units[0].last;
      var payloads := H264.Fragments(nal, VIDEO_MTU);
      var (r1, packets) := SendPayloads(r, ts, payloads, last);
      assert forall k | 0 <= k < |units[1..]| :: units[1..][k] == units[k + 1];
      UnitsRoundTrip(Receive(d, packets).0, r1, ts, units[1..]);
      assert BytesOf(units)[1..] == BytesOf(units[1..]);
      ReceiveConcat(d, packets, SendUnits(r1, ts, units[1..]).1);
      ReceivePayloads(d, r, ts, payloads, last);
      H264.ReassemblesIff(d, nal, VIDEO_MTU);
    }
  }

  lemma FlaggedCarried(nals: seq<Bytes>)
    requires Sendable(nals)
    ensures AllCarried(AnnexB.Flagged(nals)) && BytesOf(AnnexB.Flagged(nals)) == nals && EndFlag(AnnexB.Flagged(nals), true)
  {
    var units := AnnexB.Flagged(nals);
    forall k | 0 <= k < |units| ensures units[k].bytes != [] && H264.Carried(units[k].bytes) {
      assert AnnexB.WellFormed(nals[k]);
    }
  }

  /** Scanning, fragmenting, packing, unpacking and reassembling returns exactly the units that
      fit the reassembly buffer, in order, whatever the receiver held before. */
  lemma FrameRoundTrip(d: H264.Depkt, r: RtpPacket.Rtp, ts: RtpPacket.U32, nals: seq<Bytes>, longs: seq<bool>)
    requires |nals| == |longs| && Sendable(nals)
    ensures Receive(d, Send(r, ts, AnnexB.Stream(nals, longs)).1).1 == Fitting(nals)
    ensures (forall k | 0 <= k < |nals| :: |nals[k]| <= H264.NAL_BUF) ==> Fitting(nals) == nals
  {
    AnnexB.UnitsOfStream(nals, longs);
    FlaggedCarried(nals);
    UnitsRoundTrip(d, r, ts, AnnexB.Flagged(nals));
    if forall k | 0 <= k < |nals| :: |nals[k]| <= H264.NAL_BUF { AllFitting(nals); }
  }

  lemma {:induction false} AllFitting(nals: seq<Bytes>)
    requires forall k | 0 <= k < |nals| :: |nals[k]| <= H264.NAL_BUF
    ensures Fitting(nals) == nals
  {
    if nals != [] {
      assert forall k | 0 <= k < |nals[1..]| :: nals[1..][k] == nals[k + 1];
      AllFitting(nals[1..]);
      assert [nals[0]] + nals[1..] == nals;
    }
  }

  lemma MarkedConcat(a: seq<Bytes>, b: seq<Bytes>, alone: bool, last: bool)
    requires MarkedLast(a, alone) && MarkedLast(b, last) && (alone <==> last && b == [])
    ensures MarkedLast(a + b, last)
  {
    var c := a + b;
    forall k | 0 <= k < |c| ensures Marked(c[k]) <==> last && k == |c| - 1 {
      assert c[k] == if k < |a| then a[k] else b[k - |a|];
    }
  }

  /** No unit but the last one can be flagged, and that one is as `last` says. */
  predicate EndFlag(units: seq<AnnexB.Unit>, last: bool) {
    forall k | 0 <= k < |units| :: units[k].last <==> last && k == |units| - 1
  }

  lemma {:induction false} UnitsMarked(r: RtpPacket.Rtp, ts: RtpPacket.U32, units: seq<AnnexB.Unit>, last: bool)
    requires AnnexB.NonEmpty(units) && EndFlag(units, last)
    ensures var packets := SendUnits(r, ts, units).1;
            MarkedLast(packets, last) && AllFit(packets) && (packets == [] <==> units == [])
    decreases |units|
  {
    if units != [] {
      var payloads, one := H264.Fragments(units[0].bytes, VIDEO_MTU), units[0].last;
      var (r1, packets) := SendPayloads(r, ts, payloads, one);
      assert forall k | 0 <= k < |units[1..]| :: units[1..][k] == units[k + 1];
      UnitsMarked(r1, ts, units[1..], last);
      H264.FragmentsFit(units[0].bytes, VIDEO_MTU);
      PayloadsMarked(r, ts, payloads, one);
      PayloadsFit(r, ts, payloads, one);
      MarkedConcat(packets, SendUnits(r1, ts, units[1..]).1, one, last);
    }
  }

  /** Every packet fits, and exactly the last packet of the access unit is marked. */
  lemma FrameMarked(r: RtpPacket.Rtp, ts: RtpPacket.U32, nals: seq<Bytes>, longs: seq<bool>)
    requires |nals| == |longs| && Sendable(nals)
    ensures var packets := Send(r, ts, AnnexB.Stream(nals, longs)).1;
            MarkedLast(packets, true) && AllFit(packets) && (packets == [] <==> nals == [])
  {
    AnnexB.UnitsOfStream(nals, longs);
    FlaggedCarried(nals);
    UnitsMarked(r, ts, AnnexB.Flagged(nals), true);
  }

  // ----- the sender -----

  /** Counts packets before anything is sent. */
  method CountPackets(data: Bytes) returns (total: nat)
    ensures total == WorstPackets(data)
  {
    var units := AnnexB.AllUnits(data);
    total := 0;
    assert units[0..] == units;
    for i := 0 to |units|
      invariant WorstOf(units) == total + WorstOf(units[i..])
    {
      assert units[i..][1..] == units[i + 1..];
      total := total + PacketsFor(|units[i].bytes|);
    }
  }

  /** Packs one payload into a packet buffer. */
  method SendPayload(s: RtpPacket.Sender, ts: RtpPacket.U32, payload: Bytes, marker: bool) returns (packet: Bytes)
    modifies s
    ensures packet == RtpPacket.Packet(old(s.rtp).(marker := marker), ts, payload)
    ensures s.rtp == RtpPacket.Advanced(old(s.rtp).(marker := marker))
  {
    s.rtp := s.rtp.(marker := marker);
    var buf := new Byte[RtpPacket.PayloadOffset(s.rtp) + |payload|](i => 0);
    var ok, len := s.Pack(ts, payload, buf);
    packet := buf[..len];
  }

  lemma SendPayloadsStep(r: RtpPacket.Rtp, ts: RtpPacket.U32, payloads: seq<Bytes>, first: Bytes, left: seq<Bytes>, last: bool,
                         r1: RtpPacket.Rtp, packet: Bytes) returns (rest: seq<Bytes>)
    requires payloads == [first] + left && r1 == RtpPacket.Advanced(r.(marker := last && left == []))
    requires packet == RtpPacket.Packet(r.(marker := last && left == []), ts, first)
    ensures rest == SendPayloads(r1, ts, left, last).1
    ensures SendPayloads(r, ts, payloads, last) == (SendPayloads(r1, ts, left, last).0, [packet] + rest)
  {
    assert payloads[0] == first && payloads[1..] == left;
    rest := SendPayloads(r1, ts, left, last).1;
  }

  /** Fragments one unit and packs its payloads. */
  method SendUnit(s: RtpPacket.Sender, ts: RtpPacket.U32, nal: Bytes, isLast: bool) returns (packets: seq<Bytes>)
    requires nal != []
    modifies s
    ensures (s.rtp, packets) == SendPayloads(old(s.rtp), ts, H264.Fragments(nal, VIDEO_MTU), isLast)
  {
    packets := [];
    var it := new H264.FragmentIter(nal, VIDEO_MTU);
    ghost var goal := SendPayloads(s.rtp, ts, it.Rest(), isLast);
    ghost var rest := goal.1;
    var more := it.HasNext();
    while more
      invariant it.Valid() && (more <==> it.Rest() != []) && fresh(it)
      invariant SendPayloads(s.rtp, ts, it.Rest(), isLast) == (goal.0, rest) && goal.1 == packets + rest
      decreases |it.Rest()|
    {
      ghost var before, rtp, done := it.Rest(), s.rtp, packets;
      var payload, lastFrag := it.Next();
      var packet := SendPayload(s, ts, payload, lastFrag && isLast);
      rest := SendPayloadsStep(rtp, ts, before, payload, it.Rest(), isLast, s.rtp, packet);
      Slices.Assoc(done, [packet], rest);
      packets := packets + [packet];
      more := it.HasNext();
    }
    assert packets + [] == packets;
  }

  lemma SendUnitsStep(r: RtpPacket.Rtp, ts: RtpPacket.U32, units: seq<AnnexB.Unit>, i: nat, r1: RtpPacket.Rtp, sent: seq<Bytes>)
    returns (rest: seq<Bytes>)
    requires i < |units| && AnnexB.NonEmpty(units)
    requires (r1, sent) == SendPayloads(r, ts, H264.Fragments(units[i].bytes, VIDEO_MTU), units[i].last)
    ensures AnnexB.NonEmpty(units[i..]) && AnnexB.NonEmpty(units[i + 1..])
    ensures rest == SendUnits(r1, ts, units[i + 1..]).1
    ensures SendUnits(r, ts, units[i..]) == (SendUnits(r1, ts, units[i + 1..]).0, sent + rest)
  {
    assert units[i..][0] == units[i] && units[i..][1..] == units[i + 1..];
    rest := SendUnits(r1, ts, units[i + 1..]).1;
  }

  /** Sends the units of an access unit. */
  method SendFrame(s: RtpPacket.Sender, ts: RtpPacket.U32, data: Bytes) returns (packets: seq<Bytes>)
    modifies s
    ensures (s.rtp, packets) == Send(old(s.rtp), ts, data)
  {
    var units := AnnexB.AllUnits(data);
    packets := SendAll(s, ts, units);
  }

  method SendAll(s: RtpPacket.Sender, ts: RtpPacket.U32, units: seq<AnnexB.Unit>) returns (packets: seq<Bytes>)
    requires AnnexB.NonEmpty(units)
    modifies s
    ensures (s.rtp, packets) == SendUnits(old(s.rtp), ts, units)
  {
    packets := [];
    ghost var goal, rest := SendUnits(s.rtp, ts, units), SendUnits(s.rtp, ts, units).1;
    assert units[0..] == units;
    for i := 0 to |units|
      invariant AnnexB.NonEmpty(units[i..])
      invariant SendUnits(s.rtp, ts, units[i..]) == (goal.0, rest) && goal.1 == packets + rest
    {
      ghost var rtp, done := s.rtp, packets;
      var sent := SendUnit(s, ts, units[i].bytes, units[i].last);
      rest := SendUnitsStep(rtp, ts, units, i, s.rtp, sent);
      Slices.Assoc(done, sent, rest);
      packets := packets + sent;
    }
    assert packets + [] == packets;
  }
}
