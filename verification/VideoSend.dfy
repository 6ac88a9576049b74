/** Sending one encoded video frame: the packet count that admits it, the packets made of it, and
    the ring they go into. The count is exact for H.264 and an upper bound for H.265. */
module VideoSend {
  import opened Bits
  import AnnexB
  import H264
  import H265
  import H265Pack
  import H265Theorem
  import RtpPacket
  import VideoFrame
  import opened RtcSendPath

  type Bytes = seq<Byte>

  // ----- H.264 -----

  /** A frame is counted, admitted, packed and committed; one that is refused changes nothing,
      not even the RTP sequence number. */
  method SendH264(path: SendPath, s: RtpPacket.Sender, ts: RtpPacket.U32, data: Bytes) returns (status: Status)
    requires path.Valid()
    modifies s, path`ringTail, path`abs, path`overruns, path.ring, path.at
    ensures path.Valid() && path.overruns == old(path.overruns) && path.abs.contents == old(path.abs.contents)
    ensures var needed := VideoFrame.WorstPackets(data);
            status == if needed == 0 then Ok else old(path.Admission(needed))
    ensures status == Ok ==>
              path.abs.sent == old(path.abs.sent) + VideoFrame.Send(old(s.rtp), ts, data).1 &&
              s.rtp == VideoFrame.Send(old(s.rtp), ts, data).0
    ensures status != Ok ==> path.abs == old(path.abs) && s.rtp == old(s.rtp)
  {
    var needed := VideoFrame.CountPackets(data);
    VideoFrame.WorstIsExact(s.rtp, ts, data);
    if needed == 0 {
      ghost var sent := VideoFrame.Send(s.rtp, ts, data);
      NothingSent(s.rtp, ts, data);
      return Ok;
    }
    status := path.Admission(needed);
    if status != Ok { return; }
    var packets := VideoFrame.SendFrame(s, ts, data);
    status := path.SendFrame(packets, needed);
  }

  /** A buffer without units leaves the RTP state alone. */
  lemma NothingSent(r: RtpPacket.Rtp, ts: RtpPacket.U32, data: Bytes)
    requires VideoFrame.WorstPackets(data) == 0
    ensures VideoFrame.Send(r, ts, data) == (r, [])
  {
    VideoFrame.WorstIsExact(r, ts, data);
  }

  // ----- H.265 -----

  /** The count for H.265: one packet a unit, or the fragments of a long one. */
  function Worst265(data: Bytes): nat {
    H265Theorem.Worst(H265Theorem.BytesOf(AnnexB.Units(data)), 0)
  }

  method Count265(data: Bytes) returns (total: nat)
    ensures total == Worst265(data)
  {
    var units := AnnexB.AllUnits(data);
    total := 0;
    ghost var nals := H265Theorem.BytesOf(units);
    for i := 0 to |units|
      invariant Worst265(data) == total + H265Theorem.Worst(nals, i)
    {
      total := total + H265Theorem.PacketsFor(|units[i].bytes|);
    }
  }

  /** Packs payloads in order, each with its own marker. */
  function PackMarked(r: RtpPacket.Rtp, ts: RtpPacket.U32, payloads: seq<H265.Payload>): (out: (RtpPacket.Rtp, seq<Bytes>))
    ensures |out.1| == |payloads|
    decreases |payloads|
  {
    if payloads == [] then (r, [])
    else
      var n := |payloads| - 1;
      var (before, packets) := PackMarked(r, ts, payloads[..n]);
      var m := before.(marker := payloads[n].marker);
      (RtpPacket.Advanced(m), packets + [RtpPacket.Packet(m, ts, payloads[n].bytes)])
  }

  method PackAll(s: RtpPacket.Sender, ts: RtpPacket.U32, payloads: seq<H265.Payload>) returns (packets: seq<Bytes>)
    modifies s
    ensures (s.rtp, packets) == PackMarked(old(s.rtp), ts, payloads)
  {
    packets := [];
    for i := 0 to |payloads|
      invariant (s.rtp, packets) == PackMarked(old(s.rtp), ts, payloads[..i])
    {
      assert payloads[..i + 1][..i] == payloads[..i];
      var packet := VideoFrame.SendPayload(s, ts, payloads[i].bytes, payloads[i].marker);
      packets := packets + [packet];
    }
    assert payloads[..|payloads|] == payloads;
  }

  /** Packs an admitted frame's payloads and commits the packets. */
  method CommitAll(path: SendPath, s: RtpPacket.Sender, ts: RtpPacket.U32, payloads: seq<H265.Payload>, needed: nat)
    requires path.Valid() && |payloads| <= needed && path.Admission(needed) == Ok
    modifies s, path`ringTail, path`abs, path`overruns, path.ring, path.at
    ensures path.Valid() && path.overruns == old(path.overruns) && path.abs.contents == old(path.abs.contents)
    ensures (s.rtp, path.abs.sent) == (PackMarked(old(s.rtp), ts, payloads).0, old(path.abs.sent) + PackMarked(old(s.rtp), ts, payloads).1)
  {
    var packets := PackAll(s, ts, payloads);
    var status := path.SendFrame(packets, needed);
  }

  /** What the packetizer makes of a buffer. */
  function Packed265(data: Bytes): H265.Out {
    H265.PackFrom(H265Theorem.Collected(data), 0, H265.VIDEO_MTU)
  }

  datatype Outcome = Refused(reason: Status) | Done(status: H264.Status)

  /** An admitted frame commits every packet the packetizer makes, never more than were counted,
      even when the packetizer then meets a malformed unit. */
  method SendH265(path: SendPath, s: RtpPacket.Sender, ts: RtpPacket.U32, data: Bytes) returns (outcome: Outcome)
    requires path.Valid()
    modifies s, path`ringTail, path`abs, path`overruns, path.ring, path.at
    ensures path.Valid() && path.overruns == old(path.overruns) && path.abs.contents == old(path.abs.contents)
    ensures var needed := Worst265(data);
            outcome == if needed == 0 then Done(H264.Ok)
                       else if old(path.Admission(needed)) != Ok then Refused(old(path.Admission(needed)))
                       else Done(Packed265(data).status)
    ensures outcome.Done? ==>
              (s.rtp, path.abs.sent) == (PackMarked(old(s.rtp), ts, Packed265(data).payloads).0,
                                         old(path.abs.sent) + PackMarked(old(s.rtp), ts, Packed265(data).payloads).1)
    ensures outcome.Refused? ==> path.abs == old(path.abs) && s.rtp == old(s.rtp)
  {
    var needed := Count265(data);
    H265Pack.AdmissionIsSound(data);
    if needed == 0 {
      NothingPacked(data);
      assert path.abs.sent + [] == path.abs.sent;
      return Done(H264.Ok);
    }
    var status := path.Admission(needed);
    if status != Ok { return Refused(status); }
    var payloads, packed := H265Pack.SendUnits(data);
    SomeCollected(data);
    CommitAll(path, s, ts, payloads, needed);
    outcome := Done(packed);
  }

  lemma NothingPacked(data: Bytes)
    requires Worst265(data) == 0
    ensures Packed265(data) == H265.Out([], H264.Ok)
  {
    var nals := H265Theorem.BytesOf(AnnexB.Units(data));
    assert nals == [];
    assert H265Theorem.Collected(data) == [];
  }

  lemma SomeCollected(data: Bytes)
    requires Worst265(data) > 0
    ensures H265Theorem.Collected(data) != []
  {
  }

  /** An admitted H.265 frame goes out whole exactly when every unit that was collected has a full
      header; otherwise the packets before the malformed unit are on their way already. */
  lemma CommittedWholeIff(data: Bytes)
    ensures Packed265(data).status == H264.Ok <==>
            forall k | 0 <= k < |H265Theorem.Collected(data)| :: |H265Theorem.Collected(data)[k]| >= H265.NAL_HEADER
  {
    H265Theorem.RefusedIff(H265Theorem.Collected(data), H265.VIDEO_MTU);
  }

  /** A unit one byte longer than the MTU, then a unit of one byte: the two fragments of the first
      are committed before the second is refused. */
  lemma PartlyCommitted(nals: seq<Bytes>, longs: seq<bool>)
    requires |nals| == |longs| == 2 && AnnexB.AllWellFormed(nals) && |nals[0]| == H265.VIDEO_MTU + 1 && |nals[1]| == 1
    ensures var out := Packed265(AnnexB.Stream(nals, longs));
            out.status == H264.InvalidParam && |out.payloads| == 2
  {
    H265Theorem.CollectedOf(nals, longs);
    TwoFragments(nals);
  }

  lemma TwoFragments(nals: seq<Bytes>)
    requires |nals| == 2 && |nals[0]| == H265.VIDEO_MTU + 1 && |nals[1]| == 1
    ensures H265.PackFrom(nals, 0, H265.VIDEO_MTU).status == H264.InvalidParam
    ensures |H265.PackFrom(nals, 0, H265.VIDEO_MTU).payloads| == 2
  {
    H265Theorem.FuCount(nals[0], H265.NAL_HEADER, false);
    assert H265.Group(nals, 0, H265.VIDEO_MTU) == H265.Out(H265.FuFrom(nals[0], H265.NAL_HEADER, H265.VIDEO_MTU, false), H264.Ok);
    assert H265.PackFrom(nals, 1, H265.VIDEO_MTU) == H265.Out([], H264.InvalidParam);
  }
}
