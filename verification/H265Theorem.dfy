/** Every access unit: what its H.265 packets look like, how many there are, and that
    nothing is lost or reordered. */
module H265Theorem {
  import opened Bits
  import opened H265
  import AnnexB
  import H264

  // ----- packets -----

  /** A packet within the MTU; an aggregate holds at least two units. */
  predicate Sound(p: Payload, mtu: nat) {
    && NAL_HEADER <= |p.bytes| <= mtu
    && (Type(p.bytes) == AP ==> |SubUnits(p.bytes, 2)| >= 2)
  }

  predicate AllSound(ps: seq<Payload>, mtu: nat) {
    forall k | 0 <= k < |ps| :: Sound(ps[k], mtu)
  }

  /** Exactly the last payload has the marker, if any has. */
  predicate Marks(ps: seq<Payload>, closes: bool) {
    forall k | 0 <= k < |ps| :: ps[k].marker <==> closes && k == |ps| - 1
  }

  lemma SoundConcat(a: seq<Payload>, b: seq<Payload>, mtu: nat)
    requires AllSound(a, mtu) && AllSound(b, mtu)
    ensures AllSound(a + b, mtu)
  {
    forall k | 0 <= k < |a + b| ensures Sound((a + b)[k], mtu) {
      assert (a + b)[k] == if k < |a| then a[k] else b[k - |a|];
    }
  }

  lemma MarksConcat(a: seq<Payload>, b: seq<Payload>, alone: bool)
    requires Marks(a, alone) && Marks(b, true) && (alone <==> b == [])
    ensures Marks(a + b, true)
  {
    forall k | 0 <= k < |a + b| ensures (a + b)[k].marker <==> k == |a + b| - 1 {
      assert (a + b)[k] == if k < |a| then a[k] else b[k - |a|];
    }
  }

  lemma {:induction false} FuSound(nal: Bytes, pos: nat, mtu: nat, closes: bool)
    requires Carried(nal) && NAL_HEADER <= pos <= |nal| && mtu > FU_HEADER
    ensures var f := FuFrom(nal, pos, mtu, closes);
            AllSound(f, mtu) && Marks(f, closes) && (f == [] <==> pos == |nal|)
    decreases |nal| - pos
  {
    if pos < |nal| {
      var n := FuStep(nal, pos, mtu);
      FuFields(nal, pos == NAL_HEADER, pos + n == |nal|, nal[pos..pos + n]);
      FuSound(nal, pos + n, mtu, closes);
      FuMarks(nal, pos, n, mtu, closes);
    }
  }

  lemma FuMarks(nal: Bytes, pos: nat, n: nat, mtu: nat, closes: bool)
    requires |nal| >= NAL_HEADER && NAL_HEADER <= pos < |nal| && mtu > FU_HEADER && n == FuStep(nal, pos, mtu)
    requires Marks(FuFrom(nal, pos + n, mtu, closes), closes)
    requires FuFrom(nal, pos + n, mtu, closes) == [] <==> pos + n == |nal|
    ensures Marks(FuFrom(nal, pos, mtu, closes), closes)
  {
    var f, rest := FuFrom(nal, pos, mtu, closes), FuFrom(nal, pos + n, mtu, closes);
    assert |f| == 1 + |rest|;
    forall k | 0 <= k < |f| ensures f[k].marker <==> closes && k == |f| - 1 {
      if k > 0 { assert f[k] == rest[k - 1]; }
    }
  }

  lemma ApSound(nals: seq<Bytes>, i: nat, j: nat, m: bool, mtu: nat)
    requires i + 2 <= j <= |nals| && Headed(nals, i, j) && |ApPacket(nals, i, j)| <= mtu < 0x1_0000
    ensures Sound(Payload(ApPacket(nals, i, j), m), mtu)
  {
    ApFields(AnyForbidden(nals, i, j), MinLayer(nals, i, j), MinTid(nals, i, j), ApBody(nals, i, j));
    SubUnitsAreAll(ApPacket(nals, i, j), 2, nals, i, j);
  }

  lemma GroupSound(nals: seq<Bytes>, i: nat, mtu: nat)
    requires i < |nals| && Carried(nals[i]) && FU_HEADER < mtu <= VIDEO_MTU
    ensures var ps := Group(nals, i, mtu).payloads;
            AllSound(ps, mtu) && Marks(ps, GroupEnd(nals, i, mtu) + 1 == |nals|) && ps != []
  {
    var j := GroupEnd(nals, i, mtu);
    GroupOk(nals, i, mtu);
    if |nals[i]| > mtu {
      FuSound(nals[i], NAL_HEADER, mtu, j + 1 == |nals|);
    } else if j > i {
      ApSound(nals, i, j + 1, j + 1 == |nals|, mtu);
    }
  }

  lemma {:induction false} PackSound(nals: seq<Bytes>, i: nat, mtu: nat, out: Out)
    requires i <= |nals| && AllCarried(nals) && FU_HEADER < mtu <= VIDEO_MTU && out == PackFrom(nals, i, mtu)
    ensures AllSound(out.payloads, mtu) && Marks(out.payloads, true) && (out.payloads == [] <==> i == |nals|)
    decreases |nals| - i
  {
    if i < |nals| {
      var j, g, rest := PackStep(nals, i, mtu, out);
      GroupSound(nals, i, mtu);
      PackSound(nals, j, mtu, rest);
      SoundConcat(g, rest.payloads, mtu);
      MarksConcat(g, rest.payloads, j == |nals|);
    }
  }

  /** Packing loses and reorders nothing: a receiver gets the same units in the same order,
      whatever it was collecting; every packet fits, every aggregate holds two units or more,
      and exactly the last packet has the marker. */
  lemma PackingIsLossless(d: Partial, nals: seq<Bytes>, mtu: nat)
    requires AllCarried(nals) && FU_HEADER < mtu <= VIDEO_MTU
    ensures var out := PackFrom(nals, 0, mtu);
            && out.status == H264.Ok && Unpack(d, out.payloads) == nals
            && AllSound(out.payloads, mtu) && Marks(out.payloads, true)
  {
    var out := PackFrom(nals, 0, mtu);
    PackFromUnpacks(d, nals, 0, mtu, out);
    PackSound(nals, 0, mtu, out);
    assert nals[0..] == nals;
  }

  // ----- malformed units -----

  lemma HeadedSplit(nals: seq<Bytes>, i: nat, j: nat)
    requires i < j <= |nals| && |nals[i]| >= NAL_HEADER && Headed(nals, i + 1, j)
    ensures Headed(nals, i, |nals|) <==> Headed(nals, j, |nals|)
  {
    if Headed(nals, j, |nals|) {
      forall k | i <= k < |nals| ensures |nals[k]| >= NAL_HEADER {
        if k >= j { assert Headed(nals, j, |nals|); }
      }
    }
  }

  lemma {:induction false} StatusFrom(nals: seq<Bytes>, i: nat, mtu: nat, out: Out)
    requires i <= |nals| && FU_HEADER < mtu <= VIDEO_MTU && out == PackFrom(nals, i, mtu)
    ensures out.status == if Headed(nals, i, |nals|) then H264.Ok else H264.InvalidParam
    decreases |nals| - i
  {
    if i < |nals| && |nals[i]| >= NAL_HEADER {
      var j, g, rest := PackStep(nals, i, mtu, out);
      StatusFrom(nals, j, mtu, rest);
      HeadedSplit(nals, i, j);
    }
  }

  /** An access unit is refused exactly when one of its units has no full header. */
  lemma RefusedIff(nals: seq<Bytes>, mtu: nat)
    requires FU_HEADER < mtu <= VIDEO_MTU
    ensures PackFrom(nals, 0, mtu).status == H264.Ok <==> forall k | 0 <= k < |nals| :: |nals[k]| >= NAL_HEADER
  {
    StatusFrom(nals, 0, mtu, PackFrom(nals, 0, mtu));
  }

  // ----- how many packets -----

  /** Packets of one unit, as counted before anything is sent. */
  function PacketsFor(len: nat): (r: nat)
    ensures r >= 1
  {
    if len <= VIDEO_MTU then 1 else (len - NAL_HEADER + (VIDEO_MTU - FU_HEADER) - 1) / (VIDEO_MTU - FU_HEADER)
  }

  function Worst(nals: seq<Bytes>, i: nat): nat
    requires i <= |nals|
    decreases |nals| - i
  {
    if i == |nals| then 0 else PacketsFor(|nals[i]|) + Worst(nals, i + 1)
  }

  /** Units `k` and `k + 1` fit one aggregate. */
  predicate Pair(nals: seq<Bytes>, k: nat) {
    k + 1 < |nals| && 6 + |nals[k]| + |nals[k + 1]| <= VIDEO_MTU
  }

  predicate NoPair(nals: seq<Bytes>, i: nat) {
    forall k: nat | i <= k < |nals| :: !Pair(nals, k)
  }

  lemma {:induction false} WorstDrops(nals: seq<Bytes>, i: nat, j: nat)
    requires i <= j <= |nals|
    ensures Worst(nals, i) >= Worst(nals, j) + (j - i)
    decreases j - i
  {
    if i < j { WorstDrops(nals, i + 1, j); }
  }

  lemma {:induction false} FuCount(nal: Bytes, pos: nat, closes: bool)
    requires |nal| >= NAL_HEADER && NAL_HEADER <= pos <= |nal|
    ensures |FuFrom(nal, pos, 1200, closes)| == (|nal| - pos + 1196) / 1197
    decreases |nal| - pos
  {
    if pos < |nal| {
      var n := FuStep(nal, pos, 1200);
      FuCount(nal, pos + n, closes);
    }
  }

  lemma GroupCount(nals: seq<Bytes>, i: nat)
    requires i < |nals| && Headed(nals, 0, |nals|)
    ensures var j, ps := GroupEnd(nals, i, VIDEO_MTU), Group(nals, i, VIDEO_MTU).payloads;
            (j > i <==> Pair(nals, i)) && (j == i ==> |ps| == PacketsFor(|nals[i]|)) && (j > i ==> |ps| == 1)
  {
    GroupOk(nals, i, VIDEO_MTU);
    if |nals[i]| > VIDEO_MTU { FuCount(nals[i], NAL_HEADER, i + 1 == |nals|); }
  }

  lemma NoPairStep(nals: seq<Bytes>, i: nat)
    ensures NoPair(nals, i) <==> !Pair(nals, i) && NoPair(nals, i + 1)
  {
    if !Pair(nals, i) && NoPair(nals, i + 1) {
      forall k: nat | i <= k < |nals| ensures !Pair(nals, k) {
        if k > i { assert NoPair(nals, i + 1); }
      }
    }
  }

  lemma {:induction false} CountFrom(nals: seq<Bytes>, i: nat, out: Out)
    requires i <= |nals| && Headed(nals, 0, |nals|) && out == PackFrom(nals, i, VIDEO_MTU)
    ensures |out.payloads| <= Worst(nals, i)
    ensures |out.payloads| == Worst(nals, i) <==> NoPair(nals, i)
    decreases |nals| - i
  {
    if i < |nals| {
      var j, g, rest := PackStep(nals, i, VIDEO_MTU, out);
      GroupCount(nals, i);
      CountFrom(nals, j, rest);
      NoPairStep(nals, i);
      WorstDrops(nals, i + 1, j);
    }
  }

  /** The admission count bounds the packets of any access unit, and is exact exactly when no
      two neighbours fit one aggregate. */
  lemma WorstIsBound(nals: seq<Bytes>)
    requires forall k | 0 <= k < |nals| :: |nals[k]| >= NAL_HEADER
    ensures var sent := |PackFrom(nals, 0, VIDEO_MTU).payloads|;
            && sent <= Worst(nals, 0)
            && (sent == Worst(nals, 0) <==> forall k: nat | k < |nals| :: !Pair(nals, k))
  {
    CountFrom(nals, 0, PackFrom(nals, 0, VIDEO_MTU));
    assert NoPair(nals, 0) <==> forall k: nat | k < |nals| :: !Pair(nals, k);
  }

  // ----- frames -----

  /** NANORTC_MAX_NALS_PER_AU. */
  const MAX_UNITS: nat := 16

  function BytesOf(units: seq<AnnexB.Unit>): (r: seq<Bytes>)
    ensures |r| == |units| && forall k | 0 <= k < |r| :: r[k] == units[k].bytes
  {
    seq(|units|, i requires 0 <= i < |units| => units[i].bytes)
  }

  /** The units the sender collects: no more than its table holds. */
  function Collected(data: Bytes): (r: seq<Bytes>)
    ensures |r| <= MAX_UNITS
  {
    var nals := BytesOf(AnnexB.Units(data));
    if |nals| <= MAX_UNITS then nals else nals[..MAX_UNITS]
  }

  lemma CollectedOf(nals: seq<Bytes>, longs: seq<bool>)
    requires |nals| == |longs| && AnnexB.AllWellFormed(nals)
    ensures Collected(AnnexB.Stream(nals, longs)) == if |nals| <= MAX_UNITS then nals else nals[..MAX_UNITS]
  {
    AnnexB.UnitsOfStream(nals, longs);
    assert BytesOf(AnnexB.Flagged(nals)) == nals;
  }

  /** A frame arrives complete exactly when it has no more units than the table; of a larger
      one the receiver gets the first units, with the marker on the last of these. */
  lemma FrameCompleteIff(d: Partial, nals: seq<Bytes>, longs: seq<bool>)
    requires |nals| == |longs| && AnnexB.AllWellFormed(nals) && AllCarried(nals)
    ensures var ps := PackFrom(Collected(AnnexB.Stream(nals, longs)), 0, VIDEO_MTU).payloads;
            && (Unpack(d, ps) == nals <==> |nals| <= MAX_UNITS)
            && Unpack(d, ps) <= nals && Marks(ps, true) && AllSound(ps, VIDEO_MTU)
  {
    CollectedOf(nals, longs);
    var sent := Collected(AnnexB.Stream(nals, longs));
    assert sent <= nals;
    assert AllCarried(sent);
    PackingIsLossless(d, sent, VIDEO_MTU);
  }

  /** Of seventeen units the receiver gets the first sixteen. */
  lemma SeventeenthIsLost(d: Partial, nals: seq<Bytes>, longs: seq<bool>)
    requires |nals| == |longs| == 17 && AnnexB.AllWellFormed(nals) && AllCarried(nals)
    ensures Unpack(d, PackFrom(Collected(AnnexB.Stream(nals, longs)), 0, VIDEO_MTU).payloads) == nals[..16]
  {
    CollectedOf(nals, longs);
    PackingIsLossless(d, nals[..16], VIDEO_MTU);
  }
}
