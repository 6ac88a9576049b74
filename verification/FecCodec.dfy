/** The ULPFEC encoder and decoder over byte buffers, each tied to its function in FecCode. */
module FecCodec {
  import opened Bits
  import opened FecCode

  lemma SeqsPrefix(pkts: seq<Packet>, i: nat)
    requires i < |pkts| && Numbered(pkts)
    ensures Seqs(pkts[..i + 1])[..i] == Seqs(pkts[..i]) && Seqs(pkts[..i + 1])[i] == Seq(pkts[i])
    ensures pkts[..i + 1][..i] == pkts[..i]
  {
  }

  // ----- encoding -----

  /** The earliest sequence number. */
  method FindBase(pkts: seq<Packet>) returns (base: Sn)
    requires pkts != [] && Numbered(pkts)
    ensures base == BaseOf(Seqs(pkts))
  {
    base := Seq(pkts[0]);
    assert Seqs(pkts[..1]) == [base];
    for i := 1 to |pkts|
      invariant base == BaseOf(Seqs(pkts[..i]))
    {
      SeqsPrefix(pkts, i);
      var sn := Seq(pkts[i]);
      if Before(sn, base) { base := sn; }
    }
    assert pkts[..|pkts|] == pkts;
  }

  /** Checks lengths and distances, and finds the longest packet. */
  method CheckGroup(pkts: seq<Packet>, base: Sn) returns (ok: bool, longest: nat)
    requires Numbered(pkts)
    ensures ok <==> Sized(pkts) && Within(Seqs(pkts), base)
    ensures ok ==> longest == MaxLength(pkts)
  {
    longest := 0;
    for i := 0 to |pkts|
      invariant Sized(pkts[..i]) && forall j | 0 <= j < i :: Offset(Seqs(pkts)[j], base) < FEC_MAX_GROUP
      invariant longest == MaxLength(pkts[..i])
    {
      if |pkts[i]| < FEC_RTP_HDR { return false, 0; }
      if Offset(Seq(pkts[i]), base) >= FEC_MAX_GROUP {
        assert Offset(Seqs(pkts)[i], base) >= FEC_MAX_GROUP;
        return false, 0;
      }
      assert pkts[..i + 1][..i] == pkts[..i];
      if |pkts[i]| > longest { longest := |pkts[i]|; }
    }
    assert pkts[..|pkts|] == pkts;
    ok := true;
  }

  /** The first `total` bytes of the buffer hold the XOR of the packets. */
  ghost predicate HoldsXor(out: seq<Byte>, total: nat, pkts: seq<Packet>)
    requires total <= |out| && Sized(pkts)
  {
    forall k: nat | Spot(k) < total :: out[Spot(k)] == XorField(pkts, k)
  }

  /** `after` is `before` with the bit string of `p` XORed in. */
  ghost predicate Folded(before: seq<Byte>, after: seq<Byte>, total: nat, p: Packet)
    requires total <= |before| == |after| && FEC_RTP_HDR <= |p| < 0x1_0000
  {
    && before[total..] == after[total..]
    && forall k: nat | Spot(k) < total :: after[Spot(k)] == XorB(before[Spot(k)], Field(p, k))
  }

  lemma FoldedHolds(before: seq<Byte>, after: seq<Byte>, total: nat, pkts: seq<Packet>, i: nat)
    requires i < |pkts| && Sized(pkts) && total <= |before| == |after|
    requires HoldsXor(before, total, pkts[..i]) && Folded(before, after, total, pkts[i])
    ensures HoldsXor(after, total, pkts[..i + 1])
  {
    assert pkts[..i + 1][..i] == pkts[..i];
    forall k: nat | Spot(k) < total ensures after[Spot(k)] == XorField(pkts[..i + 1], k) {
      assert before[Spot(k)] == XorField(pkts[..i], k);
    }
  }

  /** XORs the payload of a packet into the buffer. */
  method FoldPayload(out: array<Byte>, total: nat, p: Packet)
    requires FEC_RTP_HDR <= |p| < 0x1_0000 && FEC_OVERHEAD + |p| - FEC_RTP_HDR <= total <= out.Length
    modifies out
    ensures forall i | 0 <= i < out.Length :: out[i] ==
              if FEC_OVERHEAD <= i < FEC_OVERHEAD + |p| - FEC_RTP_HDR then XorB(old(out[i]), p[i - 2]) else old(out[i])
  {
    ghost var before := out[..];
    for k := 0 to |p| - FEC_RTP_HDR
      invariant forall i | 0 <= i < out.Length :: out[i] ==
                  if FEC_OVERHEAD <= i < FEC_OVERHEAD + k then XorB(before[i], p[i - 2]) else before[i]
    {
      out[FEC_OVERHEAD + k] := XorB(out[FEC_OVERHEAD + k], p[FEC_RTP_HDR + k]);
    }
  }

  /** The recovery fields of `p` are XORed into the header bytes. */
  predicate HeaderFolded(before: seq<Byte>, after: seq<Byte>, p: Packet)
    requires FEC_OVERHEAD <= |before| == |after| && FEC_RTP_HDR <= |p| < 0x1_0000
  {
    && after[0] == XorB(before[0], p[0] % 64) && after[1] == XorB(before[1], p[1])
    && after[4] == XorB(before[4], p[4]) && after[5] == XorB(before[5], p[5])
    && after[6] == XorB(before[6], p[6]) && after[7] == XorB(before[7], p[7])
    && after[8] == XorB(before[8], High(|p| - FEC_RTP_HDR)) && after[9] == XorB(before[9], Low(|p| - FEC_RTP_HDR))
    && after[FEC_HEADER_SIZE..] == before[FEC_HEADER_SIZE..]
  }

  lemma HeaderFields(before: seq<Byte>, after: seq<Byte>, p: Packet, k: nat)
    requires FEC_OVERHEAD <= |before| == |after| && FEC_RTP_HDR <= |p| < 0x1_0000 && HeaderFolded(before, after, p) && k < 8
    ensures after[Spot(k)] == XorB(before[Spot(k)], Field(p, k))
  {
  }

  /** XORs the recovery fields of a packet into the header. */
  method FoldHeader(out: array<Byte>, p: Packet)
    requires FEC_RTP_HDR <= |p| < 0x1_0000 && FEC_OVERHEAD <= out.Length
    modifies out
    ensures HeaderFolded(old(out[..]), out[..], p)
  {
    var len16 := |p| - FEC_RTP_HDR;
    out[0] := XorB(out[0], p[0] % 64);
    out[1] := XorB(out[1], p[1]);
    out[4] := XorB(out[4], p[4]);
    out[5] := XorB(out[5], p[5]);
    out[6] := XorB(out[6], p[6]);
    out[7] := XorB(out[7], p[7]);
    out[8] := XorB(out[8], High(len16));
    out[9] := XorB(out[9], Low(len16));
  }

  /** XORs the whole bit string of a packet into the buffer. */
  method Fold(out: array<Byte>, total: nat, p: Packet)
    requires FEC_RTP_HDR <= |p| < 0x1_0000 && FEC_OVERHEAD + |p| - FEC_RTP_HDR <= total <= out.Length
    modifies out
    ensures Folded(old(out[..]), out[..], total, p)
  {
    ghost var before := out[..];
    FoldHeader(out, p);
    ghost var mid := out[..];
    FoldPayload(out, total, p);
    forall k: nat | Spot(k) < total ensures out[..][Spot(k)] == XorB(before[Spot(k)], Field(p, k)) {
      if k >= 8 {
        assert mid[FEC_HEADER_SIZE..][Spot(k) - FEC_HEADER_SIZE] == before[FEC_HEADER_SIZE..][Spot(k) - FEC_HEADER_SIZE];
        XorZero(before[Spot(k)]);
      } else {
        HeaderFields(before, mid, p, k);
      }
    }
  }

  /** Writes the fields that are not XORed. */
  method Stamp(out: array<Byte>, base: Sn, protlen: nat, mask: Mask)
    requires out.Length >= FEC_OVERHEAD && protlen < 0x1_0000
    modifies out
    ensures out[2] == High(base) && out[3] == Low(base)
    ensures out[10] == High(protlen) && out[11] == Low(protlen)
    ensures out[12] == High(MaskWord(mask)) && out[13] == Low(MaskWord(mask))
    ensures forall i | 0 <= i < out.Length && !(2 <= i < 4) && !(10 <= i < 14) :: out[i] == old(out[i])
  {
    out[2], out[3] := High(base), Low(base);
    out[10], out[11] := High(protlen), Low(protlen);
    out[12], out[13] := High(MaskWord(mask)), Low(MaskWord(mask));
  }

  lemma EmptyXor(pkts: seq<Packet>)
    ensures Sized(pkts[..0]) && forall k: nat :: XorField(pkts[..0], k) == 0
  {
  }

  /** Encodes one FEC packet. */
  method EncodeFec(pkts: seq<Packet>, out: array<Byte>) returns (status: Status, len: nat)
    requires Numbered(pkts)
    modifies out
    ensures status == Encode(pkts, out.Length).0
    ensures status == Ok ==> len <= out.Length && out[..len] == Body(pkts) && out[len..] == old(out[len..])
    ensures status != Ok ==> out[..] == old(out[..])
  {
    len := 0;
    if |pkts| == 0 || |pkts| > FEC_MAX_GROUP { return InvalidParam, 0; }
    var base := FindBase(pkts);
    var ok, longest := CheckGroup(pkts, base);
    if !ok { return InvalidParam, 0; }
    var protlen := longest - FEC_RTP_HDR;
    var total := FEC_OVERHEAD + protlen;
    if out.Length < total { return BufferTooSmall, 0; }
    FillBody(pkts, base, protlen, out);
    return Ok, total;
  }

  lemma MaskStep(pkts: seq<Packet>, i: nat, base: Sn)
    requires i < |pkts| && Numbered(pkts) && Within(Seqs(pkts), base) && Within(Seqs(pkts[..i]), base)
    ensures Within(Seqs(pkts[..i + 1]), base) && Offset(Seq(pkts[i]), base) < FEC_MAX_GROUP
    ensures MaskOf(Seqs(pkts[..i + 1]), base) == MaskOf(Seqs(pkts[..i]), base)[Offset(Seq(pkts[i]), base) := true]
  {
    SeqsPrefix(pkts, i);
    var sns := Seqs(pkts[..i + 1]);
    forall j | 0 <= j < |sns| ensures Offset(sns[j], base) < FEC_MAX_GROUP {
      assert sns[j] == Seqs(pkts)[j];
    }
  }

  /** XORs all packets into a cleared buffer and collects the mask. */
  method FoldAll(pkts: seq<Packet>, base: Sn, total: nat, out: array<Byte>) returns (mask: Mask)
    requires Protectable(pkts) && base == BaseOf(Seqs(pkts))
    requires FEC_OVERHEAD + MaxLength(pkts) - FEC_RTP_HDR == total <= out.Length
    requires forall i | 0 <= i < total :: out[i] == 0
    modifies out
    ensures HoldsXor(out[..], total, pkts) && out[total..] == old(out[total..]) && mask == MaskOf(Seqs(pkts), base)
  {
    ghost var before := out[..];
    mask := seq(16, i => false);
    EmptyXor(pkts);
    for i := 0 to |pkts|
      invariant HoldsXor(out[..], total, pkts[..i]) && out[total..] == before[total..]
      invariant Within(Seqs(pkts[..i]), base) && mask == MaskOf(Seqs(pkts[..i]), base)
    {
      ghost var start := out[..];
      MaskStep(pkts, i, base);
      Fold(out, total, pkts[i]);
      FoldedHolds(start, out[..], total, pkts, i);
      mask := mask[Offset(Seq(pkts[i]), base) := true];
    }
    assert pkts[..|pkts|] == pkts;
  }

  method FillBody(pkts: seq<Packet>, base: Sn, protlen: nat, out: array<Byte>)
    requires Protectable(pkts) && base == BaseOf(Seqs(pkts)) && protlen == MaxLength(pkts) - FEC_RTP_HDR
    requires FEC_OVERHEAD + protlen <= out.Length
    modifies out
    ensures out[..FEC_OVERHEAD + protlen] == Body(pkts)
    ensures out[FEC_OVERHEAD + protlen..] == old(out[FEC_OVERHEAD + protlen..])
  {
    var total := FEC_OVERHEAD + protlen;
    ghost var before := out[..];
    forall i | 0 <= i < total { out[i] := 0; }
    assert out[total..] == before[total..];
    var mask := FoldAll(pkts, base, total, out);
    ghost var xored := out[..];
    Stamp(out, base, protlen, mask);
    BodyIs(pkts, xored, out[..], total);
    assert out[total..] == xored[total..];
  }

  /** The stamped fields of the body. */
  predicate Stamped(pkts: seq<Packet>, out: seq<Byte>)
    requires Protectable(pkts) && |out| >= FEC_OVERHEAD
  {
    var base, protlen, mask := BaseOf(Seqs(pkts)), MaxLength(pkts) - FEC_RTP_HDR, MaskWord(MaskOf(Seqs(pkts), BaseOf(Seqs(pkts))));
    && out[2] == High(base) && out[3] == Low(base) && out[10] == High(protlen) && out[11] == Low(protlen)
    && out[12] == High(mask) && out[13] == Low(mask)
  }

  lemma BodyAt(pkts: seq<Packet>, xored: seq<Byte>, out: seq<Byte>, total: nat, i: nat)
    requires Protectable(pkts) && total == FEC_OVERHEAD + MaxLength(pkts) - FEC_RTP_HDR <= |xored| == |out|
    requires HoldsXor(xored, total, pkts) && Stamped(pkts, out) && i < total
    requires !(2 <= i < 4) && !(10 <= i < 14) ==> out[i] == xored[i]
    ensures out[i] == Body(pkts)[i]
  {
    var k := if i < 2 then i else if i < 10 then i - 2 else i - 6;
    if i < 2 || 4 <= i < 10 || i >= 14 {
      assert Spot(k) == i;
    }
  }

  /** XORed fields and stamped fields make up the body. */
  lemma BodyIs(pkts: seq<Packet>, xored: seq<Byte>, out: seq<Byte>, total: nat)
    requires Protectable(pkts) && total == FEC_OVERHEAD + MaxLength(pkts) - FEC_RTP_HDR <= |xored| == |out|
    requires HoldsXor(xored, total, pkts) && Stamped(pkts, out)
    requires forall i | 0 <= i < |out| && !(2 <= i < 4) && !(10 <= i < 14) :: out[i] == xored[i]
    ensures out[..total] == Body(pkts)
  {
    forall i | 0 <= i < total ensures out[i] == Body(pkts)[i] {
      BodyAt(pkts, xored, out, total, i);
    }
  }

  // ----- recovery -----

  method IsPresent(recv: seq<Slot>, sn: Sn) returns (present: bool)
    ensures present <==> Present(recv, sn)
  {
    for j := 0 to |recv|
      invariant forall l | 0 <= l < j :: !(Usable(recv[l]) && Seq(recv[l].p) == sn)
    {
      if Usable(recv[j]) && Seq(recv[j].p) == sn { return true; }
    }
    present := false;
  }

  /** Counts the protected numbers that are absent; `last` is the last of them. */
  method FindMissing(mask: Mask, base: Sn, recv: seq<Slot>) returns (count: nat, last: nat)
    ensures var missing := MissingBelow(mask, base, recv, FEC_MAX_GROUP);
            count == |missing| && (count > 0 ==> last == missing[count - 1])
  {
    count, last := 0, 0;
    for off := 0 to FEC_MAX_GROUP
      invariant var missing := MissingBelow(mask, base, recv, off);
                count == |missing| && (count > 0 ==> last == missing[count - 1])
    {
      if mask[off] {
        var present := IsPresent(recv, Plus(base, off));
        if !present { count, last := count + 1, off; }
      }
    }
  }

  /** The recovery fields of the packet header. */
  datatype Head = Head(r0: Byte, r1: Byte, t0: Byte, t1: Byte, t2: Byte, t3: Byte, rlen: nat)

  /** What the recovery fields are after XORing in the members. */
  function HeadOf(fec: seq<Byte>, members: seq<Packet>): Head
    requires Sized(members) && |fec| >= FEC_OVERHEAD
  {
    Head(Residue(fec, members, 0), Residue(fec, members, 1), Residue(fec, members, 2), Residue(fec, members, 3),
         Residue(fec, members, 4), Residue(fec, members, 5), Word(Residue(fec, members, 6), Residue(fec, members, 7)))
  }

  lemma ResidueStep(fec: seq<Byte>, members: seq<Packet>, p: Packet, k: nat)
    requires Sized(members) && FEC_RTP_HDR <= |p| < 0x1_0000 && Spot(k) < |fec|
    ensures Sized(members + [p])
    ensures Residue(fec, members + [p], k) == XorB(Residue(fec, members, k), Field(p, k))
  {
    assert (members + [p])[..|members|] == members;
    XorAssoc(if k == 0 then fec[0] % 64 else fec[Spot(k)], XorField(members, k), Field(p, k));
  }

  lemma ResidueNone(fec: seq<Byte>, k: nat)
    requires Spot(k) < |fec|
    ensures Residue(fec, [], k) == if k == 0 then fec[0] % 64 else fec[Spot(k)]
  {
    XorZero(if k == 0 then fec[0] % 64 else fec[Spot(k)]);
  }

  method SeedHead(fec: seq<Byte>) returns (h: Head)
    requires |fec| >= FEC_OVERHEAD
    ensures h == HeadOf(fec, [])
  {
    h := Head(fec[0] % 64, fec[1], fec[4], fec[5], fec[6], fec[7], Read16(fec, 8));
    forall k | 0 <= k < 8 ensures Residue(fec, [], k) == if k == 0 then fec[0] % 64 else fec[Spot(k)] {
      ResidueNone(fec, k);
    }
  }

  method FoldHead(h: Head, p: Packet, ghost fec: seq<Byte>, ghost members: seq<Packet>) returns (r: Head)
    requires Sized(members) && |fec| >= FEC_OVERHEAD && FEC_RTP_HDR <= |p| < 0x1_0000 && h == HeadOf(fec, members)
    ensures Sized(members + [p]) && r == HeadOf(fec, members + [p])
  {
    var l16 := |p| - FEC_RTP_HDR;
    ResidueStep(fec, members, p, 0);
    ResidueStep(fec, members, p, 1);
    ResidueStep(fec, members, p, 2);
    ResidueStep(fec, members, p, 3);
    ResidueStep(fec, members, p, 4);
    ResidueStep(fec, members, p, 5);
    LengthStep(fec, members, p);
    r := Head(XorB(h.r0, p[0] % 64), XorB(h.r1, p[1]), XorB(h.t0, p[4]), XorB(h.t1, p[5]), XorB(h.t2, p[6]), XorB(h.t3, p[7]),
              Xor(h.rlen, l16));
  }

  /** The 16-bit length recovery XORs both bytes at once. */
  lemma LengthStep(fec: seq<Byte>, members: seq<Packet>, p: Packet)
    requires Sized(members) && |fec| >= FEC_OVERHEAD && FEC_RTP_HDR <= |p| < 0x1_0000
    ensures Sized(members + [p])
    ensures Xor(HeadOf(fec, members).rlen, |p| - FEC_RTP_HDR) == HeadOf(fec, members + [p]).rlen
  {
    ResidueStep(fec, members, p, 6);
    ResidueStep(fec, members, p, 7);
    WordStep(Residue(fec, members, 6), Residue(fec, members, 7), |p| - FEC_RTP_HDR);
  }

  lemma WordStep(h: Byte, l: Byte, n: nat)
    requires n < 0x1_0000
    ensures Xor(Word(h, l), n) == Word(XorB(h, High(n)), XorB(l, Low(n)))
  {
    XorWords(h, l, High(n), Low(n));
    assert Word(High(n), Low(n)) == n;
  }

  /** The payload area holds what the members leave of the FEC payload. */
  ghost predicate PayloadIs(out: seq<Byte>, fec: seq<Byte>, members: seq<Packet>, protlen: nat)
    requires Sized(members) && |fec| >= FEC_OVERHEAD + protlen && |out| >= FEC_RTP_HDR + protlen
  {
    forall i | FEC_RTP_HDR <= i < FEC_RTP_HDR + protlen :: out[i] == Residue(fec, members, i - 4)
  }

  /** XORs a member's payload into the buffer, up to the protection length. */
  method FoldMember(out: array<Byte>, protlen: nat, p: Packet, ghost fec: seq<Byte>, ghost members: seq<Packet>)
    requires Sized(members) && |fec| >= FEC_OVERHEAD + protlen && out.Length >= FEC_RTP_HDR + protlen
    requires FEC_RTP_HDR <= |p| < 0x1_0000 && PayloadIs(out[..], fec, members, protlen)
    modifies out
    ensures Sized(members + [p]) && PayloadIs(out[..], fec, members + [p], protlen)
    ensures out[FEC_RTP_HDR + protlen..] == old(out[FEC_RTP_HDR + protlen..])
  {
    ghost var before := out[..];
    var l16 := |p| - FEC_RTP_HDR;
    var pcopy := if l16 < protlen then l16 else protlen;
    for k := 0 to pcopy
      invariant forall i | 0 <= i < out.Length :: out[i] ==
                  if FEC_RTP_HDR <= i < FEC_RTP_HDR + k then XorB(before[i], p[i]) else before[i]
    {
      out[FEC_RTP_HDR + k] := XorB(out[FEC_RTP_HDR + k], p[FEC_RTP_HDR + k]);
    }
    forall i | FEC_RTP_HDR <= i < FEC_RTP_HDR + protlen ensures out[i] == Residue(fec, members + [p], i - 4) {
      ResidueStep(fec, members, p, i - 4);
      XorZero(before[i]);
    }
    assert Sized(members + [p]) by { ResidueStep(fec, members, p, 0); }
  }

  /** XORs every received member into the recovery fields. */
  method FoldMembers(fec: seq<Byte>, protlen: nat, mask: Mask, base: Sn, recv: seq<Slot>, out: array<Byte>) returns (h: Head)
    requires |fec| >= FEC_OVERHEAD + protlen && out.Length >= FEC_RTP_HDR + protlen
    modifies out
    ensures h == HeadOf(fec, Members(recv, mask, base))
    ensures PayloadIs(out[..], fec, Members(recv, mask, base), protlen)
    ensures out[FEC_RTP_HDR + protlen..] == old(out[FEC_RTP_HDR + protlen..])
  {
    h := SeedHead(fec);
    ghost var tail := out[FEC_RTP_HDR + protlen..];
    forall i | FEC_RTP_HDR <= i < FEC_RTP_HDR + protlen { out[i] := fec[i + 2]; }
    assert PayloadIs(out[..], fec, [], protlen) by {
      forall i | FEC_RTP_HDR <= i < FEC_RTP_HDR + protlen ensures out[i] == Residue(fec, [], i - 4) { ResidueNone(fec, i - 4); }
    }
    assert recv[..0] == [];
    for j := 0 to |recv|
      invariant h == HeadOf(fec, Members(recv[..j], mask, base))
      invariant PayloadIs(out[..], fec, Members(recv[..j], mask, base), protlen)
      invariant out[FEC_RTP_HDR + protlen..] == tail
    {
      ghost var members := Members(recv[..j], mask, base);
      assert recv[..j + 1][..j] == recv[..j];
      if IsMember(recv[j], mask, base) {
        h := FoldHead(h, recv[j].p, fec, members);
        FoldMember(out, protlen, recv[j].p, fec, members);
        assert Members(recv[..j + 1], mask, base) == members + [recv[j].p];
      } else {
        assert Members(recv[..j + 1], mask, base) == members;
      }
    }
    assert recv[..|recv|] == recv;
  }

  /** Writes the header of the rebuilt packet. */
  method WriteHeader(out: array<Byte>, h: Head, sn: Sn, ssrc: seq<Byte>)
    requires out.Length >= FEC_RTP_HDR && |ssrc| == 4
    modifies out
    ensures out[..FEC_RTP_HDR] == [Version2(h.r0), h.r1, High(sn), Low(sn), h.t0, h.t1, h.t2, h.t3] + ssrc
    ensures out[FEC_RTP_HDR..] == old(out[FEC_RTP_HDR..])
  {
    out[0] := Version2(h.r0);
    out[1] := h.r1;
    out[2], out[3] := High(sn), Low(sn);
    out[4], out[5], out[6], out[7] := h.t0, h.t1, h.t2, h.t3;
    out[8], out[9], out[10], out[11] := ssrc[0], ssrc[1], ssrc[2], ssrc[3];
  }

  /** Rebuilds the one missing packet of a group. */
  method RecoverFec(fec: seq<Byte>, ssrc: seq<Byte>, recv: seq<Slot>, out: array<Byte>)
    returns (status: Status, len: nat, sn: Sn)
    requires |ssrc| == 4
    modifies out
    ensures var r := Recover(fec, ssrc, recv, out.Length);
            if r.Failed? then status == r.status && out[..] == old(out[..])
            else status == Ok && sn == r.sn && len <= out.Length && out[..len] == r.packet
  {
    len, sn := 0, 0;
    if |fec| < FEC_OVERHEAD { return InvalidParam, 0, 0; }
    var base, protlen, mask := Read16(fec, 2), Read16(fec, 10), ReadMask(fec[12], fec[13]);
    if |fec| < FEC_OVERHEAD + protlen { return InvalidParam, 0, 0; }
    var count, last := FindMissing(mask, base, recv);
    if count != 1 { return NoData, 0, 0; }
    sn := Plus(base, last);
    if out.Length < FEC_RTP_HDR + protlen { return BufferTooSmall, 0, sn; }
    len := Rebuild(fec, protlen, mask, base, recv, ssrc, sn, out);
    status := Ok;
  }

  method Rebuild(fec: seq<Byte>, protlen: nat, mask: Mask, base: Sn, recv: seq<Slot>, ssrc: seq<Byte>, sn: Sn, out: array<Byte>)
    returns (len: nat)
    requires |ssrc| == 4 && |fec| >= FEC_OVERHEAD + protlen && out.Length >= FEC_RTP_HDR + protlen
    modifies out
    ensures len <= out.Length && out[..len] == Rebuilt(fec, Members(recv, mask, base), protlen, ssrc, sn)
  {
    ghost var members := Members(recv, mask, base);
    var h := FoldMembers(fec, protlen, mask, base, recv, out);
    var rlen := if h.rlen > protlen then protlen else h.rlen;
    ghost var filled := out[..];
    WriteHeader(out, h, sn, ssrc);
    len := FEC_RTP_HDR + rlen;
    assert out[FEC_RTP_HDR..] == filled[FEC_RTP_HDR..];
    assert out[..len] == out[..FEC_RTP_HDR] + filled[FEC_RTP_HDR..len] by {
      assert out[FEC_RTP_HDR..len] == out[FEC_RTP_HDR..][..rlen] == filled[FEC_RTP_HDR..][..rlen] == filled[FEC_RTP_HDR..len];
    }
    PayloadTail(filled, fec, members, protlen, rlen);
    RebuiltShape(fec, members, protlen, ssrc, sn, rlen, [Version2(h.r0), h.r1, High(sn), Low(sn)],
                 [h.t0, h.t1, h.t2, h.t3], filled[FEC_RTP_HDR..len]);
  }

  lemma PayloadTail(out: seq<Byte>, fec: seq<Byte>, members: seq<Packet>, protlen: nat, rlen: nat)
    requires Sized(members) && |fec| >= FEC_OVERHEAD + protlen && |out| >= FEC_RTP_HDR + protlen && rlen <= protlen
    requires PayloadIs(out, fec, members, protlen)
    ensures var tail := out[FEC_RTP_HDR..FEC_RTP_HDR + rlen];
            forall i | 0 <= i < rlen :: tail[i] == Residue(fec, members, 8 + i)
  {
    var tail := out[FEC_RTP_HDR..FEC_RTP_HDR + rlen];
    forall i | 0 <= i < rlen ensures tail[i] == Residue(fec, members, 8 + i) {
      assert out[FEC_RTP_HDR + i] == Residue(fec, members, FEC_RTP_HDR + i - 4);
    }
  }
}
