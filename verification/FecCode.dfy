/** The ULPFEC level-0 code (RFC 5109 sections 7.3, 7.4 and 9) as functions on
    packets: the FEC bit string of a packet, the XOR of a group, the FEC body that
    an encoder emits and the packet that a decoder rebuilds. */
module FecCode {
  import opened Bits

  type Packet = seq<Byte>

  const FEC_HEADER_SIZE: nat := 10
  const FEC_OVERHEAD: nat := 14
  const FEC_MAX_GROUP: nat := 16
  const FEC_RTP_HDR: nat := 12

  datatype Status = Ok | InvalidParam | BufferTooSmall | NoData

  function Read16(s: seq<Byte>, i: nat): (n: nat)
    requires i + 2 <= |s|
    ensures n < 0x1_0000
  {
    Word(s[i], s[i + 1])
  }

  /** The 16-bit level-0 mask as its bits; bit `off`, most significant first, protects
      the packet `off` after the base. */
  type Mask = m: seq<bool> | |m| == 16 witness seq(16, i => false)

  function MaskWord(m: Mask): (n: nat)
    ensures n < 0x1_0000
  {
    Powers();
    Number(m)
  }

  function ReadMask(h: Byte, l: Byte): Mask {
    BitsOf(Word(h, l), 16)
  }

  // ----- sequence numbers -----

  type Sn = n: nat | n < 0x1_0000

  function Seq(p: Packet): Sn
    requires |p| >= 4
  {
    Read16(p, 2)
  }

  /** Every packet reaches past its sequence number. */
  predicate Numbered(pkts: seq<Packet>) {
    forall i | 0 <= i < |pkts| :: 4 <= |pkts[i]| < 0x1_0000
  }

  function Seqs(pkts: seq<Packet>): (r: seq<Sn>)
    requires Numbered(pkts)
    ensures |r| == |pkts|
  {
    seq(|pkts|, i requires 0 <= i < |pkts| => Seq(pkts[i]))
  }

  /** The 16-bit difference `sn - base`. */
  function Offset(sn: Sn, base: Sn): Sn {
    if sn >= base then sn - base else sn - base + 0x1_0000
  }

  /** The 16-bit sum `base + off`. */
  function Plus(base: Sn, off: nat): Sn
    requires off < FEC_MAX_GROUP
  {
    if base + off < 0x1_0000 then base + off else base + off - 0x1_0000
  }

  /** `(int16_t)(sn - base) < 0`. */
  predicate Before(sn: Sn, base: Sn) {
    Offset(sn, base) >= 0x8000
  }

  /** The earliest number in signed 16-bit order. */
  function BaseOf(sns: seq<Sn>): (r: Sn)
    requires sns != []
    ensures r in sns
  {
    var last := sns[|sns| - 1];
    if |sns| == 1 then last
    else
      var b := BaseOf(sns[..|sns| - 1]);
      if Before(last, b) then last else b
  }

  /** Every number lies within sixteen from `base`. */
  predicate Within(sns: seq<Sn>, base: Sn) {
    forall i | 0 <= i < |sns| :: Offset(sns[i], base) < FEC_MAX_GROUP
  }

  function MaskOf(sns: seq<Sn>, base: Sn): Mask
    requires Within(sns, base)
  {
    if sns == [] then seq(16, i => false)
    else MaskOf(sns[..|sns| - 1], base)[Offset(sns[|sns| - 1], base) := true]
  }

  // ----- the FEC bit string -----

  /** Byte `k` of the FEC bit string of a packet, continued by zeros: P/X/CC, M/PT,
      timestamp, length, then everything past the fixed header. */
  function Field(p: Packet, k: nat): Byte
    requires FEC_RTP_HDR <= |p| < 0x1_0000
  {
    if k == 0 then p[0] % 64
    else if k == 1 then p[1]
    else if k < 6 then p[k + 2]
    else if k == 6 then High(|p| - FEC_RTP_HDR)
    else if k == 7 then Low(|p| - FEC_RTP_HDR)
    else if k + 4 < |p| then p[k + 4] else 0
  }

  predicate Sized(pkts: seq<Packet>) {
    forall i | 0 <= i < |pkts| :: FEC_RTP_HDR <= |pkts[i]| < 0x1_0000
  }

  /** Byte `k` of the XOR of the bit strings. */
  function XorField(pkts: seq<Packet>, k: nat): Byte
    requires Sized(pkts)
  {
    if pkts == [] then 0 else XorB(XorField(pkts[..|pkts| - 1], k), Field(pkts[|pkts| - 1], k))
  }

  // ----- encoding -----

  function MaxLength(pkts: seq<Packet>): (n: nat)
    ensures forall i | 0 <= i < |pkts| :: |pkts[i]| <= n
    ensures pkts != [] ==> exists i | 0 <= i < |pkts| :: |pkts[i]| == n
  {
    if pkts == [] then 0
    else
      var n, m := MaxLength(pkts[..|pkts| - 1]), |pkts[|pkts| - 1]|;
      assert forall i | 0 <= i < |pkts| - 1 :: pkts[i] == pkts[..|pkts| - 1][i];
      if m > n then m else n
  }

  predicate Protectable(pkts: seq<Packet>) {
    0 < |pkts| <= FEC_MAX_GROUP && Sized(pkts) && Within(Seqs(pkts), BaseOf(Seqs(pkts)))
  }

  /** Position in the FEC body of byte `k` of the XORed bit string. */
  function Spot(k: nat): nat {
    if k < 2 then k else if k < 8 then k + 2 else k + 6
  }

  /** The FEC body for a group. */
  function Body(pkts: seq<Packet>): (r: seq<Byte>)
    requires Protectable(pkts)
    ensures |r| == FEC_OVERHEAD + MaxLength(pkts) - FEC_RTP_HDR
  {
    var base, protlen := BaseOf(Seqs(pkts)), MaxLength(pkts) - FEC_RTP_HDR;
    var mask := MaskWord(MaskOf(Seqs(pkts), base));
    seq(FEC_OVERHEAD + protlen, i requires 0 <= i < FEC_OVERHEAD + protlen =>
      if i < 2 then XorField(pkts, i)
      else if i == 2 then High(base)
      else if i == 3 then Low(base)
      else if i < 10 then XorField(pkts, i - 2)
      else if i == 10 then High(protlen)
      else if i == 11 then Low(protlen)
      else if i == 12 then High(mask)
      else if i == 13 then Low(mask)
      else XorField(pkts, i - 6))
  }

  function Encode(pkts: seq<Packet>, cap: nat): (Status, seq<Byte>)
    requires Numbered(pkts)
  {
    if !Protectable(pkts) then (InvalidParam, [])
    else if cap < |Body(pkts)| then (BufferTooSmall, [])
    else (Ok, Body(pkts))
  }

  // ----- recovery -----

  /** A received slot: null, or a packet of any length a 16-bit counter holds. */
  datatype Slot = Null | Got(p: Packet)

  predicate Usable(s: Slot) {
    s.Got? && FEC_RTP_HDR <= |s.p| < 0x1_0000
  }

  /** Some usable received packet has sequence number `sn`. */
  predicate Present(recv: seq<Slot>, sn: Sn) {
    exists j | 0 <= j < |recv| :: Usable(recv[j]) && Seq(recv[j].p) == sn
  }

  predicate IsMissing(mask: Mask, base: Sn, recv: seq<Slot>, off: nat) {
    off < FEC_MAX_GROUP && mask[off] && !Present(recv, Plus(base, off))
  }

  /** Protected offsets below `n` whose packet is absent, ascending. */
  function MissingBelow(mask: Mask, base: Sn, recv: seq<Slot>, n: nat): (r: seq<nat>)
    ensures |r| <= n
    ensures forall i | 0 <= i < |r| :: r[i] < n && IsMissing(mask, base, recv, r[i])
  {
    if n == 0 then []
    else MissingBelow(mask, base, recv, n - 1) + if IsMissing(mask, base, recv, n - 1) then [n - 1] else []
  }

  predicate IsMember(s: Slot, mask: Mask, base: Sn) {
    Usable(s) && Offset(Seq(s.p), base) < FEC_MAX_GROUP && mask[Offset(Seq(s.p), base)]
  }

  /** The received packets that the mask protects, in order. */
  function Members(recv: seq<Slot>, mask: Mask, base: Sn): (r: seq<Packet>)
    ensures Sized(r)
  {
    if recv == [] then []
    else Members(recv[..|recv| - 1], mask, base) +
         if IsMember(recv[|recv| - 1], mask, base) then [recv[|recv| - 1].p] else []
  }

  datatype Recovery = Failed(status: Status) | Recovered(packet: Packet, sn: Sn)

  /** Byte `k` of the bit string that XORing the members into the FEC body leaves. */
  function Residue(fec: seq<Byte>, members: seq<Packet>, k: nat): Byte
    requires Sized(members) && Spot(k) < |fec|
  {
    XorB(if k == 0 then fec[0] % 64 else fec[Spot(k)], XorField(members, k))
  }

  /** Payload bytes of the rebuilt packet: the recovered length, at most the protection length. */
  function RebuiltLen(fec: seq<Byte>, members: seq<Packet>, protlen: nat): (n: nat)
    requires Sized(members) && |fec| >= FEC_OVERHEAD
    ensures n <= protlen
  {
    var rlen := Word(Residue(fec, members, 6), Residue(fec, members, 7));
    if rlen > protlen then protlen else rlen
  }

  /** `0x80 | r`: version 2 over the recovered low six bits. */
  function Version2(r: Byte): Byte {
    128 + r % 64
  }

  function Rebuilt(fec: seq<Byte>, members: seq<Packet>, protlen: nat, ssrc: seq<Byte>, sn: Sn): Packet
    requires Sized(members) && |fec| >= FEC_OVERHEAD + protlen && |ssrc| == 4
  {
    [Version2(Residue(fec, members, 0)), Residue(fec, members, 1), High(sn), Low(sn)]
    + [Residue(fec, members, 2), Residue(fec, members, 3), Residue(fec, members, 4), Residue(fec, members, 5)]
    + ssrc
    + seq(RebuiltLen(fec, members, protlen), i requires 0 <= i < protlen => Residue(fec, members, 8 + i))
  }

  lemma RebuiltShape(fec: seq<Byte>, others: seq<Packet>, protlen: nat, ssrc: seq<Byte>, sn: Sn, n: nat,
                     first: seq<Byte>, mid: seq<Byte>, tail: seq<Byte>)
    requires Sized(others) && |fec| >= FEC_OVERHEAD + protlen && |ssrc| == 4 && RebuiltLen(fec, others, protlen) == n
    requires first == [Version2(Residue(fec, others, 0)), Residue(fec, others, 1), High(sn), Low(sn)]
    requires mid == [Residue(fec, others, 2), Residue(fec, others, 3), Residue(fec, others, 4), Residue(fec, others, 5)]
    requires |tail| == n && forall i | 0 <= i < n :: tail[i] == Residue(fec, others, 8 + i)
    ensures Rebuilt(fec, others, protlen, ssrc, sn) == first + mid + ssrc + tail
  {
    assert tail == seq(n, i requires 0 <= i < protlen => Residue(fec, others, 8 + i));
  }

  function Recover(fec: seq<Byte>, ssrc: seq<Byte>, recv: seq<Slot>, cap: nat): Recovery
    requires |ssrc| == 4
  {
    if |fec| < FEC_OVERHEAD then Failed(InvalidParam)
    else
      var base, protlen, mask := Read16(fec, 2), Read16(fec, 10), ReadMask(fec[12], fec[13]);
      if |fec| < FEC_OVERHEAD + protlen then Failed(InvalidParam)
      else
        var missing := MissingBelow(mask, base, recv, FEC_MAX_GROUP);
        if |missing| != 1 then Failed(NoData)
        else if cap < FEC_RTP_HDR + protlen then Failed(BufferTooSmall)
        else
          var sn := Plus(base, missing[0]);
          Recovered(Rebuilt(fec, Members(recv, mask, base), protlen, ssrc, sn), sn)
  }
}
