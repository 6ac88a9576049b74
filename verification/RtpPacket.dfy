/** RTP packets (section 5.1 of RFC 3550) with the one-byte transport-wide sequence number
    extension (section 4.2 of RFC 8285): packing into a buffer, unpacking, and the round trip. */
module RtpPacket {
  import opened Bits

  type Bytes = seq<Byte>
  type U16 = n: nat | n < 0x1_0000
  type U32 = n: nat | n < 0x1_0000_0000

  const RTP_HEADER_SIZE: nat := 12
  const TWCC_EXT_OVERHEAD: nat := 8

  /** The sending state of one stream. */
  datatype Rtp = Rtp(ssrc: U32, payloadType: Byte, seqNo: U16, marker: bool, extId: Byte, twccSeq: U16)

  function Bytes16(n: U16): Bytes {
    [n / 256, n % 256]
  }

  function Bytes32(n: U32): Bytes {
    [n / 0x100_0000, n / 0x1_0000 % 256, n / 256 % 256, n % 256]
  }

  function Join16(h: int, l: int): int {
    h * 256 + l
  }

  function Join32(a: int, b: int, c: int, d: int): int {
    a * 0x100_0000 + b * 0x1_0000 + c * 256 + d
  }

  function Read16(s: Bytes, i: nat): U16
    requires i + 2 <= |s|
  {
    Join16(s[i], s[i + 1])
  }

  function Read32(s: Bytes, i: nat): U32
    requires i + 4 <= |s|
  {
    Join32(s[i], s[i + 1], s[i + 2], s[i + 3])
  }

  /** Extension ids outside 1..14 switch the extension off. */
  predicate HasTwcc(r: Rtp) {
    r.extId != 0 && r.extId <= 14
  }

  /** Where the payload starts. */
  function PayloadOffset(r: Rtp): nat {
    RTP_HEADER_SIZE + if HasTwcc(r) then TWCC_EXT_OVERHEAD else 0
  }

  /** The extension block: profile, length of one word, id and size, sequence number, padding. */
  function Extension(r: Rtp): Bytes {
    if HasTwcc(r) then [0xBE, 0xDE, 0, 1, r.extId % 16 * 16 + 1] + Bytes16(r.twccSeq) + [0] else []
  }

  function Header(r: Rtp, ts: U32): (h: Bytes)
    ensures |h| == PayloadOffset(r)
  {
    [if HasTwcc(r) then 0x90 else 0x80, (if r.marker then 0x80 else 0) + r.payloadType % 128]
    + Bytes16(r.seqNo) + Bytes32(ts) + Bytes32(r.ssrc) + Extension(r)
  }

  function Packet(r: Rtp, ts: U32, payload: Bytes): Bytes {
    Header(r, ts) + payload
  }

  function Advanced(r: Rtp): Rtp {
    r.(seqNo := (r.seqNo + 1) % 0x1_0000, marker := false,
       twccSeq := if HasTwcc(r) then (r.twccSeq + 1) % 0x1_0000 else r.twccSeq)
  }

  datatype Status = InvalidParam | Parse

  datatype Unpacked = Bad(status: Status) | Good(payloadType: nat, seqNo: U16, ts: U32, ssrc: U32, payload: Bytes)

  /** Length of the header with contributing sources and extension, if the packet holds it. */
  function HeaderLen(data: Bytes): (r: nat)
    requires |data| >= RTP_HEADER_SIZE
    ensures r == 0 || RTP_HEADER_SIZE <= r <= |data|
  {
    var base := RTP_HEADER_SIZE + data[0] % 16 * 4;
    if base > |data| then 0
    else if data[0] / 16 % 2 == 0 then base
    else if |data| - base < 4 then 0
    else
      var words := Read16(data, base + 2);
      if words > (|data| - base - 4) / 4 then 0 else base + 4 + words * 4
  }

  function Unpack(data: Bytes): Unpacked {
    if |data| < RTP_HEADER_SIZE then Bad(InvalidParam)
    else if data[0] / 64 != 2 then Bad(Parse)
    else
      var h := HeaderLen(data);
      if h == 0 then Bad(Parse)
      else
        var body := |data| - h;
        var padded := data[0] / 32 % 2 == 1;
        var padding := if padded then data[|data| - 1] else 0;
        if padded && (body == 0 || padding == 0 || padding > body) then Bad(Parse)
        else Good(data[1] % 128, Read16(data, 2), Read32(data, 4), Read32(data, 8), data[h..|data| - padding])
  }

  lemma RoundTrip16(n: U16)
    ensures Join16(Bytes16(n)[0], Bytes16(n)[1]) == n
  {
  }

  lemma RoundTrip32(n: U32)
    ensures var b := Bytes32(n); Join32(b[0], b[1], b[2], b[3]) == n
  {
    assert n == 256 * (n / 256) + n % 256;
    assert n / 256 == 256 * (n / 0x1_0000) + n / 256 % 256;
    assert n / 0x1_0000 == 256 * (n / 0x100_0000) + n / 0x1_0000 % 256;
  }

  lemma HeaderBytes(r: Rtp, ts: U32, payload: Bytes)
    ensures var p := Packet(r, ts, payload);
            && p[0] == (if HasTwcc(r) then 0x90 else 0x80) && p[1] == (if r.marker then 0x80 else 0) + r.payloadType % 128
            && p[2..4] == Bytes16(r.seqNo) && p[4..8] == Bytes32(ts) && p[8..12] == Bytes32(r.ssrc)
            && (HasTwcc(r) ==> |p| >= 20 && p[14] == 0 && p[15] == 1)
            && p[PayloadOffset(r)..] == payload
  {
    var p, b, c, d := Packet(r, ts, payload), Bytes16(r.seqNo), Bytes32(ts), Bytes32(r.ssrc);
    assert p[2] == b[0] && p[3] == b[1];
    assert p[4] == c[0] && p[5] == c[1] && p[6] == c[2] && p[7] == c[3];
    assert p[8] == d[0] && p[9] == d[1] && p[10] == d[2] && p[11] == d[3];
    assert p[2..4] == [p[2], p[3]] && p[4..8] == [p[4], p[5], p[6], p[7]] && p[8..12] == [p[8], p[9], p[10], p[11]];
    assert b == [b[0], b[1]] && c == [c[0], c[1], c[2], c[3]] && d == [d[0], d[1], d[2], d[3]];
  }

  /** The extension block of RFC 8285 section 4.2 with one element: the profile and the length of one word,
      then the id, the size 2 (written as 1) and the transport-wide number, then padding. */
  lemma ExtensionBytes(r: Rtp, ts: U32, payload: Bytes)
    requires HasTwcc(r)
    ensures var p := Packet(r, ts, payload);
            && |p| == 20 + |payload| && p[0] / 16 % 2 == 1 && Read16(p, 12) == 0xBEDE && Read16(p, 14) == 1
            && p[16] / 16 == r.extId && p[16] % 16 == 1 && Read16(p, 17) == r.twccSeq && p[19] == 0
  {
    var p := Packet(r, ts, payload);
    assert p[12..20] == Extension(r) && forall k | 0 <= k < 8 :: p[12 + k] == p[12..20][k];
    RoundTrip16(r.twccSeq);
  }

  /** Without the extension its bit is clear and the payload follows the fixed header. */
  lemma NoExtension(r: Rtp, ts: U32, payload: Bytes)
    requires !HasTwcc(r)
    ensures var p := Packet(r, ts, payload); p[0] / 16 % 2 == 0 && p[12..] == payload
  {
    HeaderBytes(r, ts, payload);
  }

  lemma HeaderLenIs(r: Rtp, ts: U32, payload: Bytes)
    ensures HeaderLen(Packet(r, ts, payload)) == PayloadOffset(r)
  {
    HeaderBytes(r, ts, payload);
  }

  /** A packed packet unpacks to what was packed, with or without the extension. */
  lemma PackUnpack(r: Rtp, ts: U32, payload: Bytes)
    ensures Unpack(Packet(r, ts, payload)) == Good(r.payloadType % 128, r.seqNo, ts, r.ssrc, payload)
    ensures Packet(r, ts, payload)[1] / 128 == if r.marker then 1 else 0
  {
    HeaderBytes(r, ts, payload);
    HeaderLenIs(r, ts, payload);
    UnpackPacket(Packet(r, ts, payload), r, ts, payload);
  }

  lemma UnpackPacket(p: Bytes, r: Rtp, ts: U32, payload: Bytes)
    requires |p| >= RTP_HEADER_SIZE && PayloadOffset(r) <= |p| && HeaderLen(p) == PayloadOffset(r) && p[PayloadOffset(r)..] == payload
    requires p[0] == (if HasTwcc(r) then 0x90 else 0x80) && p[1] == (if r.marker then 0x80 else 0) + r.payloadType % 128
    requires p[2..4] == Bytes16(r.seqNo) && p[4..8] == Bytes32(ts) && p[8..12] == Bytes32(r.ssrc)
    ensures Unpack(p) == Good(r.payloadType % 128, r.seqNo, ts, r.ssrc, payload)
    ensures p[1] / 128 == if r.marker then 1 else 0
  {
    UnpackFields(p, PayloadOffset(r), r.seqNo, ts, r.ssrc);
  }

  lemma UnpackFields(p: Bytes, h: nat, seqNo: U16, ts: U32, ssrc: U32)
    requires |p| >= RTP_HEADER_SIZE && (p[0] == 0x80 || p[0] == 0x90) && 0 < h <= |p| && HeaderLen(p) == h
    requires p[2..4] == Bytes16(seqNo) && p[4..8] == Bytes32(ts) && p[8..12] == Bytes32(ssrc)
    ensures Unpack(p) == Good(p[1] % 128, seqNo, ts, ssrc, p[h..])
  {
    SeqRead(p, seqNo);
    WordRead(p, 4, ts);
    WordRead(p, 8, ssrc);
    UnpackPlain(p, h);
  }

  lemma SeqRead(p: Bytes, n: U16)
    requires |p| >= 4 && p[2..4] == Bytes16(n)
    ensures Read16(p, 2) == n
  {
    assert p[2..4][0] == p[2] && p[2..4][1] == p[3];
    RoundTrip16(n);
  }

  lemma WordRead(p: Bytes, i: nat, n: U32)
    requires |p| >= i + 4 && p[i..i + 4] == Bytes32(n)
    ensures Read32(p, i) == n
  {
    var w := p[i..i + 4];
    assert w[0] == p[i] && w[1] == p[i + 1] && w[2] == p[i + 2] && w[3] == p[i + 3];
    RoundTrip32(n);
  }

  /** A packet without padding. */
  lemma UnpackPlain(data: Bytes, h: nat)
    requires |data| >= RTP_HEADER_SIZE && (data[0] == 0x80 || data[0] == 0x90) && 0 < h <= |data| && HeaderLen(data) == h
    ensures Unpack(data) == Good(data[1] % 128, Read16(data, 2), Read32(data, 4), Read32(data, 8), data[h..])
  {
    assert data[0] / 64 == 2 && data[0] / 32 % 2 == 0;
    assert data[h..|data|] == data[h..];
  }

  /** The sender of one stream; packets are written into a caller's buffer. */
  class Sender {
    var rtp: Rtp

    constructor (ssrc: U32, payloadType: Byte, extId: Byte)
      ensures rtp == Rtp(ssrc, payloadType, 0, true, extId, 0)
    {
      rtp := Rtp(ssrc, payloadType, 0, true, extId, 0);
    }

    /** Packs a payload into `buf`; nothing changes when the buffer is too small. */
    method Pack(ts: U32, payload: Bytes, buf: array<Byte>) returns (ok: bool, len: nat)
      modifies this, buf
      ensures ok == (PayloadOffset(old(rtp)) + |payload| <= buf.Length)
      ensures ok ==> len <= buf.Length && buf[..len] == Packet(old(rtp), ts, payload) && rtp == Advanced(old(rtp))
      ensures ok ==> buf[len..] == old(buf[len..])
      ensures !ok ==> rtp == old(rtp) && buf[..] == old(buf[..])
    {
      var header := Header(rtp, ts);
      len := |header| + |payload|;
      if buf.Length < len { return false, 0; }
      forall i | 0 <= i < |header| { buf[i] := header[i]; }
      forall i | 0 <= i < |payload| { buf[|header| + i] := payload[i]; }
      rtp := Advanced(rtp);
      ok := true;
      assert buf[..len] == header + payload;
    }
  }
}
