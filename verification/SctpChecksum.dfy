/** The checksum of an SCTP packet: bytes 8 to 11, taken over the packet with these bytes zero. */
module SctpChecksum {
  import opened Crc32cTable
  import opened Crc32c

  const HEADER: nat := 12

  datatype Status = Ok | Parse | Protocol

  /** A register as it lies in memory, lowest byte first. */
  function Byte(v: bv32): bv8 {
    (v & 0xFF) as bv8
  }

  function Bytes4(v: bv32): (r: Bytes)
    ensures |r| == 4
  {
    [Byte(v), Byte(High(v)), Byte(High(High(v))), Byte(High(High(High(v))))]
  }

  function Load(s: Bytes): bv32
    requires |s| == 4
  {
    Word4(s[0], s[1], s[2], s[3])
  }

  lemma JoinParts(v: bv32)
    ensures Joined(Byte(v), High(v)) == v
  {
  }

  lemma TopByte(v: bv32)
    ensures Wide(Byte(High(High(High(v))))) == High(High(High(v)))
  {
  }

  lemma LoadStore(v: bv32)
    ensures Load(Bytes4(v)) == v
  {
    JoinParts(v);
    JoinParts(High(v));
    JoinParts(High(High(v)));
    TopByte(v);
  }

  lemma LoadOneToOne(s: Bytes, t: Bytes)
    requires |s| == 4 && |t| == 4 && Load(s) == Load(t)
    ensures s == t
  {
    Word4OneToOne(s[0], s[1], s[2], s[3], t[0], t[1], t[2], t[3]);
  }

  const ZEROS: Bytes := [0, 0, 0, 0]

  /** The packet with another checksum field. */
  function With(p: Bytes, field: Bytes): (r: Bytes)
    requires |p| >= HEADER && |field| == 4
    ensures |r| == |p|
  {
    p[..8] + field + p[HEADER..]
  }

  function Expected(p: Bytes): bv32
    requires |p| >= HEADER
  {
    Crc(With(p, ZEROS))
  }

  function Finalized(p: Bytes): (r: Bytes)
    requires |p| >= HEADER
    ensures |r| == |p|
  {
    With(p, Bytes4(Expected(p)))
  }

  function Verified(p: Bytes): Status {
    if |p| < HEADER then Parse else if Expected(p) == Load(p[8..HEADER]) then Ok else Protocol
  }

  /** A finalized packet passes, and it is the only packet with this content that does. */
  lemma PassesIff(p: Bytes)
    requires |p| >= HEADER
    ensures Verified(Finalized(p)) == Ok
    ensures Verified(p) == Ok <==> p == Finalized(p)
  {
    var f := Finalized(p);
    assert f[8..HEADER] == Bytes4(Expected(p));
    assert With(f, ZEROS) == With(p, ZEROS);
    LoadStore(Expected(p));
    if Verified(p) == Ok {
      LoadOneToOne(p[8..HEADER], f[8..HEADER]);
      assert p == p[..8] + p[8..HEADER] + p[HEADER..];
    }
  }

  // ----- errors that are always found -----

  lemma DivideFour(c: bv32, w: Bytes)
    requires |w| == 4
    ensures Divide(c, w) == Steps(Steps(Steps(Steps(Plus(c, Load(w)), 8), 8), 8), 8)
  {
    assert w == [w[0], w[1], w[2], w[3]];
    FourBytes(c, w[0], w[1], w[2], w[3]);
    Unrolled(c, w[0], w[1], w[2], w[3]);
  }

  lemma DivideOne(c: bv32, b: bv8, rest: Bytes, all: Bytes)
    requires all == [b] + rest
    ensures Divide(c, all) == Divide(Feed(c, b), rest)
  {
    assert all[1..] == rest;
  }

  lemma Unrolled(c: bv32, w0: bv8, w1: bv8, w2: bv8, w3: bv8)
    ensures Divide(c, [w0, w1, w2, w3]) == Feed(Feed(Feed(Feed(c, w0), w1), w2), w3)
  {
    DivideOne(c, w0, [w1, w2, w3], [w0, w1, w2, w3]);
    DivideOne(Feed(c, w0), w1, [w2, w3], [w1, w2, w3]);
    DivideOne(Feed(Feed(c, w0), w1), w2, [w3], [w2, w3]);
    DivideOne(Feed(Feed(Feed(c, w0), w1), w2), w3, [], [w3]);
  }

  lemma FourOneToOne(c: bv32, w: Bytes, v: Bytes)
    requires |w| == 4 && |v| == 4 && Divide(c, w) == Divide(c, v)
    ensures w == v
  {
    DivideFour(c, w);
    DivideFour(c, v);
    StepsOneToOne(Steps(Steps(Steps(Plus(c, Load(w)), 8), 8), 8), Steps(Steps(Steps(Plus(c, Load(v)), 8), 8), 8), 8);
    StepsOneToOne(Steps(Steps(Plus(c, Load(w)), 8), 8), Steps(Steps(Plus(c, Load(v)), 8), 8), 8);
    StepsOneToOne(Steps(Plus(c, Load(w)), 8), Steps(Plus(c, Load(v)), 8), 8);
    StepsOneToOne(Plus(c, Load(w)), Plus(c, Load(v)), 8);
    Comm(c, Load(w));
    Comm(c, Load(v));
    Cancel(Load(w), Load(v), c);
    LoadOneToOne(w, v);
  }

  lemma CrcParts(a: Bytes, w: Bytes, b: Bytes)
    ensures Crc(a + w + b) == Plus(Divide(Divide(Divide(0xFFFF_FFFF, a), w), b), 0xFFFF_FFFF)
  {
    DivideSplits(0xFFFF_FFFF, a + w, b);
    DivideSplits(0xFFFF_FFFF, a, w);
  }

  /** Messages that differ only within four bytes have different checksums. */
  lemma BurstChangesCrc(a: Bytes, w: Bytes, v: Bytes, b: Bytes)
    requires |w| == 4 && |v| == 4 && w != v
    ensures Crc(a + w + b) != Crc(a + v + b)
  {
    CrcParts(a, w, b);
    CrcParts(a, v, b);
    var c := Divide(0xFFFF_FFFF, a);
    if Crc(a + w + b) == Crc(a + v + b) {
      Cancel(Divide(Divide(c, w), b), Divide(Divide(c, v), b), 0xFFFF_FFFF);
      DivideOneToOne(Divide(c, w), Divide(c, v), b);
      FourOneToOne(c, w, v);
      assert false;
    }
  }

  /** The packet with the four bytes at `i` replaced. */
  function Replaced(p: Bytes, i: nat, v: Bytes): (r: Bytes)
    requires i + 4 <= |p| && |v| == 4
    ensures |r| == |p|
  {
    p[..i] + v + p[i + 4..]
  }

  lemma ReplacedBefore(p: Bytes, i: nat, v: Bytes)
    requires |p| >= HEADER && i + 4 <= 8 && |v| == 4
    ensures With(p, ZEROS) == p[..i] + p[i..i + 4] + (p[i + 4..8] + ZEROS + p[HEADER..])
    ensures With(Replaced(p, i, v), ZEROS) == p[..i] + v + (p[i + 4..8] + ZEROS + p[HEADER..])
    ensures Replaced(p, i, v)[8..HEADER] == p[8..HEADER]
  {
    var q := Replaced(p, i, v);
    assert q[..8] == p[..i] + v + p[i + 4..8];
    assert q[HEADER..] == p[HEADER..];
  }

  lemma ReplacedBehind(p: Bytes, i: nat, v: Bytes)
    requires HEADER <= i && i + 4 <= |p| && |v| == 4
    ensures With(p, ZEROS) == (p[..8] + ZEROS + p[HEADER..i]) + p[i..i + 4] + p[i + 4..]
    ensures With(Replaced(p, i, v), ZEROS) == (p[..8] + ZEROS + p[HEADER..i]) + v + p[i + 4..]
    ensures Replaced(p, i, v)[8..HEADER] == p[8..HEADER]
  {
    var q := Replaced(p, i, v);
    assert q[..8] == p[..8];
    assert q[HEADER..] == p[HEADER..i] + v + p[i + 4..];
  }

  /** A packet that passed does not pass any more when four bytes in a row, in front of the
      checksum, behind it, or the checksum itself, are changed in any way. */
  lemma BurstIsRefused(p: Bytes, i: nat, v: Bytes)
    requires Verified(p) == Ok && i + 4 <= |p| && |v| == 4 && v != p[i..i + 4]
    requires i + 4 <= 8 || i == 8 || HEADER <= i
    ensures Verified(Replaced(p, i, v)) == Protocol
  {
    if i + 4 <= 8 {
      ReplacedBefore(p, i, v);
      BurstChangesCrc(p[..i], p[i..i + 4], v, p[i + 4..8] + ZEROS + p[HEADER..]);
    } else if i == 8 {
      assert With(Replaced(p, 8, v), ZEROS) == With(p, ZEROS);
      assert Replaced(p, 8, v)[8..HEADER] == v;
      if Load(v) == Load(p[8..HEADER]) { LoadOneToOne(v, p[8..HEADER]); }
    } else {
      ReplacedBehind(p, i, v);
      BurstChangesCrc(p[..8] + ZEROS + p[HEADER..i], p[i..i + 4], v, p[i + 4..]);
    }
  }

  // ----- what the checksum is -----

  /** The field is the number `v`, lowest byte first. */
  predicate LowestFirst(field: Bytes, v: bv32) {
    field == [(v & 0xFF) as bv8, ((v >> 8) & 0xFF) as bv8, ((v >> 16) & 0xFF) as bv8, ((v >> 24) & 0xFF) as bv8]
  }

  lemma ByteShifts(v: bv32)
    ensures High(High(v)) == v >> 16 && High(High(High(v))) == v >> 24
  {
  }

  lemma FieldIs(v: bv32)
    ensures LowestFirst(Bytes4(v), v)
  {
    ByteShifts(v);
  }

  lemma FieldIsOnly(field: Bytes, v: bv32)
    requires LowestFirst(field, v)
    ensures field == Bytes4(v)
  {
    ByteShifts(v);
  }

  lemma Complement(v: bv32)
    ensures Plus(v, 0xFFFF_FFFF) == !v
  {
  }

  lemma ExpectedIs(p: Bytes)
    requires |p| >= HEADER
    ensures Expected(p) == !Divide(0xFFFF_FFFF, p[..8] + [0, 0, 0, 0] + p[12..])
  {
    Complement(Divide(0xFFFF_FFFF, p[..8] + [0, 0, 0, 0] + p[12..]));
  }

  /** A packet verifies exactly when its bytes 8 to 11 are, lowest first, the complement of the division,
      from all ones, of the packet with four zero bytes in their place. */
  lemma VerifiedIff(p: Bytes)
    ensures Verified(p) == Parse <==> |p| < 12
    ensures |p| >= 12 ==>
              (Verified(p) == Ok <==> LowestFirst(p[8..12], !Divide(0xFFFF_FFFF, p[..8] + [0, 0, 0, 0] + p[12..])))
  {
    if |p| >= 12 {
      ExpectedIs(p);
      FieldIs(Expected(p));
      LoadStore(Expected(p));
      if Verified(p) == Ok { LoadOneToOne(p[8..12], Bytes4(Expected(p))); }
      if LowestFirst(p[8..12], Expected(p)) { FieldIsOnly(p[8..12], Expected(p)); }
    }
  }

  /** Finalizing writes exactly these bytes there, and nothing else. */
  lemma FinalizedIs(p: Bytes)
    requires |p| >= 12
    ensures LowestFirst(Finalized(p)[8..12], !Divide(0xFFFF_FFFF, p[..8] + [0, 0, 0, 0] + p[12..]))
    ensures Finalized(p)[..8] == p[..8] && Finalized(p)[12..] == p[12..]
  {
    ExpectedIs(p);
    FieldIs(Expected(p));
    assert Finalized(p)[8..12] == Bytes4(Expected(p));
  }

  // ----- the functions on packets -----

  /** Checks a packet in three pieces, without a copy. */
  method VerifyChecksum(p: Bytes) returns (status: Status)
    ensures status == Verified(p)
    ensures status == Parse <==> |p| < 12
    ensures |p| >= 12 ==>
              (status == Ok <==> LowestFirst(p[8..12], !Divide(0xFFFF_FFFF, p[..8] + [0, 0, 0, 0] + p[12..])))
  {
    VerifiedIff(p);
    if |p| < HEADER { return Parse; }
    var stored := Load(p[8..HEADER]);
    var crc := Update(0xFFFF_FFFF, p[..8]);
    crc := Update(crc, ZEROS);
    crc := Update(crc, p[HEADER..]);
    var computed := Plus(crc, 0xFFFF_FFFF);
    CrcParts(p[..8], ZEROS, p[HEADER..]);
    status := if computed != stored then Protocol else Ok;
  }

  method SetField(packet: array<bv8>, field: Bytes)
    requires packet.Length >= HEADER && |field| == 4
    modifies packet
    ensures packet[..] == With(old(packet[..]), field)
  {
    for i := 0 to 4
      invariant forall k | 0 <= k < packet.Length :: packet[k] == if 8 <= k < 8 + i then field[k - 8] else old(packet[k])
    {
      packet[8 + i] := field[i];
    }
  }

  /** Writes the checksum into a packet. */
  method FinalizeChecksum(packet: array<bv8>)
    requires packet.Length >= HEADER
    modifies packet
    ensures packet[..] == Finalized(old(packet[..]))
    ensures LowestFirst(packet[8..12], !Divide(0xFFFF_FFFF, old(packet[..8]) + [0, 0, 0, 0] + old(packet[12..])))
    ensures packet[..8] == old(packet[..8]) && packet[12..] == old(packet[12..])
  {
    ghost var was := packet[..];
    SetField(packet, ZEROS);
    var crc := Checksum(packet[..]);
    SetField(packet, Bytes4(crc));
    WithTwice(was, ZEROS, Bytes4(crc));
    FinalizedIs(was);
    assert packet[..][8..12] == packet[8..12] && was[..8] == old(packet[..8]) && was[12..] == old(packet[12..]);
    assert packet[..][..8] == packet[..8] && packet[..][12..] == packet[12..];
  }

  lemma WithTwice(p: Bytes, f: Bytes, g: Bytes)
    requires |p| >= HEADER && |f| == 4 && |g| == 4
    ensures With(With(p, f), g) == With(p, g)
  {
  }
}
