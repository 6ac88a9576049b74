/** Losing any one packet of a protected group is repaired byte for byte; any other
    number of losses is reported as no data. */
module FecTheorem {
  import opened Bits
  import opened FecCode

  // ----- when a group can be protected -----

  lemma SameOffset(a: Sn, b: Sn, base: Sn)
    ensures Offset(a, base) == Offset(b, base) <==> a == b
    ensures Offset(a, base) < FEC_MAX_GROUP ==> Plus(base, Offset(a, base)) == a
  {
  }

  /** `base` is one of the numbers and all lie at most fifteen after it, modulo 2^16. */
  predicate Earliest(sns: seq<Sn>, base: Sn) {
    base in sns && Within(sns, base)
  }

  /** The signed scan ends on the earliest number, wherever the wrap falls. */
  lemma {:induction false} BaseIsEarliest(sns: seq<Sn>, base: Sn)
    requires sns != [] && Within(sns, base)
    ensures forall i | 0 <= i < |sns| :: Offset(BaseOf(sns), base) <= Offset(sns[i], base)
  {
    var n := |sns| - 1;
    if n > 0 {
      var front := sns[..n];
      BaseIsEarliest(front, base);
      assert forall i | 0 <= i < n :: front[i] == sns[i];
    }
  }

  /** A group of sized packets can be protected exactly when one of its numbers starts a
      window of sixteen that holds them all; that number is the base. */
  lemma ProtectableIff(pkts: seq<Packet>)
    requires 0 < |pkts| <= FEC_MAX_GROUP && Sized(pkts)
    ensures Protectable(pkts) <==> exists base: Sn :: Earliest(Seqs(pkts), base)
    ensures forall base: Sn | Earliest(Seqs(pkts), base) :: BaseOf(Seqs(pkts)) == base
  {
    var sns := Seqs(pkts);
    if Protectable(pkts) { assert Earliest(sns, BaseOf(sns)); }
    forall base: Sn | Earliest(sns, base) ensures BaseOf(sns) == base {
      BaseIsEarliest(sns, base);
      var i :| 0 <= i < |sns| && sns[i] == base;
      assert Offset(sns[i], base) == 0;
    }
  }

  // ----- the XOR of a group does not depend on its order -----

  function Without<T>(s: seq<T>, i: nat): (r: seq<T>)
    requires i < |s|
    ensures |r| == |s| - 1
    ensures forall j | 0 <= j < |r| :: r[j] == if j < i then s[j] else s[j + 1]
  {
    s[..i] + s[i + 1..]
  }

  lemma XorSwap(a: Byte, b: Byte, c: Byte)
    ensures XorB(XorB(a, b), c) == XorB(XorB(a, c), b)
  {
    XorAssoc(a, b, c);
    XorAssoc(a, c, b);
    XorComm(b, c);
  }

  lemma XorLast(front: seq<Packet>, x: Packet, k: nat)
    requires Sized(front + [x])
    ensures Sized(front) && FEC_RTP_HDR <= |x| < 0x1_0000
    ensures XorField(front + [x], k) == XorB(XorField(front, k), Field(x, k))
  {
    var all := front + [x];
    assert all[..|front|] == front && all[|front|] == x;
    assert forall i | 0 <= i < |front| :: front[i] == all[i];
  }

  lemma {:induction false} XorExtract(pkts: seq<Packet>, i: nat, k: nat)
    requires i < |pkts| && Sized(pkts)
    ensures Sized(Without(pkts, i)) && XorField(pkts, k) == XorB(XorField(Without(pkts, i), k), Field(pkts[i], k))
  {
    var n := |pkts| - 1;
    var front, x := pkts[..n], pkts[n];
    assert pkts == front + [x];
    XorLast(front, x, k);
    if i == n {
      assert Without(pkts, i) == front;
    } else {
      XorExtract(front, i, k);
      var rest := Without(front, i);
      assert Without(pkts, i) == rest + [x];
      XorLast(rest, x, k);
      XorSwap(XorField(rest, k), Field(pkts[i], k), Field(x, k));
    }
  }

  predicate Distinct<T(==)>(s: seq<T>) {
    forall i, j | 0 <= i < j < |s| :: s[i] != s[j]
  }

  /** Removing the same element from two duplicate-free lists of the same elements. */
  lemma SameRest<T>(a: seq<T>, b: seq<T>, i: nat)
    requires Distinct(a) && Distinct(b) && a != [] && i < |b| && b[i] == a[|a| - 1]
    requires forall p :: p in a <==> p in b
    ensures forall p :: p in a[..|a| - 1] <==> p in Without(b, i)
    ensures Distinct(a[..|a| - 1]) && Distinct(Without(b, i))
  {
    var n, rest := |a| - 1, Without(b, i);
    forall p ensures p in a[..n] <==> p in rest {
      if p in a[..n] {
        var j :| 0 <= j < n && a[j] == p;
        assert a[j] in b;
        var l :| 0 <= l < |b| && b[l] == p;
        assert rest[if l < i then l else l - 1] == p;
      }
      if p in rest {
        var l :| 0 <= l < |rest| && rest[l] == p;
        assert b[if l < i then l else l + 1] == p;
        assert p in a && p != a[n];
      }
    }
  }

  lemma {:induction false} XorSameSet(a: seq<Packet>, b: seq<Packet>, k: nat)
    requires Sized(a) && Sized(b) && Distinct(a) && Distinct(b)
    requires forall p :: p in a <==> p in b
    ensures XorField(a, k) == XorField(b, k)
  {
    if a == [] {
      assert forall i | 0 <= i < |b| :: b[i] in b;
    } else {
      var n := |a| - 1;
      assert a[n] in b;
      var i :| 0 <= i < |b| && b[i] == a[n];
      SameRest(a, b, i);
      XorExtract(b, i, k);
      XorSameSet(a[..n], Without(b, i), k);
    }
  }

  lemma XorCancel(r: Byte, f: Byte)
    ensures XorB(XorB(r, f), r) == f
  {
    XorSwap(r, f, r);
    XorSelf(r);
    XorComm(0, f);
    XorZero(f);
  }

  // ----- mask and membership -----

  lemma {:induction false} MaskMeans(sns: seq<Sn>, base: Sn, off: nat)
    requires Within(sns, base) && off < FEC_MAX_GROUP
    ensures MaskOf(sns, base)[off] <==> Plus(base, off) in sns
  {
    if sns != [] {
      var n := |sns| - 1;
      assert sns == sns[..n] + [sns[n]];
      MaskMeans(sns[..n], base, off);
      assert Offset(sns[n], base) == off <==> sns[n] == Plus(base, off);
    }
  }

  lemma MaskHas(sns: seq<Sn>, base: Sn, sn: Sn)
    requires Within(sns, base)
    ensures Offset(sn, base) < FEC_MAX_GROUP && MaskOf(sns, base)[Offset(sn, base)] <==> sn in sns
  {
    var off := Offset(sn, base);
    if off < FEC_MAX_GROUP { MaskMeans(sns, base, off); }
  }

  /** The received packets that carry one of the given numbers, in order. */
  function Bearing(recv: seq<Slot>, sns: seq<Sn>): (r: seq<Packet>)
    ensures Sized(r)
  {
    if recv == [] then []
    else
      var s := recv[|recv| - 1];
      Bearing(recv[..|recv| - 1], sns) + if Usable(s) && Seq(s.p) in sns then [s.p] else []
  }

  lemma {:induction false} MembersAreBearing(recv: seq<Slot>, sns: seq<Sn>, base: Sn)
    requires Within(sns, base)
    ensures Members(recv, MaskOf(sns, base), base) == Bearing(recv, sns)
  {
    if recv != [] {
      MembersAreBearing(recv[..|recv| - 1], sns, base);
      var s := recv[|recv| - 1];
      if Usable(s) { MaskHas(sns, base, Seq(s.p)); }
    }
  }

  lemma {:induction false} BearingMeans(recv: seq<Slot>, sns: seq<Sn>, sn: Sn)
    requires sn in sns
    ensures Present(recv, sn) <==> sn in Seqs(Bearing(recv, sns))
  {
    if recv != [] {
      var front, s := recv[..|recv| - 1], recv[|recv| - 1];
      BearingMeans(front, sns, sn);
      PresentLast(recv, sn);
      var last := if Usable(s) && Seq(s.p) in sns then [s.p] else [];
      assert Seqs(Bearing(recv, sns)) == Seqs(Bearing(front, sns)) + Seqs(last);
      assert last != [] ==> Seqs(last) == [Seq(s.p)];
    }
  }

  lemma PresentLast(recv: seq<Slot>, sn: Sn)
    requires recv != []
    ensures Present(recv, sn) <==>
            Present(recv[..|recv| - 1], sn) || (Usable(recv[|recv| - 1]) && Seq(recv[|recv| - 1].p) == sn)
  {
    var front := recv[..|recv| - 1];
    if Present(recv, sn) {
      var j :| 0 <= j < |recv| && Usable(recv[j]) && Seq(recv[j].p) == sn;
      if j < |front| { assert front[j] == recv[j]; }
    }
    if Present(front, sn) {
      var j :| 0 <= j < |front| && Usable(front[j]) && Seq(front[j].p) == sn;
      assert front[j] == recv[j];
    }
  }

  // ----- counting the losses -----

  lemma {:induction false} DistinctSize<T>(s: seq<T>)
    requires Distinct(s)
    ensures |set x | x in s| == |s|
  {
    if s != [] {
      var n := |s| - 1;
      DistinctSize(s[..n]);
      var all, front := set x | x in s, set x | x in s[..n];
      assert s[n] !in front;
      assert all == front + {s[n]} by {
        assert s == s[..n] + [s[n]];
      }
    }
  }

  lemma {:induction false} MissingMeans(mask: Mask, base: Sn, recv: seq<Slot>, n: nat)
    ensures Distinct(MissingBelow(mask, base, recv, n))
    ensures forall off :: off in MissingBelow(mask, base, recv, n) <==> 0 <= off < n && IsMissing(mask, base, recv, off)
  {
    if n > 0 { MissingMeans(mask, base, recv, n - 1); }
  }

  /** The sequence numbers of the missing offsets. */
  function Numbers(base: Sn, offs: seq<nat>): (r: seq<Sn>)
    requires forall i | 0 <= i < |offs| :: offs[i] < FEC_MAX_GROUP
    ensures |r| == |offs|
  {
    seq(|offs|, i requires 0 <= i < |offs| => Plus(base, offs[i]))
  }

  predicate Offsets(offs: seq<nat>) {
    forall i | 0 <= i < |offs| :: offs[i] < FEC_MAX_GROUP
  }

  lemma OffsetOfPlus(base: Sn, off: nat)
    requires off < FEC_MAX_GROUP
    ensures Offset(Plus(base, off), base) == off
  {
  }

  lemma NumbersHas(base: Sn, offs: seq<nat>, sn: Sn)
    requires Offsets(offs)
    ensures sn in Numbers(base, offs) <==> Offset(sn, base) in offs
  {
    var all := Numbers(base, offs);
    SameOffset(sn, sn, base);
    if sn in all {
      var i :| 0 <= i < |all| && all[i] == sn;
      OffsetOfPlus(base, offs[i]);
    }
    if Offset(sn, base) in offs {
      var i :| 0 <= i < |offs| && offs[i] == Offset(sn, base);
      assert all[i] == sn;
    }
  }

  lemma NumbersDistinct(base: Sn, offs: seq<nat>)
    requires Offsets(offs) && Distinct(offs)
    ensures Distinct(Numbers(base, offs))
  {
    forall i, j | 0 <= i < j < |offs| ensures Numbers(base, offs)[i] != Numbers(base, offs)[j] {
      OffsetOfPlus(base, offs[i]);
      OffsetOfPlus(base, offs[j]);
    }
  }

  /** One number is missing exactly when it is protected and did not arrive. */
  lemma MissingNumber(sns: seq<Sn>, base: Sn, recv: seq<Slot>, sn: Sn)
    requires Within(sns, base)
    ensures IsMissing(MaskOf(sns, base), base, recv, Offset(sn, base)) <==> sn in sns && sn !in Seqs(Bearing(recv, sns))
  {
    MaskHas(sns, base, sn);
    SameOffset(sn, sn, base);
    if sn in sns { BearingMeans(recv, sns, sn); }
  }

  /** Missing numbers are the protected ones that did not arrive. */
  lemma MissingNumbers(sns: seq<Sn>, base: Sn, recv: seq<Slot>)
    requires Within(sns, base)
    ensures var missing := Numbers(base, MissingBelow(MaskOf(sns, base), base, recv, FEC_MAX_GROUP));
            && Distinct(missing)
            && forall sn: Sn :: sn in missing <==> sn in sns && sn !in Seqs(Bearing(recv, sns))
  {
    var offs := MissingBelow(MaskOf(sns, base), base, recv, FEC_MAX_GROUP);
    MissingMeans(MaskOf(sns, base), base, recv, FEC_MAX_GROUP);
    NumbersDistinct(base, offs);
    forall sn: Sn ensures sn in Numbers(base, offs) <==> sn in sns && sn !in Seqs(Bearing(recv, sns)) {
      NumbersHas(base, offs, sn);
      MissingNumber(sns, base, recv, sn);
    }
  }

  lemma SameSize<T>(a: seq<T>, b: seq<T>)
    requires Distinct(a) && Distinct(b) && forall p :: p in a <==> p in b
    ensures |a| == |b|
  {
    DistinctSize(a);
    DistinctSize(b);
    assert (set x | x in a) == set x | x in b;
  }

  lemma DifferenceSize<T>(m: seq<T>, s: seq<T>, g: seq<T>)
    requires Distinct(m) && Distinct(s) && Distinct(g)
    requires forall x :: x in m <==> x in s && x !in g
    requires forall x :: x in g ==> x in s
    ensures |m| == |s| - |g|
  {
    DistinctSize(m);
    DistinctSize(s);
    DistinctSize(g);
    var ms, ss, gs := set x | x in m, set x | x in s, set x | x in g;
    assert gs <= ss;
    assert ms == ss - gs;
  }

  /** As many are missing as were protected and did not arrive. */
  lemma CountMissing(sns: seq<Sn>, base: Sn, recv: seq<Slot>)
    requires Within(sns, base) && Distinct(sns) && Distinct(Seqs(Bearing(recv, sns)))
    ensures |MissingBelow(MaskOf(sns, base), base, recv, FEC_MAX_GROUP)| == |sns| - |Bearing(recv, sns)|
  {
    MissingNumbers(sns, base, recv);
    BearingSeqs(recv, sns);
    DifferenceSize(Numbers(base, MissingBelow(MaskOf(sns, base), base, recv, FEC_MAX_GROUP)), sns, Seqs(Bearing(recv, sns)));
  }

  lemma {:induction false} BearingSeqs(recv: seq<Slot>, sns: seq<Sn>)
    ensures forall sn :: sn in Seqs(Bearing(recv, sns)) ==> sn in sns
  {
    if recv != [] {
      var front, s := recv[..|recv| - 1], recv[|recv| - 1];
      BearingSeqs(front, sns);
      var last := if Usable(s) && Seq(s.p) in sns then [s.p] else [];
      assert Seqs(Bearing(recv, sns)) == Seqs(Bearing(front, sns)) + Seqs(last);
    }
  }

  /** A protected group with pairwise different sequence numbers. */
  predicate Group(group: seq<Packet>) {
    Protectable(group) && Distinct(Seqs(group))
  }

  /** What arrived of the group: received packets that carry one of its numbers. */
  function Arrived(recv: seq<Slot>, group: seq<Packet>): (r: seq<Packet>)
    requires Sized(group)
    ensures Sized(r)
  {
    Bearing(recv, Seqs(group))
  }

  /** What arrived of the group arrived unaltered and at most once. */
  predicate Intact(recv: seq<Slot>, group: seq<Packet>)
    requires Sized(group)
  {
    Distinct(Arrived(recv, group)) && forall p | p in Arrived(recv, group) :: p in group
  }

  lemma IntactDistinct(recv: seq<Slot>, group: seq<Packet>)
    requires Group(group) && Intact(recv, group)
    ensures Distinct(Seqs(Arrived(recv, group)))
  {
    var got := Arrived(recv, group);
    forall i, j | 0 <= i < j < |got| ensures Seqs(got)[i] != Seqs(got)[j] {
      assert got[i] in group && got[j] in group;
      var a :| 0 <= a < |group| && group[a] == got[i];
      var b :| 0 <= b < |group| && group[b] == got[j];
      assert Seqs(group)[a] == Seqs(got)[i] && Seqs(group)[b] == Seqs(got)[j];
    }
  }

  // ----- recovery -----

  /** A media packet of this stream: version 2, and the given SSRC. */
  predicate Media(p: Packet, ssrc: seq<Byte>) {
    FEC_RTP_HDR <= |p| < 0x1_0000 && p[0] / 64 == 2 && p[8..12] == ssrc
  }

  lemma {:induction false} SmallField(pkts: seq<Packet>)
    requires Sized(pkts)
    ensures XorField(pkts, 0) < 64
  {
    Powers();
    if pkts != [] {
      SmallField(pkts[..|pkts| - 1]);
      XorBound(XorField(pkts[..|pkts| - 1], 0), Field(pkts[|pkts| - 1], 0), 6);
    }
  }

  lemma WordOfParts(n: nat)
    requires n < 0x1_0000
    ensures Word(High(n), Low(n)) == n
  {
  }

  /** What the decoder reads back from the body. */
  lemma BodyHeader(group: seq<Packet>)
    requires Protectable(group)
    ensures var fec := Body(group);
            && Read16(fec, 2) == BaseOf(Seqs(group)) && Read16(fec, 10) == MaxLength(group) - FEC_RTP_HDR
            && ReadMask(fec[12], fec[13]) == MaskOf(Seqs(group), BaseOf(Seqs(group)))
  {
    var base := BaseOf(Seqs(group));
    var mask := MaskOf(Seqs(group), base);
    WordOfParts(base);
    WordOfParts(MaxLength(group) - FEC_RTP_HDR);
    WordOfParts(MaskWord(mask));
    BitsOfNumber(mask);
  }

  lemma FieldOfOne(x: Packet, k: nat)
    requires FEC_RTP_HDR <= |x| < 0x1_0000
    ensures XorField([x], k) == Field(x, k)
  {
    assert [x][..0] == [];
    XorComm(0, Field(x, k));
    XorZero(Field(x, k));
  }

  lemma HeaderOfOne(x: Packet)
    requires FEC_RTP_HDR <= |x| < 0x1_0000
    ensures Protectable([x]) && |Body([x])| == |x| + 2
    ensures var b := Body([x]);
            b[2] == x[2] && b[3] == x[3] && b[10] == High(|x| - 12) && b[11] == Low(|x| - 12) && b[12] == 0x80 && b[13] == 0
  {
    assert Seqs([x]) == [Seq(x)] && BaseOf([Seq(x)]) == Seq(x) && MaxLength([x]) == |x|;
    assert Within([Seq(x)], Seq(x));
    FirstBitAlone(Seq(x));
    SeqBytes(x);
    var mask := MaskWord(MaskOf(Seqs([x]), BaseOf(Seqs([x]))));
    assert mask == 0x8000 && Body([x])[12] == High(mask) && Body([x])[13] == Low(mask);
  }

  /** The FEC packet of one packet alone, byte by byte (RFC 5109 sections 7.3 and 7.4): the recovery fields
      of its header with its own sequence number as the base, its length twice, the mask of the base alone,
      and its payload. */
  lemma BodyOfOne(x: Packet)
    requires FEC_RTP_HDR <= |x| < 0x1_0000
    ensures Protectable([x])
    ensures Body([x]) == [x[0] % 64, x[1], x[2], x[3], x[4], x[5], x[6], x[7], High(|x| - 12), Low(|x| - 12),
                          High(|x| - 12), Low(|x| - 12), 0x80, 0] + x[12..]
  {
    HeaderOfOne(x);
    var body := Body([x]);
    BodyCarries([x]);
    forall k: nat | Spot(k) < |body| ensures body[Spot(k)] == Field(x, k) { FieldOfOne(x, k); }
    assert Spot(0) == 0 && Spot(1) == 1 && Spot(2) == 4 && Spot(3) == 5 && Spot(4) == 6 && Spot(5) == 7 && Spot(6) == 8 && Spot(7) == 9;
    forall i | 14 <= i < |body| ensures body[i] == x[12..][i - 14] { assert Spot(i - 6) == i; }
  }

  lemma FirstBitAlone(sn: Sn)
    ensures MaskWord(MaskOf([sn], sn)) == 0x8000
  {
    var m := MaskOf([sn], sn);
    assert [sn][..0] == [] && Offset(sn, sn) == 0;
    assert m == MaskOf([], sn)[0 := true];
    LeadingBit(m, 16);
    Powers();
    assert m[..16] == m && Pow2(16) == 2 * Pow2(15);
  }

  /** The highest of `n` bits alone. */
  lemma {:induction false} LeadingBit(m: seq<bool>, n: nat)
    requires 0 < n <= |m| && m[0] && forall k | 1 <= k < |m| :: !m[k]
    ensures Number(m[..n]) == Pow2(n - 1)
  {
    if n == 1 {
      assert m[..1][..0] == [];
    } else {
      LeadingBit(m, n - 1);
      assert m[..n][..n - 1] == m[..n - 1];
    }
  }

  lemma BodyField(group: seq<Packet>, k: nat)
    requires Protectable(group) && Spot(k) < |Body(group)|
    ensures Body(group)[Spot(k)] == XorField(group, k)
  {
  }

  /** The body carries the XOR of the group. */
  ghost predicate Carries(fec: seq<Byte>, group: seq<Packet>)
    requires Sized(group)
  {
    forall k: nat | Spot(k) < |fec| :: fec[Spot(k)] == XorField(group, k)
  }

  lemma BodyCarries(group: seq<Packet>)
    requires Protectable(group)
    ensures Carries(Body(group), group)
  {
    forall k: nat | Spot(k) < |Body(group)| ensures Body(group)[Spot(k)] == XorField(group, k) {
      BodyField(group, k);
    }
  }

  /** XORing all members but one into the body leaves the bit string of that one. */
  lemma ResidueIsLost(fec: seq<Byte>, group: seq<Packet>, others: seq<Packet>, lost: nat, k: nat)
    requires Sized(group) && Distinct(group) && lost < |group| && Sized(others) && Distinct(others)
    requires forall p :: p in others <==> p in Without(group, lost)
    requires Carries(fec, group) && Spot(k) < |fec|
    ensures Residue(fec, others, k) == Field(group[lost], k)
  {
    XorOthers(group, others, lost, k);
    SmallField(group);
    assert fec[Spot(k)] == XorField(group, k);
    XorCancel(XorField(others, k), Field(group[lost], k));
  }

  lemma GroupDistinct(group: seq<Packet>)
    requires Group(group)
    ensures Distinct(group)
  {
    forall i, j | 0 <= i < j < |group| ensures group[i] != group[j] {
      assert Seqs(group)[i] != Seqs(group)[j];
    }
  }

  lemma XorOthers(group: seq<Packet>, others: seq<Packet>, lost: nat, k: nat)
    requires Sized(group) && Distinct(group) && lost < |group| && Sized(others) && Distinct(others)
    requires forall p :: p in others <==> p in Without(group, lost)
    ensures XorField(group, k) == XorB(XorField(others, k), Field(group[lost], k))
  {
    XorExtract(group, lost, k);
    XorSameSet(others, Without(group, lost), k);
  }

  lemma SeqBytes(x: Packet)
    requires |x| >= 4
    ensures High(Seq(x)) == x[2] && Low(Seq(x)) == x[3]
  {
  }

  lemma RebuiltLenIs(x: Packet, fec: seq<Byte>, others: seq<Packet>, protlen: nat)
    requires FEC_RTP_HDR <= |x| < 0x1_0000 && Sized(others) && |fec| >= FEC_OVERHEAD && |x| - FEC_RTP_HDR <= protlen
    requires Residue(fec, others, 6) == Field(x, 6) && Residue(fec, others, 7) == Field(x, 7)
    ensures RebuiltLen(fec, others, protlen) == |x| - FEC_RTP_HDR
  {
    WordOfParts(|x| - FEC_RTP_HDR);
  }

  lemma Version2Field(x: Packet)
    requires FEC_RTP_HDR <= |x| < 0x1_0000 && x[0] / 64 == 2
    ensures Version2(Field(x, 0)) == x[0]
  {
  }

  /** The residue agrees with the bit string of `x`. */
  predicate Agrees(fec: seq<Byte>, others: seq<Packet>, x: Packet)
    requires Sized(others) && FEC_RTP_HDR <= |x| < 0x1_0000
  {
    forall k: nat | k < |x| - 4 :: Spot(k) < |fec| && Residue(fec, others, k) == Field(x, k)
  }

  /** A packet is determined by its bit string, number and SSRC. */
  lemma FieldsDeterminePacket(x: Packet, ssrc: seq<Byte>, fec: seq<Byte>, others: seq<Packet>, protlen: nat)
    requires Media(x, ssrc) && Sized(others) && |fec| >= FEC_OVERHEAD + protlen && |x| - FEC_RTP_HDR <= protlen
    requires Agrees(fec, others, x)
    ensures Rebuilt(fec, others, protlen, ssrc, Seq(x)) == x
  {
    SeqBytes(x);
    Version2Field(x);
    RebuiltLenIs(x, fec, others, protlen);
    var n := |x| - FEC_RTP_HDR;
    var tail := seq(n, i requires 0 <= i < n => Residue(fec, others, 8 + i));
    assert tail == x[12..] by {
      forall i | 0 <= i < n ensures tail[i] == x[12 + i] { assert Residue(fec, others, 8 + i) == Field(x, 8 + i); }
    }
    var mid := [Residue(fec, others, 2), Residue(fec, others, 3), Residue(fec, others, 4), Residue(fec, others, 5)];
    assert mid == x[4..8] by {
      assert Field(x, 2) == x[4] && Field(x, 3) == x[5] && Field(x, 4) == x[6] && Field(x, 5) == x[7];
    }
    var first := [Version2(Residue(fec, others, 0)), Residue(fec, others, 1), High(Seq(x)), Low(Seq(x))];
    assert first == x[..4];
    assert x == x[..4] + x[4..8] + x[8..12] + x[12..];
    RebuiltShape(fec, others, protlen, ssrc, Seq(x), n, first, mid, tail);
  }

  lemma RebuiltIsLost(fec: seq<Byte>, group: seq<Packet>, others: seq<Packet>, lost: nat, ssrc: seq<Byte>, protlen: nat)
    requires Sized(group) && Distinct(group) && lost < |group| && Sized(others) && Distinct(others) && Media(group[lost], ssrc)
    requires forall p :: p in others <==> p in Without(group, lost)
    requires Carries(fec, group) && |fec| >= FEC_OVERHEAD + protlen && |group[lost]| - FEC_RTP_HDR <= protlen
    ensures Rebuilt(fec, others, protlen, ssrc, Seq(group[lost])) == group[lost]
  {
    var x := group[lost];
    forall k: nat | k < |x| - 4 ensures Spot(k) < |fec| && Residue(fec, others, k) == Field(x, k) {
      ResidueIsLost(fec, group, others, lost, k);
    }
    FieldsDeterminePacket(x, ssrc, fec, others, protlen);
  }

  /** All but the packet `lost` arrived. */
  predicate AllBut(recv: seq<Slot>, group: seq<Packet>, lost: nat)
    requires Sized(group)
  {
    lost < |group| && forall i | 0 <= i < |group| :: group[i] in Arrived(recv, group) <==> i != lost
  }

  /** The rest of a duplicate-free list. */
  lemma WithoutMeans<T>(s: seq<T>, i: nat)
    requires Distinct(s) && i < |s|
    ensures Distinct(Without(s, i)) && forall p :: p in Without(s, i) <==> p in s && p != s[i]
  {
    var rest := Without(s, i);
    forall p ensures p in rest <==> p in s && p != s[i] {
      if p in s && p != s[i] {
        var j :| 0 <= j < |s| && s[j] == p;
        assert rest[if j < i then j else j - 1] == p;
      }
      if p in rest {
        var l :| 0 <= l < |rest| && rest[l] == p;
        assert s[if l < i then l else l + 1] == p;
      }
    }
  }

  lemma OthersArrived(group: seq<Packet>, recv: seq<Slot>, lost: nat)
    requires Group(group) && Intact(recv, group) && AllBut(recv, group, lost)
    ensures forall p :: p in Arrived(recv, group) <==> p in Without(group, lost)
    ensures |Arrived(recv, group)| == |group| - 1
  {
    GroupDistinct(group);
    WithoutMeans(group, lost);
    var got, rest := Arrived(recv, group), Without(group, lost);
    forall p ensures p in got <==> p in rest {
      if p in group {
        var i :| 0 <= i < |group| && group[i] == p;
        assert group[i] in got <==> i != lost;
      }
    }
    SameSize(got, rest);
  }

  lemma LostNotArrived(group: seq<Packet>, recv: seq<Slot>, lost: nat)
    requires Group(group) && Intact(recv, group) && AllBut(recv, group, lost)
    ensures Seqs(group)[lost] !in Seqs(Arrived(recv, group))
  {
    var got := Arrived(recv, group);
    forall i | 0 <= i < |got| ensures Seqs(got)[i] != Seqs(group)[lost] {
      assert got[i] in group;
      var j :| 0 <= j < |group| && group[j] == got[i];
      assert Seqs(group)[j] == Seqs(got)[i] && j != lost;
    }
  }

  /** The one missing number is the lost packet's. */
  lemma LostIsMissing(group: seq<Packet>, recv: seq<Slot>, lost: nat)
    requires Group(group) && Intact(recv, group) && AllBut(recv, group, lost)
    ensures var base := BaseOf(Seqs(group));
            var missing := MissingBelow(MaskOf(Seqs(group), base), base, recv, FEC_MAX_GROUP);
            |missing| == 1 && Plus(base, missing[0]) == Seq(group[lost])
  {
    var sns := Seqs(group);
    var base, sn := BaseOf(sns), sns[lost];
    var offs := MissingBelow(MaskOf(sns, base), base, recv, FEC_MAX_GROUP);
    OthersArrived(group, recv, lost);
    IntactDistinct(recv, group);
    CountMissing(sns, base, recv);
    MissingNumbers(sns, base, recv);
    LostNotArrived(group, recv, lost);
    OnlyNumber(base, offs, sn);
  }

  lemma OnlyNumber(base: Sn, offs: seq<nat>, sn: Sn)
    requires |offs| == 1 && offs[0] < FEC_MAX_GROUP && sn in Numbers(base, offs)
    ensures Plus(base, offs[0]) == sn
  {
  }

  /** All packets of the group but one arrived, in any order and among other packets:
      the decoder rebuilds that one exactly. */
  lemma OneLossIsRepaired(group: seq<Packet>, ssrc: seq<Byte>, recv: seq<Slot>, cap: nat, lost: nat)
    requires Group(group) && Intact(recv, group) && AllBut(recv, group, lost) && Media(group[lost], ssrc)
    requires cap >= MaxLength(group)
    ensures Recover(Body(group), ssrc, recv, cap) == Recovered(group[lost], Seq(group[lost]))
  {
    var base := BaseOf(Seqs(group));
    BodyHeader(group);
    MembersAreBearing(recv, Seqs(group), base);
    LostIsMissing(group, recv, lost);
    OthersArrived(group, recv, lost);
    GroupDistinct(group);
    BodyCarries(group);
    RebuiltIsLost(Body(group), group, Arrived(recv, group), lost, ssrc, MaxLength(group) - FEC_RTP_HDR);
    RecoverOne(Body(group), ssrc, recv, cap, base, MaxLength(group) - FEC_RTP_HDR, MaskOf(Seqs(group), base));
  }

  /** The decoder's result when one number is missing. */
  lemma RecoverOne(fec: seq<Byte>, ssrc: seq<Byte>, recv: seq<Slot>, cap: nat, base: Sn, protlen: nat, mask: Mask)
    requires |fec| >= FEC_OVERHEAD + protlen && |ssrc| == 4 && cap >= FEC_RTP_HDR + protlen
    requires Read16(fec, 2) == base && Read16(fec, 10) == protlen && ReadMask(fec[12], fec[13]) == mask
    requires |MissingBelow(mask, base, recv, FEC_MAX_GROUP)| == 1
    ensures var sn := Plus(base, MissingBelow(mask, base, recv, FEC_MAX_GROUP)[0]);
            Recover(fec, ssrc, recv, cap) == Recovered(Rebuilt(fec, Members(recv, mask, base), protlen, ssrc, sn), sn)
  {
  }

  /** Any other number of losses, none included, is reported as no data. */
  lemma OtherLossesAreNoData(group: seq<Packet>, ssrc: seq<Byte>, recv: seq<Slot>, cap: nat)
    requires Group(group) && Intact(recv, group) && |ssrc| == 4
    requires |Arrived(recv, group)| != |group| - 1
    ensures Recover(Body(group), ssrc, recv, cap) == Failed(NoData)
  {
    BodyHeader(group);
    IntactDistinct(recv, group);
    CountMissing(Seqs(group), BaseOf(Seqs(group)), recv);
  }
}
