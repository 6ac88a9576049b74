/** CRC-32c as SCTP uses it: the table-driven loop against bit-by-bit division, splitting,
    and the packet checksum with the errors it is certain to find. */
module Crc32c {
  import opened Crc32cTable

  type Bytes = seq<bv8>

  // ----- bit-by-bit division -----

  function Wide(b: bv8): bv32 {
    b as bv32
  }

  /** A byte enters at the low end of the register, then eight division steps. */
  function Feed(c: bv32, b: bv8): bv32 {
    Steps(Plus(c, Wide(b)), 8)
  }

  function Divide(c: bv32, data: Bytes): bv32
    decreases |data|
  {
    if data == [] then c else Divide(Feed(c, data[0]), data[1..])
  }

  /** The checksum of a message. */
  function Crc(data: Bytes): bv32 {
    Plus(Divide(0xFFFF_FFFF, data), 0xFFFF_FFFF)
  }

  /** Dividing in parts is dividing in one pass. */
  lemma {:induction false} DivideSplits(c: bv32, a: Bytes, b: Bytes)
    ensures Divide(c, a + b) == Divide(Divide(c, a), b)
    decreases |a|
  {
    if a == [] {
      assert a + b == b;
    } else {
      assert (a + b)[0] == a[0] && (a + b)[1..] == a[1..] + b;
      DivideSplits(Feed(c, a[0]), a[1..], b);
    }
  }

  // ----- division steps are linear -----

  lemma MaskLinear(x: bv32, y: bv32)
    ensures Mask(Plus(x, y)) == Plus(Mask(x), Mask(y))
  {
    if x & 1 == 1 {
      if y & 1 == 1 { assert (x ^ y) & 1 == 0; } else { assert (x ^ y) & 1 == 1; }
    } else {
      if y & 1 == 1 { assert (x ^ y) & 1 == 1; } else { assert (x ^ y) & 1 == 0; }
    }
  }

  lemma HalfLinear(x: bv32, y: bv32)
    ensures Half(Plus(x, y)) == Plus(Half(x), Half(y))
  {
  }

  lemma Comm(a: bv32, b: bv32)
    ensures Plus(a, b) == Plus(b, a)
  {
  }

  lemma Assoc(a: bv32, b: bv32, c: bv32)
    ensures Plus(Plus(a, b), c) == Plus(a, Plus(b, c))
  {
  }

  lemma Swap(a: bv32, b: bv32, c: bv32, d: bv32)
    ensures Plus(Plus(a, b), Plus(c, d)) == Plus(Plus(a, c), Plus(b, d))
  {
    Assoc(a, b, Plus(c, d));
    Assoc(b, c, d);
    Comm(b, c);
    Assoc(c, b, d);
    Assoc(a, c, Plus(b, d));
  }

  lemma StepLinear(x: bv32, y: bv32)
    ensures Step(Plus(x, y)) == Plus(Step(x), Step(y))
  {
    MaskLinear(x, y);
    HalfLinear(x, y);
    Swap(Half(x), Half(y), Mask(x), Mask(y));
  }

  lemma FirstStep(x: bv32, n: nat, m: nat)
    requires n == m + 1
    ensures Steps(x, n) == Steps(Step(x), m)
  {
  }

  lemma FirstSteps(x: bv32, y: bv32, n: nat, m: nat) returns (sx: bv32, sy: bv32)
    requires n == m + 1
    ensures Steps(Plus(x, y), n) == Steps(Plus(sx, sy), m) && Steps(x, n) == Steps(sx, m) && Steps(y, n) == Steps(sy, m)
  {
    FirstStep(x, n, m);
    FirstStep(y, n, m);
    FirstStep(Plus(x, y), n, m);
    sx, sy := Step(x), Step(y);
    StepLinear(x, y);
  }

  /** Division steps distribute over addition. */
  lemma {:induction false} StepsLinear(x: bv32, y: bv32, n: nat)
    ensures Steps(Plus(x, y), n) == Plus(Steps(x, n), Steps(y, n))
    decreases n
  {
    if n > 0 {
      var m: nat := n - 1;
      var sx, sy := FirstSteps(x, y, n, m);
      StepsLinear(sx, sy, m);
    }
  }

  // ----- a zero low byte is shifted out -----

  function Up(w: bv32): bv32 {
    w << 8
  }

  function High(x: bv32): bv32 {
    x >> 8
  }

  lemma EvenStep(x: bv32, n: nat, m: nat)
    requires x & 1 == 0 && n == m + 1
    ensures Steps(x, n) == Steps(Half(x), m)
  {
    FirstStep(x, n, m);
    PlusZero(Half(x));
  }

  lemma PlusZero(x: bv32)
    ensures Plus(x, 0) == x
  {
  }

  lemma LowHalf(x: bv32) returns (h: bv32)
    requires x & 0xFF == 0
    ensures Steps(x, 8) == Steps(h, 4) && h == x >> 4
  {
    EvenStep(x, 8, 7);
    EvenStep(Half(x), 7, 6);
    EvenStep(Half(Half(x)), 6, 5);
    EvenStep(Half(Half(Half(x))), 5, 4);
    h := Half(Half(Half(Half(x))));
  }

  lemma HighHalf(x: bv32) returns (h: bv32)
    requires x & 0xF == 0
    ensures Steps(x, 4) == h && h == x >> 4
  {
    EvenStep(x, 4, 3);
    EvenStep(Half(x), 3, 2);
    EvenStep(Half(Half(x)), 2, 1);
    EvenStep(Half(Half(Half(x))), 1, 0);
    h := Half(Half(Half(Half(x))));
  }

  lemma Nibbles(x: bv32)
    requires x & 0xFF == 0
    ensures (x >> 4) & 0xF == 0 && (x >> 4) >> 4 == High(x)
  {
  }

  lemma StepsOfHigh(x: bv32)
    requires x & 0xFF == 0
    ensures Steps(x, 8) == High(x)
  {
    var h := LowHalf(x);
    Nibbles(x);
    var r := HighHalf(h);
  }

  // ----- the table-driven loop -----

  lemma SplitByte(c: bv32, b: bv8, x: bv32) returns (h: bv32, l: bv32)
    requires x == Plus(c, Wide(b))
    ensures x == Plus(h, l) && h & 0xFF == 0 && High(h) == High(c) && l == x & 0xFF && l < 256
  {
    h, l := x & 0xFFFF_FF00, x & 0xFF;
  }

  /** One turn of the loop: a table entry stands for eight division steps. */
  lemma TurnIsFeed(c: bv32, b: bv8, h: bv32, l: bv32, t: bv32)
    requires Plus(c, Wide(b)) == Plus(h, l) && h & 0xFF == 0 && High(h) == High(c) && t == Steps(l, 8)
    ensures Plus(High(c), t) == Feed(c, b)
  {
    StepsOfHigh(h);
    StepsLinear(h, l, 8);
  }

  method Turn(c: bv32, b: bv8) returns (r: bv32)
    ensures r == Feed(c, b)
  {
    var x := c ^ (b as bv32);
    ghost var h, l := SplitByte(c, b, x);
    var i := x & 0xFF;
    var t := Lookup(i);
    TurnIsFeed(c, b, h, l, t);
    r := Plus(High(c), t);
  }

  method Lookup(i: bv32) returns (t: bv32)
    requires i < 256
    ensures t == Steps(i, 8)
  {
    TableIsSteps(i);
    t := Table(i);
  }

  method Update(crc: bv32, data: Bytes) returns (r: bv32)
    ensures r == Divide(crc, data)
  {
    r := crc;
    assert data[0..] == data;
    for i := 0 to |data|
      invariant Divide(crc, data) == Divide(r, data[i..])
    {
      assert data[i..][1..] == data[i + 1..];
      r := Turn(r, data[i]);
    }
  }

  method Checksum(data: Bytes) returns (r: bv32)
    ensures r == Crc(data)
  {
    r := Update(0xFFFF_FFFF, data);
    r := Plus(r, 0xFFFF_FFFF);
  }

  // ----- nothing is forgotten -----

  lemma Cancel(x: bv32, y: bv32, z: bv32)
    requires Plus(x, z) == Plus(y, z)
    ensures x == y
  {
  }

  /** The top bit tells whether the polynomial was taken away. */
  lemma TopBit(x: bv32)
    ensures Step(x) & 0x8000_0000 == if x & 1 == 1 then 0x8000_0000 else 0
  {
  }

  lemma HalfOneToOne(x: bv32, y: bv32)
    requires Half(x) == Half(y) && x & 1 == y & 1
    ensures x == y
  {
  }

  lemma SameMask(x: bv32, y: bv32)
    requires Step(x) == Step(y)
    ensures x & 1 == y & 1 && Mask(x) == Mask(y)
  {
    TopBit(x);
    TopBit(y);
  }

  lemma StepOneToOne(x: bv32, y: bv32)
    requires Step(x) == Step(y)
    ensures x == y
  {
    SameMask(x, y);
    Cancel(Half(x), Half(y), Mask(x));
    HalfOneToOne(x, y);
  }

  lemma {:induction false} StepsOneToOne(x: bv32, y: bv32, n: nat)
    requires Steps(x, n) == Steps(y, n)
    ensures x == y
    decreases n
  {
    if n > 0 {
      var m: nat := n - 1;
      FirstStep(x, n, m);
      FirstStep(y, n, m);
      StepsOneToOne(Step(x), Step(y), m);
      StepOneToOne(x, y);
    }
  }

  lemma FeedOneToOne(c: bv32, d: bv32, b: bv8)
    requires Feed(c, b) == Feed(d, b)
    ensures c == d
  {
    StepsOneToOne(Plus(c, Wide(b)), Plus(d, Wide(b)), 8);
    Cancel(c, d, Wide(b));
  }

  /** Different registers stay different over the same data. */
  lemma {:induction false} DivideOneToOne(c: bv32, d: bv32, data: Bytes)
    requires Divide(c, data) == Divide(d, data)
    ensures c == d
    decreases |data|
  {
    if data != [] {
      DivideOneToOne(Feed(c, data[0]), Feed(d, data[0]), data[1..]);
      FeedOneToOne(c, d, data[0]);
    }
  }

  // ----- four bytes enter like one word -----

  lemma Shifted(w: bv32)
    requires w & 0xFF00_0000 == 0
    ensures Up(w) & 0xFF == 0 && High(Up(w)) == w
  {
  }

  /** A byte that enters after eight steps could as well have entered eight bits higher before. */
  lemma FeedEarlier(x: bv32, w: bv32)
    requires w & 0xFF00_0000 == 0
    ensures Plus(Steps(x, 8), w) == Steps(Plus(x, Up(w)), 8)
  {
    Shifted(w);
    StepsOfHigh(Up(w));
    StepsLinear(x, Up(w), 8);
  }

  /** A byte below the bytes that follow it. */
  function Joined(b: bv8, w: bv32): bv32 {
    Plus(Wide(b), Up(w))
  }

  /** Four bytes as one number, the first byte lowest. */
  function Word4(a: bv8, b: bv8, c: bv8, d: bv8): bv32 {
    Joined(a, Joined(b, Joined(c, Wide(d))))
  }

  lemma JoinedSize(b: bv8, w: bv32)
    ensures w & 0xFFFF_FF00 == 0 ==> Joined(b, w) & 0xFFFF_0000 == 0
    ensures w & 0xFFFF_0000 == 0 ==> Joined(b, w) & 0xFF00_0000 == 0
  {
  }

  lemma WideSize(b: bv8)
    ensures Wide(b) & 0xFFFF_FF00 == 0 && Wide(b) & 0xFF00_0000 == 0
  {
  }

  lemma Shrink(w: bv32)
    requires w & 0xFFFF_0000 == 0
    ensures w & 0xFF00_0000 == 0
  {
  }

  lemma JoinedOneToOne(b: bv8, w: bv32, c: bv8, v: bv32)
    requires Joined(b, w) == Joined(c, v) && w & 0xFF00_0000 == 0 && v & 0xFF00_0000 == 0
    ensures b == c && w == v
  {
  }

  lemma FeedThen(r: bv32, b: bv8, w: bv32)
    requires w & 0xFF00_0000 == 0
    ensures Plus(Feed(r, b), w) == Steps(Plus(r, Joined(b, w)), 8)
  {
    FeedEarlier(Plus(r, Wide(b)), w);
    Assoc(r, Wide(b), Up(w));
  }

  lemma Sizes(b: bv8, c: bv8, d: bv8)
    ensures Wide(d) & 0xFF00_0000 == 0 && Joined(c, Wide(d)) & 0xFF00_0000 == 0
    ensures Joined(b, Joined(c, Wide(d))) & 0xFF00_0000 == 0
  {
    WideSize(d);
    JoinedSize(c, Wide(d));
    JoinedSize(b, Joined(c, Wide(d)));
    Shrink(Joined(c, Wide(d)));
  }

  lemma FourBytes(r: bv32, a: bv8, b: bv8, c: bv8, d: bv8)
    ensures Feed(Feed(Feed(Feed(r, a), b), c), d) == Steps(Steps(Steps(Steps(Plus(r, Word4(a, b, c, d)), 8), 8), 8), 8)
  {
    Sizes(b, c, d);
    FeedThen(Feed(Feed(r, a), b), c, Wide(d));
    FeedThen(Feed(r, a), b, Joined(c, Wide(d)));
    FeedThen(r, a, Joined(b, Joined(c, Wide(d))));
  }

  lemma Word4OneToOne(a: bv8, b: bv8, c: bv8, d: bv8, e: bv8, f: bv8, g: bv8, h: bv8)
    requires Word4(a, b, c, d) == Word4(e, f, g, h)
    ensures a == e && b == f && c == g && d == h
  {
    Sizes(b, c, d);
    Sizes(f, g, h);
    JoinedOneToOne(a, Joined(b, Joined(c, Wide(d))), e, Joined(f, Joined(g, Wide(h))));
    JoinedOneToOne(b, Joined(c, Wide(d)), f, Joined(g, Wide(h)));
    JoinedOneToOne(c, Wide(d), g, Wide(h));
  }

  // ----- the check value -----

  /** One byte with a table entry. */
  lemma FeedIs(c: bv32, b: bv8, i: bv32, r: bv32)
    requires i < 256 && i == Plus(c, Wide(b)) & 0xFF && r == Plus(High(c), Table(i))
    ensures Feed(c, b) == r
  {
    var h, l := SplitByte(c, b, Plus(c, Wide(b)));
    TableIsSteps(i);
    TurnIsFeed(c, b, h, l, Table(i));
  }

  lemma FeedMore(c: bv32, b: bv8, rest: Bytes)
    ensures Divide(c, [b] + rest) == Divide(Feed(c, b), rest)
  {
    assert ([b] + rest)[1..] == rest;
  }

  lemma ThreeBytes(c: bv32, x: bv8, y: bv8, z: bv8, rest: Bytes)
    ensures Divide(c, [x, y, z] + rest) == Divide(Feed(Feed(Feed(c, x), y), z), rest)
  {
    assert [x, y, z] + rest == [x] + ([y] + ([z] + rest));
    FeedMore(c, x, [y] + ([z] + rest));
    FeedMore(Feed(c, x), y, [z] + rest);
    FeedMore(Feed(Feed(c, x), y), z, rest);
  }

  lemma Digit1()
    ensures Feed(0xFFFF_FFFF, 0x31) == 0x6F0A_661C
  {
    FeedIs(0xFFFF_FFFF, 0x31, 0xCE, 0x6F0A_661C);
  }

  lemma Digit2()
    ensures Feed(0x6F0A_661C, 0x32) == 0x8CAA_3B9F
  {
    FeedIs(0x6F0A_661C, 0x32, 0x2E, 0x8CAA_3B9F);
  }

  lemma Digit3()
    ensures Feed(0x8CAA_3B9F, 0x33) == 0xEF84_D04D
  {
    FeedIs(0x8CAA_3B9F, 0x33, 0xAC, 0xEF84_D04D);
  }

  lemma Digit4()
    ensures Feed(0xEF84_D04D, 0x34) == 0x09C5_0B11
  {
    FeedIs(0xEF84_D04D, 0x34, 0x79, 0x09C5_0B11);
  }

  lemma Digit5()
    ensures Feed(0x09C5_0B11, 0x35) == 0xE72E_DCCA
  {
    FeedIs(0x09C5_0B11, 0x35, 0x24, 0xE72E_DCCA);
  }

  lemma Digit6()
    ensures Feed(0xE72E_DCCA, 0x36) == 0xBECA_8E79
  {
    FeedIs(0xE72E_DCCA, 0x36, 0xFC, 0xBECA_8E79);
  }

  lemma Digit7()
    ensures Feed(0xBECA_8E79, 0x37) == 0xEDBD_6815
  {
    FeedIs(0xBECA_8E79, 0x37, 0x4E, 0xEDBD_6815);
  }

  lemma Digit8()
    ensures Feed(0xEDBD_6815, 0x38) == 0x9F78_7F65
  {
    FeedIs(0xEDBD_6815, 0x38, 0x2D, 0x9F78_7F65);
  }

  lemma Digit9()
    ensures Feed(0x9F78_7F65, 0x39) == 0x1CF9_6D7C
  {
    FeedIs(0x9F78_7F65, 0x39, 0x5C, 0x1CF9_6D7C);
  }

  lemma DigitsSplit(a: Bytes, b: Bytes, c: Bytes, all: Bytes)
    requires a == [0x31, 0x32, 0x33] && b == [0x34, 0x35, 0x36] && c == [0x37, 0x38, 0x39] && all == a + (b + (c + []))
    ensures all == [0x31, 0x32, 0x33, 0x34, 0x35, 0x36, 0x37, 0x38, 0x39]
  {
  }

  /** The published check value: the checksum of the digits 1 to 9. */
  lemma CheckValue()
    ensures Crc([0x31, 0x32, 0x33, 0x34, 0x35, 0x36, 0x37, 0x38, 0x39]) == 0xE306_9283
  {
    var a: Bytes, b: Bytes, c: Bytes := [0x31, 0x32, 0x33], [0x34, 0x35, 0x36], [0x37, 0x38, 0x39];
    var all := a + (b + (c + []));
    DigitsSplit(a, b, c, all);
    ThreeBytes(0xFFFF_FFFF, 0x31, 0x32, 0x33, b + (c + []));
    ThreeBytes(0xEF84_D04D, 0x34, 0x35, 0x36, c + []);
    ThreeBytes(0xBECA_8E79, 0x37, 0x38, 0x39, []);
    Digit1();
    Digit2();
    Digit3();
    Digit4();
    Digit5();
    Digit6();
    Digit7();
    Digit8();
    Digit9();
    Complemented(0x1CF9_6D7C);
  }

  lemma Complemented(v: bv32)
    ensures v == 0x1CF9_6D7C ==> Plus(v, 0xFFFF_FFFF) == 0xE306_9283
  {
  }
}
