/** Bytes as numbers 0..255: exclusive or, 16-bit words and bit masks. */
module Bits {
  type Byte = x: int | 0 <= x < 256

  // ----- exclusive or -----

  function Xor(a: nat, b: nat): nat
    decreases a + b
  {
    if a == 0 && b == 0 then 0
    else 2 * Xor(a / 2, b / 2) + if a % 2 == b % 2 then 0 else 1
  }

  lemma {:induction false} XorComm(a: nat, b: nat)
    ensures Xor(a, b) == Xor(b, a)
    decreases a + b
  {
    if a != 0 || b != 0 { XorComm(a / 2, b / 2); }
  }

  lemma {:induction false} XorZero(a: nat)
    ensures Xor(a, 0) == a
  {
    if a != 0 { XorZero(a / 2); }
  }

  lemma {:induction false} XorSelf(a: nat)
    ensures Xor(a, a) == 0
  {
    if a != 0 { XorSelf(a / 2); }
  }

  /** The halves and the last bit of an exclusive or. */
  lemma XorStep(a: nat, b: nat)
    ensures Xor(a, b) / 2 == Xor(a / 2, b / 2)
    ensures Xor(a, b) % 2 == if a % 2 == b % 2 then 0 else 1
  {
    if a == 0 && b == 0 {
      assert Xor(0, 0) == 0;
    } else {
      assert Xor(a, b) == 2 * Xor(a / 2, b / 2) + if a % 2 == b % 2 then 0 else 1;
    }
  }

  lemma {:induction false} XorAssoc(a: nat, b: nat, c: nat)
    ensures Xor(Xor(a, b), c) == Xor(a, Xor(b, c))
    decreases a + b + c
  {
    if a == 0 && b == 0 && c == 0 {
      assert Xor(0, 0) == 0;
    } else {
      XorAssoc(a / 2, b / 2, c / 2);
      XorStep(a, b);
      XorStep(b, c);
      XorStep(Xor(a, b), c);
      XorStep(a, Xor(b, c));
      var l, r := Xor(Xor(a, b), c), Xor(a, Xor(b, c));
      assert l == 2 * (l / 2) + l % 2 && r == 2 * (r / 2) + r % 2;
    }
  }

  function Pow2(n: nat): (p: nat)
    ensures p > 0
  {
    if n == 0 then 1 else 2 * Pow2(n - 1)
  }

  lemma Powers()
    ensures Pow2(6) == 64 && Pow2(8) == 256 && Pow2(16) == 0x1_0000
  {
    assert Pow2(4) == 16;
    assert Pow2(8) == 256;
    assert Pow2(12) == 4096;
  }

  lemma {:induction false} XorBound(a: nat, b: nat, n: nat)
    requires a < Pow2(n) && b < Pow2(n)
    ensures Xor(a, b) < Pow2(n)
  {
    if n == 0 {
      assert Xor(0, 0) == 0;
    } else {
      XorBound(a / 2, b / 2, n - 1);
      XorStep(a, b);
    }
  }

  lemma XorByte(a: nat, b: nat)
    requires a < 256 && b < 256
    ensures Xor(a, b) < 256
  {
    Powers();
    XorBound(a, b, 8);
  }

  /** Exclusive or of two bytes. */
  function XorB(a: Byte, b: Byte): Byte {
    XorByte(a, b);
    Xor(a, b)
  }

  /** One more binary digit below the high parts `u` and `v`. */
  lemma DigitStep(u: nat, v: nat, w: nat, l: nat, m: nat)
    requires Xor(u + l / 2, v + m / 2) == w + Xor(l / 2, m / 2)
    ensures Xor(2 * u + l, 2 * v + m) == 2 * w + Xor(l, m)
  {
    XorStep(2 * u + l, 2 * v + m);
    XorStep(l, m);
    var r := Xor(2 * u + l, 2 * v + m);
    assert (2 * u + l) / 2 == u + l / 2 && (2 * v + m) / 2 == v + m / 2;
    assert r == 2 * (r / 2) + r % 2;
  }

  /** Left shift. */
  function Shl(x: nat, n: nat): nat {
    if n == 0 then x else 2 * Shl(x, n - 1)
  }

  lemma ShlByte(x: nat)
    ensures Shl(x, 8) == x * 256
  {
    assert Shl(x, 0) == x && Shl(x, 1) == 2 * Shl(x, 0) && Shl(x, 2) == 2 * Shl(x, 1);
    assert Shl(x, 3) == 2 * Shl(x, 2) && Shl(x, 4) == 2 * Shl(x, 3) && Shl(x, 5) == 2 * Shl(x, 4);
    assert Shl(x, 6) == 2 * Shl(x, 5) && Shl(x, 7) == 2 * Shl(x, 6) && Shl(x, 8) == 2 * Shl(x, 7);
  }

  /** Exclusive or works digit by digit. */
  lemma {:induction false} XorDigits(h: nat, l: nat, i: nat, m: nat, n: nat)
    requires l < Pow2(n) && m < Pow2(n)
    ensures Xor(Shl(h, n) + l, Shl(i, n) + m) == Shl(Xor(h, i), n) + Xor(l, m)
    decreases n
  {
    if n == 0 {
      assert Xor(0, 0) == 0;
    } else {
      XorDigits(h, l / 2, i, m / 2, n - 1);
      DigitStep(Shl(h, n - 1), Shl(i, n - 1), Shl(Xor(h, i), n - 1), l, m);
    }
  }

  // ----- 16-bit words in two bytes, high byte first -----

  function Word(h: Byte, l: Byte): (n: nat)
    ensures n < 0x1_0000
  {
    h * 256 + l
  }

  function High(n: nat): (b: Byte)
    requires n < 0x1_0000
  {
    n / 256
  }

  function Low(n: nat): (b: Byte) {
    n % 256
  }

  /** Exclusive or of words works byte by byte. */
  lemma XorWords(h: Byte, l: Byte, i: Byte, m: Byte)
    ensures Xor(Word(h, l), Word(i, m)) == Word(XorB(h, i), XorB(l, m))
  {
    Powers();
    XorDigits(h, l, i, m, 8);
    ShlByte(h);
    ShlByte(i);
    ShlByte(Xor(h, i));
  }

  // ----- bit masks -----

  /** The `n` low bits of a number, most significant first. */
  function BitsOf(m: nat, n: nat): (r: seq<bool>)
    ensures |r| == n
  {
    if n == 0 then [] else BitsOf(m / 2, n - 1) + [m % 2 == 1]
  }

  /** The number that a bit list encodes. */
  function Number(bits: seq<bool>): (m: nat)
    ensures m < Pow2(|bits|)
  {
    if bits == [] then 0
    else 2 * Number(bits[..|bits| - 1]) + if bits[|bits| - 1] then 1 else 0
  }

  lemma {:induction false} BitsOfNumber(bits: seq<bool>)
    ensures BitsOf(Number(bits), |bits|) == bits
  {
    if bits != [] {
      var front := bits[..|bits| - 1];
      BitsOfNumber(front);
      assert bits == front + [bits[|bits| - 1]];
      assert Number(bits) / 2 == Number(front);
    }
  }

  // ----- bytes in place -----

  /** A length cut to 16 bits, high byte first. */
  function Size16(n: nat): (r: seq<Byte>)
    ensures |r| == 2
  {
    [n / 256 % 256, n % 256]
  }

  /** The bytes of `x` lie at `at`. */
  predicate LiesAt(p: seq<Byte>, at: nat, x: seq<Byte>) {
    at + |x| <= |p| && forall k | 0 <= k < |x| :: p[at + k] == x[k]
  }

  lemma LiesParts(p: seq<Byte>, at: nat, a: seq<Byte>, b: seq<Byte>, c: seq<Byte>)
    requires LiesAt(p, at, a + b + c)
    ensures LiesAt(p, at, a) && LiesAt(p, at + |a|, b) && LiesAt(p, at + |a| + |b|, c)
  {
    var x := a + b + c;
    assert forall k | 0 <= k < |a| :: x[k] == a[k];
    assert forall k | 0 <= k < |b| :: x[|a| + k] == b[k];
    assert forall k | 0 <= k < |c| :: x[|a| + |b| + k] == c[k];
    forall k | 0 <= k < |b| ensures p[at + |a| + k] == b[k] { assert p[at + (|a| + k)] == x[|a| + k]; }
    forall k | 0 <= k < |c| ensures p[at + |a| + |b| + k] == c[k] { assert p[at + (|a| + |b| + k)] == x[|a| + |b| + k]; }
  }
}
