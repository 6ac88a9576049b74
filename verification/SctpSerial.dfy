/** The signed-difference comparisons of the wire numbers. The models count TSNs and
    stream sequence numbers without bound; the program keeps the low 32 or 16 bits
    and compares by the sign of the wrapped difference. */
module SctpSerial {
  /** `(int32_t)(a - b)` on 32-bit TSNs. */
  function TsnDiff(a: nat, b: nat): (d: int)
    requires a < 0x1_0000_0000 && b < 0x1_0000_0000
    ensures -0x8000_0000 <= d < 0x8000_0000
    ensures (a - b - d) % 0x1_0000_0000 == 0
  {
    var u := if a >= b then a - b else a - b + 0x1_0000_0000;
    if u < 0x8000_0000 then u else u - 0x1_0000_0000
  }

  /** `(int16_t)(a - b)` on 16-bit stream sequence numbers. */
  function SsnDiff(a: nat, b: nat): (d: int)
    requires a < 0x1_0000 && b < 0x1_0000
    ensures -0x8000 <= d < 0x8000
    ensures (a - b - d) % 0x1_0000 == 0
  {
    var u := if a >= b then a - b else a - b + 0x1_0000;
    if u < 0x8000 then u else u - 0x1_0000
  }

  /** The wrapped TSN difference is the true one exactly for differences in the signed range. */
  lemma TsnDiffIff(x: int, y: int)
    ensures TsnDiff(x % 0x1_0000_0000, y % 0x1_0000_0000) == x - y <==> -0x8000_0000 <= x - y < 0x8000_0000
  {
    var qx, qy := x / 0x1_0000_0000, y / 0x1_0000_0000;
    assert x == 0x1_0000_0000 * qx + x % 0x1_0000_0000;
    assert y == 0x1_0000_0000 * qy + y % 0x1_0000_0000;
  }

  lemma SsnDiffIff(x: int, y: int)
    ensures SsnDiff(x % 0x1_0000, y % 0x1_0000) == x - y <==> -0x8000 <= x - y < 0x8000
  {
    var qx, qy := x / 0x1_0000, y / 0x1_0000;
    assert x == 0x1_0000 * qx + x % 0x1_0000;
    assert y == 0x1_0000 * qy + y % 0x1_0000;
  }

  /** Every TSN comparison of the program means what it means for unbounded TSNs, within 2^31. */
  lemma TsnOrder(x: int, y: int)
    requires -0x8000_0000 <= x - y < 0x8000_0000
    ensures TsnDiff(x % 0x1_0000_0000, y % 0x1_0000_0000) <= 0 <==> x <= y
    ensures TsnDiff(x % 0x1_0000_0000, y % 0x1_0000_0000) > 0 <==> x > y
    ensures x % 0x1_0000_0000 == y % 0x1_0000_0000 <==> x == y
  {
    TsnDiffIff(x, y);
  }

  /** Every stream sequence comparison has the unbounded meaning within 2^15. */
  lemma SsnOrder(x: int, y: int)
    requires -0x8000 <= x - y < 0x8000
    ensures SsnDiff(x % 0x1_0000, y % 0x1_0000) < 0 <==> x < y
    ensures SsnDiff(x % 0x1_0000, y % 0x1_0000) <= 0 <==> x <= y
    ensures x % 0x1_0000 == y % 0x1_0000 <==> x == y
  {
    SsnDiffIff(x, y);
  }
}
