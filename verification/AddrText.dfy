/** IP addresses as text: what the parsers accept and what it means, what the formatters write, and
    that parsing undoes formatting (RFC 4291 section 2.2, RFC 5952 section 4). */
module AddrText {
  import opened Bits

  type U16 = n: nat | n < 0x1_0000

  datatype Option<+T> = None | Some(value: T)

  /** Pieces with a separator between neighbours. */
  function Join(ps: seq<string>, sep: char): (s: string) {
    if ps == [] then "" else if |ps| == 1 then ps[0] else ps[0] + ([sep] + Join(ps[1..], sep))
  }

  // ----- decimal numbers -----

  predicate Digit(c: char) {
    '0' <= c <= '9'
  }

  function DigitOf(c: char): (d: nat)
    requires Digit(c)
    ensures d < 10
  {
    c as int - '0' as int
  }

  predicate Digits(p: string) {
    forall k | 0 <= k < |p| :: Digit(p[k])
  }

  /** The number that decimal digits write; no digits write 0. */
  function Dec(p: string): nat
    requires Digits(p)
  {
    if p == "" then 0 else Dec(p[..|p| - 1]) * 10 + DigitOf(p[|p| - 1])
  }

  lemma DecMore(q: string, c: char)
    requires Digits(q) && Digit(c)
    ensures Digits(q + [c]) && Dec(q + [c]) == Dec(q) * 10 + DigitOf(c)
  {
    assert (q + [c])[..|q|] == q;
  }

  lemma {:induction false} DecGrows(q: string, p: string)
    requires Digits(q) && Digits(p)
    ensures Digits(q + p) && Dec(q) <= Dec(q + p)
  {
    if p == "" {
      assert q + p == q;
    } else {
      var n := |p| - 1;
      DecGrows(q, p[..n]);
      assert q + p == (q + p[..n]) + [p[n]];
      DecMore(q + p[..n], p[n]);
    }
  }

  // ----- IPv4: the parser -----

  /** The rest of the text after `octets` and the digits of value `val`. */
  function V4From(rest: string, octets: seq<Byte>, val: Byte): (r: Option<seq<Byte>>)
    requires |octets| <= 4
    ensures r.Some? ==> |r.value| == 4
    decreases |rest|
  {
    if rest == "" || rest[0] == '.' then
      if |octets| == 4 then None
      else if rest != "" then V4From(rest[1..], octets + [val], 0)
      else if |octets| == 3 then Some(octets + [val])
      else None
    else if Digit(rest[0]) then
      var v := val * 10 + DigitOf(rest[0]);
      if v > 255 then None else V4From(rest[1..], octets, v)
    else None
  }

  function ParseV4(s: string): (r: Option<seq<Byte>>)
    ensures r.Some? ==> |r.value| == 4
  {
    if s == "" then None else V4From(s, [], 0)
  }

  // ----- IPv4: what it accepts -----

  /** Digits of a number up to 255; the program lets an empty octet stand for 0. */
  predicate OctetText(p: string) {
    Digits(p) && Dec(p) <= 255
  }

  predicate OctetTexts(ps: seq<string>) {
    forall k | 0 <= k < |ps| :: OctetText(ps[k])
  }

  function Octets(ps: seq<string>): (r: seq<Byte>)
    requires OctetTexts(ps)
    ensures |r| == |ps|
  {
    seq(|ps|, k requires 0 <= k < |ps| => Dec(ps[k]))
  }

  ghost predicate WrittenV4(s: string, ps: seq<string>, a: seq<Byte>) {
    |ps| == 4 && OctetTexts(ps) && s == Join(ps, '.') && a == Octets(ps)
  }

  /** `s` writes the address: four octets with dots between. */
  ghost predicate SpellsV4(s: string, a: seq<Byte>) {
    exists ps :: WrittenV4(s, ps, a)
  }

  /** Reading digits. */
  lemma {:induction false} V4Reads(q: string, p: string, rest: string, octets: seq<Byte>)
    requires |octets| <= 4 && Digits(q) && Digits(p) && Digits(q + p) && Dec(q) <= 255 && Dec(q + p) <= 255
    ensures V4From(p + rest, octets, Dec(q)) == V4From(rest, octets, Dec(q + p))
    decreases |p|
  {
    if p == "" {
      assert p + rest == rest && q + p == q;
    } else {
      var c := p[0];
      assert (p + rest)[1..] == p[1..] + rest && (q + [c]) + p[1..] == q + p;
      DecMore(q, c);
      DecGrows(q + [c], p[1..]);
      V4Reads(q + [c], p[1..], rest, octets);
    }
  }

  lemma {:induction false} V4Accepts(ps: seq<string>, octets: seq<Byte>)
    requires ps != [] && |octets| + |ps| == 4 && OctetTexts(ps)
    ensures V4From(Join(ps, '.'), octets, 0) == Some(octets + Octets(ps))
    decreases |ps|
  {
    var p, val := ps[0], Dec(ps[0]);
    assert "" + p == p;
    if |ps| == 1 {
      V4Reads("", p, "", octets);
      assert p + "" == p;
      assert Octets(ps) == [val];
    } else {
      var after := ['.'] + Join(ps[1..], '.');
      V4Reads("", p, after, octets);
      assert after[1..] == Join(ps[1..], '.');
      V4Accepts(ps[1..], octets + [val]);
      assert octets + Octets(ps) == (octets + [val]) + Octets(ps[1..]);
    }
  }

  /** What spells the rest of an address, when digits `q` of an octet were read. */
  predicate SpellsRest(rest: string, octets: seq<Byte>, q: string, a: seq<Byte>, ps: seq<string>) {
    && ps != [] && |octets| + |ps| == 4 && OctetTexts(ps)
    && Join(ps, '.') == q + rest && a == octets + Octets(ps)
  }

  lemma LastOctet(octets: seq<Byte>, q: string)
    requires |octets| == 3 && OctetText(q)
    ensures SpellsRest("", octets, q, octets + [Dec(q)], [q])
  {
    assert q + "" == q && Octets([q]) == [Dec(q)];
  }

  lemma OctetInFront(rest: string, octets: seq<Byte>, q: string, a: seq<Byte>, ps: seq<string>)
    requires |octets| < 4 && OctetText(q) && SpellsRest(rest, octets + [Dec(q)], "", a, ps)
    ensures SpellsRest(['.'] + rest, octets, q, a, [q] + ps)
  {
    assert "" + rest == rest && ([q] + ps)[1..] == ps;
    assert octets + Octets([q] + ps) == (octets + [Dec(q)]) + Octets(ps);
  }

  lemma {:induction false} V4Pieces(rest: string, octets: seq<Byte>, q: string, a: seq<Byte>) returns (ps: seq<string>)
    requires |octets| <= 4 && OctetText(q) && V4From(rest, octets, Dec(q)) == Some(a)
    ensures SpellsRest(rest, octets, q, a, ps)
    decreases |rest|
  {
    if rest == "" {
      LastOctet(octets, q);
      ps := [q];
    } else if rest[0] == '.' {
      var more := V4Pieces(rest[1..], octets + [Dec(q)], "", a);
      OctetInFront(rest[1..], octets, q, a, more);
      assert ['.'] + rest[1..] == rest;
      ps := [q] + more;
    } else {
      DecMore(q, rest[0]);
      ps := V4Pieces(rest[1..], octets, q + [rest[0]], a);
      assert (q + [rest[0]]) + rest[1..] == q + rest;
    }
  }

  /** The parser accepts exactly the spellings, with their meaning. */
  lemma V4Iff(s: string, a: seq<Byte>)
    ensures ParseV4(s) == Some(a) <==> SpellsV4(s, a)
  {
    if ParseV4(s) == Some(a) {
      var ps := V4Pieces(s, [], "", a);
      assert "" + s == s && [] + Octets(ps) == Octets(ps);
      assert WrittenV4(s, ps, a);
    }
    if SpellsV4(s, a) {
      var ps :| WrittenV4(s, ps, a);
      V4Accepts(ps, []);
      assert [] + Octets(ps) == Octets(ps);
    }
  }

  // ----- IPv4: the formatter -----

  function DigitChar(d: nat): (c: char)
    requires d < 10
    ensures Digit(c) && DigitOf(c) == d
  {
    (d + '0' as int) as char
  }

  /** An octet without leading zeros. */
  function DecText(v: Byte): (p: string)
    ensures 1 <= |p| <= 3
  {
    if v >= 100 then [DigitChar(v / 100), DigitChar(v % 100 / 10), DigitChar(v % 10)]
    else if v >= 10 then [DigitChar(v / 10), DigitChar(v % 10)]
    else [DigitChar(v)]
  }

  /** The text has the value, and no leading zero. */
  lemma DecTextIs(v: Byte)
    ensures Digits(DecText(v)) && Dec(DecText(v)) == v && (DecText(v)[0] == '0' ==> DecText(v) == "0")
  {
    var p := DecText(v);
    if v >= 100 {
      assert p[..2][..1] == [p[0]] && p[..2] == [p[0], p[1]];
      assert Dec([p[0]]) == v / 100 && Dec(p[..2]) == v / 10;
    } else if v >= 10 {
      assert p[..1] == [p[0]] && Dec([p[0]]) == v / 10;
    }
  }

  function DecTexts(a: seq<Byte>): (ps: seq<string>)
    ensures |ps| == |a|
  {
    seq(|a|, k requires 0 <= k < |a| => DecText(a[k]))
  }

  function FormatV4(a: seq<Byte>): string {
    Join(DecTexts(a), '.')
  }

  /** The text is four octets with dots between, none of them empty or with a leading zero. */
  lemma FormatV4Is(a: seq<Byte>) returns (ps: seq<string>)
    requires |a| == 4
    ensures WrittenV4(FormatV4(a), ps, a) && forall k | 0 <= k < 4 :: ps[k] != "" && (ps[k][0] == '0' ==> ps[k] == "0")
  {
    ps := DecTexts(a);
    forall k | 0 <= k < 4 ensures OctetText(ps[k]) && Dec(ps[k]) == a[k] && (ps[k][0] == '0' ==> ps[k] == "0") {
      DecTextIs(a[k]);
    }
  }

  /** Parsing undoes formatting. */
  lemma V4RoundTrip(a: seq<Byte>)
    requires |a| == 4
    ensures ParseV4(FormatV4(a)) == Some(a)
  {
    var ps := FormatV4Is(a);
    V4Iff(FormatV4(a), a);
  }

  /** Empty octets pass for 0: three dots alone are an address. */
  lemma DotsAreAnAddress()
    ensures ParseV4("...") == Some([0, 0, 0, 0])
  {
    var ps: seq<string> := ["", "", "", ""];
    assert ps[1..] == ["", "", ""] && ps[1..][1..] == ["", ""] && ps[1..][1..][1..] == [""];
    assert Join(ps, '.') == "...";
    assert Octets(ps) == [0, 0, 0, 0];
    assert WrittenV4("...", ps, [0, 0, 0, 0]);
    V4Iff("...", [0, 0, 0, 0]);
  }
}
