/** The text written for an address, and the round trip. An IPv6 address is written in lower case
    without leading zeros, with "::" for the first longest run of zero groups (RFC 5952 section 4). */
module AddrFormat {
  import opened Bits
  import Slices
  import opened AddrText
  import opened AddrV6

  // ----- one group -----

  function HexChar(d: nat): (c: char)
    requires d < 16
    ensures Hex(c) && HexOf(c) == d && !('A' <= c <= 'F')
  {
    if d < 10 then (d + '0' as int) as char else (d - 10 + 'a' as int) as char
  }

  function HexText(v: U16): (p: string)
    ensures 1 <= |p| <= 4
  {
    if v >= 0x1000 then [HexChar(v / 4096), HexChar(v / 256 % 16), HexChar(v / 16 % 16), HexChar(v % 16)]
    else if v >= 0x100 then [HexChar(v / 256), HexChar(v / 16 % 16), HexChar(v % 16)]
    else if v >= 0x10 then [HexChar(v / 16), HexChar(v % 16)]
    else [HexChar(v)]
  }

  lemma HexNumTwo(a: char, b: char)
    requires Hex(a) && Hex(b)
    ensures HexNum([a]) == HexOf(a) && HexNum([a, b]) == HexOf(a) * 16 + HexOf(b)
  {
    HexMore("", a);
    assert "" + [a] == [a];
    HexMore([a], b);
    assert [a] + [b] == [a, b];
  }

  lemma HexNumFour(a: char, b: char, c: char, d: char)
    requires Hex(a) && Hex(b) && Hex(c) && Hex(d)
    ensures HexNum([a, b, c]) == (HexOf(a) * 16 + HexOf(b)) * 16 + HexOf(c)
    ensures HexNum([a, b, c, d]) == ((HexOf(a) * 16 + HexOf(b)) * 16 + HexOf(c)) * 16 + HexOf(d)
  {
    HexNumTwo(a, b);
    HexMore([a, b], c);
    assert [a, b] + [c] == [a, b, c];
    HexMore([a, b, c], d);
    assert [a, b, c] + [d] == [a, b, c, d];
  }

  lemma Nibbles(v: U16)
    ensures v / 16 * 16 + v % 16 == v
    ensures (v / 256 * 16 + v / 16 % 16) * 16 + v % 16 == v
    ensures ((v / 4096 * 16 + v / 256 % 16) * 16 + v / 16 % 16) * 16 + v % 16 == v
  {
  }

  /** The text has the value, and no leading zero. */
  lemma HexTextIs(v: U16)
    ensures GroupText(HexText(v)) && HexNum(HexText(v)) == v && (HexText(v)[0] == '0' ==> v == 0)
  {
    Nibbles(v);
    if v >= 0x1000 {
      HexNumFour(HexChar(v / 4096), HexChar(v / 256 % 16), HexChar(v / 16 % 16), HexChar(v % 16));
    } else if v >= 0x100 {
      HexNumFour(HexChar(v / 256), HexChar(v / 16 % 16), HexChar(v % 16), '0');
    } else if v >= 0x10 {
      HexNumTwo(HexChar(v / 16), HexChar(v % 16));
    } else {
      HexNumTwo(HexChar(v), '0');
    }
  }

  function HexTexts(g: seq<U16>): (ps: seq<string>)
    ensures |ps| == |g|
  {
    seq(|g|, k requires 0 <= k < |g| => HexText(g[k]))
  }

  lemma {:induction false} HexTextsMean(g: seq<U16>)
    ensures AllGroupTexts(HexTexts(g)) && Pieces(HexTexts(g)) && Values(HexTexts(g)) == g
    decreases |g|
  {
    var ps := HexTexts(g);
    forall k | 0 <= k < |ps| ensures GroupText(ps[k]) {
      HexTextIs(g[k]);
    }
    if g != [] {
      HexTextIs(g[0]);
      HexTextsMean(g[1..]);
      assert ps[1..] == HexTexts(g[1..]);
      assert [g[0]] + g[1..] == g;
    }
  }

  // ----- runs of zero groups -----

  predicate ZeroRun(g: seq<U16>, start: nat, len: nat) {
    start + len <= |g| && forall k | start <= k < start + len :: g[k] == 0
  }

  datatype Run = NoRun | RunAt(start: nat, len: nat)

  /** The run that is compressed: the first of the longest runs of two or more zero groups. */
  ghost predicate FirstLongest(g: seq<U16>, r: Run) {
    match r
    case NoRun => forall s: nat, n: nat | ZeroRun(g, s, n) :: n <= 1
    case RunAt(start, len) =>
      && len >= 2 && ZeroRun(g, start, len)
      && forall s: nat, n: nat | ZeroRun(g, s, n) :: n < len || (n == len && start <= s)
  }

  /** There is only one such run. */
  lemma FirstLongestIsUnique(g: seq<U16>, r: Run, q: Run)
    requires FirstLongest(g, r) && FirstLongest(g, q)
    ensures r == q
  {
    if r.RunAt? { assert ZeroRun(g, r.start, r.len); }
    if q.RunAt? { assert ZeroRun(g, q.start, q.len); }
  }

  // ----- the text -----

  predicate Fits(g: seq<U16>, r: Run) {
    |g| == GROUPS && (r.RunAt? ==> r.len > 0 && ZeroRun(g, r.start, r.len))
  }

  function Text(g: seq<U16>, r: Run): string
    requires Fits(g, r)
  {
    match r
    case NoRun => Join(HexTexts(g), ':')
    case RunAt(start, len) => Join(HexTexts(g[..start]), ':') + "::" + Join(HexTexts(g[start + len..]), ':')
  }

  /** Reading the text gives the groups, whatever run of zeros was compressed. */
  lemma TextIsRead(g: seq<U16>, r: Run)
    requires Fits(g, r)
    ensures ParseV6(Text(g, r)) == Some(g)
  {
    match r
    case NoRun =>
      HexTextsMean(g);
      FullIsRead(HexTexts(g));
    case RunAt(start, len) =>
      GapIsRead(g[..start], len, g[start + len..]);
      assert g[..start] + Zeros(len) + g[start + len..] == g;
  }

  lemma GapIsRead(front: seq<U16>, len: nat, back: seq<U16>)
    requires |front| + len + |back| == GROUPS
    ensures ParseV6(Join(HexTexts(front), ':') + "::" + Join(HexTexts(back), ':')) == Some(front + Zeros(len) + back)
  {
    HexTextsMean(front);
    HexTextsMean(back);
    GappedIsRead(HexTexts(front), HexTexts(back));
  }

  /** Every text of an IPv6 address has a colon, so that it is not taken for an IPv4 address. */
  lemma TextHasColon(g: seq<U16>, r: Run)
    requires Fits(g, r)
    ensures ':' in Text(g, r)
  {
    match r
    case NoRun =>
      var ps := HexTexts(g);
      assert Join(ps, ':')[|ps[0]|] == ':';
    case RunAt(start, len) =>
      assert Text(g, r)[|Join(HexTexts(g[..start]), ':')|] == ':';
  }

  lemma {:induction false} JoinChars(ps: seq<string>, c: char)
    requires forall k | 0 <= k < |ps| :: c !in ps[k]
    requires c != '.'
    ensures c !in Join(ps, '.')
    decreases |ps|
  {
    if |ps| > 1 {
      assert forall k | 0 <= k < |ps| - 1 :: ps[1..][k] == ps[k + 1];
      JoinChars(ps[1..], c);
    }
  }

  lemma V4HasNoColon(a: seq<Byte>)
    ensures ':' !in FormatV4(a)
  {
    forall k | 0 <= k < |a| ensures ':' !in DecTexts(a)[k] {
      DecTextIs(a[k]);
    }
    JoinChars(DecTexts(a), ':');
  }

  // ----- writing it group by group -----

  /** What is written from group `k` on. */
  function EmitFrom(g: seq<U16>, k: nat, r: Run): string
    requires Fits(g, r) && k <= GROUPS
    decreases GROUPS - k
  {
    if k == GROUPS then ""
    else if r.RunAt? && k == r.start then "::" + EmitFrom(g, k + r.len, r)
    else
      (if k > 0 && !(r.RunAt? && k == r.start + r.len) then ":" else "") + HexText(g[k]) + EmitFrom(g, k + 1, r)
  }

  /** Groups to the end, with a colon before the first one unless it follows the gap. */
  function Led(ps: seq<string>, colon: bool): string {
    if ps == [] then "" else (if colon then ":" else "") + Join(ps, ':')
  }

  lemma LedStep(ps: seq<string>, colon: bool)
    requires ps != []
    ensures Led(ps, colon) == (if colon then ":" else "") + ps[0] + Led(ps[1..], true)
  {
    if |ps| == 1 {
      assert ps[0] + "" == ps[0];
    } else {
      assert [':'] + Join(ps[1..], ':') == ":" + Join(ps[1..], ':');
    }
  }

  lemma HexTextsTail(g: seq<U16>, k: nat)
    requires k < |g|
    ensures HexTexts(g[k..]) != [] && HexTexts(g[k..])[0] == HexText(g[k]) && HexTexts(g[k..])[1..] == HexTexts(g[k + 1..])
  {
  }

  /** Past the gap, or without one. */
  lemma {:induction false} EmitTail(g: seq<U16>, k: nat, r: Run, out: string)
    requires Fits(g, r) && k <= GROUPS && (r.RunAt? ==> r.start + r.len <= k) && out == EmitFrom(g, k, r)
    ensures out == Led(HexTexts(g[k..]), k > 0 && !(r.RunAt? && k == r.start + r.len))
    decreases GROUPS - k
  {
    if k < GROUPS {
      var colon := k > 0 && !(r.RunAt? && k == r.start + r.len);
      HexTextsTail(g, k);
      EmitTail(g, k + 1, r, EmitFrom(g, k + 1, r));
      LedStep(HexTexts(g[k..]), colon);
    }
  }

  /** What is written from the gap on. */
  function GapText(g: seq<U16>, r: Run): string
    requires Fits(g, r) && r.RunAt?
  {
    "::" + Join(HexTexts(g[r.start + r.len..]), ':')
  }

  lemma FromGap(g: seq<U16>, r: Run, out: string)
    requires Fits(g, r) && r.RunAt? && out == EmitFrom(g, r.start, r)
    ensures out == GapText(g, r)
  {
    EmitTail(g, r.start + r.len, r, EmitFrom(g, r.start + r.len, r));
    LedPlain(HexTexts(g[r.start + r.len..]));
  }

  lemma LedPlain(ps: seq<string>)
    ensures Led(ps, false) == Join(ps, ':')
  {
    assert "" + Join(ps, ':') == Join(ps, ':');
  }

  lemma EmitOne(g: seq<U16>, k: nat, r: Run, out: string) returns (next: string)
    requires Fits(g, r) && r.RunAt? && k < r.start && out == EmitFrom(g, k, r)
    ensures next == EmitFrom(g, k + 1, r) && out == (if k > 0 then ":" else "") + HexText(g[k]) + next
  {
    next := EmitFrom(g, k + 1, r);
  }

  /** Up to the gap. */
  lemma {:induction false} EmitHead(g: seq<U16>, k: nat, r: Run, out: string, front: seq<U16>, tail: string)
    requires Fits(g, r) && r.RunAt? && k <= r.start && out == EmitFrom(g, k, r)
    requires front == g[..r.start] && tail == GapText(g, r)
    ensures out == Led(HexTexts(front[k..]), k > 0) + tail
    decreases r.start - k
  {
    if k == r.start {
      FromGap(g, r, out);
      assert "" + tail == tail;
    } else {
      var next := EmitOne(g, k, r, out);
      EmitHead(g, k + 1, r, next, front, tail);
      OneInFront(front, g, k, tail);
    }
  }

  lemma OneInFront(front: seq<U16>, g: seq<U16>, k: nat, tail: string)
    requires k < |front| && front <= g
    ensures Led(HexTexts(front[k..]), k > 0) + tail ==
            (if k > 0 then ":" else "") + HexText(g[k]) + (Led(HexTexts(front[k + 1..]), true) + tail)
  {
    HexTextsTail(front, k);
    LedStep(HexTexts(front[k..]), k > 0);
  }

  /** Group by group, the text is written. */
  lemma EmitIsText(g: seq<U16>, r: Run)
    requires Fits(g, r)
    ensures EmitFrom(g, 0, r) == Text(g, r)
  {
    match r
    case NoRun =>
      EmitTail(g, 0, r, EmitFrom(g, 0, r));
      assert g[0..] == g;
      LedPlain(HexTexts(g));
    case RunAt(start, len) =>
      var front := g[..start];
      EmitHead(g, 0, r, EmitFrom(g, 0, r), front, GapText(g, r));
      assert front[0..] == front;
      LedPlain(HexTexts(front));
      Slices.Assoc(Join(HexTexts(front), ':'), "::", Join(HexTexts(g[start + len..]), ':'));
  }
}
