/** IPv6 addresses as text: the spellings the parser accepts, the canonical text the formatter
    writes, and the round trip (RFC 4291 section 2.2, RFC 5952 section 4). */
module AddrV6 {
  import opened Bits
  import Slices
  import opened AddrText

  const GROUPS: nat := 8

  // ----- hexadecimal numbers -----

  predicate Hex(c: char) {
    Digit(c) || 'a' <= c <= 'f' || 'A' <= c <= 'F'
  }

  function HexOf(c: char): (d: nat)
    requires Hex(c)
    ensures d < 16
  {
    if Digit(c) then DigitOf(c)
    else if 'a' <= c <= 'f' then 10 + (c as int - 'a' as int)
    else 10 + (c as int - 'A' as int)
  }

  predicate Hexes(p: string) {
    forall k | 0 <= k < |p| :: Hex(p[k])
  }

  function HexNum(p: string): nat
    requires Hexes(p)
  {
    if p == "" then 0 else HexNum(p[..|p| - 1]) * 16 + HexOf(p[|p| - 1])
  }

  /** One group: one to four hexadecimal digits of either case. */
  predicate GroupText(p: string) {
    1 <= |p| <= 4 && Hexes(p)
  }

  function Pow16(n: nat): (r: nat)
    ensures r > 0
  {
    if n == 0 then 1 else 16 * Pow16(n - 1)
  }

  lemma {:induction false} HexBound(p: string)
    requires Hexes(p)
    ensures HexNum(p) < Pow16(|p|)
  {
    if p != "" { HexBound(p[..|p| - 1]); }
  }

  lemma GroupBound(p: string)
    requires Hexes(p) && |p| <= 4
    ensures HexNum(p) < 0x1_0000
  {
    HexBound(p);
    assert Pow16(1) == 16 && Pow16(2) == 256 && Pow16(3) == 4096 && Pow16(4) == 0x1_0000;
  }

  lemma HexMore(q: string, c: char)
    requires Hexes(q) && Hex(c)
    ensures Hexes(q + [c]) && HexNum(q + [c]) == HexNum(q) * 16 + HexOf(c)
  {
    assert (q + [c])[..|q|] == q;
  }

  // ----- the parser -----

  /** What a group's loop reads: the value and the number of digits, up to a colon or the end. */
  function ReadHex(rest: string, val: nat, digits: nat): (r: Option<(nat, nat)>)
    ensures r.Some? ==> digits <= r.value.1 <= digits + |rest|
    decreases |rest|
  {
    if rest == "" || rest[0] == ':' then Some((val, digits))
    else if !Hex(rest[0]) then None
    else
      var v := val * 16 + HexOf(rest[0]);
      if v > 0xFFFF || digits + 1 > 4 then None else ReadHex(rest[1..], v, digits + 1)
  }

  /** A dot comes before the next colon. */
  predicate DotAhead(rest: string)
    decreases |rest|
  {
    rest != "" && rest[0] != ':' && (rest[0] == '.' || DotAhead(rest[1..]))
  }

  /** The groups read, and where among them the double colon stood. */
  datatype Parsed = Fail | Done(groups: seq<U16>, gap: Option<nat>)

  function V4Groups(b: seq<Byte>): seq<U16>
    requires |b| == 4
  {
    [Word(b[0], b[1]), Word(b[2], b[3])]
  }

  function V6From(rest: string, groups: seq<U16>, gap: Option<nat>): Parsed
    decreases |rest|
  {
    if rest == "" then Done(groups, gap)
    else if |groups| >= GROUPS then Fail
    else if DotAhead(rest) then
      if |groups| > 6 then Fail
      else
        match ParseV4(rest)
        case None => Fail
        case Some(b) => Done(groups + V4Groups(b), gap)
    else
      match ReadHex(rest, 0, 0)
      case None => Fail
      case Some((val, n)) =>
        if n == 0 || val > 0xFFFF then Fail
        else
          var more, after := groups + [val], rest[n..];
          if after == "" then Done(more, gap)
          else if |after| == 1 then Fail
          else if after[1] != ':' then V6From(after[1..], more, gap)
          else if gap.Some? then Fail
          else if |after| == 2 then Done(more, Some(|more|))
          else V6From(after[2..], more, Some(|more|))
  }

  function Zeros(n: nat): (r: seq<U16>)
    ensures |r| == n
  {
    seq(n, i => 0)
  }

  /** The gap stands for the missing groups; without one all eight must be there. */
  function Expand(p: Parsed): (r: Option<seq<U16>>)
    ensures r.Some? ==> |r.value| == GROUPS
  {
    if p.Fail? || |p.groups| > GROUPS then None
    else if p.gap.None? then (if |p.groups| == GROUPS then Some(p.groups) else None)
    else if p.gap.value > |p.groups| then None
    else Some(p.groups[..p.gap.value] + Zeros(GROUPS - |p.groups|) + p.groups[p.gap.value..])
  }

  function ParseV6(s: string): (r: Option<seq<U16>>)
    ensures r.Some? ==> |r.value| == GROUPS
  {
    if s == "" then None
    else if |s| >= 2 && s[..2] == "::" then Expand(V6From(s[2..], [], Some(0)))
    else Expand(V6From(s, [], None))
  }

  // ----- spellings -----

  predicate AllGroupTexts(ps: seq<string>) {
    forall k | 0 <= k < |ps| :: GroupText(ps[k])
  }

  /** A dotted tail: an IPv4 address with a dot in it. */
  predicate Tail(p: string) {
    '.' in p && ParseV4(p).Some?
  }

  /** Groups, the last of which may be a dotted tail. */
  predicate Pieces(ps: seq<string>) {
    forall k | 0 <= k < |ps| :: GroupText(ps[k]) || (k == |ps| - 1 && Tail(ps[k]))
  }

  /** The value of one piece: one group, or two for a tail. */
  function PieceValue(p: string): seq<U16>
    requires GroupText(p) || Tail(p)
  {
    if GroupText(p) then
      GroupBound(p);
      [HexNum(p)]
    else V4Groups(ParseV4(p).value)
  }

  function Values(ps: seq<string>): (r: seq<U16>)
    requires Pieces(ps)
    ensures |ps| <= |r|
  {
    if ps == [] then [] else
      assert forall k | 0 <= k < |ps| - 1 :: ps[1..][k] == ps[k + 1];
      PieceValue(ps[0]) + Values(ps[1..])
  }

  /** A spelling: pieces with colons between, or groups, a double colon and more pieces. */
  datatype Spelling = Full(all: seq<string>) | Gapped(before: seq<string>, after: seq<string>)

  predicate Proper(f: Spelling) {
    match f
    case Full(all) => Pieces(all) && |Values(all)| == GROUPS
    case Gapped(before, after) => AllGroupTexts(before) && Pieces(after) && |before| + |Values(after)| <= GROUPS
  }

  function Written(f: Spelling): string {
    match f
    case Full(all) => Join(all, ':')
    case Gapped(before, after) => Join(before, ':') + "::" + Join(after, ':')
  }

  function Meaning(f: Spelling): (r: seq<U16>)
    requires Proper(f)
    ensures |r| == GROUPS
  {
    match f
    case Full(all) => Values(all)
    case Gapped(before, after) =>
      GroupsAlone(before);
      Values(before) + Zeros(GROUPS - |before| - |Values(after)|) + Values(after)
  }

  lemma {:induction false} GroupsAlone(ps: seq<string>)
    requires AllGroupTexts(ps)
    ensures Pieces(ps) && |Values(ps)| == |ps|
  {
    if ps != [] {
      assert forall k | 0 <= k < |ps| - 1 :: ps[1..][k] == ps[k + 1];
      GroupsAlone(ps[1..]);
    }
  }

  /** `s` is a spelling of the groups. */
  ghost predicate SpellsV6(s: string, g: seq<U16>) {
    exists f :: Proper(f) && Written(f) == s && Meaning(f) == g
  }

  // ----- every spelling is read -----

  /** A group ends at the end of the text or at a colon. */
  predicate Ends(rest: string) {
    rest == "" || rest[0] == ':'
  }

  lemma {:induction false} HexReads(q: string, p: string, rest: string)
    requires Hexes(q) && Hexes(p) && |q| + |p| <= 4 && Ends(rest)
    ensures Hexes(q + p) && ReadHex(p + rest, HexNum(q), |q|) == Some((HexNum(q + p), |q| + |p|))
    decreases |p|
  {
    if p == "" {
      assert p + rest == rest && q + p == q;
    } else {
      var c := p[0];
      assert (p + rest)[1..] == p[1..] + rest && (q + [c]) + p[1..] == q + p;
      HexMore(q, c);
      GroupBound(q + [c]);
      HexReads(q + [c], p[1..], rest);
    }
  }

  lemma {:induction false} NoDotAhead(p: string, rest: string)
    requires Hexes(p) && Ends(rest)
    ensures !DotAhead(p + rest)
    decreases |p|
  {
    if p == "" {
      assert p + rest == rest;
    } else {
      assert (p + rest)[1..] == p[1..] + rest;
      NoDotAhead(p[1..], rest);
    }
  }

  /** What follows a group. */
  function AfterGroup(after: string, more: seq<U16>, gap: Option<nat>): Parsed {
    if after == "" then Done(more, gap)
    else if |after| == 1 then Fail
    else if after[1] != ':' then V6From(after[1..], more, gap)
    else if gap.Some? then Fail
    else if |after| == 2 then Done(more, Some(|more|))
    else V6From(after[2..], more, Some(|more|))
  }

  /** One group off the front of the text. */
  lemma OneGroup(text: string, groups: seq<U16>, gap: Option<nat>, v: U16, n: nat, after: string)
    requires text != "" && |groups| < GROUPS && !DotAhead(text)
    requires 0 < n <= |text| && ReadHex(text, 0, 0) == Some((v, n)) && after == text[n..]
    ensures V6From(text, groups, gap) == AfterGroup(after, groups + [v], gap)
  {
  }

  lemma GroupReads(p: string, rest: string, groups: seq<U16>, gap: Option<nat>)
    requires GroupText(p) && Ends(rest) && |groups| < GROUPS
    ensures HexNum(p) < 0x1_0000 && V6From(p + rest, groups, gap) == AfterGroup(rest, groups + [HexNum(p)], gap)
  {
    GroupBound(p);
    NoDotAhead(p, rest);
    HexReads("", p, rest);
    assert "" + p == p && (p + rest)[|p|..] == rest;
    OneGroup(p + rest, groups, gap, HexNum(p), |p|, rest);
  }

  lemma {:induction false} V4Chars(rest: string, octets: seq<Byte>, val: Byte)
    requires |octets| <= 4 && V4From(rest, octets, val).Some?
    ensures forall k | 0 <= k < |rest| :: Digit(rest[k]) || rest[k] == '.'
    decreases |rest|
  {
    if rest != "" {
      if rest[0] == '.' {
        V4Chars(rest[1..], octets + [val], 0);
      } else {
        V4Chars(rest[1..], octets, val * 10 + DigitOf(rest[0]));
      }
      assert forall k | 0 < k < |rest| :: rest[k] == rest[1..][k - 1];
    }
  }

  lemma {:induction false} DotSeen(p: string)
    requires '.' in p && ':' !in p
    ensures DotAhead(p)
    decreases |p|
  {
    if p[0] != '.' {
      assert p == [p[0]] + p[1..];
      DotSeen(p[1..]);
    }
  }

  lemma TailReads(p: string, groups: seq<U16>, gap: Option<nat>)
    requires Tail(p) && |groups| <= 6
    ensures V6From(p, groups, gap) == Done(groups + V4Groups(ParseV4(p).value), gap)
  {
    V4Chars(p, [], 0);
    DotSeen(p);
  }

  lemma PieceStart(p: string)
    requires GroupText(p) || Tail(p)
    ensures p != "" && p[0] != ':' && (Tail(p) ==> !GroupText(p))
  {
    if Tail(p) { V4Chars(p, [], 0); }
  }

  lemma JoinStart(ps: seq<string>)
    requires ps != [] && Pieces(ps)
    ensures Join(ps, ':') != "" && Join(ps, ':')[0] != ':'
  {
    PieceStart(ps[0]);
  }

  lemma OneRead(p: string, groups: seq<U16>, gap: Option<nat>)
    requires (GroupText(p) && |groups| < GROUPS) || (Tail(p) && |groups| <= 6)
    ensures V6From(p, groups, gap) == Done(groups + PieceValue(p), gap)
  {
    PieceStart(p);
    if GroupText(p) {
      GroupReads(p, "", groups, gap);
      assert p + "" == p;
    } else {
      TailReads(p, groups, gap);
    }
  }

  /** The pieces behind the first one. */
  lemma Behind(ps: seq<string>)
    requires |ps| > 1 && Pieces(ps)
    ensures GroupText(ps[0]) && HexNum(ps[0]) < 0x1_0000 && Pieces(ps[1..]) && Values(ps) == [HexNum(ps[0])] + Values(ps[1..])
    ensures Join(ps[1..], ':') != "" && Join(ps[1..], ':')[0] != ':'
    ensures Join(ps, ':') == ps[0] + ([':'] + Join(ps[1..], ':'))
    ensures AllGroupTexts(ps) ==> AllGroupTexts(ps[1..])
  {
    assert forall k | 0 <= k < |ps| - 1 :: ps[1..][k] == ps[k + 1];
    GroupBound(ps[0]);
    JoinStart(ps[1..]);
  }

  /** A group with more text behind its colon. */
  lemma ReadOn(p: string, rest: string, groups: seq<U16>, gap: Option<nat>)
    requires GroupText(p) && rest != "" && rest[0] != ':' && |groups| < GROUPS
    ensures HexNum(p) < 0x1_0000 && V6From(p + ([':'] + rest), groups, gap) == V6From(rest, groups + [HexNum(p)], gap)
  {
    GroupReads(p, [':'] + rest, groups, gap);
    assert ([':'] + rest)[1..] == rest;
  }

  lemma {:induction false} PiecesRead(ps: seq<string>, groups: seq<U16>, gap: Option<nat>, out: Parsed)
    requires ps != [] && Pieces(ps) && |groups| + |Values(ps)| <= GROUPS && out == V6From(Join(ps, ':'), groups, gap)
    ensures out == Done(groups + Values(ps), gap)
    decreases |ps|
  {
    if |ps| == 1 {
      LastPiece(ps, groups, gap);
    } else {
      Behind(ps);
      ReadOn(ps[0], Join(ps[1..], ':'), groups, gap);
      PiecesRead(ps[1..], groups + [HexNum(ps[0])], gap, out);
      Slices.Assoc(groups, [HexNum(ps[0])], Values(ps[1..]));
    }
  }

  lemma LastPiece(ps: seq<string>, groups: seq<U16>, gap: Option<nat>)
    requires |ps| == 1 && Pieces(ps) && |groups| + |Values(ps)| <= GROUPS
    ensures V6From(Join(ps, ':'), groups, gap) == Done(groups + Values(ps), gap)
  {
    OnePiece(ps[0]);
    assert ps == [ps[0]];
    OneRead(ps[0], groups, gap);
  }

  /** Groups and then a gap. */
  predicate AtGap(out: Parsed, more: seq<U16>, tail: string) {
    out == if tail == "" then Done(more, Some(|more|)) else V6From(tail, more, Some(|more|))
  }

  lemma OneAtGap(p: string, tail: string, groups: seq<U16>)
    requires GroupText(p) && |groups| < GROUPS
    ensures HexNum(p) < 0x1_0000 && AtGap(V6From(p + ("::" + tail), groups, None), groups + [HexNum(p)], tail)
  {
    GroupReads(p, "::" + tail, groups, None);
    assert ("::" + tail)[2..] == tail;
  }

  lemma {:induction false} GapReads(ps: seq<string>, tail: string, groups: seq<U16>, out: Parsed)
    requires ps != [] && AllGroupTexts(ps) && Pieces(ps) && |groups| + |ps| <= GROUPS
    requires out == V6From(Join(ps, ':') + ("::" + tail), groups, None)
    ensures AtGap(out, groups + Values(ps), tail)
    decreases |ps|
  {
    if |ps| == 1 {
      OnePiece(ps[0]);
      assert ps == [ps[0]];
      OneAtGap(ps[0], tail, groups);
    } else {
      Behind(ps);
      var rest := Join(ps[1..], ':') + ("::" + tail);
      assert Join(ps, ':') + ("::" + tail) == ps[0] + ([':'] + rest);
      ReadOn(ps[0], rest, groups, None);
      GapReads(ps[1..], tail, groups + [HexNum(ps[0])], out);
      assert groups + Values(ps) == (groups + [HexNum(ps[0])]) + Values(ps[1..]);
    }
  }

  lemma FullIsRead(all: seq<string>)
    requires Proper(Full(all))
    ensures ParseV6(Written(Full(all))) == Some(Meaning(Full(all)))
  {
    JoinStart(all);
    PiecesRead(all, [], None, V6From(Join(all, ':'), [], None));
    assert [] + Values(all) == Values(all);
  }

  /** What stands behind the gap is read after it. */
  lemma AfterGap(g: seq<U16>, after: seq<string>, out: Parsed)
    requires Pieces(after) && |g| + |Values(after)| <= GROUPS && AtGap(out, g, Join(after, ':'))
    ensures out == Done(g + Values(after), Some(|g|))
  {
    if after == [] {
      assert g + Values(after) == g;
    } else {
      JoinStart(after);
      PiecesRead(after, g, Some(|g|), out);
    }
  }

  lemma GapExpands(g: seq<U16>, w: seq<U16>)
    requires |g| + |w| <= GROUPS
    ensures Expand(Done(g + w, Some(|g|))) == Some(g + Zeros(GROUPS - |g| - |w|) + w)
  {
    assert (g + w)[..|g|] == g && (g + w)[|g|..] == w;
  }

  lemma GapFirst(after: seq<string>, s: string)
    requires Pieces(after) && |Values(after)| <= GROUPS && s == "::" + Join(after, ':')
    ensures ParseV6(s) == Expand(Done([] + Values(after), Some(0)))
  {
    assert s[..2] == "::" && s[2..] == Join(after, ':');
    AfterGap([], after, V6From(s[2..], [], Some(0)));
  }

  lemma GapLater(before: seq<string>, after: seq<string>, s: string)
    requires before != [] && AllGroupTexts(before) && Pieces(before) && Pieces(after) && |Values(before)| == |before|
    requires |before| + |Values(after)| <= GROUPS && s == Join(before, ':') + ("::" + Join(after, ':'))
    ensures ParseV6(s) == Expand(Done(Values(before) + Values(after), Some(|before|)))
  {
    JoinStart(before);
    NoGapFirst(s);
    GapReads(before, Join(after, ':'), [], V6From(s, [], None));
    NothingBefore(Values(before));
    AfterGap(Values(before), after, V6From(s, [], None));
  }

  lemma NothingBefore(g: seq<U16>)
    ensures [] + g == g
  {
  }

  lemma NoGapFirst(s: string)
    requires s != "" && s[0] != ':'
    ensures ParseV6(s) == Expand(V6From(s, [], None))
  {
    if |s| >= 2 { assert s[..2][0] == s[0]; }
  }

  lemma GappedIsRead(before: seq<string>, after: seq<string>)
    requires Proper(Gapped(before, after))
    ensures ParseV6(Written(Gapped(before, after))) == Some(Meaning(Gapped(before, after)))
  {
    var s := Written(Gapped(before, after));
    GroupsAlone(before);
    GapExpands(Values(before), Values(after));
    assert s == Join(before, ':') + ("::" + Join(after, ':'));
    if before == [] {
      assert s == "::" + Join(after, ':');
      GapFirst(after, s);
    } else {
      GapLater(before, after, s);
    }
  }

  // ----- nothing else is read -----

  /** The first character joins the piece read behind it. */
  lemma Prepend(q: string, rest: string, p: string, after: string) returns (all: string)
    requires rest != "" && rest[1..] == p + after
    ensures all == [rest[0]] + p && rest == all + after && q + all == (q + [rest[0]]) + p
  {
    all := [rest[0]] + p;
    Slices.Assoc(q, [rest[0]], p);
    Slices.Assoc([rest[0]], p, after);
    assert [rest[0]] + rest[1..] == rest;
  }

  lemma {:induction false} HexRead(rest: string, q: string, v: nat, n: nat) returns (p: string, after: string)
    requires Hexes(q) && |q| <= 4 && ReadHex(rest, HexNum(q), |q|) == Some((v, n))
    ensures rest == p + after && Ends(after) && n == |q| + |p| <= 4 && Hexes(q + p) && v == HexNum(q + p)
    decreases |rest|
  {
    if Ends(rest) {
      p, after := "", rest;
      assert q + p == q;
    } else {
      HexMore(q, rest[0]);
      p, after := HexRead(rest[1..], q + [rest[0]], v, n);
      p := Prepend(q, rest, p, after);
    }
  }

  /** The first piece of what is read. */
  lemma FirstPiece(rest: string, groups: seq<U16>, gap: Option<nat>) returns (p: string, after: string)
    requires rest != "" && V6From(rest, groups, gap).Done? && !DotAhead(rest)
    ensures GroupText(p) && rest == p + after && Ends(after) && |groups| < GROUPS && HexNum(p) < 0x1_0000
    ensures V6From(rest, groups, gap) == AfterGroup(after, groups + [HexNum(p)], gap)
  {
    var (v, n) := ReadHex(rest, 0, 0).value;
    p, after := HexRead(rest, "", v, n);
    assert "" + p == p && (p + after)[|p|..] == after;
    GroupBound(p);
  }

  lemma {:induction false} DotIn(rest: string)
    requires DotAhead(rest)
    ensures '.' in rest
    decreases |rest|
  {
    if rest[0] != '.' {
      DotIn(rest[1..]);
      assert rest == [rest[0]] + rest[1..];
    }
  }

  /** How a text that is read is spelled: pieces, or groups and then, behind a gap, pieces. */
  predicate Reads(rest: string, groups: seq<U16>, gap: Option<nat>, out: Parsed, f: Spelling) {
    match f
    case Full(all) => all != [] && Pieces(all) && rest == Join(all, ':') && out == Done(groups + Values(all), gap)
    case Gapped(before, after) =>
      && gap.None? && before != [] && AllGroupTexts(before) && Pieces(before) && Pieces(after)
      && rest == Join(before, ':') + ("::" + Join(after, ':'))
      && out == Done(groups + Values(before) + Values(after), Some(|groups| + |before|))
  }

  lemma OnePiece(p: string)
    requires GroupText(p) || Tail(p)
    ensures Pieces([p]) && Values([p]) == PieceValue(p) && Join([p], ':') == p
  {
    assert Values([p]) == PieceValue(p) + Values([p][1..]);
  }

  /** One more group in front. */
  lemma InFront(p: string, ps: seq<string>)
    requires GroupText(p) && ps != [] && Pieces(ps)
    ensures Pieces([p] + ps) && Values([p] + ps) == [HexNum(p)] + Values(ps) && HexNum(p) < 0x1_0000
    ensures Join([p] + ps, ':') == p + ([':'] + Join(ps, ':'))
    ensures AllGroupTexts(ps) ==> AllGroupTexts([p] + ps)
  {
    assert ([p] + ps)[1..] == ps;
    GroupBound(p);
    PieceStart(p);
  }

  lemma ExtendReads(p: string, rest: string, groups: seq<U16>, gap: Option<nat>, out: Parsed, f: Spelling) returns (g: Spelling)
    requires GroupText(p) && HexNum(p) < 0x1_0000 && Reads(rest, groups + [HexNum(p)], gap, out, f)
    ensures Reads(p + ([':'] + rest), groups, gap, out, g)
  {
    match f {
      case Full(all) =>
        InFront(p, all);
        g := Full([p] + all);
        assert groups + Values([p] + all) == (groups + [HexNum(p)]) + Values(all);
      case Gapped(before, after) =>
        InFront(p, before);
        g := Gapped([p] + before, after);
        assert p + ([':'] + rest) == Join([p] + before, ':') + ("::" + Join(after, ':'));
        assert groups + Values([p] + before) == (groups + [HexNum(p)]) + Values(before);
    }
  }

  /** A group and then a gap. */
  lemma GapBehind(p: string, tail: string, groups: seq<U16>, out: Parsed, after: seq<string>) returns (g: Spelling)
    requires GroupText(p) && HexNum(p) < 0x1_0000 && Pieces(after) && tail == Join(after, ':')
    requires out == Done(groups + [HexNum(p)] + Values(after), Some(|groups| + 1))
    ensures Reads(p + ("::" + tail), groups, None, out, g)
  {
    OnePiece(p);
    PieceStart(p);
    g := Gapped([p], after);
    assert Values([p]) == [HexNum(p)];
  }

  lemma {:induction false} HowRead(rest: string, groups: seq<U16>, gap: Option<nat>, out: Parsed) returns (f: Spelling)
    requires rest != "" && out == V6From(rest, groups, gap) && out.Done?
    ensures Reads(rest, groups, gap, out, f)
    decreases |rest|, 1
  {
    if DotAhead(rest) {
      f := TailRead(rest, groups, gap, out);
    } else {
      var p, after := FirstPiece(rest, groups, gap);
      f := HowReadOn(p, after, groups, gap, out);
    }
  }

  lemma AfterCases(after: string, more: seq<U16>, gap: Option<nat>, out: Parsed)
    requires after != "" && Ends(after) && out == AfterGroup(after, more, gap) && out.Done?
    ensures |after| > 1
    ensures after[1] != ':' ==> out == V6From(after[1..], more, gap) && [':'] + after[1..] == after
    ensures after[1] == ':' ==> gap.None? && AtGap(out, more, after[2..]) && "::" + after[2..] == after
  {
  }

  lemma {:induction false} HowReadOn(p: string, after: string, groups: seq<U16>, gap: Option<nat>, out: Parsed) returns (f: Spelling)
    requires GroupText(p) && Ends(after) && HexNum(p) < 0x1_0000
    requires out == AfterGroup(after, groups + [HexNum(p)], gap) && out.Done?
    ensures Reads(p + after, groups, gap, out, f)
    decreases |p| + |after|, 0
  {
    var more := groups + [HexNum(p)];
    if after == "" {
      f := LastRead(p, groups, gap);
      assert p + "" == p;
      return;
    }
    AfterCases(after, more, gap, out);
    if after[1] != ':' {
      var g := HowRead(after[1..], more, gap, out);
      f := ExtendReads(p, after[1..], groups, gap, out, g);
    } else {
      var pieces := BehindGap(after[2..], more, out);
      f := GapBehind(p, after[2..], groups, out, pieces);
    }
  }

  lemma {:induction false} BehindGap(tail: string, more: seq<U16>, out: Parsed) returns (pieces: seq<string>)
    requires AtGap(out, more, tail) && out.Done?
    ensures Pieces(pieces) && tail == Join(pieces, ':') && out == Done(more + Values(pieces), Some(|more|))
    decreases |tail|, 2
  {
    if tail == "" {
      pieces := [];
      assert more + Values([]) == more;
    } else {
      var g := HowRead(tail, more, Some(|more|), out);
      pieces := g.all;
    }
  }

  lemma TailRead(rest: string, groups: seq<U16>, gap: Option<nat>, out: Parsed) returns (f: Spelling)
    requires DotAhead(rest) && out == V6From(rest, groups, gap) && out.Done?
    ensures Reads(rest, groups, gap, out, f)
  {
    DotIn(rest);
    OnePiece(rest);
    PieceStart(rest);
    f := Full([rest]);
  }

  lemma LastRead(p: string, groups: seq<U16>, gap: Option<nat>) returns (f: Spelling)
    requires GroupText(p) && HexNum(p) < 0x1_0000
    ensures Reads(p, groups, gap, Done(groups + [HexNum(p)], gap), f)
  {
    OnePiece(p);
    f := Full([p]);
  }

  lemma ReadIsSpelled(s: string, g: seq<U16>)
    requires ParseV6(s) == Some(g)
    ensures SpellsV6(s, g)
  {
    if |s| >= 2 && s[..2] == "::" {
      assert s == "::" + s[2..];
      StartsWithGap(s, s[2..], g, V6From(s[2..], [], Some(0)));
    } else {
      var out := V6From(s, [], None);
      var f := HowRead(s, [], None, out);
      SpelledMeans(s, out, f, g);
    }
  }

  lemma StartsWithGap(s: string, tail: string, g: seq<U16>, out: Parsed)
    requires s == "::" + tail && out == V6From(tail, [], Some(0)) && Expand(out) == Some(g)
    ensures SpellsV6(s, g)
  {
    var after := BehindGap(tail, [], out);
    GapAlone(after, out, g);
    WrittenGap(after);
  }

  lemma WrittenGap(after: seq<string>)
    ensures Written(Gapped([], after)) == "::" + Join(after, ':')
  {
    assert "" + "::" == "::";
  }

  lemma GapAlone(after: seq<string>, out: Parsed, g: seq<U16>)
    requires Pieces(after) && out == Done([] + Values(after), Some(0)) && Expand(out) == Some(g)
    ensures Proper(Gapped([], after)) && Meaning(Gapped([], after)) == g
  {
    GapExpands([], Values(after));
    assert Values([]) == [];
  }

  lemma SpelledMeans(s: string, out: Parsed, f: Spelling, g: seq<U16>)
    requires Reads(s, [], None, out, f) && Expand(out) == Some(g)
    ensures Proper(f) && Written(f) == s && Meaning(f) == g
  {
    match f {
      case Full(all) => assert [] + Values(all) == Values(all);
      case Gapped(before, after) =>
        GroupsAlone(before);
        var v, w := Values(before), Values(after);
        assert [] + v + w == v + w;
        assert (v + w)[..|v|] == v && (v + w)[|v|..] == w;
        assert Written(f) == Join(before, ':') + ("::" + Join(after, ':'));
    }
  }

  /** The parser accepts exactly the spellings, with their meaning. */
  lemma V6Iff(s: string, g: seq<U16>)
    ensures ParseV6(s) == Some(g) <==> SpellsV6(s, g)
  {
    if ParseV6(s) == Some(g) { ReadIsSpelled(s, g); }
    if SpellsV6(s, g) {
      var f :| Proper(f) && Written(f) == s && Meaning(f) == g;
      match f
      case Full(all) => FullIsRead(all);
      case Gapped(before, after) => GappedIsRead(before, after);
    }
  }
}
