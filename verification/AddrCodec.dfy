/** Parsing and formatting addresses as the program does it: loops over the text and over a
    caller's buffer. Each computes its function; the round trip is stated at the end. */
module AddrCodec {
  import opened Bits
  import Slices
  import opened AddrText
  import opened AddrV6
  import opened AddrFormat

  datatype Status = Ok | InvalidParam | BufferSmall | Parse

  // ----- IPv4 -----

  /** Parses dotted decimals into the first four bytes of `out`. */
  method ParseIpv4(str: string, out: array<Byte>) returns (status: Status)
    requires out.Length >= 4
    modifies out
    ensures status == if str == "" then InvalidParam else if ParseV4(str).Some? then Ok else Parse
    ensures status == Ok ==> ParseV4(str) == Some(out[..4])
    ensures out[4..] == old(out[4..])
    ensures status == InvalidParam ==> out[..] == old(out[..])
  {
    if |str| == 0 { return InvalidParam; }
    var octet: nat, val: Byte, i := 0, 0, 0;
    assert str[0..] == str;
    while i <= |str|
      invariant i <= |str| + 1 && octet <= 4
      invariant i <= |str| ==> ParseV4(str) == V4From(str[i..], out[..octet], val)
      invariant i == |str| + 1 ==> ParseV4(str) == if octet == 4 then Some(out[..4]) else None
      invariant out[4..] == old(out[4..])
      decreases |str| + 1 - i
    {
      if i < |str| { assert str[i..][0] == str[i] && str[i..][1..] == str[i + 1..]; }
      if i == |str| || str[i] == '.' {
        if octet >= 4 { return Parse; }
        ghost var before := out[..octet];
        out[octet] := val;
        assert out[..octet + 1] == before + [val];
        octet, val := octet + 1, 0;
      } else if '0' <= str[i] <= '9' {
        var v := val * 10 + (str[i] as int - '0' as int);
        if v > 255 { return Parse; }
        val := v;
      } else {
        return Parse;
      }
      i := i + 1;
    }
    status := if octet != 4 then Parse else Ok;
  }

  /** Appends text to the buffer if it fits. */
  method Emit(buf: array<char>, pos: nat, text: string) returns (ok: bool, next: nat)
    requires pos <= buf.Length
    modifies buf
    ensures ok <==> pos + |text| <= buf.Length
    ensures ok ==> next == pos + |text| && buf[..next] == old(buf[..pos]) + text && buf[next..] == old(buf[next..])
  {
    ok, next := true, pos;
    for k := 0 to |text|
      invariant next == pos + k <= buf.Length
      invariant buf[..next] == old(buf[..pos]) + text[..k] && buf[next..] == old(buf[next..])
    {
      if next >= buf.Length { return false, next; }
      ghost var before, rest := buf[..next], buf[next..];
      buf[next] := text[k];
      assert buf[..next + 1] == before + [text[k]] && buf[next + 1..] == rest[1..];
      assert old(buf[next..])[1..] == old(buf[next + 1..]);
      assert text[..k + 1] == text[..k] + [text[k]];
      next := next + 1;
    }
    assert text[..|text|] == text;
  }

  /** Ends the text with a zero character if there is room for one. */
  method Finish(buf: array<char>, pos: nat) returns (status: Status)
    requires pos <= buf.Length
    modifies buf
    ensures status == if pos < buf.Length then Ok else BufferSmall
    ensures status == Ok ==> buf[..pos] == old(buf[..pos]) && buf[pos] == '\0' && buf[pos + 1..] == old(buf[pos + 1..])
    ensures status != Ok ==> buf[..] == old(buf[..])
  {
    if pos >= buf.Length { return BufferSmall; }
    buf[pos] := '\0';
    status := Ok;
  }

  /** The texts joined up to octet `i`. */
  function FirstOctets(a: seq<Byte>, i: nat): string
    requires i <= |a|
  {
    Join(DecTexts(a[..i]), '.')
  }

  lemma {:induction false} JoinMore(ps: seq<string>, p: string, sep: char)
    ensures Join(ps + [p], sep) == if ps == [] then p else Join(ps, sep) + ([sep] + p)
    decreases |ps|
  {
    if ps == [] {
      assert [] + [p] == [p];
    } else {
      assert (ps + [p])[1..] == ps[1..] + [p];
      JoinMore(ps[1..], p, sep);
      if |ps| == 1 {
        assert ps[1..] + [p] == [p];
      } else {
        Slices.Assoc([sep], Join(ps[1..], sep), [sep] + p);
        Slices.Assoc(ps[0], [sep] + Join(ps[1..], sep), [sep] + p);
      }
    }
  }

  lemma NextOctet(a: seq<Byte>, i: nat)
    requires i < |a|
    ensures FirstOctets(a, i + 1) == FirstOctets(a, i) + ((if i > 0 then "." else "") + DecText(a[i]))
  {
    assert DecTexts(a[..i + 1]) == DecTexts(a[..i]) + [DecText(a[i])];
    JoinMore(DecTexts(a[..i]), DecText(a[i]), '.');
    if i == 0 {
      assert "" + ("" + DecText(a[0])) == DecText(a[0]);
    } else {
      assert ['.'] + DecText(a[i]) == "." + DecText(a[i]);
    }
  }

  /** Writes dotted decimals, when the text and its end fit the buffer. */
  method FormatIpv4(addr: seq<Byte>, buf: array<char>) returns (status: Status, len: nat)
    requires |addr| == 4
    modifies buf
    ensures status == if |FormatV4(addr)| < buf.Length then Ok else BufferSmall
    ensures status == Ok ==> len == |FormatV4(addr)| && buf[..len] == FormatV4(addr) && buf[len] == '\0'
    ensures status == Ok ==> buf[len + 1..] == old(buf[len + 1..])
  {
    len := 0;
    ghost var text := FormatV4(addr);
    assert FirstOctets(addr, 0) == "" && addr[..4] == addr;
    for i := 0 to 4
      invariant len == |FirstOctets(addr, i)| <= buf.Length && buf[..len] == FirstOctets(addr, i)
      invariant buf[len..] == old(buf[len..])
    {
      OctetsGrow(addr, i);
      var ok, next := EmitOctet(buf, len, addr[i], i > 0);
      if !ok { return BufferSmall, 0; }
      len := next;
    }
    status := Finish(buf, len);
  }

  /** Later octets only lengthen the text. */
  lemma {:induction false} OctetsGrow(a: seq<Byte>, i: nat)
    requires i < |a|
    ensures FirstOctets(a, i + 1) == FirstOctets(a, i) + ((if i > 0 then "." else "") + DecText(a[i]))
    ensures |FirstOctets(a, i + 1)| <= |FormatV4(a)|
    decreases |a| - i
  {
    NextOctet(a, i);
    if i + 1 < |a| { OctetsGrow(a, i + 1); } else { assert a[..|a|] == a; }
  }

  method EmitOctet(buf: array<char>, pos: nat, v: Byte, dot: bool) returns (ok: bool, next: nat)
    requires pos <= buf.Length
    modifies buf
    ensures var text := (if dot then "." else "") + DecText(v);
            && (ok <==> pos + |text| <= buf.Length)
            && (ok ==> next == pos + |text| && buf[..next] == old(buf[..pos]) + text && buf[next..] == old(buf[next..]))
  {
    ok, next := Emit(buf, pos, if dot then "." else "");
    if !ok { return; }
    ghost var mid := next;
    ok, next := Emit(buf, next, DecText(v));
    if ok { Slices.Assoc(old(buf[..pos]), if dot then "." else "", DecText(v)); }
  }

  // ----- the run of zeros -----

  /** Every run of zeros in the first `n` groups is no longer than the best one, which comes first. */
  ghost predicate BestSoFar(g: seq<U16>, n: nat, start: nat, len: nat) {
    && ZeroRun(g, start, len) && start + len <= n
    && forall s: nat, m: nat | ZeroRun(g, s, m) && s + m <= n && m > 0 :: m < len || (m == len && start <= s)
  }

  /** The scan's current run: the zeros right before group `n`, back to a group that is not zero. */
  predicate Current(g: seq<U16>, n: nat, len: nat) {
    && len <= n <= |g| && ZeroRun(g, n - len, len)
    && (len < n ==> g[n - len - 1] != 0)
  }

  /** A group that is not zero ends the current run. */
  lemma RunEnds(g: seq<U16>, n: nat, start: nat, len: nat, cur: nat)
    requires n < |g| && Current(g, n, cur) && g[n] != 0 && BestSoFar(g, n - cur, start, len)
    ensures if cur > len then BestSoFar(g, n + 1, n - cur, cur) else BestSoFar(g, n + 1, start, len)
  {
    forall s: nat, m: nat | ZeroRun(g, s, m) && s + m <= n + 1 && m > 0
      ensures s + m <= n - cur || (s >= n - cur && s + m <= n)
    {
      RunInside(g, n, cur, s, m);
    }
  }

  lemma RunInside(g: seq<U16>, n: nat, cur: nat, s: nat, m: nat)
    requires n < |g| && Current(g, n, cur) && g[n] != 0 && ZeroRun(g, s, m) && s + m <= n + 1 && m > 0
    ensures s + m <= n - cur || (s >= n - cur && s + m <= n)
  {
    assert forall k | s <= k < s + m :: g[k] == 0;
    assert cur < n ==> g[n - cur - 1] != 0;
  }

  /** The end of the groups ends the current run. */
  lemma ScanEnds(g: seq<U16>, start: nat, len: nat, cur: nat)
    requires Current(g, |g|, cur) && BestSoFar(g, |g| - cur, start, len)
    ensures if cur > len then BestSoFar(g, |g|, |g| - cur, cur) else BestSoFar(g, |g|, start, len)
  {
    forall s: nat, m: nat | ZeroRun(g, s, m) && s + m <= |g| && m > 0
      ensures s + m <= |g| - cur || s >= |g| - cur
    {
      assert forall k | s <= k < s + m :: g[k] == 0;
      assert cur < |g| ==> g[|g| - cur - 1] != 0;
    }
  }

  /** Finds the first longest run of two or more zero groups. */
  method FindRun(g: seq<U16>) returns (r: Run)
    ensures FirstLongest(g, r)
  {
    var start: nat, len: nat, cur: nat := 0, 0, 0;
    for n := 0 to |g|
      invariant cur <= n && Current(g, n, cur) && BestSoFar(g, n - cur, start, len)
    {
      if g[n] == 0 {
        cur := cur + 1;
        assert n + 1 - cur == n - (cur - 1);
      } else {
        RunEnds(g, n, start, len, cur);
        if cur > len { start, len := n - cur, cur; }
        cur := 0;
      }
    }
    ScanEnds(g, start, len, cur);
    if cur > len { start, len := |g| - cur, cur; }
    r := if len <= 1 then NoRun else RunAt(start, len);
    BestIsFirst(g, start, len, r);
  }

  lemma BestIsFirst(g: seq<U16>, start: nat, len: nat, r: Run)
    requires BestSoFar(g, |g|, start, len) && r == if len <= 1 then NoRun else RunAt(start, len)
    ensures FirstLongest(g, r)
  {
  }

  // ----- bytes and groups -----

  /** Group `k` of an address, high byte first. */
  function GroupAt(a: seq<Byte>, k: nat): U16
    requires 2 * k + 1 < |a|
  {
    Word(a[2 * k], a[2 * k + 1])
  }

  function GroupsOf(a: seq<Byte>): (g: seq<U16>)
    requires |a| == 2 * GROUPS
    ensures |g| == GROUPS
  {
    seq(GROUPS, k requires 0 <= k < GROUPS => GroupAt(a, k))
  }

  function BytesOf(g: seq<U16>): (a: seq<Byte>)
    requires |g| == GROUPS
    ensures |a| == 2 * GROUPS
  {
    seq(2 * GROUPS, k requires 0 <= k < 2 * GROUPS => if k % 2 == 0 then High(g[k / 2]) else Low(g[k / 2]))
  }

  lemma WordParts(h: Byte, l: Byte)
    ensures High(Word(h, l)) == h && Low(Word(h, l)) == l
  {
  }

  lemma BytesBack(a: seq<Byte>)
    requires |a| == 2 * GROUPS
    ensures BytesOf(GroupsOf(a)) == a
  {
    forall k | 0 <= k < 2 * GROUPS ensures BytesOf(GroupsOf(a))[k] == a[k] {
      WordParts(a[k / 2 * 2], a[k / 2 * 2 + 1]);
    }
  }

  // ----- IPv6: formatting -----

  lemma RunFits(g: seq<U16>, r: Run)
    requires |g| == GROUPS && FirstLongest(g, r)
    ensures Fits(g, r)
  {
  }

  /** One turn of the writer's loop: where it goes on, and what it writes. */
  function Turn(g: seq<U16>, k: nat, r: Run): (t: (nat, string))
    requires Fits(g, r) && k < GROUPS
    ensures k < t.0 <= GROUPS && EmitFrom(g, k, r) == t.1 + EmitFrom(g, t.0, r)
  {
    if r.RunAt? && k == r.start then (k + r.len, "::")
    else (k + 1, (if k > 0 && !(r.RunAt? && k == r.start + r.len) then ":" else "") + HexText(g[k]))
  }

  /** Writes the canonical text of an address, when it and its end fit the buffer. */
  method FormatIpv6(addr: seq<Byte>, buf: array<char>) returns (status: Status, len: nat, ghost run: Run)
    requires |addr| == 2 * GROUPS
    modifies buf
    ensures FirstLongest(GroupsOf(addr), run) && Fits(GroupsOf(addr), run)
    ensures status == if |Text(GroupsOf(addr), run)| < buf.Length then Ok else BufferSmall
    ensures status == Ok ==> len == |Text(GroupsOf(addr), run)| && buf[..len] == Text(GroupsOf(addr), run) && buf[len] == '\0'
  {
    var g := GroupsOf(addr);
    var r := FindRun(g);
    run := r;
    RunFits(g, r);
    EmitIsText(g, r);
    var k := 0;
    len := 0;
    while k < GROUPS
      invariant k <= GROUPS && len <= buf.Length && Text(g, r) == buf[..len] + EmitFrom(g, k, r)
      decreases GROUPS - k
    {
      var (next, text) := Turn(g, k, r);
      Slices.Assoc(buf[..len], text, EmitFrom(g, next, r));
      var ok, end := Emit(buf, len, text);
      if !ok { return BufferSmall, 0, run; }
      k, len := next, end;
    }
    assert buf[..len] + "" == buf[..len];
    status := Finish(buf, len);
  }

  // ----- IPv6: parsing -----

  /** Whether a dot comes before the next colon. */
  method DotBefore(str: string, i: nat) returns (dot: bool)
    requires i <= |str|
    ensures dot == DotAhead(str[i..])
  {
    var j := i;
    while j < |str|
      invariant i <= j <= |str| && DotAhead(str[i..]) == DotAhead(str[j..])
    {
      assert str[j..][0] == str[j] && str[j..][1..] == str[j + 1..];
      if str[j] == '.' { return true; }
      if str[j] == ':' { return false; }
      j := j + 1;
    }
    dot := false;
  }

  function HexDigit(c: char): int {
    if '0' <= c <= '9' then c as int - '0' as int
    else if 'a' <= c <= 'f' then 10 + (c as int - 'a' as int)
    else if 'A' <= c <= 'F' then 10 + (c as int - 'A' as int)
    else -1
  }

  /** Reads one hexadecimal group. */
  method ReadGroup(str: string, i: nat) returns (ok: bool, val: nat, next: nat)
    requires i <= |str|
    ensures var r := ReadHex(str[i..], 0, 0);
            && (ok <==> r.Some? && r.value.1 > 0)
            && (ok ==> val == r.value.0 <= 0xFFFF && next == i + r.value.1 <= |str|)
  {
    var digits := 0;
    val, next := 0, i;
    while next < |str| && str[next] != ':'
      invariant i <= next <= |str| && digits == next - i && val <= 0xFFFF
      invariant ReadHex(str[i..], 0, 0) == ReadHex(str[next..], val, digits)
    {
      assert str[next..][0] == str[next] && str[next..][1..] == str[next + 1..];
      var d := HexDigit(str[next]);
      if d < 0 { return false, 0, i; }
      val := val * 16 + d;
      if val > 0xFFFF { return false, 0, i; }
      digits := digits + 1;
      if digits > 4 { return false, 0, i; }
      next := next + 1;
    }
    ok := digits > 0;
  }

  /** The groups read so far and the place of the gap; `gap` is negative when there was none. */
  function GapOf(gap: int): Option<nat> {
    if gap < 0 then None else Some(gap)
  }

  /** Reads a dotted tail into two groups. */
  method ReadTail(str: string, groups: array<U16>, count: nat) returns (ok: bool)
    requires groups.Length == GROUPS && count <= 6 && str != ""
    modifies groups
    ensures ok == ParseV4(str).Some?
    ensures ok ==> groups[..count + 2] == old(groups[..count]) + V4Groups(ParseV4(str).value)
  {
    var v4 := new Byte[4](i => 0);
    var status := ParseIpv4(str, v4);
    ok := status == Ok;
    if ok {
      ghost var before := groups[..count];
      groups[count] := Word(v4[0], v4[1]);
      groups[count + 1] := Word(v4[2], v4[3]);
      assert v4[..4][0] == v4[0] && v4[..4][1] == v4[1] && v4[..4][2] == v4[2] && v4[..4][3] == v4[3];
      assert groups[..count + 2] == before + [groups[count], groups[count + 1]];
    }
  }

  /** What one group and the colons behind it come to: where reading goes on, and the gap. */
  method PassColons(str: string, i: nat, count: nat, gap: int) returns (ok: bool, next: nat, newGap: int)
    requires i <= |str| && Ends(str[i..])
    ensures ok ==> i <= next <= |str| && (i < |str| ==> i < next)
    ensures forall more: seq<U16> | |more| == count ::
              AfterGroup(str[i..], more, GapOf(gap)) == if ok then V6From(str[next..], more, GapOf(newGap)) else Fail
  {
    ok, next, newGap := true, i, gap;
    if i < |str| {
      ghost var after := str[i..];
      assert after[0] == str[i];
      next := i + 1;
      if next < |str| && str[next] == ':' {
        assert after[1] == ':' && after[2..] == str[i + 2..];
        if gap >= 0 { return false, i, gap; }
        newGap := count;
        next := next + 1;
      } else if next == |str| {
        return false, i, gap;
      } else {
        assert after[1] == str[next] && after[1..] == str[next..];
      }
    }
  }

  /** Reads every group from position `start` on. */
  method ReadGroups(str: string, start: nat, gap0: int, groups: array<U16>) returns (ok: bool, count: nat, gap: int)
    requires start <= |str| && groups.Length == GROUPS
    modifies groups
    ensures ok ==> count <= GROUPS && V6From(str[start..], [], GapOf(gap0)) == Done(groups[..count], GapOf(gap))
    ensures !ok ==> V6From(str[start..], [], GapOf(gap0)) == Fail
  {
    var i := start;
    count, gap := 0, gap0;
    assert groups[..0] == [];
    while i < |str|
      invariant start <= i <= |str| && count <= GROUPS
      invariant V6From(str[start..], [], GapOf(gap0)) == V6From(str[i..], groups[..count], GapOf(gap))
      decreases |str| - i
    {
      if count >= GROUPS { return false, 0, gap; }
      var dot := DotBefore(str, i);
      if dot {
        if count > 6 { return false, 0, gap; }
        ok := ReadTail(str[i..], groups, count);
        return ok, count + 2, gap;
      }
      ok, i, count, gap := ReadOne(str, i, groups, count, gap);
      if !ok { return; }
    }
    ok := true;
  }

  /** Reads one group and the colons behind it. */
  method ReadOne(str: string, i: nat, groups: array<U16>, count: nat, gap: int) returns (ok: bool, next: nat, more: nat, newGap: int)
    requires i < |str| && groups.Length == GROUPS && count < GROUPS && !DotAhead(str[i..])
    modifies groups
    ensures ok ==> more == count + 1 && i < next <= |str|
    ensures ok ==> V6From(str[i..], old(groups[..count]), GapOf(gap)) == V6From(str[next..], groups[..more], GapOf(newGap))
    ensures !ok ==> V6From(str[i..], old(groups[..count]), GapOf(gap)) == Fail
  {
    var val, end;
    ok, val, end := ReadGroup(str, i);
    if !ok { return false, i, count, gap; }
    ghost var before := groups[..count];
    groups[count] := val;
    assert groups[..count + 1] == before + [val];
    ReadEnds(str, i, end);
    more := count + 1;
    ok, next, newGap := PassColons(str, end, more, gap);
  }

  /** A group's text ends where it stops being read. */
  lemma ReadEnds(str: string, i: nat, end: nat)
    requires i < end <= |str| && ReadHex(str[i..], 0, 0).Some? && ReadHex(str[i..], 0, 0).value.1 == end - i
    ensures str[i..][end - i..] == str[end..] && Ends(str[end..])
  {
    var p, after := HexRead(str[i..], "", ReadHex(str[i..], 0, 0).value.0, end - i);
    assert str[i..][|p|..] == after;
  }

  /** Writes group `k`. */
  method PutGroup(out: array<Byte>, k: nat, v: U16)
    requires 2 * k + 1 < out.Length
    modifies out
    ensures out[..] == old(out[..])[2 * k := High(v)][2 * k + 1 := Low(v)]
  {
    out[2 * k] := High(v);
    out[2 * k + 1] := Low(v);
  }

  /** Group `k` of the output is `v`. */
  predicate Has(out: seq<Byte>, k: nat, v: U16)
    requires 2 * k + 1 < |out|
  {
    out[2 * k] == High(v) && out[2 * k + 1] == Low(v)
  }

  /** Group `k` of the output is the one `k - to` places behind `from`. */
  predicate HasFrom(out: seq<Byte>, k: nat, groups: seq<U16>, from: nat, to: nat)
    requires 2 * k + 1 < |out| && to <= k && from + (k - to) < |groups|
  {
    Has(out, k, groups[from + (k - to)])
  }

  /** The output's first 16 bytes are those of the groups. */
  lemma AllGroups(out: seq<Byte>, g: seq<U16>)
    requires |g| == GROUPS && |out| >= 2 * GROUPS && forall k | 0 <= k < GROUPS :: Has(out, k, g[k])
    ensures out[..2 * GROUPS] == BytesOf(g)
  {
    forall k | 0 <= k < 2 * GROUPS ensures out[k] == BytesOf(g)[k] {
      assert Has(out, k / 2, g[k / 2]);
    }
  }

  /** Writes `n` groups, taken from `from` on, to the places from `to` on. */
  method PutGroups(groups: seq<U16>, from: nat, to: nat, n: nat, out: array<Byte>)
    requires from + n <= |groups| && 2 * (to + n) <= out.Length
    modifies out
    ensures forall k | to <= k < to + n :: HasFrom(out[..], k, groups, from, to)
    ensures forall j | 0 <= j < out.Length && (j < 2 * to || 2 * (to + n) <= j) :: out[j] == old(out[j])
  {
    for m := 0 to n
      invariant forall k | to <= k < to + m :: HasFrom(out[..], k, groups, from, to)
      invariant forall j | 0 <= j < out.Length && (j < 2 * to || 2 * (to + m) <= j) :: out[j] == old(out[j])
    {
      ghost var before := out[..];
      PutGroup(out, to + m, groups[from + m]);
      forall k | to <= k < to + m ensures HasFrom(out[..], k, groups, from, to) {
        assert HasFrom(before, k, groups, from, to);
      }
      assert HasFrom(out[..], to + m, groups, from, to);
    }
  }

  /** What the output holds after the groups are spread around the gap. */
  lemma Spread(groups: seq<U16>, at: nat, to: nat, out: seq<Byte>, g: seq<U16>)
    requires at <= |groups| <= GROUPS && |out| >= 2 * GROUPS && to == at + (GROUPS - |groups|)
    requires g == groups[..at] + Zeros(GROUPS - |groups|) + groups[at..]
    requires forall k | 0 <= k < at :: HasFrom(out, k, groups, 0, 0)
    requires forall j | 2 * at <= j < 2 * to :: out[j] == 0
    requires forall k | to <= k < GROUPS :: HasFrom(out, k, groups, at, to)
    ensures out[..2 * GROUPS] == BytesOf(g)
  {
    forall k | 0 <= k < GROUPS ensures Has(out, k, g[k]) {
      if k < at {
        assert HasFrom(out, k, groups, 0, 0);
      } else if k >= to {
        assert HasFrom(out, k, groups, at, to);
      }
    }
    AllGroups(out, g);
  }

  /** Spreads the groups over the zeroed output; without a gap there must be eight. */
  method Fill(groups: seq<U16>, gap: int, out: array<Byte>) returns (ok: bool)
    requires |groups| <= GROUPS && gap <= |groups| && out.Length >= 2 * GROUPS
    requires forall j | 0 <= j < 2 * GROUPS :: out[j] == 0
    modifies out
    ensures ok == Expand(Done(groups, GapOf(gap))).Some?
    ensures ok ==> out[..2 * GROUPS] == BytesOf(Expand(Done(groups, GapOf(gap))).value)
    ensures !ok ==> out[..] == old(out[..])
    ensures out[2 * GROUPS..] == old(out[2 * GROUPS..])
  {
    if gap < 0 {
      if |groups| != GROUPS { return false; }
      PutGroups(groups, 0, 0, GROUPS, out);
      forall k | 0 <= k < GROUPS ensures Has(out[..], k, groups[k]) {
        assert HasFrom(out[..], k, groups, 0, 0);
      }
      AllGroups(out[..], groups);
    } else {
      var missing := GROUPS - |groups|;
      PutGroups(groups, 0, 0, gap, out);
      ghost var front := out[..];
      PutGroups(groups, gap, gap + missing, |groups| - gap, out);
      forall k | 0 <= k < gap ensures HasFrom(out[..], k, groups, 0, 0) {
        assert HasFrom(front, k, groups, 0, 0);
      }
      Spread(groups, gap, gap + missing, out[..], groups[..gap] + Zeros(missing) + groups[gap..]);
    }
    ok := true;
  }

  /** Parses an IPv6 address into the first 16 bytes of `out`; these are zero when it fails. */
  method ParseIpv6(str: string, out: array<Byte>) returns (status: Status)
    requires out.Length >= 2 * GROUPS
    modifies out
    ensures status == if str == "" then InvalidParam else if ParseV6(str).Some? then Ok else Parse
    ensures status == Ok ==> out[..2 * GROUPS] == BytesOf(ParseV6(str).value)
    ensures status == Parse ==> forall j | 0 <= j < 2 * GROUPS :: out[j] == 0
    ensures status == InvalidParam ==> out[..] == old(out[..])
    ensures out[2 * GROUPS..] == old(out[2 * GROUPS..])
  {
    if |str| == 0 { return InvalidParam; }
    forall j | 0 <= j < 2 * GROUPS { out[j] := 0; }
    var groups := new U16[GROUPS](i => 0);
    var i, gap := 0, -1;
    if |str| >= 2 && str[0] == ':' && str[1] == ':' {
      assert str[..2] == "::";
      gap, i := 0, 2;
    } else {
      assert |str| >= 2 ==> str[..2][0] == str[0] && str[..2][1] == str[1];
      assert str[0..] == str;
    }
    var ok, count, newGap := ReadGroups(str, i, gap, groups);
    if !ok { return Parse; }
    GapBound(str[i..], [], GapOf(gap), groups[..count], GapOf(newGap));
    ok := Fill(groups[..count], newGap, out);
    status := if ok then Ok else Parse;
  }

  /** The gap stands among the groups read. */
  lemma {:induction false} GapBound(rest: string, groups: seq<U16>, gap: Option<nat>, all: seq<U16>, newGap: Option<nat>)
    requires V6From(rest, groups, gap) == Done(all, newGap) && (gap.Some? ==> gap.value <= |groups|)
    ensures newGap.Some? ==> newGap.value <= |all|
  {
    if rest != "" {
      var f := HowRead(rest, groups, gap, V6From(rest, groups, gap));
    }
  }

  // ----- either family -----

  /** What a text means: the family and the 16 bytes, of which IPv4 uses the first four. */
  function ParseAuto(s: string): (r: Option<(nat, seq<Byte>)>)
  {
    if ':' in s then
      (match ParseV6(s)
       case None => None
       case Some(g) => Some((6, BytesOf(g))))
    else
      match ParseV4(s)
      case None => None
      case Some(a) => Some((4, a + seq(12, i => 0)))
  }

  method HasColon(str: string) returns (colon: bool)
    ensures colon <==> ':' in str
  {
    for i := 0 to |str|
      invariant ':' !in str[..i]
    {
      if str[i] == ':' { return true; }
      assert str[..i + 1] == str[..i] + [str[i]];
    }
    assert str[..|str|] == str;
    colon := false;
  }

  /** Parses an address of either family. */
  method ParseAny(str: string, out: array<Byte>) returns (status: Status, family: nat)
    requires out.Length == 2 * GROUPS
    modifies out
    ensures status == if str == "" then InvalidParam else if ParseAuto(str).Some? then Ok else Parse
    ensures status == Ok ==> ParseAuto(str) == Some((family, out[..]))
  {
    family := 0;
    if |str| == 0 { return InvalidParam, family; }
    var colon := HasColon(str);
    if colon {
      family := 6;
      status := ParseIpv6(str, out);
      assert out[..2 * GROUPS] == out[..];
    } else {
      family := 4;
      forall j | 0 <= j < out.Length { out[j] := 0; }
      assert out[4..] == seq(12, i => 0);
      status := ParseIpv4(str, out);
      assert out[..4] + out[4..] == out[..];
    }
  }

  /** Parsing the text of an IPv4 address gives the family and the bytes back. */
  lemma V4Comes(a: seq<Byte>)
    requires |a| == 4
    ensures ParseAuto(FormatV4(a)) == Some((4, a + seq(12, i => 0)))
  {
    V4RoundTrip(a);
    V4HasNoColon(a);
  }

  /** So does parsing the canonical text of an IPv6 address. */
  lemma V6Comes(a: seq<Byte>, r: Run)
    requires |a| == 2 * GROUPS && FirstLongest(GroupsOf(a), r)
    ensures Fits(GroupsOf(a), r) && ParseAuto(Text(GroupsOf(a), r)) == Some((6, a))
  {
    RunFits(GroupsOf(a), r);
    TextIsRead(GroupsOf(a), r);
    TextHasColon(GroupsOf(a), r);
    BytesBack(a);
  }

  /** A double colon may stand for no group at all. */
  lemma GapOfNothing(all: seq<string>)
    requires |all| == GROUPS && AllGroupTexts(all)
    ensures ParseV6(Join(all, ':') + "::" + "").Some?
  {
    GroupsAlone(all);
    GappedIsRead(all, []);
  }
}
