/** The Annex-B scanner: it finds NAL units between 00 00 01 and 00 00 00 01 start codes.
    Repeated scanning of a stream of well-formed NAL units returns exactly these units. */
module AnnexB {
  import opened Bits

  type Bytes = seq<Byte>

  /** Length of the start code at `i`, 0 when there is none. */
  function CodeAt(data: Bytes, i: nat): (n: nat)
    ensures n == 0 || n == 3 || n == 4
    ensures i + n <= |data| || n == 0
  {
    if i + 2 < |data| && data[i] == 0 && data[i + 1] == 0 then
      if data[i + 2] == 1 then 3
      else if i + 3 < |data| && data[i + 2] == 0 && data[i + 3] == 1 then 4 else 0
    else 0
  }

  /** The first start code at `i` or later; where the search stops when there is none. */
  function NextCode(data: Bytes, i: nat): (j: nat)
    ensures i <= j
    ensures i + 2 < |data| ==> j + 2 <= |data|
    ensures j + 2 < |data| ==> CodeAt(data, j) > 0
    decreases |data| - i
  {
    if i + 2 < |data| && CodeAt(data, i) == 0 then NextCode(data, i + 1) else i
  }

  /** No start code is skipped. */
  lemma {:induction false} NextCodeIsFirst(data: Bytes, i: nat, k: nat)
    requires i <= k < NextCode(data, i)
    ensures CodeAt(data, k) == 0
    decreases |data| - i
  {
    if i < k { NextCodeIsFirst(data, i + 1, k); }
  }

  /** `end` moved back over zero bytes, not before `start`. */
  function Stripped(data: Bytes, start: nat, end: nat): (r: nat)
    requires start <= end <= |data|
    ensures start <= r <= end && (r == start || data[r - 1] != 0)
  {
    if end > start && data[end - 1] == 0 then Stripped(data, start, end - 1) else end
  }

  /** A found unit: where it starts, its length, and where to go on. */
  datatype Found = NotFound | Found(start: nat, len: nat, next: nat)

  function FindNal(data: Bytes, offset: nat): (r: Found)
    ensures r.Found? ==> r.start + r.len <= r.next <= |data| && r.start < |data|
    ensures r.Found? ==> r.next > offset
  {
    var j := NextCode(data, offset);
    var start := j + CodeAt(data, j);
    if start >= |data| then NotFound
    else
      var stop := NextCode(data, start);
      var next := if stop + 2 >= |data| then |data| else stop;
      Found(start, Stripped(data, start, next) - start, next)
  }

  /** Where a unit lies, and whether a look ahead finds no further one. */
  datatype Mark = Mark(start: nat, len: nat, last: bool)

  /** Scanning from `offset` until no unit, or an empty one, is found: the loop of the senders. */
  function Marks(data: Bytes, offset: nat): (r: seq<Mark>)
    decreases |data| - offset
  {
    if offset >= |data| then []
    else
      match FindNal(data, offset)
      case NotFound => []
      case Found(start, len, next) =>
        if len == 0 then []
        else [Mark(start, len, FindNal(data, next).NotFound?)] + Marks(data, next)
  }

  predicate InBounds(size: nat, marks: seq<Mark>) {
    forall k | 0 <= k < |marks| :: marks[k].len > 0 && marks[k].start + marks[k].len <= size
  }

  /** Scanned units are not empty and lie inside the buffer. */
  lemma {:induction false} MarksInBounds(data: Bytes, offset: nat)
    ensures InBounds(|data|, Marks(data, offset))
    decreases |data| - offset
  {
    if offset < |data| {
      var f := FindNal(data, offset);
      if f.Found? && f.len > 0 { MarksInBounds(data, f.next); }
    }
  }

  /** A scanned unit. */
  datatype Unit = Unit(bytes: Bytes, last: bool)

  function UnitOf(data: Bytes, m: Mark): (u: Unit)
    requires m.start + m.len <= |data|
    ensures |u.bytes| == m.len
  {
    Unit(data[m.start..m.start + m.len], m.last)
  }

  function Cut(data: Bytes, marks: seq<Mark>): (r: seq<Unit>)
    requires InBounds(|data|, marks)
    ensures |r| == |marks| && forall k | 0 <= k < |r| :: r[k] == UnitOf(data, marks[k])
  {
    seq(|marks|, i requires 0 <= i < |marks| => UnitOf(data, marks[i]))
  }

  predicate NonEmpty(units: seq<Unit>) {
    forall k | 0 <= k < |units| :: units[k].bytes != []
  }

  /** The units of a buffer. */
  function Units(data: Bytes): (r: seq<Unit>)
    ensures NonEmpty(r)
  {
    MarksInBounds(data, 0);
    Cut(data, Marks(data, 0))
  }

  // ----- streams of well-formed units -----

  predicate ShortCodeAt(nal: Bytes, i: nat) {
    i + 2 < |nal| && nal[i] == 0 && nal[i + 1] == 0 && nal[i + 2] == 1
  }

  /** A unit with no start code inside and a last byte that is not zero. */
  predicate WellFormed(nal: Bytes) {
    nal != [] && nal[|nal| - 1] != 0 && forall i | 0 <= i < |nal| :: !ShortCodeAt(nal, i)
  }

  predicate AllWellFormed(nals: seq<Bytes>) {
    forall k | 0 <= k < |nals| :: WellFormed(nals[k])
  }

  function CodeLen(long: bool): nat {
    if long then 4 else 3
  }

  function Code(long: bool): (c: Bytes)
    ensures |c| == CodeLen(long)
  {
    if long then [0, 0, 0, 1] else [0, 0, 1]
  }

  /** The units, each behind a start code of either length. */
  function Stream(nals: seq<Bytes>, longs: seq<bool>): (r: Bytes)
    requires |nals| == |longs|
  {
    if nals == [] then [] else Code(longs[0]) + nals[0] + Stream(nals[1..], longs[1..])
  }

  /** From `at` on there are exactly the units, each behind its start code. */
  predicate StreamAt(data: Bytes, at: nat, nals: seq<Bytes>, longs: seq<bool>)
    requires |nals| == |longs|
    decreases |nals|
  {
    if nals == [] then at == |data|
    else
      var start := at + CodeLen(longs[0]);
      && UnitAt(data, at, start, nals[0])
      && StreamAt(data, start + |nals[0]|, nals[1..], longs[1..])
  }

  /** A start code at `at` and the unit behind it. */
  predicate UnitAt(data: Bytes, at: nat, start: nat, nal: Bytes) {
    at < start && start == at + CodeAt(data, at) && LiesAt(data, start, nal)
  }

  lemma CodeLies(data: Bytes, at: nat, long: bool)
    requires LiesAt(data, at, Code(long)) && at + CodeLen(long) < |data|
    ensures CodeAt(data, at) == CodeLen(long)
  {
    var c := Code(long);
    assert data[at + 0] == c[0] && data[at + 1] == c[1] && data[at + 2] == c[2];
    if long { assert data[at + 3] == c[3]; }
  }

  lemma UnitLies(data: Bytes, at: nat, long: bool, nal: Bytes, rest: Bytes)
    requires nal != [] && LiesAt(data, at, Code(long) + nal + rest)
    ensures UnitAt(data, at, at + CodeLen(long), nal) && LiesAt(data, at + CodeLen(long) + |nal|, rest)
  {
    LiesParts(data, at, Code(long), nal, rest);
    CodeLies(data, at, long);
  }

  lemma StreamExtends(data: Bytes, at: nat, start: nat, nals: seq<Bytes>, longs: seq<bool>)
    requires |nals| == |longs| && nals != [] && start == at + CodeLen(longs[0]) && UnitAt(data, at, start, nals[0])
    requires StreamAt(data, start + |nals[0]|, nals[1..], longs[1..])
    ensures StreamAt(data, at, nals, longs)
  {
  }

  lemma StreamStarts(data: Bytes, at: nat, start: nat, nals: seq<Bytes>, longs: seq<bool>)
    requires |nals| == |longs| && nals != [] && start == at + CodeLen(longs[0]) && StreamAt(data, at, nals, longs)
    ensures UnitAt(data, at, start, nals[0]) && StreamAt(data, start + |nals[0]|, nals[1..], longs[1..])
  {
  }

  lemma {:induction false} StreamLies(data: Bytes, at: nat, nals: seq<Bytes>, longs: seq<bool>, stream: Bytes)
    requires |nals| == |longs| && AllWellFormed(nals) && stream == Stream(nals, longs)
    requires LiesAt(data, at, stream) && at + |stream| == |data|
    ensures StreamAt(data, at, nals, longs)
    decreases |nals|
  {
    if nals != [] {
      var start := at + CodeLen(longs[0]);
      var rest := Stream(nals[1..], longs[1..]);
      WellFormedTail(nals);
      UnitLies(data, at, longs[0], nals[0], rest);
      StreamLies(data, start + |nals[0]|, nals[1..], longs[1..], rest);
      StreamExtends(data, at, start, nals, longs);
    }
  }

  /** A unit ends at the end of the data or at another start code. */
  predicate EndsAt(data: Bytes, end: nat) {
    end == |data| || CodeAt(data, end) > 0
  }

  lemma StreamEnds(data: Bytes, at: nat, nals: seq<Bytes>, longs: seq<bool>)
    requires |nals| == |longs| && StreamAt(data, at, nals, longs)
    ensures EndsAt(data, at)
  {
  }

  /** No start code begins inside a well-formed unit, not even one that runs out of it. */
  lemma NoCodeInside(data: Bytes, start: nat, nal: Bytes, k: nat)
    requires LiesAt(data, start, nal) && WellFormed(nal)
    requires EndsAt(data, start + |nal|) && k < |nal|
    ensures CodeAt(data, start + k) == 0
  {
    var n, i := |nal|, start + k;
    assert nal[k] == data[i] && nal[n - 1] == data[start + n - 1];
    if k + 1 < n { assert nal[k + 1] == data[i + 1]; }
    if k + 2 < n { assert nal[k + 2] == data[i + 2] && !ShortCodeAt(nal, k); }
    if k + 3 < n { assert nal[k + 3] == data[i + 3] && !ShortCodeAt(nal, k + 1); }
  }

  lemma {:induction false} NextCodeSkips(data: Bytes, from: nat, to: nat)
    requires from <= to && to + 2 < |data| && forall k | from <= k < to :: CodeAt(data, k) == 0
    ensures NextCode(data, from) == NextCode(data, to)
    decreases |data| - from
  {
    if from < to { NextCodeSkips(data, from + 1, to); }
  }

  /** With no start code left, the search stops two bytes before the end. */
  lemma {:induction false} NextCodeEnds(data: Bytes, from: nat)
    requires forall k | from <= k < |data| :: CodeAt(data, k) == 0
    ensures NextCode(data, from) + 2 >= |data|
    decreases |data| - from
  {
    if from + 2 < |data| { NextCodeEnds(data, from + 1); }
  }

  /** A start code, then a stretch without one that ends at the end or at the next code. */
  predicate Delimited(data: Bytes, at: nat, start: nat, end: nat) {
    && at < start < end <= |data| && start == at + CodeAt(data, at) && data[end - 1] != 0
    && (forall k | start <= k < end :: CodeAt(data, k) == 0)
    && (end == |data| || CodeAt(data, end) > 0)
  }

  lemma FindsDelimited(data: Bytes, at: nat, start: nat, end: nat)
    requires Delimited(data, at, start, end)
    ensures FindNal(data, at) == Found(start, end - start, end)
  {
    if end == |data| {
      NextCodeEnds(data, start);
    } else {
      NextCodeSkips(data, start, end);
    }
    assert Stripped(data, start, end) == end;
  }

  lemma UnitDelimited(data: Bytes, at: nat, start: nat, nal: Bytes)
    requires UnitAt(data, at, start, nal) && WellFormed(nal) && EndsAt(data, start + |nal|)
    ensures Delimited(data, at, start, start + |nal|)
  {
    forall k | start <= k < start + |nal| ensures CodeAt(data, k) == 0 {
      NoCodeInside(data, start, nal, k - start);
    }
    assert data[start + |nal| - 1] == nal[|nal| - 1];
  }

  /** One search returns exactly the unit. */
  lemma FindsUnit(data: Bytes, at: nat, start: nat, nal: Bytes)
    requires UnitAt(data, at, start, nal) && WellFormed(nal) && EndsAt(data, start + |nal|)
    ensures FindNal(data, at) == Found(start, |nal|, start + |nal|)
  {
    UnitDelimited(data, at, start, nal);
    FindsDelimited(data, at, start, start + |nal|);
  }

  lemma WellFormedTail(nals: seq<Bytes>)
    requires AllWellFormed(nals) && nals != []
    ensures WellFormed(nals[0]) && AllWellFormed(nals[1..]) && [nals[0]] + nals[1..] == nals
  {
    forall k | 0 <= k < |nals[1..]| ensures WellFormed(nals[1..][k]) {
      assert nals[1..][k] == nals[k + 1];
    }
  }

  /** The units of a stream; exactly the last one has no successor. */
  function Flagged(nals: seq<Bytes>): (r: seq<Unit>) {
    seq(|nals|, i requires 0 <= i < |nals| => Unit(nals[i], i == |nals| - 1))
  }

  lemma NoneBehind(data: Bytes, at: nat, nals: seq<Bytes>, longs: seq<bool>)
    requires |nals| == |longs| && StreamAt(data, at, nals, longs) && AllWellFormed(nals)
    ensures FindNal(data, at).NotFound? <==> nals == []
  {
    if nals != [] {
      var start := at + CodeLen(longs[0]);
      WellFormedTail(nals);
      StreamEnds(data, start + |nals[0]|, nals[1..], longs[1..]);
      FindsUnit(data, at, start, nals[0]);
    }
  }

  lemma MarksStep(data: Bytes, at: nat, f: Found, last: bool)
    requires at < |data| && FindNal(data, at) == f && f.Found? && f.len > 0
    requires last == FindNal(data, f.next).NotFound?
    ensures Marks(data, at) == [Mark(f.start, f.len, last)] + Marks(data, f.next)
  {
  }

  /** The marks fit the units, and exactly the last one says so. */
  predicate MarksFit(data: Bytes, marks: seq<Mark>, nals: seq<Bytes>) {
    if nals == [] then marks == []
    else marks != [] && MarkFits(data, marks[0], nals[0], |nals| == 1) && MarksFit(data, marks[1..], nals[1..])
  }

  predicate MarkFits(data: Bytes, m: Mark, nal: Bytes, last: bool) {
    m.len == |nal| && LiesAt(data, m.start, nal) && m.last == last
  }

  lemma MarksFitStep(data: Bytes, m: Mark, rest: seq<Mark>, nals: seq<Bytes>)
    requires nals != [] && MarkFits(data, m, nals[0], |nals| == 1) && MarksFit(data, rest, nals[1..])
    ensures MarksFit(data, [m] + rest, nals)
  {
    assert ([m] + rest)[1..] == rest;
  }

  lemma {:induction false} MarksFitAt(data: Bytes, marks: seq<Mark>, nals: seq<Bytes>, k: nat)
    requires MarksFit(data, marks, nals)
    ensures |marks| == |nals|
    ensures k < |nals| ==> MarkFits(data, marks[k], nals[k], k == |nals| - 1)
    decreases |nals|
  {
    if nals != [] { MarksFitAt(data, marks[1..], nals[1..], if k > 0 then k - 1 else 0); }
  }

  /** The mark of the first unit of a stream. */
  lemma StreamMark(data: Bytes, at: nat, start: nat, nal: Bytes, last: bool, marks: seq<Mark>) returns (m: Mark, rest: seq<Mark>)
    requires UnitAt(data, at, start, nal) && WellFormed(nal) && EndsAt(data, start + |nal|)
    requires FindNal(data, start + |nal|).NotFound? == last && marks == Marks(data, at)
    ensures MarkFits(data, m, nal, last) && rest == Marks(data, start + |nal|) && marks == [m] + rest
  {
    FindsUnit(data, at, start, nal);
    MarksStep(data, at, Found(start, |nal|, start + |nal|), last);
    m, rest := Mark(start, |nal|, last), Marks(data, start + |nal|);
  }

  lemma {:induction false} MarksOfStream(data: Bytes, at: nat, nals: seq<Bytes>, longs: seq<bool>, marks: seq<Mark>)
    requires |nals| == |longs| && StreamAt(data, at, nals, longs) && AllWellFormed(nals) && marks == Marks(data, at)
    ensures MarksFit(data, marks, nals)
    decreases |nals|
  {
    if nals != [] {
      var start := at + CodeLen(longs[0]);
      var next := start + |nals[0]|;
      StreamStarts(data, at, start, nals, longs);
      WellFormedTail(nals);
      StreamEnds(data, next, nals[1..], longs[1..]);
      NoneBehind(data, next, nals[1..], longs[1..]);
      var m, rest := StreamMark(data, at, start, nals[0], |nals| == 1, marks);
      MarksOfStream(data, next, nals[1..], longs[1..], rest);
      MarksFitStep(data, m, rest, nals);
    }
  }

  lemma CutFits(data: Bytes, marks: seq<Mark>, nals: seq<Bytes>)
    requires InBounds(|data|, marks) && MarksFit(data, marks, nals)
    ensures Cut(data, marks) == Flagged(nals)
  {
    MarksFitAt(data, marks, nals, 0);
    forall k | 0 <= k < |marks| ensures Cut(data, marks)[k] == Flagged(nals)[k] {
      MarksFitAt(data, marks, nals, k);
    }
  }

  /** Scanning a stream of well-formed units returns exactly these units, in order, and marks
      exactly the last one. */
  lemma UnitsOfStream(nals: seq<Bytes>, longs: seq<bool>)
    requires |nals| == |longs| && AllWellFormed(nals)
    ensures Units(Stream(nals, longs)) == Flagged(nals)
  {
    var data := Stream(nals, longs);
    StreamLies(data, 0, nals, longs, data);
    MarksOfStream(data, 0, nals, longs, Marks(data, 0));
    MarksInBounds(data, 0);
    CutFits(data, Marks(data, 0), nals);
  }

  // ----- the scanner -----

  /** Walks to the next start code. */
  method SeekCode(data: Bytes, from: nat) returns (i: nat)
    ensures i == NextCode(data, from)
  {
    i := from;
    while i + 2 < |data| && CodeAt(data, i) == 0
      invariant NextCode(data, from) == NextCode(data, i)
      decreases |data| - i
    {
      i := i + 1;
    }
  }

  /** Drops the zero bytes before `stop`. */
  method StripZeros(data: Bytes, start: nat, stop: nat) returns (end: nat)
    requires start <= stop <= |data|
    ensures end == Stripped(data, start, stop)
  {
    end := stop;
    while end > start && data[end - 1] == 0
      invariant start <= end <= stop && Stripped(data, start, stop) == Stripped(data, start, end)
    {
      end := end - 1;
    }
  }

  /** The next unit from `offset` on. */
  method FindNalUnit(data: Bytes, offset: nat) returns (r: Found)
    ensures r == FindNal(data, offset)
  {
    var i := SeekCode(data, offset);
    i := i + CodeAt(data, i);
    if i >= |data| { return NotFound; }
    var j := SeekCode(data, i);
    if j + 2 >= |data| { j := |data|; }
    var end := StripZeros(data, i, j);
    r := Found(i, end - i, j);
  }

  /** One turn of a sender's loop. */
  method NextFound(data: Bytes, offset: nat) returns (more: bool, f: Found, ghost m: Mark)
    requires offset < |data|
    ensures !more ==> Marks(data, offset) == []
    ensures more ==> f == FindNal(data, offset) && f.Found? && m == Mark(f.start, f.len, FindNal(data, f.next).NotFound?)
    ensures more ==> Marks(data, offset) == [m] + Marks(data, f.next)
  {
    m := Mark(0, 0, false);
    f := FindNalUnit(data, offset);
    more := f.Found? && f.len > 0;
    if more {
      m := Mark(f.start, f.len, FindNal(data, f.next).NotFound?);
      MarksStep(data, offset, f, m.last);
    }
  }

  /** The turn of the H.264 sender, which looks ahead for a further unit. */
  method NextMark(data: Bytes, offset: nat) returns (more: bool, m: Mark, next: nat)
    requires offset < |data|
    ensures !more ==> Marks(data, offset) == []
    ensures more ==> offset < next <= |data| && Marks(data, offset) == [m] + Marks(data, next)
  {
    m, next := Mark(0, 0, false), offset;
    var f;
    ghost var found;
    more, f, found := NextFound(data, offset);
    if more {
      var peek := FindNalUnit(data, f.next);
      m, next := Mark(f.start, f.len, peek.NotFound?), f.next;
    }
  }

  lemma MarkAppended(data: Bytes, done: seq<Mark>, m: Mark, rest: seq<Mark>)
    requires InBounds(|data|, done + ([m] + rest))
    ensures done + ([m] + rest) == (done + [m]) + rest && InBounds(|data|, done + [m]) && InBounds(|data|, done)
    ensures m.start + m.len <= |data| && Cut(data, done + [m]) == Cut(data, done) + [UnitOf(data, m)]
  {
    var all := done + ([m] + rest);
    assert all == (done + [m]) + rest;
    forall k | 0 <= k < |done + [m]| ensures (done + [m])[k] == all[k] {}
    assert all[|done|] == m;
    assert forall k | 0 <= k < |done| :: done[k] == all[k];
  }

  /** All units, with the look ahead of the video sender. */
  method AllUnits(data: Bytes) returns (units: seq<Unit>)
    ensures units == Units(data)
  {
    units := [];
    var offset: nat := 0;
    ghost var done: seq<Mark> := [];
    MarksInBounds(data, 0);
    while offset < |data|
      invariant Marks(data, 0) == done + Marks(data, offset)
      invariant InBounds(|data|, done) && units == Cut(data, done)
      decreases |data| - offset
    {
      var more, m, next := NextMark(data, offset);
      if !more { break; }
      MarkAppended(data, done, m, Marks(data, next));
      units, offset, done := units + [UnitOf(data, m)], next, done + [m];
    }
    assert done + [] == done;
  }
}
