/** Any buffer whatever, as the H.264 sender takes it: which of the pieces between its start codes are
    sent, and whether the frame's end is marked. */
module VideoBuffer {
  import opened Bits
  import AnnexB
  import H264
  import RtpPacket
  import VideoFrame

  type Bytes = seq<Byte>

  /** The pieces between start codes from `offset` on, zero bytes at their ends taken off, empty ones
      included. A start code that ends the buffer has no piece behind it. */
  function Pieces(data: Bytes, offset: nat): seq<Bytes>
    decreases |data| - offset
  {
    match AnnexB.FindNal(data, offset)
    case NotFound => []
    case Found(start, len, next) => [data[start..start + len]] + Pieces(data, next)
  }

  /** From `a` up to `b` no start code begins. */
  predicate NoCode(data: Bytes, a: nat, b: nat) {
    forall k | a <= k < b :: AnnexB.CodeAt(data, k) == 0
  }

  lemma NoCodeBefore(data: Bytes, i: nat)
    ensures NoCode(data, i, AnnexB.NextCode(data, i))
    ensures AnnexB.NextCode(data, i) + 2 >= |data| ==> NoCode(data, i, |data|)
  {
    forall k | i <= k < AnnexB.NextCode(data, i) ensures AnnexB.CodeAt(data, k) == 0 {
      AnnexB.NextCodeIsFirst(data, i, k);
    }
  }

  lemma {:induction false} StrippedZeros(data: Bytes, start: nat, end: nat, k: nat)
    requires start <= end <= |data| && AnnexB.Stripped(data, start, end) <= k < end
    ensures data[k] == 0
    decreases end
  {
    if k < end - 1 { StrippedZeros(data, start, end - 1, k); }
  }

  /** A piece starts behind the first start code, or, where there is none, two bytes before the end or
      later; it holds none; zero bytes follow it, and then another start code or the end. */
  lemma PieceBetween(data: Bytes, offset: nat, f: AnnexB.Found) returns (code: nat)
    requires f == AnnexB.FindNal(data, offset) && f.Found?
    ensures offset <= code && NoCode(data, offset, code) && f.start == code + AnnexB.CodeAt(data, code)
    ensures AnnexB.CodeAt(data, code) == 0 ==> code + 2 >= |data|
    ensures NoCode(data, f.start, f.next) && (f.next == |data| || AnnexB.CodeAt(data, f.next) > 0)
    ensures (f.len > 0 ==> data[f.start + f.len - 1] != 0) && forall k | f.start + f.len <= k < f.next :: data[k] == 0
  {
    code := AnnexB.NextCode(data, offset);
    NoCodeBefore(data, offset);
    NoCodeBefore(data, f.start);
    forall k | f.start + f.len <= k < f.next ensures data[k] == 0 {
      StrippedZeros(data, f.start, f.next, k);
    }
  }

  /** Pieces before the first empty one. */
  function Sent(pieces: seq<Bytes>): (n: nat)
    ensures n <= |pieces| && (forall k | 0 <= k < n :: pieces[k] != []) && (n < |pieces| ==> pieces[n] == [])
  {
    if pieces == [] || pieces[0] == [] then 0 else 1 + Sent(pieces[1..])
  }

  predicate NoneEmpty(pieces: seq<Bytes>) {
    forall k | 0 <= k < |pieces| :: pieces[k] != []
  }

  /** Mark `k` is piece `k`, flagged when it is the last of all pieces. */
  predicate MarkIs(data: Bytes, m: AnnexB.Mark, piece: Bytes, last: bool) {
    m.start + m.len <= |data| && data[m.start..m.start + m.len] == piece && m.last == last
  }

  predicate MarksAre(data: Bytes, marks: seq<AnnexB.Mark>, pieces: seq<Bytes>) {
    |marks| <= |pieces| && forall k | 0 <= k < |marks| :: MarkIs(data, marks[k], pieces[k], k == |pieces| - 1)
  }

  lemma MarksJoin(data: Bytes, m: AnnexB.Mark, marks: seq<AnnexB.Mark>, piece: Bytes, pieces: seq<Bytes>)
    requires MarkIs(data, m, piece, pieces == []) && MarksAre(data, marks, pieces)
    ensures MarksAre(data, [m] + marks, [piece] + pieces)
  {
    forall k | 0 <= k < |marks| + 1 ensures MarkIs(data, ([m] + marks)[k], ([piece] + pieces)[k], k == |pieces|) {
      if k > 0 { assert MarkIs(data, marks[k - 1], pieces[k - 1], k - 1 == |pieces| - 1); }
    }
  }

  /** One turn of the sender's loop takes one piece. */
  lemma PieceTurn(data: Bytes, offset: nat, f: AnnexB.Found, rest: seq<Bytes>, behind: seq<AnnexB.Mark>)
    requires f == AnnexB.FindNal(data, offset) && f.Found? && f.len > 0 && offset < |data|
    requires rest == Pieces(data, f.next) && behind == AnnexB.Marks(data, f.next)
    ensures Pieces(data, offset) == [data[f.start..f.start + f.len]] + rest
    ensures AnnexB.Marks(data, offset) == [AnnexB.Mark(f.start, f.len, rest == [])] + behind
  {
    AnnexB.MarksStep(data, offset, f, rest == []);
  }

  lemma {:induction false} MarksArePieces(data: Bytes, offset: nat, marks: seq<AnnexB.Mark>, pieces: seq<Bytes>)
    requires marks == AnnexB.Marks(data, offset) && pieces == Pieces(data, offset)
    ensures |marks| == Sent(pieces) && MarksAre(data, marks, pieces)
    decreases |data| - offset
  {
    var f := AnnexB.FindNal(data, offset);
    if f.Found? && f.len > 0 {
      var rest, behind := Pieces(data, f.next), AnnexB.Marks(data, f.next);
      MarksArePieces(data, f.next, behind, rest);
      PieceTurn(data, offset, f, rest, behind);
      MarksJoin(data, AnnexB.Mark(f.start, f.len, rest == []), behind, data[f.start..f.start + f.len], rest);
      assert pieces[1..] == rest;
    }
  }

  /** The units of any buffer are its pieces before the first empty one; the last is flagged when there
      is no empty one. */
  lemma UnitsArePieces(data: Bytes, pieces: seq<Bytes>, units: seq<AnnexB.Unit>)
    requires pieces == Pieces(data, 0) && units == AnnexB.Units(data)
    ensures VideoFrame.BytesOf(units) == pieces[..Sent(pieces)]
    ensures VideoFrame.EndFlag(units, NoneEmpty(pieces))
  {
    var marks := AnnexB.Marks(data, 0);
    MarksArePieces(data, 0, marks, pieces);
    AnnexB.MarksInBounds(data, 0);
    forall k | 0 <= k < |units| ensures units[k].bytes == pieces[k] && (units[k].last <==> k == |pieces| - 1) {
      assert MarkIs(data, marks[k], pieces[k], k == |pieces| - 1);
    }
  }

  /** For every buffer: the pieces before the first empty one come out of the receiver, those that fit
      its reassembly buffer; and the last packet, and no other, is marked exactly when no piece is empty. */
  lemma BufferWholeIff(d: H264.Depkt, r: RtpPacket.Rtp, ts: RtpPacket.U32, data: Bytes, pieces: seq<Bytes>, packets: seq<Bytes>)
    requires pieces == Pieces(data, 0) && packets == VideoFrame.Send(r, ts, data).1
    requires forall k | 0 <= k < Sent(pieces) :: H264.Carried(pieces[k])
    ensures VideoFrame.Receive(d, packets).1 == VideoFrame.Fitting(pieces[..Sent(pieces)])
    ensures VideoFrame.MarkedLast(packets, NoneEmpty(pieces))
    ensures Sent(pieces) == |pieces| <==> NoneEmpty(pieces)
  {
    var units := AnnexB.Units(data);
    UnitsArePieces(data, pieces, units);
    forall k | 0 <= k < |units| ensures units[k].bytes != [] && H264.Carried(units[k].bytes) {
      assert units[k].bytes == VideoFrame.BytesOf(units)[k] == pieces[k];
    }
    VideoFrame.UnitsRoundTrip(d, r, ts, units);
    VideoFrame.UnitsMarked(r, ts, units, NoneEmpty(pieces));
  }

  /** The pieces of one unit, a start code and a zero byte. */
  lemma TrailingPieces(x: Byte, data: Bytes)
    requires x != 0 && data == [0, 0, 1, x, 0, 0, 1, 0]
    ensures Pieces(data, 0) == [[x], []]
  {
    assert AnnexB.CodeAt(data, 0) == 3 && AnnexB.CodeAt(data, 3) == 0 && AnnexB.CodeAt(data, 4) == 3;
    assert AnnexB.NextCode(data, 0) == 0 && AnnexB.NextCode(data, 4) == 4 && AnnexB.NextCode(data, 3) == 4;
    assert AnnexB.Stripped(data, 3, 4) == 4 && AnnexB.Stripped(data, 7, 8) == 7;
    assert AnnexB.FindNal(data, 0) == AnnexB.Found(3, 1, 4);
    assert AnnexB.FindNal(data, 4) == AnnexB.Found(7, 0, 8);
    assert AnnexB.FindNal(data, 8) == AnnexB.NotFound;
    assert data[3..4] == [x] && data[7..7] == [];
    assert Pieces(data, 8) == [];
    assert Pieces(data, 4) == [data[7..7]] + Pieces(data, 8);
  }

  /** Such a frame is sent without a marked packet. */
  lemma TrailingCode(r: RtpPacket.Rtp, ts: RtpPacket.U32, x: Byte, data: Bytes, packets: seq<Bytes>)
    requires x != 0 && data == [0, 0, 1, x, 0, 0, 1, 0] && packets == VideoFrame.Send(r, ts, data).1
    ensures |packets| == 1 && !VideoFrame.Marked(packets[0])
  {
    var units, pieces: seq<Bytes> := AnnexB.Units(data), [[x], []];
    TrailingPieces(x, data);
    UnitsArePieces(data, pieces, units);
    assert pieces[1] == [] && Sent(pieces[1..]) == 0;
    assert |units| == 1 && units[0].bytes == VideoFrame.BytesOf(units)[0] == [x];
    VideoFrame.UnitsMarked(r, ts, units, false);
    VideoFrame.WorstOfIsExact(r, ts, units);
    assert VideoFrame.WorstOf(units) == VideoFrame.PacketsFor(1) + VideoFrame.WorstOf(units[1..]);
  }
}
