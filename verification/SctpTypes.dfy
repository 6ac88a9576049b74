/** Constants, chunks and results shared by the SCTP sender and receiver models.
    TSNs and stream sequence numbers are unbounded integers here; module SctpSerial
    relates them to the 32-bit and 16-bit comparisons of the wire. */
module SctpTypes {
  type Byte = bv8

  const MAX_DATACHANNELS: nat := 8
  const MAX_MESSAGE_SIZE: nat := 4096
  const MTU: nat := 1200
  const MAX_SEND_QUEUE: nat := 16
  const SEND_BUF_SIZE: nat := 4096
  const MAX_GAP_BLOCKS: nat := 4
  const MAX_RECV_GAP: nat := 8
  const RECV_GAP_BUF_SIZE: nat := 4096
  const MAX_RETRANSMITS: nat := 10
  const RTO_MAX_MS: nat := 10000

  /** Offsets and gap blocks are 16 bits wide. */
  const WRAP: nat := 0x1_0000

  /** Payload bytes of one DATA chunk: the MTU rounded down to a multiple of
      four, less the 12-byte common header and the 16-byte chunk header. */
  const MTU_PAYLOAD: nat := MTU / 4 * 4 - 28

  datatype Option<+T> = None | Some(value: T)

  datatype Status =
    | Ok
    | InvalidParam
    | BufferTooSmall
    | NoData
    | NotImplemented
    | Parse
    | Protocol
    | State
    | WouldBlock

  /** A parsed DATA chunk. */
  datatype Chunk = Chunk(
    tsn: int, sid: nat, ssn: nat, ppid: nat,
    begin: bool, end: bool, unordered: bool, payload: seq<Byte>)

  /** One (stream id, sequence number) row of the stream table. */
  datatype Stream = Stream(sid: nat, ssn: nat)

  /** The row that holds stream `sid`, or `|streams|` when there is none. */
  function RowOf(streams: seq<Stream>, sid: nat): (row: nat)
    ensures row <= |streams|
    ensures row < |streams| ==> streams[row].sid == sid
    ensures forall k | 0 <= k < row :: streams[k].sid != sid
  {
    if streams == [] then 0
    else if streams[0].sid == sid then 0
    else 1 + RowOf(streams[1..], sid)
  }

  /** Registers `sid` with sequence number 0 unless it is known or the table is full. */
  function Register(streams: seq<Stream>, sid: nat): seq<Stream> {
    if RowOf(streams, sid) < |streams| || |streams| >= MAX_DATACHANNELS then streams
    else streams + [Stream(sid, 0)]
  }

  /** The sequence number a table associates with `sid`; an absent stream counts from 0. */
  function SsnOf(streams: seq<Stream>, sid: nat): nat {
    var row := RowOf(streams, sid);
    if row < |streams| then streams[row].ssn else 0
  }

  /** `sid` has a row. */
  predicate Known(streams: seq<Stream>, sid: nat) {
    RowOf(streams, sid) < |streams|
  }

  /** Replaces the sequence number of a known stream. */
  function SetSsn(streams: seq<Stream>, sid: nat, ssn: nat): seq<Stream>
    requires Known(streams, sid)
  {
    streams[RowOf(streams, sid) := Stream(sid, ssn)]
  }

  lemma {:induction false} RowOfAppend(streams: seq<Stream>, s: Stream, sid: nat)
    ensures RowOf(streams + [s], sid) ==
            if Known(streams, sid) then RowOf(streams, sid)
            else if s.sid == sid then |streams| else |streams| + 1
  {
    if streams == [] {
      assert (streams + [s])[1..] == [];
    } else if streams[0].sid != sid {
      assert (streams + [s])[1..] == streams[1..] + [s];
      RowOfAppend(streams[1..], s, sid);
    }
  }

  /** Registering a stream changes no stream's sequence number. */
  lemma RegisterKeepsSsn(streams: seq<Stream>, sid: nat, other: nat)
    ensures SsnOf(Register(streams, sid), other) == SsnOf(streams, other)
    ensures Known(streams, other) ==> Known(Register(streams, sid), other)
  {
    RowOfAppend(streams, Stream(sid, 0), other);
  }

  /** Setting one stream's sequence number leaves every other stream alone. */
  lemma SetSsnFrame(streams: seq<Stream>, sid: nat, ssn: nat, other: nat)
    requires Known(streams, sid)
    ensures Known(SetSsn(streams, sid, ssn), other) <==> Known(streams, other)
    ensures SsnOf(SetSsn(streams, sid, ssn), other) == if other == sid then ssn else SsnOf(streams, other)
  {
    var after := SetSsn(streams, sid, ssn);
    assert forall k | 0 <= k < |streams| :: after[k].sid == streams[k].sid;
  }
}
