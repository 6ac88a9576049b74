# NanoRTC in Dafny

NanoRTC is a sans-I/O WebRTC stack in C: a set of protocol state machines without allocation, whose
caller supplies packets and the clock. These Dafny modules model its data transfer, send path,
connectivity checks, media codecs, reorder buffer and address text, and prove what they promise.
`dafny verify dfyconfig.toml` checks the whole project.

Each part has a specification on values (functions on datatypes), a class or a set of methods with
the program's own loops, arrays and cursors that computes it, and theorems about the specification
over every input or every run.

- **SCTP** (`Sctp*.dfy`). `SctpReceiver` and `SctpSender` are the two halves of an association as
  functions. `SctpSystem` puts two endpoints and a network together that drops, duplicates, delays
  and reorders; its invariant (`SctpHistory`, `SctpDelivery`, `SctpDeliverStep`, `SctpSending`,
  `SctpSubmit`) gives the theorems of `SctpTheorems`. `SctpAcks` and `SctpSack` are about
  acknowledgements, `SctpSerial` and `SctpWindow` about wire numbers. What one call must do, said on
  queue entries and descriptors alone: `SctpReceiveExact` (an incoming DATA or FORWARD TSN), `SctpPoll`
  (a poll), `SctpSackExact` (a SACK), `SctpTimer` (the retransmission timer), `SctpForward` (an outgoing
  FORWARD TSN), `SctpAccept` (a message to send); over runs: `SctpHandOut` (a complete message comes out)
  and `SctpRetries` (transmissions and retry limits). `SctpMergeOrder`, `SctpStuck`,
  `SctpWhole` and `SctpFront` say when merging fragments collects a message and when it sticks for
  good, `SctpStuckRun` is a run that sticks (`SctpSteps` has its single calls). `SctpPool` is the receive table over
  one byte pool (`SctpLayout`, `SctpMoves`, `Slices`), `SctpSendQueue` the send ring with wrapping
  cursors, `SctpChecksum` the packet checksum over `Crc32c` and its table.
- **Send path** (`Rtc*.dfy`, `VideoSend.dfy`). Output queue, managed buffers, packet ring and pacer
  over fixed arrays with 16-bit cursors; application events; whole-frame admission; `RtcFec` collects
  sent packets into FEC groups.
- **ICE** (`Ice*.dfy`). The bounded table of checks, its schedule and its safety over every run;
  `IceExact` says what each request and response does to the table, `IceActs` when the agent acts and how;
  `IceClock` adds a clock, `IceLate` a run in which an announced wait ends without an action.
- **Codecs** (`Fec*.dfy`, `AnnexB.dfy`, `H264.dfy`, `H265*.dfy`, `RtpPacket.dfy`,
  `VideoFrame.dfy`, `VideoBuffer.dfy`). ULPFEC (RFC 5109), Annex-B scanning, H.264 (RFC 6184) and H.265 (RFC 7798) packets, RTP.
- **Reorder buffer** (`Reorder*.dfy`). A window of numbered packets, the 16-bit slots that implement
  it, and when the two agree over whole runs.
- **Addresses** (`Addr*.dfy`). IPv4 and IPv6 text: what is accepted, the canonical text, the round trip.

The configuration is the default one with reliable data channels, pacing, reordering, FEC and H.265
on; ring sizes are any power of two. Cryptography is the identity and authentication a given fact:
STUN messages, SRTP packets and DTLS records enter already authenticated. TSNs and stream sequence
numbers are integers without a bound; `SctpWindow` says when the 32-bit and 16-bit comparisons agree.

## Model

| member | source | states |
|---|---|---|
| SctpTheorems.ReliableStreamIsPrefix | src/nano_sctp.c:837-970 | over every run of two endpoints and a network that drops, duplicates and reorders: on an ordered reliable stream the messages delivered so far are, byte for byte, the first of those accepted for sending |
| SctpTheorems.DeliveriesAreExplained | src/nano_sctp.c:837-904 | on every stream each delivery is one accepted message unchanged, none is delivered twice, and ordered messages of one stream come out in the order of acceptance |
| SctpTheorems.ReliableNeverSkipped | src/nano_sctp.c:1111-1148 | a TSN of a reliable message is never acknowledged unless its chunk was stored |
| SctpTheorems.AbandonmentIsWhole | src/nano_sctp.c:985-1000 | queued TSNs are consecutive, fragments of one message share the abandoned flag, and messages with retry limit -1 are never abandoned |
| SctpTheorems.ForwardStopsAtMessageEnd | src/nano_sctp.c:1265-1307 | every FORWARD TSN stops at a message end, before the first fragment that is neither acknowledged nor abandoned |
| SctpTheorems.ForwardSkipsOnlyAbandoned | src/nano_sctp.c:1265-1307 | a FORWARD TSN in the network never passes a reliable message that the receiver has not acknowledged |
| SctpTheorems.SacksAreGenuine | src/nano_sctp.c:317-392 | between these endpoints every SACK passes the peer's gap-list validation and reports held TSNs only |
| SctpTheorems.LeadingChunkIsStored | src/nano_sctp.c:906-970 | right after an out-of-order chunk was stored, the chunk behind the cumulative TSN, on a known stream, is stored and acknowledged when it arrives |
| SctpTheorems.GenuineNeverFails | src/nano_sctp.c:936-948 | the sender's own chunks never raise a fragmentation error against what is held |
| SctpHandOut.ReachablePollIff | src/nano_sctp.c:837-904 | in every reachable state a poll comes back empty exactly when no complete message has its turn: one that is unordered, or was skipped over, or carries its stream's next number, with no earlier skipped-over one of the stream waiting; otherwise it hands out a message |
| SctpHandOut.CompleteIsHandedOut | src/nano_sctp.c:837-904 | in every reachable state a complete message that has its turn, an unordered one for instance, is the last one handed out by some number of polls, at most one per descriptor |
| SctpRetries.SentAsCounted | src/nano_sctp.c:1312-1384 | over every run a queued fragment was sent exactly once for each retry counted, and once more while it is in flight |
| SctpRetries.GivenUpByTimer | src/nano_sctp.c:985-1000 | over every run a message whose retry limit is not 0 is given up by the timer only, and only when a fragment of it is in flight and has used up all its retries |
| SctpRetries.ReachableLimits | src/nano_sctp.c:1479-1557 | over every run no retry count passes its limit, and the fragments of a message share theirs |
| SctpForward.ForwardNamesHighest | src/nano_sctp.c:1265-1307 | in every reachable state a FORWARD TSN names each stream at most once, and names exactly the highest ordered number abandoned on it up to the new TSN |
| SctpAccept.NoForwardWithoutSupport | src/nano_sctp.c:1411-1469 | over every run with a peer without FORWARD TSN support none is sent, and every queued message is reliable and never given up |
| SctpSystem.RunKeeps | src/nano_sctp.c:906-1148 | the joint invariant of sender, receiver and network holds along every run |
| SctpWindow.TsnsAgree | src/nano_sctp.c:906-1148 | while what arrives and what is held is less than 2^31 behind the sender, every pair of TSNs compared in a step differs by less than 2^31, so difference, equality and succession of the 32-bit numbers are those of the unbounded ones |
| SctpWindow.SsnsAgree | src/nano_sctp.c:837-904 | the same for sequence numbers of one stream, within 2^15 |
| SctpSerial.TsnDiffIff | src/nano_sctp.c:906-912 | the signed 32-bit difference is the true one exactly for differences in the signed range |
| SctpSerial.SsnDiffIff | src/nano_sctp.c:1130-1142 | the signed 16-bit difference is the true one exactly for differences in the signed range |
| SctpSubmit.FragmentsJoin | src/nano_sctp.c:1440-1466 | splitting a message and joining the payloads gives its bytes back, with exactly the counted number of fragments |
| SctpSubmit.SubmitKeeps | src/nano_sctp.c:1416-1469 | accepting a message extends the history by it, with the next TSNs and its stream's next number |
| SctpSending.HandleSackKeeps | src/nano_sctp.c:1003-1071 | a SACK keeps the sender's invariant and only adds whole messages to the abandoned ones |
| SctpSending.HandleTimeoutKeeps | src/nano_sctp.c:1479-1557 | so does the retransmission scan |
| SctpSending.ForwardOutputOk | src/nano_sctp.c:1265-1307 | the FORWARD TSN built from the queue passes acknowledged and abandoned TSNs only and names skips the receiver may trust |
| SctpDelivery.HandleDataKeeps | src/nano_sctp.c:906-970 | storing a chunk of the sender, draining and merging keeps every descriptor equal to a stretch of one message |
| SctpDeliverStep.PollDeliveryKeeps | src/nano_sctp.c:837-904 | a poll hands out one accepted message whose turn it is, complete, and records it once |
| SctpDeliverStep.HandleForwardKeeps | src/nano_sctp.c:1111-1148 | a FORWARD TSN keeps the receiver's invariant: streams move past skipped messages only |
| SctpAcks.NeverReneges | src/nano_sctp.c:726-765 | over any run of arbitrary input, an acknowledged TSN stays acknowledged |
| SctpAcks.DataAcked | src/nano_sctp.c:906-970 | a DATA chunk adds its own TSN to the acknowledged ones, exactly when it passes every check |
| SctpAcks.ForwardAcked | src/nano_sctp.c:1111-1148 | a FORWARD TSN adds exactly the TSNs up to its own |
| SctpAcks.PollAcked | src/nano_sctp.c:837-904 | a poll changes no acknowledgement |
| SctpAcks.DataOwesSack | src/nano_sctp.c:906-970 | every DATA chunk of a legal size asks for a SACK, whether it is stored, refused or a duplicate |
| SctpAcks.ForwardOwesSack | src/nano_sctp.c:1111-1148 | so does every FORWARD TSN, also a late one |
| SctpAcks.PollOwesSack | src/nano_sctp.c:837-904 | a poll asks for one exactly when it frees bytes of a delivered message |
| SctpPoll.PollBlocksIff | src/nano_sctp.c:837-904 | on any table with known streams and distinct TSNs, whatever filled it, a poll comes back empty exactly when from no descriptor whose turn it is the walk over consecutive TSNs reaches a last or a contradicting fragment |
| SctpPoll.PollExact | src/nano_sctp.c:837-904 | a poll that hands out a message gives the stream, the PPID and the joined bytes of a whole walk whose turn it is, marks exactly its descriptors and moves exactly its stream on by one, unless it is unordered or was skipped over; any other poll only frees what was delivered before |
| SctpReceiveExact.StoredIff | src/nano_sctp.c:906-970 | a DATA chunk becomes acknowledged exactly when it is new, contradicts no waiting fragment before it, and finds a descriptor, its bytes and a stream row, leaving a descriptor and a full payload when it is not the next one |
| SctpReceiveExact.BlockedIff | src/nano_sctp.c:906-970 | the answer is that it would block exactly when only room is missing |
| SctpReceiveExact.DataFront | src/nano_sctp.c:906-970 | a stored chunk moves the cumulative TSN over exactly what then follows it without a gap; no other chunk moves it |
| SctpReceiveExact.ForwardExact | src/nano_sctp.c:1111-1148 | an accepted FORWARD TSN discards exactly the descriptors up to its TSN that are no complete message, flags exactly the ordered ones that a skip covers, moves each named stream past its skip, and the cumulative TSN to its own and over what follows it without a gap |
| SctpPoll.PlainData | src/nano_sctp.c:906-970 | such a table is what any DATA chunk leaves |
| SctpPoll.PlainForward | src/nano_sctp.c:1111-1148 | and any FORWARD TSN |
| SctpSackExact.RefusedIff | src/nano_sctp.c:1003-1023 | a SACK is refused as a whole, and then changes nothing, exactly when its blocks are not ascending and disjoint |
| SctpSackExact.SackExact | src/nano_sctp.c:1003-1071 | an accepted SACK takes exactly the entries up to its cumulative TSN off the queue and gives up exactly the messages of which a fragment without retries is in flight and unreported while a later one is reported; every other field stays |
| SctpTimer.TimerExact | src/nano_sctp.c:1479-1557 | the timer fails the association exactly when a reliable fragment is late and out of retries; otherwise exactly the late fragments with retries left wait for transmission one retry further, each doubling the timeout for those behind it, exactly the messages with a late fragment without retries are given up, and nothing else changes |
| SctpTimer.WaitingIsSent | src/nano_sctp.c:1312-1384 | a fragment that waits for transmission is sent by one of the next polls, at most one for every fragment before it and one for a FORWARD TSN |
| SctpTimer.SentStamp | src/nano_sctp.c:1312-1384 | a poll that sends a fragment leaves it in flight with the current time, and changes no other entry |
| SctpTimer.NotLateYet | src/nano_sctp.c:1479-1557 | a fragment is neither sent again nor given up before one timeout has passed since it was sent |
| SctpForward.ForwardSentIff | src/nano_sctp.c:1265-1307 | a FORWARD TSN goes out exactly when one is pending and an abandoned fragment is among the settled ones at the front of the queue, and it passes exactly these |
| SctpAccept.AcceptedIff | src/nano_sctp.c:1411-1469 | a message is accepted exactly when its retry limit and size suit the peer, its fragments and bytes fit what is free, and its stream has a row or gets one; a refused one changes nothing |
| SctpAccept.BlockedIff | src/nano_sctp.c:1411-1469 | the answer is that it would block exactly when only room is missing |
| SctpSack.SackInWindow | src/nano_sctp.c:317-392 | with every visited TSN within 65535 of the cumulative one, the blocks are ascending, disjoint and non-touching, valid for the peer, and report held TSNs only |
| SctpSack.SackCovers | src/nano_sctp.c:317-392 | a held TSN that is not reported lies behind the last of four blocks |
| SctpSack.SackGenuineIff | src/nano_sctp.c:317-392 | a SACK is valid and genuine exactly when every visited offset fits 16 bits |
| SctpSack.SackTruncationExample | src/nano_sctp.c:348-365 | the first DATA of an association, 65537 past the cumulative TSN, is stored and reported as the very next TSN |
| SctpSack.SortSorts | src/nano_sctp.c:336-346 | the insertion sort gives the same TSNs in ascending order |
| SctpMergeOrder.MergeCompletesIff | src/nano_sctp.c:805-835 | the acknowledged part of a message, however much its front has absorbed already and whether or not the message ends there, is merged into the front, byte for byte, exactly when the front sits below every middle piece; otherwise it is stuck |
| SctpMergeOrder.StuckNeverAssembles | src/nano_sctp.c:837-904 | a stuck message is never found complete by delivery |
| SctpStuckRun.StuckRun | src/nano_sctp.c:805-970 | from the start of an association, for any bytes, one message in four fragments that arrive in the order 0, 1, 3, 2 is acknowledged and stuck |
| SctpStuck.StuckIsNeverDelivered | src/nano_sctp.c:805-904 | along every run without a FORWARD TSN past it, a stuck message stays stuck and is never delivered |
| SctpStuck.NothingBehindStuck | src/nano_sctp.c:837-904 | on an ordered reliable stream nothing from the stuck message on is delivered |
| SctpStuck.AssembledOrNeverDelivered | src/nano_sctp.c:805-970 | when a DATA chunk acknowledges fragments of a message, its acknowledged part is collected in the front, if the front sits below every middle piece, and otherwise the message is never delivered unless a FORWARD TSN passes it |
| SctpWhole.ReachableWhole | src/nano_sctp.c:805-1148 | in every reachable state an acknowledged TSN is covered by an undelivered descriptor, or its whole message has left the table |
| SctpWhole.MergeWhole | src/nano_sctp.c:805-835 | on fragments of accepted messages merging never fails, keeps that invariant and leaves no pair that could merge |
| SctpFront.FrontOrStuck | src/nano_sctp.c:805-1148 | in every reachable state without a waiting pair, the acknowledged part of a message whose front waits is all in that front, or else it is stuck, and never both |
| SctpFront.CollectedOrNeverDelivered | src/nano_sctp.c:805-1148 | in these states a message whose front does not hold its whole acknowledged part is never delivered, unless a FORWARD TSN passes it |
| SctpFront.DataDecides | src/nano_sctp.c:906-970 | every stored DATA chunk decides this: before merging each acknowledged part is stuck already or is a front and single fragments, and these are collected exactly when the front sits below the middle ones |
| SctpFront.SettledStep | src/nano_sctp.c:805-1148 | no pair waits after a stored DATA chunk, nor after any other step that began without one, except a FORWARD TSN that raises the cumulative TSN |
| SctpFront.ForwardSettledIff | src/nano_sctp.c:1111-1148 | such a FORWARD TSN leaves a pair waiting exactly when the TSNs held without a gap behind it contain one |
| SctpFront.ForwardLeavesPair | src/nano_sctp.c:1111-1148 | two fragments behind a gap and a FORWARD TSN over the gap: both are acknowledged and wait apart |
| SctpLayout.ExactlyTiled | src/nano_sctp.c:726-792 | occupied descriptors tile the used part of the pool: every position lies in exactly one of them |
| SctpMoves.ReclaimSound | src/nano_sctp.c:726-748 | squeezing out a delivered descriptor keeps the tiling, the counters and every other descriptor's bytes |
| SctpMoves.ThreeReversals | src/nano_sctp.c:769-792 | reversing two neighbouring stretches and then the whole exchanges them |
| SctpMoves.RotateSound | src/nano_sctp.c:778-792 | a move to a boundary keeps the tiling and every descriptor's bytes |
| SctpMoves.MergeSound | src/nano_sctp.c:805-835 | joining two neighbours at the front of the pool keeps the tiling and appends the bytes |
| SctpMoves.AdmitSound | src/nano_sctp.c:961-968 | a stored payload extends the tiling and disturbs no other descriptor |
| SctpMoves.MergeJoinsIff | src/nano_sctp.c:820-831 | the joined descriptor names the joined bytes exactly when the first part is not empty, or the second part is, or the first part's offset is 0 |
| SctpMoves.EmptyFirstExample | src/nano_sctp.c:820-831 | a last fragment of one byte is stored and then the empty first one: joined they name the byte behind the one that came |
| SctpPool.Pool.Reclaim | src/nano_sctp.c:726-748 | the table and pool after reclaiming are those of the specification, and stay tiled |
| SctpPool.Pool.Drain | src/nano_sctp.c:750-765 | the cumulative TSN steps over every held TSN, then the pool is reclaimed |
| SctpPool.Pool.Move | src/nano_sctp.c:778-792 | the three-reversal move leaves every descriptor its bytes |
| SctpPool.Pool.Merge | src/nano_sctp.c:805-835 | merging in place computes the specified merge |
| SctpPool.Pool.HandleData | src/nano_sctp.c:906-970 | a DATA chunk leaves the table, streams and status of the specification |
| SctpPool.Pool.PollDelivery | src/nano_sctp.c:837-904 | a poll returns the specified message, assembled at the front of the pool |
| SctpPool.Pool.HandleForward | src/nano_sctp.c:1111-1148 | a FORWARD TSN leaves the specified state and status |
| SctpPool.Pool.EncodeGaps | src/nano_sctp.c:317-392 | the encoded gap blocks are the specified ones |
| SctpPool.Pool.constructor | src/nano_sctp.c:526-539 | an empty pool |
| SctpSendQueue.SendQueue.constructor | src/nano_sctp.c:526-578 | an empty established sender |
| SctpSendQueue.SendQueue.SendOptions | src/nano_sctp.c:1416-1469 | the ring represents the specified queue and returns the specified status |
| SctpSendQueue.SendQueue.HandleSack | src/nano_sctp.c:1003-1071 | the ring after a SACK represents the specified queue, front popped |
| SctpSendQueue.SendQueue.AbandonMessage | src/nano_sctp.c:985-1000 | flags exactly the queued fragments of one message |
| SctpSendQueue.SendQueue.PollOutput | src/nano_sctp.c:1312-1384 | the packet emitted and the new state are the specified ones |
| SctpSendQueue.SendQueue.ForwardOutput | src/nano_sctp.c:1265-1307 | the FORWARD TSN emitted is the specified one |
| SctpSendQueue.SendQueue.HandleTimeout | src/nano_sctp.c:1479-1557 | the timer scan leaves the specified state and status |
| SctpChecksum.PassesIff | src/nano_sctp.c:46-72 | a finalised packet verifies, and a packet verifies exactly when it is its own finalised form |
| SctpChecksum.BurstIsRefused | src/nano_sctp.c:46-72 | a packet with four neighbouring bytes replaced, inside the header, the checksum or the body, is refused |
| SctpChecksum.VerifiedIff | src/nano_sctp.c:46-72 | a packet of twelve bytes or more verifies exactly when its bytes 8 to 11 are, lowest first, the complement of the bit-by-bit division, from all ones, of the packet with four zero bytes there; a shorter one is a parse error |
| SctpChecksum.FinalizedIs | src/nano_sctp.c:175-182 | finalising writes exactly these bytes and nothing else |
| SctpChecksum.VerifyChecksum | src/nano_sctp.c:46-72 | the piecewise computation gives that status |
| SctpChecksum.FinalizeChecksum | src/nano_sctp.c:175-182 | the buffer afterwards is the input with these four bytes |
| Crc32cTable.TableIsStep8 | src/nano_crc32c.c:9-44 | each of the 256 table entries is eight reflected Castagnoli bit steps of its index |
| Crc32c.Update | src/nano_crc32c.c:51-57 | the table-driven loop computes the bitwise division |
| Crc32c.Checksum | src/nano_crc32c.c:66-69 | the one-call checksum |
| Crc32c.DivideSplits | src/nano_crc32c.c:51-57 | any split of the input into two updates gives the result of one |
| Crc32c.CheckValue | src/nano_crc32c.c:66-69 | the checksum of the nine digits is the published check value |
| RtcRings.FreeIsUnreferred | src/nano_rtc.c:125-148 | a slot is free exactly when no queued output refers to it |
| RtcRings.DequeueKeeps | src/nano_rtc.c:99-123 | dequeuing frees exactly the slot of the output that left, by equality of the 16-bit cursors |
| RtcFec.FecSender.constructor | include/nanortc.h:781-792 | an empty group and free buffers |
| RtcFec.FecSender.Prepare | src/nano_rtc_media.c:1289-1305 | puts a packet that fits at the next place of the group without committing it |
| RtcFec.FecSender.Commit | src/nano_rtc_media.c:1311-1396 | the packet that fills a group of the current size sends the FEC packet of exactly the last packets committed, in a buffer that no queued output refers to, precisely when budget, buffer, room and encryption allow; a shrunken size starts a new group with it |
| RtcFec.FecSender.Dequeue | src/nano_rtc.c:99-123 | a queued FEC packet leaves with the bytes it was queued with, and its buffer, no other, becomes free |
| RtcFec.GroupRepairs | src/nano_rtc_media.c:1311-1396 | consecutively numbered packets are never refused, and the FEC packet repairs the loss of any one of them |
| RtcSendState.CommitFragmentKeeps | src/nano_rtc_media.c:353-359 | committing a fragment keeps every queued output's bytes and every unpolled fragment |
| RtcSendState.CommitSpares | src/nano_rtc_media.c:331-359 | what a queued output points to is the same before and after a commit |
| RtcSendState.PopKeeps | src/nano_rtc.c:501-564 | the output polled has exactly the bytes it was queued with |
| RtcSendPath.SendPath.constructor | src/nano_rtc.c:389-484 | an empty send path |
| RtcSendPath.SendPath.SendControl | src/nano_rtc.c:125-148 | a control packet goes out through a free slot or is refused |
| RtcSendPath.SendPath.Retransmit | src/nano_rtc_media.c:1809-1834 | a retransmission queues a copy of the ring packet, which the ring may reuse at once |
| RtcSendPath.SendPath.CommitFragment | src/nano_rtc_media.c:331-396 | a packet enters the ring and the pacer's backlog at its time |
| RtcSendPath.SendPath.SendFrame | src/nano_rtc_media.c:851-919 | a frame counted as `needed` packets is committed whole or refused, by occupancy; nothing in use is overwritten |
| RtcSendPath.SendPath.Pump | src/nano_rtc_media.c:398-493 | the pump releases exactly what the pacer specifies, in order |
| RtcSendPath.SendPath.EmitEvent | src/nano_rtc.c:337-361 | an event is queued, held, superseded or refused as specified |
| RtcSendPath.SendPath.PollOutput | src/nano_rtc.c:501-631 | the application gets the first queued output, else the first held event |
| RtcPacer.RateBound | src/nano_rtc_media.c:398-493 | over any run, bytes released on credit plus the remaining budget are at most the burst plus rate times time over 8000 |
| RtcPacer.ReleaseIsFifo | src/nano_rtc_media.c:398-493 | released and waiting fragments are, in order, those that arrived |
| RtcPacer.PumpCaches | src/nano_rtc_media.c:480-505 | after a pump that leaves a backlog the cached deadline is the one for the head |
| RtcPacer.DeadlineReleases | src/nano_rtc_media.c:398-505 | a pump at the cached deadline, with the same estimate and room in the queue, releases the head |
| RtcPacer.NothingAges | src/nano_rtc_media.c:398-493 | with room for all, no fragment at the head is left past the latency cap |
| RtcEvents.RunKeeps | src/nano_rtc.c:320-361 | in every run events of one key come out in the order of emission, and one goes missing only when a later one of its key was accepted |
| RtcEvents.LatestIsKept | src/nano_rtc.c:337-361 | the latest accepted event of a key is delivered, queued or held |
| RtcEvents.NeverBlocks | src/nano_rtc.c:320-361 | over every run from the empty queue whose events concern the connection's tracks and opened channels, an event without payload is never refused |
| RtcEvents.Allocate | src/nano_datachannel.c:94-103 | an id gets a channel entry exactly while one is free, entries are never given back, and at most eight ids ever name a channel |
| VideoSend.SendH264 | src/nano_rtc_media.c:822-973 | an H.264 frame is counted, admitted, packed and committed whole, or nothing changes, not even the RTP sequence number |
| VideoSend.SendH265 | src/nano_rtc_media.c:737-778 | an admitted H.265 frame commits every packet the packetizer makes, never more than were counted |
| VideoSend.CommittedWholeIff | src/nano_rtc_media.c:737-778 | an admitted H.265 frame goes out whole exactly when every collected unit has a full header |
| VideoSend.PartlyCommitted | src/nano_rtc_media.c:737-778 | a long unit followed by a one-byte unit: two packets are committed, then the frame is refused |
| IceSafety.ConnectedIsConfirmed | src/nano_ice.c:376-446 | in every run a connected agent uses a pair on which it asked, and whose answer, from the asked address and with its own transaction, it accepted in this generation |
| IceSafety.AcceptedWasInFlight | src/nano_ice.c:376-446 | a response is accepted only while its transaction is in flight on a pair with the answering address |
| IceSafety.NominatesConfirmedOnly | src/nano_ice.c:577-631 | every request with USE-CANDIDATE comes from a controlling agent, for a pair that had answered before |
| IceSafety.TableStaysSound | src/nano_ice.c:109-129 | in every reachable state the queue positions are a permutation of 0..k-1, no entry is both queued and in flight, and no retry count passes four |
| IceSafety.SelectedSocket | src/nano_ice.c:131-173 | over every run the socket of the selected pair is the address of the candidate it is sent from: its own for a candidate that is not reflexive, that of the host base for a reflexive one, and none exactly when that base is unknown |
| IceExact.RefusedIff | src/nano_ice.c:178-235 | an authenticated request is refused, and then changes nothing, exactly when its pair finds no room in the table or the candidate list, or it nominates on an unknown local candidate or across families |
| IceExact.RequestTaken | src/nano_ice.c:178-235 | any other request makes its source known, takes one entry for its pair, selects the pair if it had answered and is nominated, and otherwise puts a fresh check behind those queued, unless one was triggered already |
| IceExact.AcceptedIff | src/nano_ice.c:376-428 | a response is accepted exactly when its transaction is in flight and it took the same path back, from the address asked to the socket that asked; otherwise it changes nothing |
| IceExact.ResponseTaken | src/nano_ice.c:416-446 | an accepted response ends its transaction, names the reflexive local candidate that the mapped address identifies, and before connection selects a nominated pair or marks it answered, which a controlling agent queues for nomination |
| IceActs.ActsIff | src/nano_ice.c:493-575 | something is due now exactly when nothing is left to try, or an entry has run out, or pacing is over and an allowed pair is queued, due for retransmission, or new to a table with an unused entry |
| IceActs.GivesUpIff | src/nano_ice.c:493-600 | the agent fails exactly when there is no candidate and none to come, or all checks are used up and none is queued or in flight |
| IceActs.TransmitExact | src/nano_ice.c:577-631 | every request sent is for an allowed pair from the entry that is due, repeats its transaction or starts the random one, counts towards the limit when it is new, and carries USE-CANDIDATE exactly for a nomination of the controlling agent |
| IceActs.DropExact | src/nano_ice.c:577-600 | a service that sends nothing though something was due drops one entry that ran out, and the queue behind it moves up in order |
| IceActs.Spaced | src/nano_ice.c:577-631 | after a request no other is sent for 50 ms, whatever arrives in between |
| IceSchedule.QueueIsPermutation | src/nano_ice.c:109-129 | distinct positions below the count are exactly 0..k-1 |
| IceSchedule.FirstComeFirstServed | src/nano_ice.c:493-575 | once pacing allows, the ready queued check that waited longest goes first |
| IceSchedule.DueRetransmission | src/nano_ice.c:475-482 | a due retransmission belongs to an entry with at most three earlier ones |
| IceSchedule.WakesIff | src/nano_ice.c:493-575 | an announced wait ends with an action due exactly when the pacing deadline has then passed or an entry has run out |
| IceClock.WakesInTime | src/nano_ice.c:493-631 | over every run under a clock that never goes back, an announced wait ends with an action due, as long as no transaction was in flight for a whole turn of the clock |
| IceLate.WaitEndsWithoutAction | src/nano_ice.c:493-575 | a run of twelve steps after which 400 ms are announced and nothing is due when they are over |
| IceAgent.IceObject.QueueCheck | src/nano_ice.c:109-117 | puts an entry at the end of the queue |
| IceAgent.IceObject.UnqueueCheck | src/nano_ice.c:119-129 | takes an entry out and closes the gap |
| IceAgent.IceObject.SelectPair | src/nano_ice.c:151-173 | selects a pair with its socket and peer address |
| IceAgent.IceObject.TriggerCheck | src/nano_ice.c:178-233 | the triggered check of an authenticated request leaves the specified table |
| IceAgent.IceObject.HandleResponse | src/nano_ice.c:376-446 | an authenticated response leaves the specified table, pair and state |
| IceAgent.IceObject.HandleError | src/nano_ice.c:263-472 | an error response frees its transaction's entry |
| IceAgent.IceObject.NextCheck | src/nano_ice.c:493-575 | the wait and the action of the schedule |
| IceAgent.IceObject.Send | src/nano_ice.c:577-631 | carries out a check |
| IceAgent.IceObject.Generate | src/nano_ice.c:633-643 | one timer service |
| IceAgent.IceObject.Renew | src/nano_ice.c:649-677 | a new generation keeps the role and the local candidates only |
| FecTheorem.OneLossIsRepaired | src/nano_fec.c:94-183 | losing any one packet of a protected group, it is rebuilt byte for byte from the others, in any order and mixed with others |
| FecTheorem.BodyOfOne | src/nano_fec.c:36-92 | the FEC packet of one packet alone, byte by byte: recovery fields, base, lengths, mask and payload at their places |
| FecTheorem.OtherLossesAreNoData | src/nano_fec.c:94-183 | with none or more than one missing the result is no data |
| FecTheorem.ProtectableIff | src/nano_fec.c:24-51 | a group is accepted exactly when its sequence numbers span less than 16, and the base is then the earliest |
| FecTheorem.BaseIsEarliest | src/nano_fec.c:24-34 | the base found is the earliest number of a group within half the number space |
| FecCodec.FindBase | src/nano_fec.c:24-34 | the loop over the group finds that base |
| FecCodec.EncodeFec | src/nano_fec.c:36-92 | writes the specified FEC packet, or leaves the buffer alone |
| FecCodec.RecoverFec | src/nano_fec.c:94-183 | rebuilds the specified packet in the buffer, or reports the specified failure |
| AnnexB.UnitsOfStream | src/nano_annex_b.c:13-65 | scanning a stream of well-formed units, with start codes of either length, finds exactly these units |
| AnnexB.AllUnits | src/nano_annex_b.c:13-65 | repeated scanning of any buffer finds the specified units |
| AnnexB.FindNalUnit | src/nano_annex_b.c:13-65 | one scan |
| H264.ReassemblesIff | src/nano_h264.c:18-105 | pushing the payloads of a unit returns it, whatever was in progress, exactly when it fits the reassembly buffer |
| H264.StapGivesFirst | src/nano_h264.c:182-225 | pushing an aggregation packet returns its first unit, or refuses it when it does not fit the reassembly buffer; the other units are lost |
| H264.StartAndEnd | src/nano_h264.c:55-105 | the start flag is on the first fragment only, the end flag on the last only, and these differ |
| H264.FragmentsFit | src/nano_h264.c:55-105 | every payload is non-empty and fits the MTU |
| H264.FragmentIter.Next | src/nano_h264.c:55-105 | the iterator returns the next payload of the unit |
| H264.Depacketizer.PushPayload | src/nano_h264.c:149-284 | the depacketizer's state, unit and status are the specified ones |
| RtpPacket.PackUnpack | src/nano_rtp.c:24-162 | unpacking a packed packet gives sequence number, timestamp, SSRC, payload type and payload back |
| RtpPacket.ExtensionBytes | src/nano_rtp.c:44-75 | with an extension id the packet carries the one-byte-header profile, one word, the id and size, and the transport-wide number at bytes 12 to 19 |
| RtpPacket.Sender.Pack | src/nano_rtp.c:24-87 | writes the packet and advances the counters, or changes nothing |
| VideoFrame.FrameRoundTrip | src/nano_rtc_media.c:939-973 | scanning, fragmenting, RTP and depacketizing an access unit gives exactly its units that fit the reassembly buffer, in order |
| VideoFrame.FrameMarked | src/nano_rtc_media.c:591-673 | every packet fits the MTU and exactly the last one is marked |
| VideoFrame.WorstIsExact | src/nano_rtc_media.c:790-820 | for H.264 the admission count is the number of packets sent, for every input |
| VideoFrame.CountPackets | src/nano_rtc_media.c:790-820 | computes the admission count |
| VideoFrame.SendFrame | src/nano_rtc_media.c:939-973 | sends the specified packets of a buffer |
| VideoBuffer.PieceBetween | src/nano_annex_b.c:13-65 | what one scan of any buffer finds: the bytes between two start codes with the zero bytes at their end taken off, or the tail of a buffer without a start code |
| VideoBuffer.BufferWholeIff | src/nano_rtc_media.c:939-973 | for every buffer: the pieces before the first empty one come out of the receiver, those that fit its reassembly buffer, and the last packet, and no other, is marked exactly when no piece is empty |
| VideoBuffer.TrailingCode | src/nano_rtc_media.c:939-973 | a unit, a start code and a zero byte: one packet, not marked |
| H265Theorem.PackingIsLossless | src/nano_h265.c:52-288 | packing any list of units loses and reorders nothing, every payload fits, every aggregate holds two units or more, exactly the last payload is marked |
| H265Theorem.RefusedIff | src/nano_h265.c:221-288 | an access unit is refused exactly when a unit has no full header |
| H265Theorem.WorstIsBound | src/nano_rtc_media.c:790-820 | the admission count bounds the packets, and is exact exactly when no two neighbours fit one aggregate |
| H265Theorem.FrameCompleteIff | src/nano_rtc_media.c:737-778 | of a frame the receiver gets everything exactly when it has at most 16 units |
| H265Theorem.SeventeenthIsLost | src/nano_rtc_media.c:737-778 | of seventeen units the receiver gets the first sixteen |
| H265.ApHeaderIsLeast | src/nano_h265.c:151-219 | the aggregate header has the least layer and temporal id, and the forbidden bit when a unit has it |
| H265Depkt.CompleteIff | src/nano_h265.c:318-477 | this receiver gets every unit exactly when no two neighbours share an aggregate and each fits the buffer |
| H265Depkt.SecondUnitIsLost | src/nano_h265.c:413-464 | the second of two small units is not received |
| H265Depkt.Depacketizer.PushPayload | src/nano_h265.c:318-477 | the depacketizer's state, unit and status are the specified ones |
| H265Pack.PacketizeAu | src/nano_h265.c:221-288 | the loops over units, runs and fragments send the specified payloads |
| H265Pack.EmitAp | src/nano_h265.c:151-219 | writes one aggregate |
| H265Pack.EmitFu | src/nano_h265.c:52-123 | fragments one unit |
| H265Pack.AdmissionIsSound | src/nano_rtc_media.c:790-820 | what is sent of any buffer never exceeds the count that admitted it |
| ReorderSpec.RunFromFirst | src/nano_reorder.c:30-128 | in every run numbers strictly increase, a skip is flagged exactly where it is, and each packet is one pushed under its number |
| ReorderSpec.RunKeeps | src/nano_reorder.c:30-70 | a packet in the window stays until it is released, or until one a window ahead arrives |
| ReorderSpec.TimeoutIsExact | src/nano_reorder.c:130-160 | with no further packet, a pop succeeds at the reported time and not before |
| ReorderSpec.TimeoutZeroIff | src/nano_reorder.c:130-160 | the timeout is 0 exactly when a pop succeeds now |
| ReorderRun.SlotsRefineWindow | src/nano_reorder.c:30-128 | over every run of the 16-bit slots in which no uncleared slot is more than 2^16-8 behind the window, the results are those of the specification's run |
| ReorderRun.FromFirstPacket | src/nano_reorder.c:30-128 | from the first packet on such a run has increasing numbers, exact loss flags and genuine packets |
| ReorderRun.OldPacketReturns | src/nano_reorder.c:30-128 | a run of seven calls past that bound: the slots hand out, as number 65538, the packet stored as number 2 |
| Reorder.ArriveRefinesIff | src/nano_reorder.c:30-70 | storing refines the specification exactly when the packet is late or no old packet lies in the new part of the window |
| Reorder.AnswerRefinesIff | src/nano_reorder.c:94-128 | releasing does exactly when no old packet lies where the window moves to |
| Reorder.Buffer.constructor | src/nano_reorder.c:18-23 | an empty buffer |
| Reorder.Buffer.PushPacket | src/nano_reorder.c:30-70 | a packet leaves the specified slots, window and status |
| Reorder.Buffer.PopPacket | src/nano_reorder.c:94-128 | a pop leaves and returns what is specified |
| Reorder.Buffer.NextTimeout | src/nano_reorder.c:130-160 | computes the least time left of a packet ahead |
| AddrText.V4Iff | src/nano_addr.c:27-57 | the parser accepts exactly four decimal octets up to 255 with dots between, an empty octet standing for 0 |
| AddrText.V4RoundTrip | src/nano_addr.c:59-113 | parsing the text of an IPv4 address gives it back |
| AddrText.FormatV4Is | src/nano_addr.c:59-113 | the text of an IPv4 address is four octets with dots between, none empty and none with a leading zero |
| AddrText.DotsAreAnAddress | src/nano_addr.c:37-56 | three dots alone are accepted as 0.0.0.0 |
| AddrV6.V6Iff | src/nano_addr.c:138-279 | the parser accepts exactly the spellings with eight groups, or up to eight around one double colon, the last two groups dotted or not, with their meaning |
| AddrFormat.TextIsRead | src/nano_addr.c:281-380 | parsing the text of an IPv6 address gives its groups back |
| AddrFormat.EmitIsText | src/nano_addr.c:343-371 | writing group by group gives the canonical text |
| AddrFormat.FirstLongestIsUnique | src/nano_addr.c:295-331 | there is one first longest run of two or more zero groups |
| AddrCodec.ParseIpv4 | src/nano_addr.c:27-57 | the loop parses as specified |
| AddrCodec.FormatIpv4 | src/nano_addr.c:59-113 | the buffer holds the text and its end, or is too small |
| AddrCodec.FindRun | src/nano_addr.c:295-331 | the scan finds the first longest run |
| AddrCodec.FormatIpv6 | src/nano_addr.c:281-380 | the buffer holds the canonical text and its end, or is too small |
| AddrCodec.ParseIpv6 | src/nano_addr.c:138-279 | the loop parses as specified; the output is zero when it fails |
| AddrCodec.ParseAny | src/nano_addr.c:388-417 | the family follows from a colon in the text |
| AddrCodec.V4Comes | src/nano_addr.c:388-434 | formatting and parsing an IPv4 address gives family and bytes back |
| AddrCodec.V6Comes | src/nano_addr.c:388-434 | so does formatting and parsing any IPv6 address |
| AddrCodec.GapOfNothing | src/nano_addr.c:225-248 | eight groups and a double colon are accepted |

## Findings

What the model shows the code to do where its comments or the standards promise something else. Each
row names the lemma at one input and the theorem that says, for all inputs, exactly when.

| behaviour | source | at this input | exactly when |
|---|---|---|---|
| An acknowledged message is never delivered: a middle fragment sits in a lower descriptor than the front, absorbs its successor, and cannot be absorbed any more. The stream stops there. Two fragments that change places are enough. | src/nano_sctp.c:805-835 | SctpStuckRun.StuckRun, from the start of an association | SctpMergeOrder.MergeCompletesIff, for every stored DATA chunk by SctpFront.DataDecides; in every reachable state by SctpFront.FrontOrStuck; for good by SctpFront.CollectedOrNeverDelivered and SctpStuck.NothingBehindStuck |
| A FORWARD TSN advances the cumulative TSN over held fragments without merging them; they keep their descriptors until the next stored DATA chunk. | src/nano_sctp.c:1111-1148 | SctpFront.ForwardLeavesPair | SctpFront.ForwardSettledIff |
| Merging onto an empty first fragment keeps that fragment's old offset, and the joined descriptor names other bytes. | src/nano_sctp.c:820-831 | SctpMoves.EmptyFirstExample | SctpMoves.MergeJoinsIff |
| A gap block offset is cut to 16 bits, and a SACK acknowledges a TSN that never came. | src/nano_sctp.c:348-365 | SctpSack.SackTruncationExample | SctpSack.SackGenuineIff; between two such endpoints never, by SctpTheorems.SacksAreGenuine |
| A slot that the window jumped over still holds its packet after a whole turn of sequence numbers, and the packet is handed out under a number it never had. | src/nano_reorder.c:43-60 | ReorderRun.OldPacketReturns | Reorder.ArriveRefinesIff and Reorder.AnswerRefinesIff for one call, ReorderRun.SlotsRefineWindow for runs |
| An H.264 buffer with an empty unit, such as a start code and a zero byte at its end, is sent up to that unit without a marked packet. | src/nano_rtc_media.c:939-973 | VideoBuffer.TrailingCode | VideoBuffer.BufferWholeIff |
| The H.265 sender collects at most 16 units of a frame; the rest is dropped, and the marker goes on the last unit collected. | src/nano_rtc_media.c:746-758 | H265Theorem.SeventeenthIsLost | H265Theorem.FrameCompleteIff |
| The H.265 receiver returns the first unit of an aggregate only, so what this sender aggregates does not come out at this receiver. | src/nano_h265.c:413-464 | H265Depkt.SecondUnitIsLost | H265Depkt.CompleteIff |
| An admitted H.265 frame with a unit shorter than its header goes out in part: the packets before that unit are committed, then the call fails. | src/nano_rtc_media.c:737-778 | VideoSend.PartlyCommitted | VideoSend.CommittedWholeIff |
| An announced wait for a connectivity check ends and nothing is due: the last pacing deadline has grown older than half a turn of the clock and reads as a future one. It takes a transaction that stays in flight for a whole turn. | src/nano_ice.c:507-575 | IceLate.WaitEndsWithoutAction | IceSchedule.WakesIff; not on runs in which no transaction gets that old, by IceClock.WakesInTime |
| Three dots are an IPv4 address: an empty octet stands for 0. | src/nano_addr.c:36-56 | AddrText.DotsAreAnAddress | AddrText.V4Iff |
| A double colon next to eight groups is accepted, although it stands for no group. | src/nano_addr.c:225-248 | AddrCodec.GapOfNothing | AddrV6.V6Iff |

## Left out

- SctpTheorems.SacksAreGenuine: one direction of data; the other direction's stream table is shared in the program, and here only registers streams on both sides.
- SctpWindow.TsnsAgree: TSNs and stream sequence numbers are lifted to integers; past half the number space behind the sender the program's comparisons differ, and no result is claimed there.
- SctpTheorems.LeadingChunkIsStored: the stream must be in the receiver's table, which holds eight; with a full table the program answers a new stream with a protocol error.
- SctpPool.Pool.HandleData: a pool holds no empty fragment that is not a last one; what merging does with one is MergeJoinsIff.
- FecCodec.EncodeFec: members of at least four bytes, since the program reads each sequence number before it checks pointers and lengths.
- FecTheorem.OneLossIsRepaired: version 2 packets of one SSRC without duplicates in the receive list.
- IceClock.WakesInTime: needs that no transaction was in flight for a whole turn of the clock; IceLate shows why.
- VideoFrame.FrameRoundTrip: units without an inner start code and with a last byte that is not zero, as Annex B demands of an encoder; VideoBuffer is about any other buffer.
- H264.Depacketizer.PushPayload: of an aggregation packet only the first unit is returned, as in the program.
- That every message eventually arrives is not claimed; held out-of-order data can block a later fragment, and a stuck message blocks its stream.
- SCTP handshake, cookies, heartbeats, shutdown, chunk bundling and the byte layout of chunks; the model starts from an established association and exchanges chunk values.
- Null pointers, and buffers of the caller too small for a chunk or a STUN message.
- RtcFec.FecSender.Commit: the group size of a packet is a parameter, at most eight; how it follows the measured loss is not modelled, nor are frame budgets other than none and enough.
- RtcPacer.Drain: a ring slot of length zero, which the program skips; every fragment that is committed is a packet with a header.
- The search for a packet by sequence number when a NACK arrives; the ring slot is given.
- STUN attributes, message integrity and credentials; consent freshness; candidate gathering during checks; the lazy encoding of TURN frames at output.
- The jitter buffer: a late packet within one ring length can replace a buffered one, so ordering and completeness do not hold for it.
- SDP, candidate strings, DTLS, SRTP, RTCP layouts, bandwidth estimation, rate control, DCEP, Base64, logging, statistics.
