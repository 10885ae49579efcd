# usque-rs: a verified model of the tunnel manager

usque-rs is a userspace WARP client. Its tunnel manager is one event loop that shares lock-free rings,
coalesced notifications and bounded queues with other tasks; around it stands a little wire-format code.
This project models that core in Dafny and proves what it is relied on for: no byte and no packet is
lost, repeated or reordered under any interleaving, no notification is swallowed, every shortcut the
manager keeps agrees with the scan it replaces, every DNS request is answered exactly once, and the
parsers, checksums and reassembly do what their formats say.

`dafny verify dfyconfig.toml` checks everything.

## How it is laid out

| files | what they model |
|---|---|
| RingIndex, RingBuffer | `TcpRingBuffer` as one thread sees it, a class over a byte array |
| RingSpec, Spsc | the same ring shared by a producer and a consumer, cut at every atomic load, copied byte and store, and refined to a plain bounded queue |
| SocketStream | the client's polls and the manager's fill and flush loops as imperative code over two rings, each call one step |
| BytePath, BytePathRaces, StreamLaws, RingUse | the same calls cut into steps and interleaved: client task and manager over two queues |
| EventFlags, WriteWakeups | the coalesced read, write and close events, and when a write goes unnoticed |
| PacketPath, PacketLoops | outgoing packets from the device to the datagram flow: as interleaved steps, and as the loops of the source |
| Varint, Capsules, ControlStream | QUIC varints (section 16 of RFC 9000), ADDRESS_ASSIGN and ROUTE_ADVERTISEMENT (sections 4.7.1 and 4.7.3 of RFC 9484), and the capsule stream (section 3.2 of RFC 9297) |
| Checksum, IpPackets | one's-complement checksums (RFC 1071), hop limits, and ICMP Packet Too Big (RFC 792, section 3.2 of RFC 4443) |
| ReadyQueue, FlowIndex, Runtime | the books `RuntimeState` keeps about TCP sockets |
| Waiters | callers of `WaitSocketReady` |
| DnsCache, DnsGroups, DnsResolver | the DNS cache, and paired A and AAAA queries |
| Fragments | SOCKS5 UDP reassembly (section 7 of RFC 1928) |
| Racing | address order and connection racing (sections 4 and 5 of RFC 8305) |

## Assumptions

- Memory is sequentially consistent; for a one-producer one-consumer ring the Acquire/Release pairs of the
  source give that.
- smoltcp, tokio channels, QUIC, the clock and the random generator are oracles, given as parameters or as
  nondeterministic steps: `tcp_send` and `tcp_recv` report at most the slice length, a channel is a bounded
  sequence.
- A socket handle that the stack hands out is not in use. A TCP command or event never names a UDP socket.
  In a race, handles are distinct for the whole run.
- A DNS group number is not in use when it is given out (the 32-bit counter would have to wrap within the
  five seconds a group lives), and one worker uses the transaction id counter.
- For the FIN claims, no Closed event of an earlier stream reaches a socket whose handle was reused, so a
  close is asked for only by a drop of the stream or by a Close command that names its handle. Such a command
  may be left over from an earlier socket with the same handle.
- The device queue holds at least one packet (`inject_packet` would not end otherwise), and `usize` has
  64 bits.

## Results that differ from a first reading

- FIN can pass an accepted byte: `BytePathRaces.EarlyCloseCanLoseBytes` is a run. It does so exactly when a
  Close command caught a `poll_write` past its load of `write_shutdown` and that write published after the
  FIN check began; FIN passes exactly those bytes (`BytePath.EveryRunConserves`,
  `BytePath.FinPassesExactly`). Every `close` in src/net/proxy/socks5/tcp.rs names a stream that nobody is
  writing, so it takes a Close command left over from an earlier socket with the same handle.
- A write can go unnoticed: `was_empty` is sampled before the bytes are published.
  `WriteWakeups.WakeupCanBeLost` is a run that ends at rest with a byte nobody will look at.
  `WriteWakeups.LostIffBlindlyPublished` is the exact condition over every run, and when `poll_write` is one
  step nothing is lost (`WriteWakeups.OneStepWritesLoseNothing`).
- `poll_read` can report the end of the stream while bytes are in the ring
  (`BytePathRaces.EofCanOvertakeData`); `BytePath.EofLeavesWhatCameSince` says exactly which bytes.
- The IPv4 checksum covers 20 bytes, so a header with options verifies exactly when the options sum to a
  multiple of 0xffff (`IpPackets.HeaderVerifiesExactly`, `IpPackets.OptionsCanFail`).
- That live flows are distinct now does not make the flow index complete
  (`FlowIndex.DistinctNowIsNotEnough`): after a collision and a close a live socket is missed.
  `FlowIndex.ExactUnlessLastWasClose` is the exact condition over every run.
- `prefer_ipv6` never decides which address a single resolve returns: results arrive one at a time and the
  first with records wins (`DnsResolver.DnsState.ProcessResponse`). It decides the error that is reported.
- `dns_queries.retain` at the end of `try_resolve_dns_group`, and both `retain` calls for a handle that is
  not live in `close_connection`, never remove anything.
- A datagram fed after a leftover that was not complete comes out whole if and only if the leftover's
  highest number is not 1 or its first payload is the new one (`Fragments.ComesOutWholeExactly`): a lone stale
  fragment 1 is kept in place of the new one.

## Model

| member | source | states |
|---|---|---|
| `RingIndex.AdvanceIsCell` | src/net/tunnel/manager/buffer.rs:66-67 | the modulo by which positions advance is one wrap around the end |
| `RingIndex.DropFront` | src/net/tunnel/manager/buffer.rs:122-133 | moving the read position removes exactly a prefix of the contents |
| `RingIndex.PushBack` | src/net/tunnel/manager/buffer.rs:47-69 | moving the write position over copied bytes appends exactly those bytes |
| `RingBuffer.TcpRingBuffer.constructor` | src/net/tunnel/manager/buffer.rs:14-22 | a new ring is empty and has at least two cells |
| `RingBuffer.TcpRingBuffer.Len` | src/net/tunnel/manager/buffer.rs:24-32 | the number of bytes held |
| `RingBuffer.TcpRingBuffer.RemainingCapacity` | src/net/tunnel/manager/buffer.rs:43-45 | room and contents make capacity minus one; the subtraction never underflows |
| `RingBuffer.TcpRingBuffer.EnqueueSlice` | src/net/tunnel/manager/buffer.rs:47-69 | as much of the slice as fits is appended to the byte queue, and the count is returned |
| `RingBuffer.TcpRingBuffer.PeekCopy` | src/net/tunnel/manager/buffer.rs:95-120 | the front of the queue is copied, the queue and the rest of the destination stay |
| `RingBuffer.TcpRingBuffer.Consume` | src/net/tunnel/manager/buffer.rs:122-133 | up to that many bytes leave the front |
| `RingBuffer.TcpRingBuffer.DequeueSlice` | src/net/tunnel/manager/buffer.rs:71-93 | the front of the queue is copied out and removed |
| `RingSpec.StepInv` | src/net/tunnel/manager/buffer.rs:24-133 | the plain queue the ring stands for: taken then held is published, room seen earlier is still there |
| `RingSpec.EnqueueAlone` | src/net/tunnel/manager/buffer.rs:47-69 | a call that nothing interrupts appends as much as fits with one cell free, and returns that count |
| `RingSpec.TakeAlone` | src/net/tunnel/manager/buffer.rs:71-93 | a call that nothing interrupts gives and removes the oldest bytes, as many as are held and wanted |
| `RingSpec.PeekAlone` | src/net/tunnel/manager/buffer.rs:95-120 | it gives them and removes none |
| `RingSpec.DropAlone` | src/net/tunnel/manager/buffer.rs:122-133 | it removes them and gives none |
| `RingSpec.LenAlone` | src/net/tunnel/manager/buffer.rs:24-32 | it answers with the number of bytes held |
| `Spsc.StepInv` | src/net/tunnel/manager/buffer.rs:24-133 | every load, copied byte and store of either side keeps the invariant |
| `Spsc.StepRefines` | src/net/tunnel/manager/buffer.rs:24-133 | every micro-step is one step of the plain queue or none, in every interleaving |
| `Spsc.RunRefines` | src/net/tunnel/manager/buffer.rs:24-133 | every run of micro-steps is a run of the plain queue, by its effects in order, ending in the queue the ring stands for |
| `Spsc.EveryInterleavingIsSafe` | src/net/tunnel/manager/buffer.rs:24-133 | over all runs: consumed then held is published, a write in progress touches no cell the consumer may read, computed room is never negative nor too large, and the bytes a take copied are those that leave the ring |
| `Spsc.NeverStuck` | src/net/tunnel/manager/buffer.rs:24-133 | whatever the other side did, each side's next step is defined |
| `SocketStream.Stream.PollRead` | src/net/tunnel/manager/stream.rs:147-182 | as one step: bytes come in order, end of stream only on an empty closed ring, freed space is announced |
| `SocketStream.Stream.PollWrite` | src/net/tunnel/manager/stream.rs:186-219 | as one step: a non-empty prefix is accepted, or the pipe is broken or the ring full; bytes entering an empty ring are announced (interleaved: the WriteWakeups rows) |
| `SocketStream.Stream.PollFlush` | src/net/tunnel/manager/stream.rs:221-233 | flushed exactly when the ring is empty, otherwise the manager is told |
| `SocketStream.Stream.PollShutdown` | src/net/tunnel/manager/stream.rs:235-249 | the write half closes exactly when everything accepted has left the ring, and the first time it is announced |
| `SocketStream.Stream.FillRecvBuffer` | src/net/tunnel/manager/phases.rs:610-650 | every byte taken from the stack enters the ring, the saturated branch is never taken, the loop stops only when it must |
| `SocketStream.Stream.FlushPendingToStack` | src/net/tunnel/manager/phases.rs:652-683 | bytes handed over then bytes held are the bytes that were there; the loop stops only when it must |
| `BytePath.StepInv` | src/net/tunnel/manager/stream.rs:129-249 | every step of client, manager and rings keeps the invariant |
| `BytePath.EveryRunConserves` | src/net/tunnel/manager/phases.rs:552-683 | over all runs: handed to the stack then held is what poll_write accepted, delivered then held is what tcp_recv gave, the saturated branch is unreachable, end of stream is reported only on a closed stream, FIN at most once and after all accepted bytes unless a Close caught a write in flight, and then it passes only what that write published since the FIN check began |
| `BytePath.FlushDoneKeeps` | src/net/tunnel/manager/stream.rs:221-233 | when poll_flush answers, everything accepted has been handed to the stack |
| `BytePath.FinPassesWhatCameSince` | src/net/tunnel/manager/phases.rs:552-559 | at the FIN step the bytes handed over are those published when the check began, and those left behind are the ones published since |
| `BytePath.FinPassesExactly` | src/net/tunnel/manager/phases.rs:552-559 | over every run: FIN passed a byte if and only if something was published after its check began, and that is a prefix of the write that a Close caught |
| `RingUse.StepsAreRingSteps` | src/net/tunnel/manager/phases.rs:610-683 | every step of client and manager moves each ring by at most two steps of the plain queue |
| `RingUse.RingsRun` | src/net/tunnel/manager/stream.rs:147-249 | in every run what each ring went through is a run of the plain queue, which the byte-level ring refines |
| `BytePath.EofLeavesWhatCameSince` | src/net/tunnel/manager/stream.rs:154-167 | end of stream leaves exactly the bytes published since the second emptiness test |
| `StreamLaws.EofExactly` | src/net/tunnel/manager/stream.rs:154-167 | a read that found the ring empty twice reports the end exactly when the flag it then loads is set |
| `StreamLaws.OnlyReadsEnd` | src/net/tunnel/manager/stream.rs:147-182 | no other step reports it |
| `StreamLaws.NoWriteAfterClose` | src/net/tunnel/manager/stream.rs:193-205 | over every run: once the write half is closed and no write is under way, nothing more is accepted or published |
| `StreamLaws.ShutdownComesAfterFlush` | src/net/tunnel/manager/stream.rs:235-249 | poll_shutdown closes the write half only after everything accepted was handed to the stack |
| `StreamLaws.NoFillAfterCloseRequest` | src/net/tunnel/manager/phases.rs:610-620 | over every run: once a close was asked for, no more bytes are taken from the stack |
| `StreamLaws.EveryEndIsMarked` | src/net/tunnel/manager/stream.rs:129-144 | over every run: a dropped stream and a removed socket have set the three flags the other side waits for |
| `BytePathRaces.EarlyCloseCanLoseBytes` | src/net/tunnel/manager/phases.rs:552-559 | a run in which FIN passes an accepted byte after a Close caught a write in flight |
| `BytePathRaces.EofCanOvertakeData` | src/net/tunnel/manager/stream.rs:154-167 | a run in which end of stream is reported before a byte |
| `EventFlags.StepInv` | src/net/tunnel/manager/stream.rs:43-98 | every step of notifiers, event handling and sweeps keeps the link between flag, event and ready queue |
| `EventFlags.NoNotificationIsSwallowed` | src/net/tunnel/manager/phases.rs:432-482 | over all runs: a set flag means the event is on its way, pending with the handle ready, or being serviced; freed space is always followed by a fill or an outstanding read event; bytes written to an empty ring by a look at it, unless the writer had seen it non-empty |
| `EventFlags.QuietMeansServiced` | src/net/tunnel/manager/stream.rs:176-180 | when nothing is under way, every live socket may notify again and was filled since its client last read |
| `WriteWakeups.LostExactly` | src/net/tunnel/manager/stream.rs:213-217 | a step loses the wake-up of a live socket if and only if it publishes into an empty ring that its poll_write had sampled non-empty, with nothing else coming |
| `WriteWakeups.LostIffBlindlyPublished` | src/net/tunnel/manager/stream.rs:213-217 | over every run: bytes wait with no look certain to come if and only if such a publish put them there and nothing came since |
| `WriteWakeups.OneStepWritesLoseNothing` | src/net/tunnel/manager/stream.rs:186-219 | in every run where poll_write is one step no wake-up is lost |
| `WriteWakeups.QuietMeansFlushedOrLost` | src/net/tunnel/manager/phases.rs:432-482 | at rest the rings nobody looked at since they filled are exactly those whose writer had seen them non-empty, and exactly the lost ones |
| `WriteWakeups.WakeupCanBeLost` | src/net/tunnel/manager/stream.rs:213-217 | a run that ends at rest with a byte in the ring that nobody will look at |
| `PacketPath.StepOrder` | src/net/tunnel/manager/masque_io.rs:71-303 | every step of stack, manager and worker keeps the line of packets |
| `PacketPath.EveryRunKeepsOrder` | src/net/tunnel/manager/transport.rs:423-483 | over all runs: disposed, backlog, channel, in hand and tx queue are what the stack emitted, in order; the tx queue and the channel never exceed their capacities and a drain never its budget or batch size; no token drops |
| `PacketPath.RequeueRestores` | src/net/tunnel/manager/transport.rs:462-476 | putting a refused batch back restores the tx queue exactly |
| `PacketPath.StepCount` | src/net/tunnel/manager/masque_io.rs:244-286 | every step keeps `queued_packets` in balance |
| `PacketPath.EveryRunCounts` | src/net/tunnel/manager/masque_io.rs:244-303 | over all runs the counter modulo 2^64 is the channel less sent-not-added plus received-not-subtracted |
| `PacketPath.CounterIsExactAtRest` | src/net/tunnel/manager/masque_io.rs:244-303 | it is exact whenever neither side is mid-operation |
| `PacketPath.NothingLostWhileOpen` | src/net/tunnel/manager/masque_io.rs:71-303 | no packet is left behind in the channel before the worker lets go of it |
| `PacketLoops.VirtualDevice.InjectPacketOwned` | src/net/tunnel/stack.rs:221-229 | the newest packets that fit stay, the new one last; every evicted one is counted |
| `PacketLoops.VirtualDevice.TakePacket` | src/net/tunnel/stack.rs:231-233 | the front of the tx queue, if any |
| `PacketLoops.VirtualDevice.RequeueBatch` | src/net/tunnel/manager/transport.rs:464-476 | a batch put back last packet first is in its old order |
| `PacketLoops.Drain.Collect` | src/net/tunnel/manager/transport.rs:438-457 | one batch: the front of the queue, as long as size, budget and supply allow |
| `PacketLoops.Drain.Refuse` | src/net/tunnel/manager/transport.rs:464-480 | the batch is back, and a full channel starts a pause of 2^(streak-1) ms with the streak capped at 6 |
| `PacketLoops.BackoffDoubles` | src/net/tunnel/manager/transport.rs:466-471 | the pause is a power of two, from 1 ms doubling to 32 ms |
| `PacketLoops.BatchesAreAsLargeAsAllowed` | src/net/tunnel/manager/transport.rs:436 | a batch is never empty and as large as batch size and budget allow |
| `PacketLoops.Drain.DrainStackPackets` | src/net/tunnel/manager/transport.rs:423-483 | moved packets are a prefix of the queue in full batches, at most the budget; it stops early only at a refusal, which restores the queue; streak and pause follow refusals since the last success |
| `PacketLoops.SendWorker.DrainSendChannelRound` | src/net/tunnel/manager/masque_io.rs:288-303 | whole batches move in order until the limit or an empty channel; the counter falls by what moved |
| `PacketLoops.SendWorker.SendDatagram` | src/net/tunnel/masque.rs:245-307 | which packets are sent, dropped, refused or failed; a frame is context id 0 and the packet with its hop count lowered; too big exactly when it could leave but does not fit, and then the reply is a Packet Too Big message about it |
| `PacketLoops.SendWorker.FlushSendBacklog` | src/net/tunnel/manager/masque_io.rs:305-376 | packets leave the front in order, the flow gets exactly the frames of those taken, the manager a Packet Too Big message for each too big one in order, at most one packet waits, a refused one goes back, and a round always disposes of at least one |
| `PacketLoops.FateExactly` | src/net/tunnel/masque.rs:245-284 | a packet leaves exactly when it passes and its frame, one byte longer, is within the limit; the frame is a zero byte and the packet as it passed |
| `PacketLoops.WireIsWhatWasTaken` | src/net/tunnel/manager/masque_io.rs:317-375 | the frames of a round are those of exactly the packets the flow took, in their order |
| `PacketLoops.EveryPacketCounted` | src/net/tunnel/manager/masque_io.rs:317-375 | every packet done was taken, failed, was too big or vanished |
| `PacketLoops.FailuresCounted` | src/net/tunnel/manager/masque_io.rs:364-372 | the packets not counted as sent are exactly those the flow failed |
| `PacketLoops.WaitsCounted` | src/net/tunnel/manager/masque_io.rs:319-321 | the packets that waited are exactly those the flow took after a wait |
| `Varint.DecodeIsNumber` | src/net/tunnel/masque.rs:463-498 | the value is the big-endian number under the two length bits, the length 1, 2, 4 or 8 |
| `Varint.DecodesExactly` | src/net/tunnel/masque.rs:463-498 | which buffers decode: 1, 2, 4 or 8 bytes by the two high bits must be there, and nothing is asked of the value |
| `Varint.RfcExamples` | src/net/tunnel/masque.rs:463-498 | the examples of section A.1 of RFC 9000 |
| `Varint.DecodePrefix` | src/net/tunnel/masque.rs:463-502 | decoding looks at its own bytes only |
| `Varint.RoundTrip` | src/net/tunnel/masque.rs:451-502 | decoding any encoded value below 2^62 before any tail gives it and its length |
| `Varint.ShortestIsEncoded` | src/net/tunnel/masque.rs:797-810 | a shortest varint is the encoding of its value |
| `Capsules.TakeAddress` | src/net/tunnel/masque.rs:504-557 | one entry is read within bounds and the offset grows, or the error of the source |
| `Capsules.TakeRoute` | src/net/tunnel/masque.rs:559-626 | one route is read within bounds and the offset grows, or the error of the source |
| `Capsules.ParsePayload` | src/net/tunnel/masque.rs:504-626 | the loop computes the entry grammar over the whole payload |
| `Capsules.ParseOfEncoded` | src/net/tunnel/masque.rs:504-626 | parsing encoded entries gives them back in order |
| `Capsules.EncodedOfParse` | src/net/tunnel/masque.rs:504-626 | an accepted payload is the concatenation of its entries |
| `Capsules.AcceptsExactlyTheGrammar` | src/net/tunnel/masque.rs:504-626 | accepted exactly when the payload is a concatenation of well-formed entries |
| `Capsules.CutAddress` | src/net/tunnel/masque.rs:504-557 | an assigned prefix that is cut short is rejected for the part that is missing |
| `Capsules.CutRoute` | src/net/tunnel/masque.rs:559-626 | so is a route |
| `Capsules.OtherVersions` | src/net/tunnel/masque.rs:504-626 | a version byte other than 4 and 6 is reported, whatever follows |
| `ControlStream.MasqueControlState.ProcessCapsule` | src/net/tunnel/masque.rs:400-427 | computes what the four rows from AddressesAreAppended on say of each type and payload |
| `ControlStream.MasqueControlState.ProcessControlChunk` | src/net/tunnel/masque.rs:340-377 | the loop feeds a chunk to the stream parser, and a partial capsule at the end is an error |
| `ControlStream.DrainTwice` | src/net/tunnel/masque.rs:340-371 | draining, then adding bytes and draining, is draining them all |
| `ControlStream.FeedAllIsOne` | src/net/tunnel/masque.rs:340-377 | any chunks are one chunk |
| `ControlStream.ChunkingInvariant` | src/net/tunnel/masque.rs:340-427 | two ways to cut a stream give the same addresses, routes, verdict and accepted tail |
| `ControlStream.NoOverflow` | src/net/tunnel/masque.rs:354-359 | a frame length never overflows 64 bits |
| `ControlStream.NeverOverflows` | src/net/tunnel/masque.rs:354-359 | whatever chunks arrive, and at the end of the stream, the overflow error is never reported |
| `ControlStream.CapsuleIsHandled` | src/net/tunnel/masque.rs:812-819 | an encoded capsule is handled and leaves nothing behind |
| `ControlStream.AddressesAreAppended` | src/net/tunnel/masque.rs:400-408 | a type 1 capsule of well-formed entries appends exactly these to the assigned addresses |
| `ControlStream.RoutesAreAppended` | src/net/tunnel/masque.rs:409-416 | a type 3 capsule of well-formed entries appends exactly these to the routes |
| `ControlStream.OthersAreSkipped` | src/net/tunnel/masque.rs:417-427 | any other type changes nothing |
| `ControlStream.BadPayloadsEndTheStream` | src/net/tunnel/masque.rs:400-427 | a payload outside the grammar is an error, and addresses and routes stay |
| `ControlStream.CutCapsule` | src/net/tunnel/masque.rs:340-377 | a capsule cut short stays in the buffer, and is an error exactly if the stream ends inside it |
| `ControlStream.AssignsIpv4` | src/net/tunnel/masque.rs:821-848 | the bytes of the address capsule of the wire tests assign that prefix |
| `ControlStream.RoutesIpv6` | src/net/tunnel/masque.rs:559-626 | the bytes of an IPv6 route capsule advertise that range |
| `Checksum.FoldSum` | src/net/tunnel/masque.rs:706-711 | the fold loop ends and computes the carry fold |
| `Checksum.AddWords` | src/net/tunnel/masque.rs:933-950 | the word sum, an odd byte counting as the high byte; the 32-bit sum cannot overflow |
| `Checksum.Calculate` | src/net/tunnel/masque.rs:933-954 | the complement of the folded sum |
| `Checksum.CalculateIcmpv6` | src/net/tunnel/masque.rs:956-995 | the same over pseudo-header and message |
| `Checksum.FoldModulo` | src/net/tunnel/masque.rs:706-711 | folding keeps the sum modulo 0xffff |
| `Checksum.VerifiesExactly` | src/net/tunnel/masque.rs:689-712 | a receiver accepts exactly the non-zero sums divisible by 0xffff |
| `Checksum.ComplementVerifies` | src/net/tunnel/masque.rs:689-712 | adding the complement makes a sum verify |
| `Checksum.StoredVerifies` | src/net/tunnel/masque.rs:689-712 | storing the checksum in its zeroed field makes the data verify |
| `Checksum.SumOfPieces` | src/net/tunnel/masque.rs:956-995 | the sum of concatenated even pieces is the sum of their sums |
| `Checksum.PseudoIsHeader` | src/net/tunnel/masque.rs:956-985 | the pseudo-header sum is that of its bytes as they are laid out |
| `Checksum.OddBytePadded` | src/net/tunnel/masque.rs:940-944 | a last single byte counts as if a zero byte followed |
| `Checksum.RfcExample` | src/net/tunnel/masque.rs:933-954 | the example of section 3 of RFC 1071 |
| `IpPackets.ProcessOutgoing` | src/net/tunnel/masque.rs:642-686 | which packets pass, by length, version and hop count, and what they become; a dropped one is unchanged |
| `IpPackets.PassesExactly` | src/net/tunnel/masque.rs:642-686 | exactly the packets with a complete header of version 4 or 6 and at least two hops left pass |
| `IpPackets.OutgoingChangesOnlyHopAndChecksum` | src/net/tunnel/masque.rs:642-686 | the hop count falls by one and stays positive, and only it and the IPv4 checksum bytes change |
| `IpPackets.FixedHeaderVerifies` | src/net/tunnel/masque.rs:662-664 | the first 20 bytes of a passed IPv4 packet verify |
| `IpPackets.HeaderVerifiesExactly` | src/net/tunnel/masque.rs:642-712 | the whole header verifies exactly when the options sum to a multiple of 0xffff, so always with IHL 5 |
| `IpPackets.OptionsCanFail` | src/net/tunnel/masque.rs:662-664 | a packet with options whose header does not verify |
| `IpPackets.Icmpv4TooBigIsOne` | src/net/tunnel/masque.rs:731-791 | the composed bytes are an ICMPv4 message to the sender whose both checksums verify |
| `IpPackets.Icmpv6TooBigIsOne` | src/net/tunnel/masque.rs:870-930 | the composed bytes are an ICMPv6 message of at most 1280 bytes whose checksum verifies with the pseudo-header |
| `IpPackets.ComposeIcmpv4` | src/net/tunnel/masque.rs:731-791 | the in-place composition gives such a message exactly for packets with a full header |
| `IpPackets.ComposeIcmpv6` | src/net/tunnel/masque.rs:870-930 | the in-place composition gives such a message exactly for packets with a full header |
| `IpPackets.ComposeTooBig` | src/net/tunnel/masque.rs:716-728 | which packets get a reply, and of which version |
| `ReadyQueue.StepKeepsDistinct` | src/net/tunnel/manager.rs:569-573 | no step makes a handle wait twice |
| `ReadyQueue.ArrivalsWait` | src/net/tunnel/manager.rs:569-573 | a handle that arrives waits behind those before it |
| `ReadyQueue.SweepsTakeABudget` | src/net/tunnel/manager/phases.rs:442-457 | a targeted sweep takes at least one and at most its budget, all if it can, from the front |
| `ReadyQueue.TakenInTime` | src/net/tunnel/manager/phases.rs:438-457 | position p is serviced or dropped by the (p / max(1, budget) + 1)-th following sweep, whatever is enqueued |
| `FlowIndex.StepSound` | src/net/tunnel/manager/commands.rs:201-223 | opening and ending sockets keep every entry on a live socket of its flow |
| `FlowIndex.EveryRunIsSound` | src/net/tunnel/manager/phases.rs:563-575 | so in every run, collisions included |
| `FlowIndex.ExactUnlessLastWasClose` | src/net/tunnel/manager/phases.rs:14-32 | over every run, the lookup of a flow disagrees with the scan exactly when a live socket has it and its last event was a close |
| `FlowIndex.NoCollisionRunsAreExact` | src/net/tunnel/manager/phases.rs:14-32 | without colliding opens, lookup and scan agree and name the same one socket |
| `FlowIndex.ClosingOneHidesTheOther` | src/net/tunnel/manager/phases.rs:573-575 | with two sockets on one flow, ending one hides the other |
| `FlowIndex.DistinctNowIsNotEnough` | src/net/tunnel/manager/phases.rs:573-575 | a run that ends with distinct live flows and a socket the lookup misses |
| `Runtime.SyncPollInterestCounters` | src/net/tunnel/manager.rs:605-642 | three flags follow what is seen, and each counter with its flag, never below zero |
| `Runtime.SyncConnectingCounters` | src/net/tunnel/manager.rs:674-688 | the connecting flag and its counter move together |
| `Runtime.RemovePollInterestCounters` | src/net/tunnel/manager.rs:644-672 | a removed socket leaves every count it was in, and no counter underflows |
| `Runtime.TotalsWithout` | src/net/tunnel/manager.rs:644-672 | the scan of the remaining sockets is the scan less the flags of the removed one |
| `Runtime.TotalsReplaced` | src/net/tunnel/manager.rs:605-642 | the scan after changing one socket differs by that socket's flags only |
| `Runtime.Service` | src/net/tunnel/manager/phases.rs:466-559 | what a sweep does with one socket, field by field: events taken; close and shutdown asked for as before or by the client; FIN newly sent exactly when the close is asked for, it was not sent, nothing is buffered and the stack may send; flags as last seen; the counters of other sockets untouched |
| `Runtime.SweptIs` | src/net/tunnel/manager/phases.rs:459-604 | exactly the taken inactive sockets are gone, the other taken ones serviced so, the rest untouched |
| `Runtime.RuntimeState.constructor` | src/net/tunnel/manager.rs:511-551 | empty books are exact |
| `Runtime.RuntimeState.HasPollWork` | src/net/tunnel/manager.rs:553-567 | the counters answer as a scan of the sockets would |
| `Runtime.RuntimeState.EnqueueReady` | src/net/tunnel/manager.rs:569-573 | a handle joins the queue once; queue and set hold the same handles |
| `Runtime.RuntimeState.MarkReady` | src/net/tunnel/manager.rs:575-580 | events are added to a live socket, the handle is ready, the books stay exact |
| `Runtime.RuntimeState.NoteIncomingTcp` | src/net/tunnel/manager/phases.rs:38-42 | a known flow makes a live socket of that flow ready for reading and writing |
| `Runtime.RuntimeState.RemoveSocket` | src/net/tunnel/manager/phases.rs:563-575 | counters and index lose the socket and stay exact |
| `Runtime.RuntimeState.CreateConnection` | src/net/tunnel/manager/commands.rs:169-230 | overload and stack error change nothing; a new socket is counted as connecting, listed and indexed |
| `Runtime.RuntimeState.CloseConnection` | src/net/tunnel/manager/commands.rs:232-255 | a live socket is asked to close and counted so; for another handle the lists are already without it |
| `Runtime.RuntimeState.HandleSocketEvent` | src/net/tunnel/manager/phases.rs:193-203 | the event is pending, a close asked for, the counters follow, the handle is ready |
| `Runtime.RuntimeState.TakeReady` | src/net/tunnel/manager/phases.rs:442-457 | a targeted sweep takes its budget, at least one, from the front of queue and set |
| `Runtime.RuntimeState.PollTcpSockets` | src/net/tunnel/manager/phases.rs:432-604 | exactly the taken sockets are serviced, field by field as for Service, or, when inactive, gone from every book; a full sweep takes every socket; all books are exact afterwards |
| `Waiters.Manager.WaitSocketReady` | src/net/tunnel/manager/commands.rs:82-94 | a caller is told at once unless the socket is connecting, and then waits on it |
| `Waiters.Manager.CloseConnection` | src/net/tunnel/manager/commands.rs:232-248 | all callers waiting on the socket are told Closed |
| `Waiters.Manager.RemoveSocket` | src/net/tunnel/manager/phases.rs:590-595 | all callers still waiting on a socket that ends are told Closed |
| `Waiters.Manager.NotifyReadyWaiters` | src/net/tunnel/manager/phases.rs:205-238 | callers on every socket that is no longer connecting are told what was seen, the others wait on |
| `Waiters.AnsweredOnceGone` | src/net/tunnel/manager/phases.rs:205-238 | a caller is answered or waits on a live socket, never both, never told Connecting, and has its answer once the socket is gone |
| `Waiters.ToldExactly` | src/net/tunnel/manager/commands.rs:257-276 | when a caller is told established, closed or made to wait |
| `DnsCache.CountFamilies` | src/net/tunnel/manager/dns_cache.rs:35-46 | the first pass counts the live addresses of each family |
| `DnsCache.Find` | src/net/tunnel/manager/dns_cache.rs:66-79 | the second pass finds the address at the index, for every index in range |
| `DnsCache.Cache.Get` | src/net/tunnel/manager/dns_cache.rs:27-82 | empty exactly when get-all is; otherwise a live address, of the preferred family if one is alive |
| `DnsCache.Cache.GetAll` | src/net/tunnel/manager/dns_cache.rs:85-101 | the loop keeps the live addresses in order: an address is returned exactly when an unexpired entry has it, and nothing when all have expired |
| `DnsCache.Cache.Insert` | src/net/tunnel/manager/dns_cache.rs:103-114 | from then on the name's addresses at t are those with insertion time plus TTL after t; other names are untouched |
| `DnsCache.UntilReplaced` | src/net/tunnel/manager/dns_cache.rs:85-114 | over any later changes of other names, get-all at t is exactly the unexpired records of the answer, in order |
| `DnsCache.OnlyInserted` | src/net/tunnel/manager/dns_cache.rs:85-114 | over any history, what a name yields is the unexpired part of its last inserted answer |
| `DnsCache.FreshMembers` | src/net/tunnel/manager/dns_cache.rs:103-114 | an address is still returned exactly while a record of it has a TTL that reaches past the time |
| `DnsGroups.RecordResult` | src/net/tunnel/manager/phases.rs:271-284 | recording a result keeps every request tied to its group, remembered and its answer borne out |
| `DnsGroups.CompleteGroup` | src/net/tunnel/manager/dns_ops.rs:257-299 | a complete group answers its open request with a reply its two results bear out, and goes |
| `DnsGroups.FirstRecordsWin` | src/net/tunnel/manager/dns_ops.rs:205-255 | a single resolve is decided by the first result with records, whichever family is preferred |
| `DnsGroups.ResultOrOneId` | src/net/tunnel/manager/dns_ops.rs:71-147 | each family of each live group has exactly one of a result and an outstanding id, no query has two ids, every id names a live group |
| `DnsGroups.AnsweredByRemoval` | src/net/tunnel/manager/dns_ops.rs:194-300 | a request whose group is gone has its answer, borne out by what was heard: the first record of a heard result, all records v4 then v6, an error only when both families failed and by the stated precedence, or a timeout when a family is missing |
| `DnsGroups.PrecedenceTable` | src/net/tunnel/manager/dns_ops.rs:217-221 | which error is reported for each pair of results |
| `DnsGroups.AllReplyNamesEveryRecord` | src/net/tunnel/manager/dns_ops.rs:258-296 | a resolve-all names every record of both families in order, v4 first; a failed family takes nothing from the other |
| `DnsGroups.CacheHoldsBothFamilies` | src/net/tunnel/manager/dns_ops.rs:258-270 | the name then yields the unexpired records of both families, v4 first, and other names are untouched |
| `DnsGroups.CacheHoldsOneFamily` | src/net/tunnel/manager/dns_ops.rs:258-270 | so with the records of the one family that has them |
| `DnsGroups.CacheStays` | src/net/tunnel/manager/dns_ops.rs:266-270 | without records, or before both results, the cache stays |
| `DnsGroups.AnsweredExactlyOnce` | src/net/tunnel/manager/dns_ops.rs:194-300 | a request whose group is gone was sent a reply, no request is ever sent two, and each reply sent is borne out |
| `DnsGroups.ResponderIsUnused` | src/net/tunnel/manager/dns_ops.rs:247-254 | a responder that a live group still holds was never used |
| `DnsGroups.UnusedIffRoom` | src/net/tunnel/manager/dns_ops.rs:62-68 | an id is unused exactly when fewer than 65536 are outstanding |
| `DnsResolver.DnsState.BuildUniqueDnsQuery` | src/net/tunnel/manager/dns_ops.rs:57-69 | a valid name gets an unused id exactly when fewer than 65536 are outstanding, because the wrapping counter visits all |
| `DnsResolver.DnsState.Record` | src/net/tunnel/manager/dns_ops.rs:27-44 | the result of one family is set and heard, everything else stays |
| `DnsResolver.DnsState.TryResolve` | src/net/tunnel/manager/dns_ops.rs:194-300 | afterwards no waiting single resolve has records and no live group has both results; past answers stay; the cache gains the records, v4 first; no query is taken out |
| `DnsResolver.DnsState.Dispatch` | src/net/tunnel/manager/dns_ops.rs:71-114 | the query is outstanding under an unused id exactly when it could be encoded, numbered and sent; otherwise the error of the first of these that failed is heard, and the group goes once it has both results |
| `DnsResolver.DnsState.Start` | src/net/tunnel/manager/dns_ops.rs:116-192 | each family of a new request is outstanding or has the error it met, the group is live exactly while one is outstanding, with its name and the time it began, and other groups stay |
| `DnsResolver.DnsState.ProcessResponse` | src/net/tunnel/manager/phases.rs:264-287 | an unknown id changes nothing; a known one is free again, its result heard, and records answer a waiting single resolve |
| `DnsResolver.DnsState.ExpireGroups` | src/net/tunnel/manager/phases.rs:371-407 | exactly the groups older than five seconds go, exactly with their queries, and only timeouts are answered |
| `Fragments.FragBuffer.Insert` | src/net/proxy/socks5.rs:206-254 | data comes back exactly when fragments 1 to e since the last reset are all there and e is marked last: the first payload of each number, in order |
| `Fragments.FragBuffer.Reset` | src/net/proxy/socks5.rs:199-204 | the buffer is as new |
| `Fragments.EveryHistoryLeavesARun` | src/net/proxy/socks5.rs:206-236 | in every history numbers never fall since the last reset, and a marked end is the highest number |
| `Fragments.FirstIsEarliest` | src/net/proxy/socks5.rs:222-224 | the kept payload of a number is the earliest since the reset |
| `Fragments.EndIsMarked` | src/net/proxy/socks5.rs:230-232 | the end is known exactly when some fragment since the reset was marked |
| `Fragments.RoundTrip` | src/net/proxy/socks5/udp.rs:115-132 | a datagram cut into in-range fragments and fed in order to a fresh buffer comes out at the last one, not before |
| `Fragments.LeftoverIsDropped` | src/net/proxy/socks5.rs:211-219 | any leftover whose highest number is not 1 does not matter |
| `Fragments.StaleFirstIsKept` | src/net/proxy/socks5.rs:217-224 | a lone leftover fragment 1 takes the place of the new one, for datagrams of any number of pieces |
| `Fragments.ComesOutWholeExactly` | src/net/proxy/socks5.rs:206-254 | after an incomplete leftover a datagram comes out whole if and only if the leftover's highest number is not 1 or its first payload is the new one |
| `Racing.InterleaveAddresses` | src/net/proxy/socks5.rs:139-176 | a permutation that alternates families, v6 first, while both last, and keeps the order in each |
| `Racing.InterleavedAlternates` | src/net/proxy/socks5.rs:165-175 | even places are v6 and odd ones v4 while both last |
| `Racing.InterleavedFamilies` | src/net/proxy/socks5.rs:165-175 | each family keeps its order |
| `Racing.Race.Attempt` | src/net/proxy/socks5/tcp.rs:277-305 | the next address is tried; a started connection is pending with its report to come and the last error stays, a refusal is the last error and nothing is pending anew |
| `Racing.Race.Report` | src/net/proxy/socks5/tcp.rs:246-274 | the winner stands alone with all others closed; a closed one is dropped, closed and the last error; a connecting one changes nothing but its report |
| `Racing.Race.TakeTurn` | src/net/proxy/socks5/tcp.rs:232-307 | a timer tries the next address while there is one; otherwise the picked report is taken, and established ends the race |
| `Racing.StartedByMembers` | src/net/proxy/socks5/tcp.rs:277-296 | the started connections are those of the attempts that succeeded, and no other |
| `Racing.Race.Run` | src/net/proxy/socks5/tcp.rs:128-308 | for every order of timers and reports: addresses in order at most once; a winner was told established by the last turn taken and every other started connection is closed once; otherwise no turn told established, and a loss means all tried and all closed, with the error of the last attempt refused or told closed; only a turn that told Connecting leaves it hanging |
| `Racing.EndsUnlessConnecting` | src/net/proxy/socks5/tcp.rs:273-275 | if no turn tells Connecting a race ends in a win or a loss |
| `Racing.AllRefusedIsLost` | src/net/proxy/socks5/tcp.rs:234-239 | if every attempt is refused with one error the race is lost with that error |
| `Racing.LastErrorHasACause` | src/net/proxy/socks5/tcp.rs:258-304 | the reported error is that of a refused attempt or of a connection told closed, and nothing failed after it |

## Left out

- Racing.Race.Run: a timeout that cancels the race inside `start_connection` or between a `pending.remove` and its close is not modelled, only one between two events.
- Runtime.RuntimeState.NoteIncomingTcp: the flow key of an incoming packet is given; parsing the IP and TCP headers is smoltcp's.
- smoltcp, quiche, tokio, gotatun, hickory and fast-socks5 themselves, and the WireGuard path.
- Wakers: that a woken task runs again is the executor's promise.
- Half-close: `write_shutdown` alone never leads to FIN in the source either.
- Conservation of reserved TCP slots, and isolation of stale handles after slot reuse: the source does not promise them.
- UDP sessions; `udp_ports` may hold a port twice.
- `select_dns_server`, `GetSocketState` and the cached answers of the resolve commands, easy members on top of what is here.
- ADDRESS_ASSIGN entries keep their request id in the model; the source parses it and drops it, and formats addresses as text, which is not modelled.
- Validity checks of RFC 9484 that the parser does not make (prefix length range, route order).
- Perf counters, logging, buffer pools, jitter, environment tunables, configuration, registration and the command line.
