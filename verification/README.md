# Verified model of the lwIP core and its OCaml binding

This project models the deterministic core of the lwIP TCP/IP stack, in its default
single-threaded, little-endian configuration, and the receive queue of the OCaml binding on top of
it. It proves what the protocol parts keep over every run and what the data parts compute.

Each component has a specification on mathematical values (positions in sequence space as unbounded
integers, the heap as a list of blocks, checksums as weighed sums) with lemmas about it, and
methods and classes in the form of the C code (16- and 32-bit fields that wrap, arrays, queues
relinked in loops) whose contracts tie every new state to the specification. Run the whole
project with `dafny verify dfyconfig.toml`.

| component | files |
|---|---|
| TCP receive side, window announcement, OCaml binding | `SeqNum`, `TcpReorder`, `TcpReceive`, `TcpDelivery`, `TcpWindow`, `TcpInput`, `LwipStubs` |
| TCP send side | `TcpTransmit`, `TcpQueues`, `TcpSendRuns`, `TcpProgress`, `TcpOutput` |
| round-trip time estimator | `Rtt` |
| heap | `HeapBlocks`, `HeapBytes`, `Heap` |
| pbuf chains | `PbufChains`, `PbufHeap`, `PbufCopy` |
| Internet checksum | `OnesSum`, `Checksum`, `ChecksumUpdate` |
| IP fragmentation and reassembly | `IpFrag`, `IpReass`, `Reassembly` |
| ARP table | `ArpTable`, `Etharp` |
| timeout list | `Timeouts` |
| SLIP framing | `Slip` |
| machine words, optional results, bytes of a buffer chain | `Basics` |

## Where a plausible claim is false

The model keeps what the code does. These properties fail in some family of inputs; each has a
witness lemma and the exact condition under which it holds.

- Taking over an in-order segment whole fails when it covers one queued segment fully and the next
  in part, because lwip/src/core/tcp_in.c:1210 takes the cut position from the queue head it has
  just freed. The model reads the sequence number that head had. `TcpDelivery.InOrderReach` is the
  equivalence, `TcpDelivery.StaleHeadWitness` an instance.
- The free window stays non-negative, and the queue inside the window, exactly unless a segment
  reaching beyond the window is queued out of order (`TcpDelivery.KeptIff`,
  `TcpDelivery.OverrunWitness`): lwip/src/core/tcp_in.c:1301-1403 trims nothing at the right edge.
- "Only what was acknowledged is freed, and every position from lastack to snd_lbb stays queued" fails
  for an ACK 2^31 behind the end of the first unsent segment if that was never sent in full: the
  wrapped test of lwip/src/core/tcp_in.c:980-981 passes and the whole unsent queue is thrown away.
  `TcpSendRuns.AckOk`, `TcpSendRuns.RunOk` and `TcpOutput.Pcb.AckSegments` say that the send invariant
  is kept exactly otherwise, for every acknowledgement number; `TcpSendRuns.StaleAckWitness` is a run
  that loses a byte.
- The bytes an ACK acknowledges are reported to the application, except that nothing is when the ACK
  covers 65536 positions at once, a full buffer of 65535 bytes and the FIN (`TcpSendRuns.ReportedIs`).
- A FIN that arrives out of order is remembered, except when its data are already queued without it
  (`TcpWindow.InsertFin` is the equivalence, `TcpWindow.FinForgotten` the family of cases).
- After a retransmission timeout the position waited for, lastack, is resent first, exactly unless a
  fast retransmit already put its segment on `unsent` and that still waits there
  (`TcpProgress.TimeoutFirst`; `TcpProgress.TidyRun` gives the runs this speaks of).
- `snd_buf` is 0xffff after a FIN was queued on a full buffer (`TcpSendRuns.BufExact`,
  `TcpSendRuns.FinOnFullBuffer`).
- A reassembled datagram may have a hole: linking a fragment between two others does not check that
  it abuts the one before (`IpReass.WholeIff`, `IpReass.Reassembles`, `IpReass.HoleWitness`). With
  two different cuts of one datagram, a last fragment thrown away as a duplicate still closes the
  datagram (`IpReass.RefusedLastWitness`).
- An echo reply verifies unless all other bytes of the message are zero; a forwarded header
  unless its TTL was 0 (`ChecksumUpdate.EchoReply`, `ChecksumUpdate.ForwardHeader`,
  `ChecksumUpdate.ZeroEchoWitness`).
- SLIP frames behind noise are intact exactly unless the noise ends in a bare ESC, for a first packet
  of up to 1500 bytes (`Slip.ResyncIff`, which gives the exact condition for longer ones too). Then
  the rest of the noise, an END byte and the first packet are handed up as one packet, and the others
  are intact (`Slip.EscBeforeFrame`).

## Where the code and its comments disagree

The model follows the code.

- lwip/src/netif/etharp.c:456-457 says that without ETHARP_TRY_HARD only existing entries are
  updated; find_entry also takes an empty entry then (`Etharp.Found`).
- lwip/src/netif/etharp.c:1009-1016 notes that the result is ERR_MEM when a packet cannot be queued;
  it is what sending the ARP request returned (`Etharp.ArpCache.Query`).
- lwip/src/core/pbuf.c:866 promises ERR_MEM from pbuf_take for a chain that is too small; the code
  returns ERR_ARG (`PbufCopy.Take`).
- lwip/src/core/tcp_in.c:974-979 expects the loop over `unsent` to free segments that were sent once;
  it also frees ones never sent (`TcpQueues.RequeuedTest`).
- lwip/src/netif/slipif.c:63 names 1500 as the maximal size; 1501 bytes are kept
  (`Slip.ReceivedSame`).

## Model

| member | source | states |
|---|---|---|
| SeqNum.Compare | lwip/src/include/lwip/tcp.h:152-160 | the signed 32-bit tests on wrapped numbers order positions less than 2^31 apart exactly as the integers do |
| TcpReorder.InsertOk | lwip/src/core/tcp_in.c:1301-1403 | queueing any out-of-order segment of the stream keeps the queue increasing, disjoint, above rcv_nxt and inside the window, with a FIN only at its end |
| TcpReorder.InsertHolds | lwip/src/core/tcp_in.c:1317-1403 | every position of the new segment is held afterwards, and none held before is lost but the tail of a queued segment that straddles the new one |
| TcpReorder.OverlapOk | lwip/src/core/tcp_in.c:1164-1219 | removing what the queue has of an in-order segment leaves a piece of the stream and a queue above it |
| TcpReorder.DrainOk | lwip/src/core/tcp_in.c:1254-1290 | draining delivers exactly the stream from rcv_nxt to the first gap, with the FIN exactly when the end is reached |
| TcpReorder.QueueOrder | lwip/src/core/tcp_in.c:1305-1315 | what the recursive queue invariant means: strictly ordered, pairwise disjoint, above the lower bound, FIN last |
| TcpReceive.AnnounceOk | lwip/src/core/tcp.c:408-427 | the announced window never exceeds the free one, never pulls back an edge already announced, and is less than a full segment or half the window short of the free one if it is not all of it |
| TcpReceive.RecvedOk | lwip/src/core/tcp.c:438-456 | giving back window keeps queue, rcv_nxt and announced edge |
| TcpReceive.InOrderOk | lwip/src/core/tcp_in.c:1137-1290 | an in-order segment, in or beyond the window, delivers exactly the stream between the old and the new rcv_nxt and moves the window by as much |
| TcpReceive.ReceiveOk | lwip/src/core/tcp_in.c:1069-1403 | one arriving segment, in any position, overrunning the window or not unless it is queued out of order: data and FIN handed up are exactly what rcv_nxt moved over, and all receive invariants are kept |
| TcpDelivery.InputOk | lib/lwip_stubs.c:202-240 | the binding queues all data handed up; none is trashed while the peer keeps to its stream |
| TcpDelivery.ReadOk | lib/lwip_stubs.c:381-411 | a read returns everything queued once and credits each byte once |
| TcpDelivery.StepOk | lwip/src/core/tcp_in.c:1135-1403 | arrivals, sends, reads and queue expiry keep the connection invariant and never move the announced edge left |
| TcpDelivery.RunOk | lib/lwip_stubs.c:381-411 | in every state of every run: bytes read and queued are the stream up to rcv_nxt, and free window, queued bytes and consumed FIN add up to TCP_WND |
| TcpDelivery.RunSafe | lwip/src/core/tcp_out.c:72-78 | for every run: what the application read is a prefix of the peer's stream, all of it after FIN; the right edges put on the wire never move left nor promise more than the window; the out-of-order queue is ordered and disjoint |
| TcpDelivery.EdgeRun | lwip/src/core/tcp_in.c:1135-1403 | in every run of a peer that keeps to the announced edge, rcv_nxt and everything queued stay within that edge |
| TcpDelivery.InOrderReach | lwip/src/core/tcp_in.c:1202-1219 | an in-order segment within the window is taken over to its end if and only if it does not cover one queued segment fully and the next in part |
| TcpDelivery.StaleHeadWitness | lwip/src/core/tcp_in.c:1210 | a state and segment where rcv_nxt stops short of the segment's end |
| TcpDelivery.KeptIff | lwip/src/core/tcp_in.c:1262-1267 | the receive invariant survives a segment if and only if it is not queued out of order while reaching beyond the window and unknown |
| TcpDelivery.OverrunWitness | lwip/src/core/tcp_in.c:1263-1265 | a segment beyond the window, once queued, makes the free window negative |
| TcpWindow.ReceiveAnswers | lwip/src/core/tcp_in.c:1296-1408 | a segment is answered by an ACK at once, when memory is found, if and only if it occupies sequence space and does not bring the next byte into an open window |
| TcpWindow.ReceiveAdvances | lwip/src/core/tcp_in.c:1135-1290 | rcv_nxt moves on in exactly the other case |
| TcpWindow.ReceiveHolds | lwip/src/core/tcp_in.c:1301-1403 | an out-of-order segment is held in full when memory is found, with its FIN unless its data were queued without |
| TcpWindow.InsertFin | lwip/src/core/tcp_in.c:1317-1403 | a queued FIN stays queued, and exactly when a new one is |
| TcpWindow.FinForgotten | lwip/src/core/tcp_in.c:1318-1344 | a FIN repeated with data already queued is dropped |
| TcpWindow.WindowReopens | lwip/src/core/tcp.c:408-456 | in every state of every run the window offered is all of the free one, or short of it by less than half of TCP_WND and less than a segment; with nothing left to read nearly all of TCP_WND is offered |
| TcpWindow.EdgesStepwise | lwip/src/core/tcp.c:412-427 | the right edges put on the wire move by half the window or a full segment at least, or not at all, in every run with a peer that keeps to them (section 4.2.3.3 of RFC 1122) |
| TcpWindow.EdgeDue | lwip/src/core/tcp.c:412-427 | with any peer the same, except when a closed window is announced after data beyond the edge |
| TcpInput.OosInsertSegment | lwip/src/core/tcp_in.c:744-775 | the loop over the queue, on wrapped sequence numbers, merges a segment as specified |
| TcpInput.QueueSegment | lwip/src/core/tcp_in.c:1317-1403 | the walk along ooseq, on wrapped numbers, inserts as specified |
| TcpInput.RemoveOverlap | lwip/src/core/tcp_in.c:1164-1219 | the overlap removal, on wrapped numbers, computes the specified piece and queue |
| TcpInput.TrimFrontEdge | lwip/src/core/tcp_in.c:1069-1121 | data below rcv_nxt is cut off exactly when the segment straddles it |
| TcpInput.Pcb.constructor | lwip/src/core/tcp.c:1037-1038 | the receive variables a new connection starts with |
| TcpInput.Pcb.UpdateRcvAnnWnd | lwip/src/core/tcp.c:408-427 | the 32-bit computation announces as specified, at most a step short of the free window |
| TcpInput.Pcb.AnnounceWindow | lwip/src/core/tcp_out.c:72-78 | acknowledgement number and window of an outgoing segment, and the edge they announce |
| TcpInput.Pcb.Recved | lwip/src/core/tcp.c:438-456 | tcp_recved on 16-bit fields, capped at TCP_WND |
| TcpInput.Pcb.DrainQueue | lwip/src/core/tcp_in.c:1254-1290 | the drain loop, updating the announced window at each segment, equals the specified drain |
| TcpInput.Pcb.Receive | lwip/src/core/tcp_in.c:1069-1415 | tcp_receive on 16- and 32-bit fields gives the state, data, FIN and ACK of the specification, also for segments cut at the right edge of the window |
| LwipStubs.PbufListLength | lib/lwip_stubs.c:110-120 | the loop over the list adds up all queued bytes |
| LwipStubs.TcpWrap.RecvCb | lib/lwip_stubs.c:202-240 | the receive callback on data |
| LwipStubs.TcpWrap.Input | lib/lwip_stubs.c:202-240 | segment processing followed by the callbacks keeps the connection invariant |
| LwipStubs.TcpWrap.Serve | lib/lwip_stubs.c:202-411 | any sequence of arrivals, sends, reads and expiries, run on the fields, is the run of the specification as long as the peer keeps to the announced edge; what was read is an initial part of the stream, all of it after the FIN |
| LwipStubs.TcpWrap.Read | lib/lwip_stubs.c:381-411 | the returned string is all queued bytes, appended to what was read before, and the window is credited |
| LwipStubs.TcpWrap.ReadLen | lib/lwip_stubs.c:414-426 | queued bytes if there are any, else -1 when closing and 0 otherwise |
| TcpQueues.NewSegsTile | lwip/src/core/tcp_out.c:216-331 | the segments built from new data cover each of its positions exactly once |
| TcpQueues.RequeuedTest | lwip/src/core/tcp_in.c:979-983 | exactly when the wrapped test on a segment of `unsent` holds, for an ACK anywhere in sequence space |
| TcpQueues.InsertSortedSorted | lwip/src/core/tcp_out.c:616-634 | inserting into unacked by sequence number keeps it sorted |
| TcpSendRuns.EnqueueOk | lwip/src/core/tcp_out.c:155-437 | tcp_enqueue keeps the send invariant with the new data added to the log of what was accepted |
| TcpSendRuns.OutputOk | lwip/src/core/tcp_out.c:518-646 | tcp_output keeps it for any window, segment size and permission to send small segments, and stops only when nothing is left, the next segment does not fit, or one small segment is held back behind unacknowledged data |
| TcpSendRuns.RexmitOk | lwip/src/core/tcp_out.c:815-881 | requeueing one or all unacknowledged segments keeps it, and they are on `unsent` afterwards |
| TcpSendRuns.AckOk | lwip/src/core/tcp_in.c:848-1002 | ACK processing keeps it if and only if the ACK is not 2^31 behind the end of a first unsent segment never sent in full |
| TcpSendRuns.AckAnyOk | lwip/src/core/tcp_in.c:848-1002 | the same for every 32-bit acknowledgement number |
| TcpSendRuns.FreedAcked | lwip/src/core/tcp_in.c:932-996 | segments are freed from the heads of the queues; all of them are acknowledged in full if and only if the ACK is no such one, which frees all of `unsent` |
| TcpSendRuns.StaleUncovered | lwip/src/core/tcp_in.c:979-1002 | after such an ACK no queued segment carries anything from snd_nxt on |
| TcpSendRuns.StaleAckWitness | lwip/src/core/tcp_in.c:979-1002 | a run from a fresh pcb that enqueues one byte and loses it to an ACK before it was sent |
| TcpSendRuns.ReportedIs | lwip/src/core/tcp_in.c:900-994 | what is reported as acknowledged is everything newly acknowledged but a FIN, or nothing for a full 65536 positions |
| TcpSendRuns.SynAckedIsAck | lwip/src/core/tcp_in.c:582-603 | the special case of a SYN acknowledged in SYN_SENT is an ACK of one position |
| TcpSendRuns.RunOk | lwip/src/core/tcp_out.c:155-881 | in a run of enqueue, output, fast retransmit, timeout and ACK steps with any acknowledgement numbers, the send invariant holds in every state if and only if no ACK threw away what was never sent |
| TcpSendRuns.CarriedOnce | lwip/src/core/tcp_out.c:578-646 | each position in [lastack, snd_lbb) is carried by exactly one queued segment, with the byte, SYN or FIN the application gave for it |
| TcpSendRuns.BufExact | lwip/src/core/tcp_out.c:400-408 | snd_buf is TCP_SND_BUF minus the bytes outstanding, or 0xffff in the one case of a FIN on a full buffer |
| TcpSendRuns.FinOnFullBuffer | lwip/src/core/tcp_out.c:400-408 | that case occurs in a state that meets the send invariant |
| TcpProgress.OutputSends | lwip/src/core/tcp_out.c:578-640 | tcp_output sends the longest initial part of unsent whose segments fit the window and are full, followed by more, sent with nothing outstanding, or allowed to go small; nothing else |
| TcpProgress.OutputStops | lwip/src/core/tcp_out.c:578-594 | why it stops |
| TcpProgress.IdleSends | lwip/src/include/lwip/tcp.h:136-148 | with nothing outstanding a segment that fits goes at once |
| TcpProgress.RexmitMoves | lwip/src/core/tcp_out.c:850-881 | fast retransmit takes the lowest segment off unacked, and puts it on unsent behind what starts lower; all else keeps its place |
| TcpProgress.RexmitAllMoves | lwip/src/core/tcp_out.c:815-846 | a timeout empties unacked, in order, to the front of unsent, which then carries everything outstanding |
| TcpProgress.TimeoutFirst | lwip/src/core/tcp_out.c:815-846 | after a timeout tcp_output sends the lowest unacknowledged segment first; it carries lastack if and only if that is not waiting on unsent already |
| TcpProgress.TidyRun | lwip/src/core/tcp_out.c:155-881 | in every run without a stale ACK and without a timeout crossing a waiting fast retransmit, unsent is sorted and nothing queued is already acknowledged |
| TcpProgress.EnqueueAccepts | lwip/src/core/tcp_out.c:166-330 | exactly when tcp_enqueue accepts |
| TcpProgress.NewSegsFull | lwip/src/core/tcp_out.c:216-331 | all new segments but the last are full, and how many pbufs they take |
| TcpProgress.EnqueueMerges | lwip/src/core/tcp_out.c:334-392 | data that fit one segment together with the last unsent one join it |
| TcpOutput.InsertInOrder | lwip/src/core/tcp_out.c:863-874 | the walk of tcp_rexmit along unsent, on wrapped numbers, is sorted insertion |
| TcpOutput.CountAcked | lwip/src/core/tcp_in.c:932-962 | the loop frees the fully acknowledged head run of unacked, counts its pbufs, and takes its FINs off the count to report |
| TcpOutput.CountRequeued | lwip/src/core/tcp_in.c:980-1002 | the loop over unsent frees the head run that passes the wrapped test, for every acknowledgement number |
| TcpOutput.BuildQueue | lwip/src/core/tcp_out.c:216-331 | cutting data into segments succeeds exactly when memory and queue space suffice, and then builds the specified segments |
| TcpOutput.AppendQueue | lwip/src/core/tcp_out.c:334-392 | linking the new segments, merging the first into the last unsent one when allowed |
| TcpOutput.Pcb.constructor | lwip/src/core/tcp.c:1031-1056 | the send variables of a new pcb |
| TcpOutput.Pcb.Enqueue | lwip/src/core/tcp_out.c:155-437 | tcp_enqueue on 16- and 32-bit fields; a failing call changes neither queues nor counters |
| TcpOutput.Pcb.Output | lwip/src/core/tcp_out.c:518-646 | tcp_output sends what the specification sends, and why it stops, on the fields |
| TcpOutput.Pcb.RexmitFirst | lwip/src/core/tcp_out.c:850-881 | the oldest unacknowledged segment goes to its sorted place on unsent, by the wrapped order of the fields |
| TcpOutput.Pcb.RequeueAll | lwip/src/core/tcp_out.c:815-846 | unacked goes in front of unsent |
| TcpOutput.Pcb.AckNewData | lwip/src/core/tcp_in.c:882-965 | new data acknowledged: buffer space, queue length, unacked, and the number to report less a FIN freed |
| TcpOutput.Pcb.AckSegments | lwip/src/core/tcp_in.c:850-1002 | the whole ACK step on 16- and 32-bit fields, for every acknowledgement number: the new state and the number reported; the pcb stays valid if and only if nothing unsent is thrown away |
| TcpOutput.Pcb.AcceptSynAck | lwip/src/core/tcp_in.c:582-603 | the SYN is taken off unacked |
| Rtt.StepOk | lwip/src/core/tcp_in.c:1011-1027 | samples of 0 to 50 ticks, ACKs and timeouts keep sv at least 3, sa non-negative and the timeout in range; no sample moves the smoothed time away from itself, and nothing else moves it |
| Rtt.RunOk | lwip/src/core/tcp.c:636-638 | for every sequence of samples, ACKs and timeouts the timeout stays between 3 and 32384 ticks |
| Rtt.SampleNears | lwip/src/core/tcp_in.c:1020-1021 | a sample never moves the smoothed time away from itself, and moves it nearer when they are 8 ticks or more apart |
| Rtt.Converges | lwip/src/core/tcp_in.c:1018-1027 | after more than 400 equal samples the smoothed time is that time and stays, whatever came before |
| Rtt.Settles | lwip/src/core/tcp_in.c:1018-1027 | after 603 the deviation is at its least and the timeout is the round-trip time and three ticks |
| Rtt.RunBacked | lwip/src/core/tcp.c:636-638 | in every run the timeout is the one before backoff, doubled at most once for each retransmission and seven times in all |
| Rtt.TimeoutGrows | lwip/src/core/tcp.c:625-640 | a timeout never shortens the timeout, and doubles it up to the end of the table |
| Rtt.Sample16Is | lwip/src/core/tcp_in.c:1014-1027 | for samples below 24576 ticks no 16-bit assignment cuts anything |
| Rtt.Estimator.Update | lwip/src/core/tcp_in.c:1011-1032 | for every pair of tick counts: the computation with its 16-bit cuts, which is the exact step for samples below 24576 and keeps the estimator in range for samples up to 50 |
| Rtt.Estimator.Acked | lwip/src/core/tcp_in.c:890-897 | new data acknowledged: the backoff ends and the timeout is recomputed |
| Rtt.Estimator.TimedOut | lwip/src/core/tcp.c:625-640 | the backoff of the slow timer |
| HeapBlocks.FirstFitLowest | lwip/src/core/mem.c:512-596 | the search finds the lowest fitting free block and fails only when none fits |
| HeapBlocks.TakeOk | lwip/src/core/mem.c:523-560 | allocation keeps the heap in order and yields enough room |
| HeapBlocks.TakeTight | lwip/src/core/mem.c:523-560 | an allocation wastes less than a block of its own takes, and touches no other block |
| HeapBlocks.ReleaseOk | lwip/src/core/mem.c:224-255 | freeing with coalescing leaves no two adjacent free blocks |
| HeapBlocks.ShrinkOk | lwip/src/core/mem.c:357-470 | shrinking keeps the heap in order and the block in place with at least the new size |
| HeapBlocks.ShrinkTight | lwip/src/core/mem.c:395-465 | a shrink gives back all but what is too small for a block of its own, to the free block behind or as a new one |
| HeapBlocks.RunOk | lwip/src/core/mem.c:262-607 | after any sequence of malloc, free and shrink calls blocks tile the heap and no two neighbours are free |
| HeapBlocks.Disjoint | lwip/src/core/mem.c:482-607 | the data of two blocks never overlap |
| HeapBlocks.MallocFree | lwip/src/core/mem.c:297-350 | freeing a fresh block restores the heap exactly |
| HeapBlocks.ReleaseLowest | lwip/src/core/mem.c:329-337 | lfree is the lowest free block after a free |
| HeapBlocks.ShrinkLowest | lwip/src/core/mem.c:408-465 | and after a shrink |
| HeapBytes.SplitLinked | lwip/src/core/mem.c:536-556 | the header writes of a split represent the block list with the split |
| HeapBytes.PlugLinked | lwip/src/core/mem.c:224-255 | the header writes of plug_holes represent the merged list |
| HeapBytes.PlugLive | lwip/src/core/mem.c:224-255 | and leave the data of all blocks in use alone |
| HeapBytes.ShrinkLive | lwip/src/core/mem.c:357-470 | a shrink leaves all other data, and the kept part of the block, alone |
| Heap.Mem.constructor | lwip/src/core/mem.c:262-290 | one free block over the whole array |
| Heap.Mem.FindFit | lwip/src/core/mem.c:510-516 | the loop over the headers, starting at lfree, is first fit over all blocks |
| Heap.Mem.Malloc | lwip/src/core/mem.c:482-607 | mem_malloc on the byte array: the lowest free block large enough, with less to spare than a block takes, or nothing exactly when none is |
| Heap.Mem.Free | lwip/src/core/mem.c:297-350 | mem_free on the byte array |
| Heap.Mem.Realloc | lwip/src/core/mem.c:357-470 | mem_realloc on the byte array, failing exactly when asked to grow, and leaving less to spare than a block takes |
| Heap.Mem.PlugHoles | lwip/src/core/mem.c:224-255 | plug_holes on the byte array |
| PbufChains.FreeWalk | lwip/src/core/pbuf.c:553-590 | the loop of pbuf_free releases exactly the maximal run at the head that nobody holds |
| PbufChains.CatWalk | lwip/src/core/pbuf.c:648-672 | every tot_len grows by the second chain's and the last pbuf is linked to it |
| PbufChains.Shrink | lwip/src/core/pbuf.c:343-401 | exactly the pbufs needed for the new length stay, with the first bytes of the chain; behind them the unheld run is released |
| PbufChains.KeepLeast | lwip/src/core/pbuf.c:360-377 | no more pbufs stay than the first bytes need |
| PbufChains.TotalIsLength | lwip/src/core/pbuf.c:718-721 | tot_len of a chain in order is its number of bytes |
| PbufHeap.EachPbuf | lwip/src/core/pbuf.c:504-513 | ref is the number of holders plus predecessors, of which there is at most one, and tot_len adds up, for every pbuf in every reachable pool |
| PbufHeap.NoLeak | lwip/src/core/pbuf.c:496-503 | every pbuf is on a chain whose first pbuf someone holds |
| PbufHeap.PbufPool.Alloc | lwip/src/core/pbuf.c:281-328 | a fresh pbuf from RAM, or for bytes elsewhere, is a chain of its own, held by the caller |
| PbufChains.PoolLoop | lwip/src/core/pbuf.c:212-278 | the loop links pool buffers, with the lengths wanted and totals that count what is still to come |
| PbufHeap.PbufPool.AllocPool | lwip/src/core/pbuf.c:212-278 | from the pool: a chain in order of as many buffers as needed, held once, or nothing changed when the pool runs dry |
| PbufHeap.PbufPool.Retain | lwip/src/core/pbuf.c:626-635 | one holder more |
| PbufHeap.PbufPool.Free | lwip/src/core/pbuf.c:531-597 | which pbufs are released, which chain is left, and that nothing else changes |
| PbufHeap.PbufPool.Cat | lwip/src/core/pbuf.c:648-672 | the bytes of both chains in one, the caller's reference taken over |
| PbufHeap.PbufPool.Chain | lwip/src/core/pbuf.c:689-695 | the same, the caller keeping its reference |
| PbufHeap.PbufPool.Dechain | lwip/src/core/pbuf.c:706-735 | the first pbuf cut off, the unheld run behind it released, and when NULL is returned |
| PbufHeap.PbufPool.Realloc | lwip/src/core/pbuf.c:343-401 | the chain keeps its first bytes; nothing happens when asked to grow |
| PbufHeap.PbufPool.Header | lwip/src/core/pbuf.c:424-495 | when the call fails, and the bytes of the chain when it does not |
| PbufHeap.HideAlways | lwip/src/core/pbuf.c:440-452 | in every reachable pool a header of up to the payload's length can be hidden, and no longer one |
| PbufHeap.HeaderBack | lwip/src/core/pbuf.c:454-480 | hiding a header and revealing it restores the pbuf, in exactly the buffers that own their bytes |
| PbufHeap.PbufPool.Clen | lwip/src/core/pbuf.c:607-618 | the number of pbufs |
| PbufCopy.Copy | lwip/src/core/pbuf.c:755-807 | for any two layouts the two cursors end, with the source's bytes at the front of the target; given up only for empty pbufs at the end of a chain |
| PbufCopy.CopyPartial | lwip/src/core/pbuf.c:821-856 | exactly the flat slice, for any length and offset |
| PbufCopy.Take | lwip/src/core/pbuf.c:869-898 | the data replaces the first bytes; refused exactly when the chain is too short |
| PbufCopy.TakeCopy | lwip/src/core/pbuf.c:821-898 | pbuf_take followed by pbuf_copy_partial gives back what was taken, and what was there before behind it |
| Checksum.Standard1 | lwip/src/core/ipv4/inet_chksum.c:91-126 | the byte-wise algorithm computes the ones' complement sum, without losing a carry, up to 65535 bytes |
| Checksum.Standard2 | lwip/src/core/ipv4/inet_chksum.c:145-185 | so does the word-wise one, at even and odd addresses |
| Checksum.Standard3 | lwip/src/core/ipv4/inet_chksum.c:201-267 | so does the unrolled one, for every length and start alignment |
| Checksum.SumChain | lwip/src/core/ipv4/inet_chksum.c:417-438 | a chain of pieces of odd and even lengths has the sum of the concatenation |
| Checksum.InetChksum | lwip/src/core/ipv4/inet_chksum.c:404-408 | the checksum of a buffer is the complement of its ones' complement sum |
| Checksum.InetChksumPbuf | lwip/src/core/ipv4/inet_chksum.c:417-438 | the checksum of a chain is that of its bytes |
| Checksum.InetChksumPseudo | lwip/src/core/ipv4/inet_chksum.c:283-325 | the checksum with a pseudo-header is that of pseudo-header and data in a row |
| OnesSum.WeighOther | lwip/src/core/ipv4/inet_chksum.c:169-181 | summing with swapped bytes multiplies by 256 modulo 65535, so that an odd start can be undone by a swap |
| ChecksumUpdate.UpdateSum | lwip/src/core/ipv4/ip.c:139-158 | the incremental update keeps the sum modulo 65535 |
| ChecksumUpdate.UpdateVerifies | lwip/src/core/ipv4/icmp.c:191-197 | after the update the message verifies if and only if a byte other than the checksum is not zero |
| ChecksumUpdate.ForwardHeader | lwip/src/core/ipv4/ip.c:118-158 | a header that verified still does if and only if its TTL was at least 2 |
| ChecksumUpdate.EchoReply | lwip/src/core/ipv4/icmp.c:191-197 | a reply to a message that verified verifies if and only if not all its other bytes are zero |
| ChecksumUpdate.ZeroEchoWitness | lwip/src/core/ipv4/icmp.c:191-197 | the all-zero echo whose reply does not verify |
| IpFrag.FragmentsOk | lwip/src/core/ipv4/ip_frag.c:668-785 | fragments tile the payload in units of 8 bytes with the right offsets and MF bits, fit the MTU, and add up to the payload |
| IpFrag.FragmentsFull | lwip/src/core/ipv4/ip_frag.c:668-690 | all fragments but the last hold as many units of 8 bytes as fit, and a payload that fits goes in one |
| IpFrag.Mirror | lwip/src/core/ipv4/ip_frag.c:713-739 | the inner loop takes exactly the bytes of one fragment from any chain layout |
| IpFrag.SendFragments | lwip/src/core/ipv4/ip_frag.c:628-785 | ip_frag ends with exactly the specified fragments sent, or an initial part when memory runs out |
| IpReass.WholeIff | lwip/src/core/ipv4/ip_frag.c:345-444 | for fragments of one datagram in any order, with any overlaps: a datagram found complete is whole if and only if the fragment at hand is at an end of the queue or abuts its predecessor, and the last piece ends where the last fragment said |
| IpReass.HonestStep | lwip/src/core/ipv4/ip_frag.c:550-560 | queueing a fragment of a datagram, or refusing it, keeps the queue a part of that datagram and the noted length its length |
| IpReass.Reassembles | lwip/src/core/ipv4/ip_frag.c:324-453 | pieces of one cut in any order with repetitions: once all arrived a datagram was returned, with the right length noted, and whole if and only if the completing piece came at an end or right behind one already there |
| IpReass.Ordered | lwip/src/core/ipv4/ip_frag.c:324-453 | arrival in order or in reverse gives the datagram and its length back |
| IpReass.RoundTrip | lwip/src/core/ipv4/ip_frag.c:324-785 | fragmenting any payload for any MTU and chaining the fragments in order or in reverse gives payload and length |
| IpReass.HoleWitness | lwip/src/core/ipv4/ip_frag.c:351-367 | any datagram in four pieces is returned without its second one for one order of arrival |
| IpReass.RefusedLastWitness | lwip/src/core/ipv4/ip_frag.c:554-560 | a refused last fragment closes the datagram |
| Reassembly.ChainFragment | lwip/src/core/ipv4/ip_frag.c:324-453 | both loops of the C function decide as specified |
| Reassembly.Reassembler.Input | lwip/src/core/ipv4/ip_frag.c:469-606 | ip_reass: when a fragment is dropped, what becomes of its datagram, that others are untouched, and that the pbuf count is the number of queued pbufs |
| Reassembly.Deliver | lwip/src/core/ipv4/ip_frag.c:469-606 | fragments of one datagram in any order, among those of others, handed to ip_reass one by one: the answer is the one specified for the pieces of that datagram, as long as the pbuf limit is not hit |
| Reassembly.RoundTrip | lwip/src/core/ipv4/ip_frag.c:482-785 | the fragments of any payload, in order or in reverse and among others, make ip_reass return payload and length, take the datagram off the list and leave the others alone |
| Reassembly.Reassembler.Tick | lwip/src/core/ipv4/ip_frag.c:119-144 | all datagrams age, those at zero are freed, and whose senders are told |
| Reassembly.AgedGet | lwip/src/core/ipv4/ip_frag.c:126-143 | a tick leaves a datagram whole and one second older, or takes it off |
| Reassembly.ExceededIs | lwip/src/core/ipv4/ip_frag.c:160-190 | told of a timeout are exactly the senders of datagrams given up whose first fragment had arrived |
| Reassembly.AgeOut | lwip/src/core/ipv4/ip_frag.c:119-144 | no datagram outlives four ticks |
| ArpTable.MatchUnique | lwip/src/netif/etharp.c:268-275 | the entry of the one-slot cache is the one a full scan finds |
| ArpTable.VictimUnique | lwip/src/netif/etharp.c:345-382 | the choice of the entry to recycle is determined: first empty, else oldest stable, pending, pending with packets |
| ArpTable.VictimChoice | lwip/src/netif/etharp.c:345-382 | a live entry goes only if none is empty, a pending one only if none is stable, one with packets only if all have some; the oldest of its kind first |
| ArpTable.SentWhereLearned | lwip/src/netif/etharp.c:467-530 | every packet sent, queued or not, goes to the Ethernet address last learned for its destination; this is part of the invariant of the table over all calls |
| ArpTable.StableLives | lwip/src/netif/etharp.c:165-202 | a stable entry stays for 239 ticks, unchanged, and is gone with the next |
| ArpTable.PendingLives | lwip/src/netif/etharp.c:165-202 | a pending one stays with its packets for one tick, and is gone with the next |
| ArpTable.AccountsDrain | lwip/src/netif/etharp.c:501-516 | emptying a queue keeps the account: for every address packets leave in the order they came, each once |
| ArpTable.AccountsAppend | lwip/src/netif/etharp.c:972-986 | so does queueing one |
| ArpTable.WaitBounded | lwip/src/netif/etharp.c:165-202 | no packet waits for longer than two ticks |
| Etharp.ArpCache.Sweep | lwip/src/netif/etharp.c:293-343 | one sweep finds the match or the right candidate of each rank |
| Etharp.ArpCache.FindEntry | lwip/src/netif/etharp.c:230-415 | which index is returned, with cache or without, what is recycled, and which packets are freed |
| Etharp.ArpCache.UpdateArpEntry | lwip/src/netif/etharp.c:467-530 | the entry becomes stable and exactly its waiting packets are sent, first to last |
| Etharp.ArpCache.Query | lwip/src/netif/etharp.c:892-1011 | for a known and an unknown address: when a request goes out, when and where the packet is sent, that else it is queued or dropped, what the entry becomes, and what is returned |
| Etharp.ArpCache.FindAddr | lwip/src/netif/etharp.c:544-560 | the stable entry of an address, changing nothing |
| Etharp.ArpCache.Tick | lwip/src/netif/etharp.c:165-202 | the table ages by one tick, and returned are exactly the packets of the entries that ran out, in order |
| Timeouts.DuesSorted | lwip/src/core/sys.c:188-235 | a list of time differences always stands for a sorted list of deadlines |
| Timeouts.InsertDueIs | lwip/src/core/sys.c:211-234 | insertion adds one deadline, behind all that are due no later |
| Timeouts.RemoveDueIs | lwip/src/core/sys.c:248-281 | removal takes out the first match and nothing else |
| Timeouts.InsertRelOk | lwip/src/core/sys.c:211-234 | inserting time differences inserts the deadline, shifts no other, and does not wrap |
| Timeouts.RemoveRelOk | lwip/src/core/sys.c:259-277 | so does removing |
| Timeouts.TimeoutList.SysTimeout | lwip/src/core/sys.c:188-235 | sys_timeout with its walk |
| Timeouts.TimeoutList.SysUntimeout | lwip/src/core/sys.c:248-281 | sys_untimeout with its walk |
| Timeouts.TimeoutList.Elapse | lwip/src/core/sys.c:105-115 | waiting for a message moves no deadline while the first one has not passed, and by the excess otherwise |
| Timeouts.TimeoutList.Expire | lwip/src/core/sys.c:90-103 | the first timeout fires at its deadline and the others stay |
| Slip.RoundTrip | lwip/src/netif/slipif.c:91-254 | decoding the concatenated encodings of any packets gives them back in order, cut at 1501 bytes and without the empty ones |
| Slip.ReceivedSame | lwip/src/netif/slipif.c:163-254 | the packets come back unchanged if and only if each has 1 to 1501 bytes |
| Slip.RunRoundTrip | lwip/src/netif/slipif.c:163-254 | however the bytes are split over arrivals and input calls, what was handed up is an initial part of what was sent, and all of it once everything was read |
| Slip.Resync | lwip/src/netif/slipif.c:104-105 | behind noise that does not end in a bare ESC, what it left is handed up alone and all packets are intact |
| Slip.EscBeforeFrame | lwip/src/netif/slipif.c:204-215 | behind any other noise, what it left, an END and the first packet are one packet, cut at 1501 bytes, and the other packets are intact |
| Slip.ResyncIff | lwip/src/netif/slipif.c:177-240 | for any noise the packets are intact if and only if it does not end in a bare ESC, or the first packet is cut and only repeats what was put in front of it |
| Slip.BodyHasNoEnd | lwip/src/netif/slipif.c:107-125 | no delimiter is sent inside a frame |
| Slip.Output | lwip/src/netif/slipif.c:91-129 | the encoder over any chain sends the encoding of its bytes |
| Slip.Slipif.Input | lwip/src/netif/slipif.c:163-254 | one input call over the pbuf chain returns the first packet of the bytes at hand; when the pool runs dry exactly one byte is lost |

## Left out

- Threads, semaphores and mailboxes, statistics, debug output, SNMP: the model is single-threaded.
- The `lwip/src/api` layer, DHCP, DNS, AutoIP, IGMP and IPv6, and the drivers: other components.
- OCaml runtime calls, finalizers and GC roots in lib/lwip_stubs.c; connection states other than
  accepted and closing, and `caml_tcp_recved` called by the application itself.
- Assertions that can fail without effect on the result, such as the one on header length in each
  round of ip_frag (lwip/src/core/ipv4/ip_frag.c:702-703).
- TCP: the flags that delay an ACK until the next output (when that leaves is a `Send` event),
  options and timestamps, RST and keepalive segments, refused data, the congestion window and
  Nagle's rule (the window and the permission to send are parameters of every output step), the
  update of snd_wnd, and the pbufs of a segment (its data is a byte sequence, its pbuf count a number).
- TcpInput.Pcb.Receive: asks for segments that start less than 2^31 - 2^17 away from rcv_nxt, because
  wrapped numbers further apart cannot be told from later ones; for segments queued out of order to
  end inside the window (TcpDelivery.KeptIff says what happens otherwise); and for an announced edge
  at most 65536 below rcv_nxt, which holds in every run with a peer that keeps to that edge
  (TcpDelivery.EdgeRun).
- LwipStubs.TcpWrap.Input: asks for the same as TcpInput.Pcb.Receive.
- LwipStubs.TcpWrap.Read: asks for an announced edge at most 131072 below rcv_nxt, for 32-bit
  comparisons to place it; in the runs of LwipStubs.TcpWrap.Serve it is never below.
- TcpOutput.Pcb.constructor: limits the queue length to 255, since pbuf counts are 8-bit numbers.
- TcpSendRuns.EnqueueOk: a SYN or FIN comes without data, as tcp_send_ctrl and tcp_connect send them.
- Rtt.RunOk: counts retransmissions within the backoff table and samples up to 50 ticks.
- Memory allocation in TCP, ARP and the timeout list: success or failure is a parameter.
- Heap: the variant that frees from other contexts, memory pools, and alignments other than 1, the
  one configured.
- IP options, header checksums of fragments, and the header fields carried along in reassembly.
- Reassembly.Reassembler.Input: does not model freeing the oldest datagram to make room
  (lwip/src/core/ipv4/ip_frag.c:214-253), which unlinks through a predecessor that is not always the
  victim's; a fragment that finds no room is dropped.
- PbufHeap.PbufPool.Realloc: like Cat, Dechain and Header, for the first pbuf of a chain only, since the
  tot_len of predecessors is not adjusted.
- PbufHeap.PbufPool.Free: takes the chain as a ghost argument; no pbuf may have two predecessors.
- PbufCopy.Copy: payloads are given as the list along the chain, not through memory.
- PbufHeap.PbufPool.AllocPool: which buffers the pool hands out, and what is in them, is a parameter.
- ARP: several interfaces, per-connection hints, gateway selection and the contents of ARP packets.
- Etharp.ArpCache.Query: whether a packet must be copied or can be referenced is one parameter.
- Slip.Slipif.Input: blocking reads; the sizes of the pbufs of one pool allocation are a constant.
