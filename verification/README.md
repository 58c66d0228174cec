# A model of rMPTCP

rMPTCP is the Linux MPTCP stack (RFC 6824) with a scheduler that sends segments redundantly over several subflows.
This project models the parts of it in which loops, mutable state and modular arithmetic meet, and proves what
their callers rely on. `dafny verify dfyconfig.toml` checks everything.

| file | models |
|---|---|
| Common, Products | options, bytes and big-endian words; named products and quotients |
| SeqArith | 32- and 64-bit sequence arithmetic, C's truncating division |
| HighOrder, SendHighOrder | the two-entry arrays that extend 32-bit data numbers to 64 bits, on both sides |
| DataStream, OfoQueue, MetaSock | data-level segments, the out-of-order queue with its shortcuts, its drain, the receive queue |
| Mappings, SubflowRx | DSS mappings, their detection and validation, the translation and push of packets |
| Straddling | packets that cross the border of their mapping |
| Connection | a sender, a network and a receiver as one transition system |
| Delivery | what such a system achieves: segments that are sent, arrive and are processed can be read |
| DssChecksum | the DSS checksum over any split of a mapping |
| Reinject | the ordered reinject queue |
| OptionCodec, OptionWriter | the options on the wire, the parser, the writer, the reservation of room, the saved DSS |
| WireMappings | from the sender's segment over the bytes of its option to the receiver's mapping |
| RedundancyLoop, Scheduler | the redundancy controller, the scan of the register, the kick loop, the transmission |
| FailureMachine | Open, Timeout, Congestion, Recovery, and the bits of the subflows |
| PathCheck | the enumeration of overlap-free path combinations |
| AddressEvents, SubflowWorker | the fullmesh path manager: coalescing event queue, address table, subflow workers |
| Balia, Olia | coupled congestion control arithmetic |

Conventions:

- A sequence number is an unbounded integer; every comparison the code makes is written on the difference modulo
  2^32 or 2^64, so it sees no more than the code does. 64-bit words (`map_data_seq`, the high-order arrays) and the
  counters whose width matters are kept as words, with explicit truncation.
- Objects that the code updates in place are classes. Kernel lists are `seq` fields that the methods reassign; a
  buffer is known by its number, which stands for its address, so shortcut pointers are numbers that may or may
  not be in the queue. The scheduler's register, the scratch arrays, the header being written and the remote
  address table are arrays.
- Answers of code that is not modelled are parameters chosen freely: whether coalescing succeeds, whether the
  low-pass filter holds data back, whether a copy can be made, what a socket's state is, what was measured.
- Loops of the code are loops here; each is proved against a recursive function or a quantified statement, and the
  lemmas are about those.

## What is false, and exactly when it holds

Several properties one would expect do not hold of the code. The code is modelled as it is; for each property the
first member named is an input or a run that breaks it, the others say exactly when it holds.

- The clean-up after an out-of-order insertion can throw bytes away: `OfoQueue.InsertCanLoseBytes`; it does so
  exactly when the new segment reaches into the front of a queued one and no shortcut touches (`OfoQueue.LossIff`,
  `MetaSock.MetaReceive.TryShortcut`). The reinject queue has the same loop: `Reinject.InsertCanLose`,
  `Reinject.InsertLosesIff`.
- The touching-segment route can leave an overlap (`OfoQueue.TouchingInsertCanOverlap`), and with the clean-up an
  unsorted queue that holds back data that is due: `MetaSock.HeldBackRun`; the drain hands over everything due exactly
  on the queues of `MetaSock.DrainIsMaximalIff`. Delivery does not depend on it (`MetaSock.DrainExtendsChain`).
- A packet that crosses the border of its mapping can bring foreign bytes, because only the head is trimmed and only
  the packet examined is split: `Straddling.ForeignRun`; `PushedInsideIff` says exactly on which queues everything
  pushed lies inside the mapping, and `StraddlingHonestIff` when a packet translated whole is harmless. Such a packet
  can also be dropped with a mapping's first bytes and leave a gap in the receive queue: `Straddling.GapRun`; the first
  bytes are kept exactly under `StartKeptIff`, and there is no gap exactly when the first packet pushed starts by
  `rcv_nxt` (`PushedUpNoGapIff`, `MetaReceive.PushInOrder`).
- A segment that was due can be lost although it is complete: `Delivery.LateSegmentLost`; it is received exactly if it
  brings nothing new or does not start before the last wrap of `rcv_nxt` (`Delivery.Transfer`).
- True options can reset a subflow: `SubflowRx.LateWideCopyReset`; `SubflowRx.Subflow.DataReady` says exactly when.
- The checksum of true data is rejected when packets overlap: `DssChecksum.OverlapRejected`; `ChecksumRoundTripIff`.
- After an MP_FAIL rewind a partly acknowledged head can put the array out of step (`SendHighOrder.ResendOutOfStep`)
  or get a wrong index bit (`ResendWithWrongBit`); `MetaSend.SendHead` says exactly when neither happens. A split
  across a wrap copies a stale bit: `FragmentCanBeStale`; `FragmentBitIff`, `MetaSend.SplitHead`.
- The option walker looks at bytes behind the header: `OptionCodec.LoneKindLooksBehind`, exactly at the headers of
  `LooksBehindIff`; what it makes of the header does not depend on them (`ParseOptions`).
- `getPathCombinations` looks for zero parallel paths when there are four or more sources, because `getAddresses`
  returns before it counts destinations: `PathCheck.FourSources`; `PathCheck.PathIndex.GetPathCombinations`.
- There can be more combinations than `pM` has room for: `PathCheck.TooManyCombinations`; `fits` of
  `GetPathCombinations` decides.
- The options can be too long for the header: `OptionWriter.FailWithDataTooLong`; they fit exactly when the forced ones
  do (`OptionWriter.Subsock.EstablishedOptions`).
- The saved DSS does not give back the range of a long segment: `OptionWriter.LongSegmentForgotten`; it does exactly
  when the length fits in 16 bits (`OptionWriter.ReconstructIff`), and of an infinite mapping only the start.
- The redundancy does not come to rest: `RedundancyLoop.BandIsTight`, for targets 199 and 101; it does exactly when the
  target is a multiple of 100 or out of reach (`ConvergesExactly`, `NeverSettlesBetween`).
- An address event can be lost: `AddressEvents.NinthAddressLost`; it is exactly when it brings a new address into a
  full table (`AddressEvents.FollowEvent`).

Where the code and its comments differ: the comment on the wait for Recovery speaks of one hold time, the code waits
two before Open; the further IPv6 subflows of the first pair are never opened, because the IPv4 ones come first and
set the flag (`SubflowWorker.FullmeshPriv.FindMissing`).

## Model

| member | source | states |
|---|---|---|
| Connection.Run | rmptcp/net/mptcp/mptcp_input.c:959-1096 | From the initial state and through any sequence of steps - segments sent once or many times on any subflows, packets cut anywhere inside their mappings, options lost or with 32-bit or 64-bit data numbers, subflows reset over them, coalescing succeeding or failing, memory pressure at any time: the application reads exactly the sender's stream up to `rcv_nxt`; the stream is the accepted writes one after the other, and below 2^31 cells, with nothing behind a DATA_FIN, every write is accepted. |
| Connection.Endpoints.Step | rmptcp/net/mptcp/mptcp_input.c:1261-1331 | Every single step keeps sender, subflows and receiver agreeing on one stream, and does what it says, to the named subflow alone: a write appends its cells, a send maps the segment on each listed subflow, a packet is appended with its bytes and its option, memory pressure empties the out-of-order queue, an ACK sets the window; processing resets the subflow exactly when that is due, else leaves nothing ready, and every complete mapping that was due and has an option queued is received to its end unless it starts before the last wrap of `rcv_nxt`. |
| Connection.Endpoints.SendOn | rmptcp/net/mptcp/rmptcp.c:1395-1437 | Putting one segment on any set of subflows, each copy with its own mapping, adds exactly these mappings to exactly these subflows and keeps every subflow truthful. |
| Connection.Endpoints.Process | rmptcp/net/mptcp/mptcp_input.c:1261-1331 | Processing a subflow's receive queue keeps the whole connection consistent and only takes packets off its front; the subflow is reset exactly when that is due, otherwise no complete mapping is left waiting and each that was due is received to its end, save for the wrap; a single due mapping moves `rcv_nxt` to its end at most. |
| Delivery.Transfer | rmptcp/net/mptcp/mptcp_input.c:959-1096 | A due segment sent on an idle subflow, arriving in order in any pieces with its option on at least one of them, and processed, is received to its end if and only if it had been before or does not start before the last wrap of `rcv_nxt`; then the subflow is idle again, and with nothing queued out of order `rcv_nxt` goes no further. |
| Delivery.WriteAndRead | rmptcp/net/mptcp/mptcp_input.c:1261-1331 | Whatever is written, cut into segments in any way, each sent on any subflow and arriving in any pieces: all of it can be read, however often the 32-bit numbers wrap. |
| Delivery.LateSegmentLost | rmptcp/net/mptcp/mptcp_input.c:838-846 | A run in which a due segment, complete and with its option, is not received, because it starts before the last wrap and reaches beyond it. |
| Delivery.NothingLeft | rmptcp/net/mptcp/mptcp_input.c:1261-1331 | After the walk nothing is left of a complete mapping, and the subflow is not reset, unless the mapping starts before the last wrap. |
| DataStream.DeliveredIsStream | rmptcp/net/mptcp/mptcp_input.c:461-496 | A gap-free receive queue of truthful segments reads as the sender's stream up to the number reached, although neighbouring segments may overlap. |
| DataStream.MergeHonest | rmptcp/net/mptcp/mptcp_ofo_queue.c:50-91 | Coalescing two touching truthful segments gives a truthful one. |
| HighOrder.Decode32Exact | rmptcp/net/mptcp/mptcp_input.c:838-846 | A 32-bit data number less than 2^31 from `rcv_nxt` gets its true 64-bit value, or exactly 2^32 more if and only if it precedes the last wrap. |
| HighOrder.AcceptedExactly | rmptcp/net/mptcp/mptcp_input.c:872-889 | After decoding, the window check accepts exactly the mappings that do not precede the last wrap, end at or after the left edge and start at or before the right one. |
| HighOrder.Decode64Exact | rmptcp/net/mptcp/mptcp_input.c:847-857 | A 64-bit number keeps its value if and only if its high word is the counter's or the one after it. |
| HighOrder.OutsideAlwaysRejected | rmptcp/net/mptcp/mptcp_input.c:847-857 | A 64-bit number flagged as outside the array fails the window check for every window below 2^31. |
| HighOrder.OutsideNear | rmptcp/include/net/mptcp.h:1021-1031 | Of the numbers near `rcv_nxt` exactly those before the last wrap are outside the array. |
| HighOrder.WupIsTrue | rmptcp/net/mptcp/mptcp_input.c:872-884 | The left window edge rebuilt from 32 bits is the true one, also when a wrap lies between it and `rcv_nxt`. |
| HighOrder.RcvHighOrder.CheckRcvseqWrap | rmptcp/include/net/mptcp.h:1170-1178 | Advancing the counter by less than 2^31 keeps current word = H and other word = H+1. |
| HighOrder.RcvHighOrder.constructor | rmptcp/net/mptcp/mptcp_ctrl.c:1276-1282 | The initial words follow the initial data number. |
| SendHighOrder.SendKeepsTracking | rmptcp/include/net/mptcp.h:1161-1168 | Sending keeps current word = H and other word = H-1 over every wrap. |
| SendHighOrder.RewindKeepsTracking | rmptcp/net/mptcp/mptcp_input.c:2346-2354 | The MP_FAIL rewind brings the array back to the state for `snd_una`. |
| SendHighOrder.RewindUndoesSend | rmptcp/net/mptcp/mptcp_input.c:2346-2354 | The rewind is the exact inverse of the sends it takes back: same words, same index. |
| SendHighOrder.ResendTracksIff | rmptcp/net/mptcp/mptcp_output.c:742-747 | Resending a partly acknowledged segment keeps the array in step exactly when the two sums lie in the same block of 2^32; both directions. The index bit is decided by `MetaSend.SendHead`. |
| SendHighOrder.ResendOutOfStep | rmptcp/net/mptcp/mptcp_output.c:742-747 | A run after which the array is one block ahead of the counter: send, partial DATA_ACK, MP_FAIL, resend. |
| SendHighOrder.ResendWithWrongBit | rmptcp/net/mptcp/mptcp_output.c:432-434 | A run after which the array is in step but the head carries the index of the wrong block, so that a wrong high word is looked up for it. |
| SendHighOrder.FragmentBitIff | rmptcp/net/mptcp/mptcp_output.c:514-565 | Splitting a sent segment copies its index bit; the copy is right exactly when the split point lies in the first half's block. |
| SendHighOrder.FragmentCanBeStale | rmptcp/net/mptcp/mptcp_output.c:514-565 | A concrete split with a stale copy. |
| SendHighOrder.StoredBitSelectsHighWord | rmptcp/include/net/mptcp.h:1141-1146 | The stored index bit selects the true high word of every sent segment at most one block back. |
| SendHighOrder.MetaSend.SendHead | rmptcp/net/mptcp/mptcp_output.c:742-747 | One send, of a head at `snd_nxt` or of a partly acknowledged one: array and bits are right afterwards if and only if the sum seen by the wrap test lies in the block of the segment's end and the bit stored is not 1 for a start in the block before. |
| SendHighOrder.MetaSend.SplitHead | rmptcp/net/mptcp/mptcp_output.c:729-731 | Splitting the send head keeps everything right if and only if a copied bit names the right block and the cut lies above `snd_una`. |
| SendHighOrder.MetaSend.MpFail | rmptcp/net/mptcp/mptcp_input.c:2346-2361 | The rewind brings array and counter back to `snd_una`, with every stored bit right; what the resend of a partly acknowledged head does then is decided by `MetaSend.SendHead`. |
| SendHighOrder.MetaSend.Ack | rmptcp/net/mptcp/mptcp_input.c:173-228 | A DATA_ACK drops the fully acknowledged segments in front, and only those. |
| SendHighOrder.MetaSend.HighWordOf | rmptcp/include/net/mptcp.h:1141-1146 | For every segment still on the queue, the high word written is its true one. |
| OfoQueue.InsertKeepsHonest | rmptcp/net/mptcp/mptcp_ofo_queue.c:50-225 | On any queue whatever, an insertion keeps every queued segment truthful. |
| OfoQueue.InsertHoldsNewAndInventsNothing | rmptcp/net/mptcp/mptcp_ofo_queue.c:50-225 | On any queue whatever, one queued segment holds the new one afterwards, and no number is held that was not held before or brought by it. |
| OfoQueue.InsertKeepsBytesIff | rmptcp/net/mptcp/mptcp_ofo_queue.c:206-216 | On a sorted, disjoint queue the clean-up loses bytes exactly when the last segment it removes reaches beyond the new one. |
| OfoQueue.LossIff | rmptcp/net/mptcp/mptcp_ofo_queue.c:93-216 | The same in terms of queue and segment: a loss means that it reaches into the front of a queued segment, and that no shortcut touches. |
| OfoQueue.InsertCanLoseBytes | rmptcp/net/mptcp/mptcp_ofo_queue.c:206-216 | A concrete loss. |
| OfoQueue.InsertRefinesSorted | rmptcp/net/mptcp/mptcp_ofo_queue.c:50-225 | A segment disjoint from a sorted, disjoint queue ends up where plain sorted insertion puts it, through whichever route, up to merging touching neighbours; the queue stays sorted and disjoint. |
| OfoQueue.TouchingInsertCanOverlap | rmptcp/net/mptcp/mptcp_ofo_queue.c:63-72 | The touching route does not look at the successor: a concrete overlap. |
| MetaSock.MetaReceive.TryShortcut | rmptcp/net/mptcp/mptcp_ofo_queue.c:93-225 | The insertion through own shortcut, other shortcuts, nearest start or tail has one of the legal outcomes, and the exact one where the own shortcut touches; all shortcuts stay null or in the queue, no two shared. On a sorted, disjoint queue all bytes are kept if and only if some shortcut leads to a segment that the new one touches, or the new one reaches into the front of none. |
| MetaSock.MetaReceive.TryOthers | rmptcp/net/mptcp/mptcp_ofo_queue.c:113-150 | The loop over the other subflows either queues the segment legally or finds the nearest start beyond it. |
| MetaSock.MetaReceive.WalkAndInsert | rmptcp/net/mptcp/mptcp_ofo_queue.c:152-225 | The walk back and the clean-up after it: a legal outcome, shortcuts valid. |
| MetaSock.MetaReceive.RemoveShortcuts | rmptcp/net/mptcp/mptcp_ofo_queue.c:34-45 | Stopping at the first match is enough: nobody points to the buffer afterwards. |
| MetaSock.MetaReceive.DrainOfo | rmptcp/net/mptcp/mptcp_ofo_queue.c:256-283 | The drain loop moves out exactly what the recursive drain says. |
| MetaSock.DrainExtendsChain | rmptcp/net/mptcp/mptcp_ofo_queue.c:256-283 | Whatever the order of the out-of-order queue, the drained segments continue the receive queue without a gap. |
| MetaSock.DrainStops | rmptcp/net/mptcp/mptcp_ofo_queue.c:256-283 | What the drain leaves, if anything, starts with a segment beyond `rcv_nxt`. |
| MetaSock.DrainPassesHeld | rmptcp/net/mptcp/mptcp_ofo_queue.c:256-283 | On any queue the drain passes only numbers that were held. |
| MetaSock.DrainIsMaximalIff | rmptcp/net/mptcp/mptcp_ofo_queue.c:256-283 | From every number the drain goes on to one that is not held, if and only if whenever a segment stands behind one that starts later, some segment still further in front reaches up to that later start or to its own end. |
| MetaSock.HeldBackRun | rmptcp/net/mptcp/mptcp_ofo_queue.c:63-72 | A run of insertions, through the touching route and the clean-up, that leaves the queue unsorted; later a due segment is held back by the head. |
| MetaSock.MetaReceive.QueueRcv | rmptcp/net/mptcp/mptcp_input.c:1066-1070 | Appending to the receive queue, coalesced or not, keeps it without a gap and advances `rcv_nxt` to the segment's end. |
| MetaSock.MetaReceive.PushInOrder | rmptcp/net/mptcp/mptcp_input.c:1050-1078 | One packet of a mapping by `rcv_nxt` is dropped exactly when it brings nothing new, else queued, and everything through its end is received; the receive queue stays without a gap if and only if the packet itself starts by `rcv_nxt`. The drain then leaves what the recursive drain says. |
| MetaSock.MetaReceive.AddMetaOfoQueue | rmptcp/net/mptcp/mptcp_ofo_queue.c:230-237 | Queueing out of order keeps the meta socket safe; the whole segment is held afterwards, and no number that neither it nor the queue held before. |
| MetaSock.MetaReceive.PurgeOfo | rmptcp/net/mptcp/mptcp_ofo_queue.c:285-295 | Purging empties the queue and clears every shortcut. |
| MetaSock.MetaReceive.SafeMeansStream | rmptcp/net/mptcp/mptcp_input.c:959-1096 | A safe meta socket offers the application exactly the sender's stream up to `rcv_nxt`. |
| MetaSock.MetaReceive.ReceiveWindow | rmptcp/net/mptcp/mptcp_input.c:887-889 | The right window edge is the advertised one, or `rcv_nxt` once that is beyond it. |
| MetaSock.MetaReceive.EdgeStays | rmptcp/net/mptcp/mptcp_output.c:1028-1037 | While data inside the advertised window is received the right edge stays where it was advertised, and it never moves back. |
| MetaSock.MetaReceive.SelectWindow | rmptcp/net/mptcp/mptcp_output.c:1028-1037 | Afterwards the window is measured from `rcv_nxt` and is the one advertised. |
| Mappings.EntailKeepsHonest | rmptcp/net/mptcp/mptcp_output.c:424-509 | Mapping a new segment at the subflow's write position keeps all mappings truthful and tiling the subflow. |
| Mappings.HeadAtMapStart | rmptcp/net/mptcp/mptcp_input.c:674-869 | The receive queue of an honest subflow starts exactly at its first mapping's first byte. |
| Mappings.DropComplete | rmptcp/net/mptcp/mptcp_input.c:522-535 | Dropping the packets of whole mappings leaves an honest queue again. |
| Mappings.IncompleteOwnsAll | rmptcp/net/mptcp/mptcp_input.c:959-980 | As long as a mapping is incomplete nothing of a later one has arrived. |
| SubflowRx.TranslatedHonest | rmptcp/net/mptcp/mptcp_input.c:461-496 | A packet inside a truthful mapping becomes a truthful segment at its data numbers, with the DATA_FIN exactly at the mapping's end. |
| SubflowRx.AcceptedIsTrue | rmptcp/net/mptcp/mptcp_input.c:978-995 | The checks before a push let only correctly decoded mappings through, from 32-bit and 64-bit numbers alike, also when `rcv_nxt` has moved on since they were decoded. |
| SubflowRx.FlaggedLowWord | rmptcp/net/mptcp/mptcp_input.c:849-857 | Of all stored numbers only the flagged ones no longer carry the low word of their option. |
| SubflowRx.LateWideCopyReset | rmptcp/net/mptcp/mptcp_input.c:731-746 | A run in which a late copy with true 64-bit numbers from before the last wrap gets its subflow reset: the second option does not match what was stored for the first. |
| SubflowRx.Subflow.Arrive | rmptcp/net/mptcp/mptcp_input.c:1261-1275 | A packet arriving in subflow order keeps the queue honest. |
| SubflowRx.Subflow.DetectMapping | rmptcp/net/mptcp/mptcp_input.c:674-869 | Detection takes over the mapping an option names or compares it with the present one; it complains exactly when the two differ, when too much came without any option, or when the range named does not meet the packet. |
| SubflowRx.Subflow.ValidateMapping | rmptcp/net/mptcp/mptcp_input.c:894-952 | The queue afterwards, straddling packets or not: head trimmed, packet split, packets in front of the mapping dropped; with no packet across a border only whole packets are dropped. |
| SubflowRx.Subflow.TrimHead | rmptcp/net/mptcp/mptcp_input.c:543-555 | Trimming cuts exactly the bytes in front of the mapping. |
| SubflowRx.Subflow.SplitTail | rmptcp/net/mptcp/mptcp_input.c:563-605 | Splitting cuts a packet in two at the mapping's end and loses no byte; the tail has no option. |
| SubflowRx.Subflow.DetectAndValidate | rmptcp/net/mptcp/mptcp_input.c:674-952 | On an honest subflow the complaints possible are too much data without any option, and an option on a mapping whose 64-bit number was outside the array; otherwise the mapping present is the packet's own. |
| SubflowRx.Subflow.DetectHonest | rmptcp/net/mptcp/mptcp_input.c:674-869 | Exactly when an honest packet is complained about; otherwise a present mapping is afterwards the packet's own, and flagged exactly if its 64-bit number was outside the array. |
| SubflowRx.Subflow.DecodedFromWire | rmptcp/net/mptcp/mptcp_input.c:838-857 | What a data number is stored as, 32-bit or 64-bit: true, one block too high, or flagged; true exactly if it does not lie before the last wrap. |
| SubflowRx.Subflow.PurgeBefore | rmptcp/net/mptcp/mptcp_input.c:894-952 | Dropping the packets in front of a mapping drops whole mappings only. |
| SubflowRx.Subflow.QueueSkb | rmptcp/net/mptcp/mptcp_input.c:959-1096 | It waits exactly as long as the mapping is incomplete and changes nothing then; else exactly the mapping's packets leave the queue: a mapping decoded to its true number that ends beyond `rcv_nxt` and starts by it, or by the edge of the window advertised last, is received to its end if it was due, else queued out of order packet by packet, which alone returns -2; any other changes nothing above. |
| SubflowRx.Subflow.ToOfoQueue | rmptcp/net/mptcp/mptcp_input.c:1013-1034 | A mapping beyond `rcv_nxt` goes to the out-of-order queue packet by packet, each as the segment it stands for, and exactly its packets leave the subflow. |
| SubflowRx.QueuedFromSomewhere | rmptcp/net/mptcp/mptcp_input.c:1013-1034 | Queueing a mapping out of order brings no number that neither the queue nor one of its packets had. |
| SubflowRx.Subflow.ToReceiveQueue | rmptcp/net/mptcp/mptcp_input.c:1036-1089 | A mapping by `rcv_nxt` goes to the receive queue without a gap; afterwards all it brought has been received. |
| SubflowRx.Subflow.AcceptedIff | rmptcp/net/mptcp/mptcp_input.c:978-995 | The two checks before a push let through exactly the correctly decoded mappings that end beyond `rcv_nxt` and start by it or by the edge of the window advertised last (rcv_wup + rcv_wnd). |
| SubflowRx.Subflow.JustAdvertised | rmptcp/net/mptcp/mptcp_input.c:872-889 | Right after a window was advertised exactly the mappings that start by `rcv_nxt` + window, and bring something new, pass. |
| SubflowRx.Subflow.DropMapping | rmptcp/net/mptcp/mptcp_input.c:978-993 | An old or out-of-window mapping takes exactly its own packets with it. |
| SubflowRx.Subflow.DataReady | rmptcp/net/mptcp/mptcp_input.c:1261-1331 | The restart-driven walk over the queue ends and keeps everything consistent. An honest subflow is reset if and only if too much came without any option, or an option - its own on a later pass, or another - is compared with a mapping whose 64-bit number was outside the array; otherwise nothing that is ready is left, and each complete mapping that was due when the walk began and has an option in the queue is received to its end, or starts before the last wrap of the counter as that stood when its number was read. A single new mapping that does so moves the counter not at all, any other single due one to its end at most. |
| Straddling.StraddlingHonestIff | rmptcp/net/mptcp/mptcp_input.c:461-496 | `mptcp_prepare_skb` alone, on a packet cut anywhere: it makes a true segment for every payload if and only if every mapping that the packet has bytes of puts its data at the same distance from its bytes. Which packets get there is decided by `PushedInsideIff`. |
| Straddling.IntoNextHonestIff | rmptcp/net/mptcp/mptcp_input.c:461-496 | For a packet translated whole, reaching over into the next mapping is harmless if and only if that one's data number is the end of the first, which has no DATA_FIN. |
| Straddling.OtherOffsetForeign | rmptcp/net/mptcp/mptcp_input.c:461-496 | Otherwise there is a payload under the same numbers for which the segment is untrue. |
| Straddling.PushedInsideIff | rmptcp/net/mptcp/mptcp_input.c:894-952 | After trim, split and purge for the packet examined, all packets that the push takes lie inside the mapping if and only if, of the packets it comes to, in front of that one or behind it, no other ends beyond the mapping and none after the first starts before it, and the examined one leaves no tail when it is dropped; for queues in any order and overlap. |
| Straddling.CleanPushesTrue | rmptcp/net/mptcp/mptcp_input.c:894-1096 | On such a queue of a truthful subflow's bytes, cut anywhere, every packet pushed is a true segment. |
| Straddling.ConsecutiveCleanIff | rmptcp/net/mptcp/mptcp_input.c:894-952 | Without overlap the condition is: no packet but the one examined crosses the mapping's end. |
| Straddling.ForeignRun | rmptcp/net/mptcp/mptcp_input.c:1036-1089 | A run that hands on a foreign byte: two packets queued at once, the second one, behind the one examined, crosses into the next mapping. |
| Straddling.FrontStaysUncut | rmptcp/net/mptcp/mptcp_input.c:917-929 | An overlapping packet in front of the one examined is not cut either. |
| Straddling.StartKeptIff | rmptcp/net/mptcp/mptcp_input.c:894-952 | Validation keeps the mapping's first byte at the front of the queue if and only if the head crosses the mapping's start, or some packet starts there, all before it start earlier and no tail comes first. |
| Straddling.ConsecutiveStartIff | rmptcp/net/mptcp/mptcp_input.c:894-952 | Without overlap that is: no packet behind the head crosses the mapping's start. |
| Straddling.PushedUpNoGapIff | rmptcp/net/mptcp/mptcp_input.c:1036-1089 | The in-order branch with nothing out of order and nothing coalesced, over any packets in subflow order: no gap if and only if the first of them starts by `rcv_nxt`. Drain and coalescing are in `MetaReceive.PushInOrder`, packet by packet. |
| Straddling.GapRun | rmptcp/net/mptcp/mptcp_input.c:914-952 | A run in which validation drops a straddling packet with a mapping's first bytes, every test passes, and the rest of the mapping is queued with a gap before it. |
| DssChecksum.VerifDssCsum | rmptcp/net/mptcp/mptcp_input.c:358-459 | For every receive queue, packets of odd lengths and overlapping ones included, the last one reaching beyond the mapping or not, the verdict is that of the RFC 1071 sum over the bytes gathered and the pseudo-header of the first option, if there is any. |
| DssChecksum.SplitGathersPayload | rmptcp/net/mptcp/mptcp_input.c:366-431 | From packets that do not overlap exactly the mapping's payload is gathered. |
| DssChecksum.OverlapRejected | rmptcp/net/mptcp/mptcp_input.c:366-431 | Overlapping packets have the overlap summed twice: true data with the sender's checksum is rejected. |
| DssChecksum.ChecksumRoundTripIff | rmptcp/net/mptcp/mptcp_output.c:338-348 | A mapping checksummed by the sender passes at the receiver if and only if the bytes gathered and its high word add up to the payload and the sender's word modulo 0xffff; in particular when both are equal. |
| DssChecksum.SenderChecksumIs | rmptcp/net/mptcp/mptcp_output.c:338-348 | The checksum written is the complement of the folded sum of payload, header and high word. |
| DssChecksum.WordSumAppend | rmptcp/net/mptcp/mptcp_input.c:383-418 | Word sums add over any cut, a cut in the middle of a word included. |
| DssChecksum.Fold16IsOnes | rmptcp/net/mptcp/mptcp_input.c:429-429 | Folding gives the one's-complement value. |
| DssChecksum.Wrap32Same | rmptcp/net/mptcp/mptcp_input.c:410-415 | Adding the 32-bit carry back in does not change that value. |
| Reinject.DropAckedIsExact | rmptcp/net/mptcp/mptcp_input.c:230-243 | With increasing ends, stopping at the first unacknowledged segment removes exactly the fully acknowledged ones. |
| Reinject.DropAckedCanMiss | rmptcp/net/mptcp/mptcp_input.c:230-243 | Without increasing ends it does not: a concrete queue. |
| Reinject.CleanKeepsUnacked | rmptcp/net/mptcp/mptcp_input.c:136-167 | Dropping and trimming the head loses and adds no unacknowledged byte. |
| Reinject.InsertKeepsEnds | rmptcp/net/mptcp/mptcp_output.c:188-242 | Every insertion keeps the ends strictly increasing. |
| Reinject.InsertHoldsNew | rmptcp/net/mptcp/mptcp_output.c:188-242 | The new segment is queued afterwards, and nothing else is new. |
| Reinject.InsertKeepsOld | rmptcp/net/mptcp/mptcp_output.c:188-242 | What was queued stays queued, except bytes behind the new segment's end of the last segment removed. |
| Reinject.InsertLosesIff | rmptcp/net/mptcp/mptcp_output.c:188-242 | Queue and segment settle the outcome (`OutcomeOf`); a queued number is lost if and only if it then lies in the last segment removed, behind the new one's end, and in none further on. |
| Reinject.InsertCanLose | rmptcp/net/mptcp/mptcp_output.c:232-241 | A concrete loss. |
| Reinject.ReinjectQueue.ReinjectData | rmptcp/net/mptcp/mptcp_output.c:117-243 | A whole segment goes behind the last one that starts no later, or is dropped if that one has it all, and stands for those it covers: the queue afterwards is stated outright, and a number is held exactly if the segment has it, or it was held and is not lost (behind the new end, in the last segment replaced, in none further on). Else all write-queue segments inside the mapping are queued to the last byte, nothing in front of them is lost, and no number comes from nowhere. |
| Reinject.InsertHoldsIff | rmptcp/net/mptcp/mptcp_output.c:188-242 | What the queue holds after an insertion, number by number. |
| Reinject.ReinjectQueue.Step | rmptcp/net/mptcp/mptcp_output.c:117-243 | What each event does to the queue, and that one that cannot happen changes nothing. |
| Reinject.Run | rmptcp/net/mptcp/mptcp_input.c:230-243 | In every reachable state - segments taken back, heads split anywhere, heads taken, acknowledgements - the ends increase strictly, and right after a DATA_ACK no fully acknowledged segment is left. |
| Reinject.ReinjectQueue.CleanRtxQueue | rmptcp/net/mptcp/mptcp_input.c:173-255 | After a DATA_ACK no fully acknowledged segment is left, whatever was queued before; no unacknowledged byte is lost or added. |
| Reinject.ReinjectQueue.FragmentHead | rmptcp/net/mptcp/mptcp_output.c:514-565 | Splitting the head keeps the ends increasing and the bytes; a fully acknowledged segment is queued afterwards exactly when there was one or the cut is at or below `snd_una`. |
| Reinject.ReinjectQueue.TakeHead | rmptcp/net/mptcp/mptcp_output.c:667-754 | The head is taken for sending exactly when it is not already acknowledged. |
| OptionCodec.OptionRoundTrip | rmptcp/net/mptcp/mptcp_input.c:1876-2112 | Every option, read back by the parser, tells the receiver each field it carries. |
| OptionCodec.RoundTrip | rmptcp/net/mptcp/mptcp_input.c:2115-2144 | Any sequence of options, padding included and followed by anything, is learned option by option. |
| OptionCodec.ParseOptions | rmptcp/net/mptcp/mptcp_input.c:2115-2144 | The walker with its moving pointer computes the recursive reading of the header, on every header, malformed ones included, and whatever lies behind it in memory. |
| OptionCodec.ParseAtIsParseOne | rmptcp/net/mptcp/mptcp_input.c:1876-2112 | Subtype and DSS flags are looked at before the size of an option is tested; the result does not depend on what lies behind the option. |
| OptionCodec.LooksBehindIff | rmptcp/net/mptcp/mptcp_input.c:2126-2141 | The walker looks at bytes behind the header if and only if it comes to a lone kind byte, to an MPTCP option of two bytes, or to a DSS of at most three, at the very end. |
| OptionCodec.LoneKindLooksBehind | rmptcp/net/mptcp/mptcp_input.c:2133-2133 | A header of four bytes of which five are looked at. |
| OptionCodec.WalkForeign | rmptcp/net/mptcp/mptcp_input.c:2115-2144 | Options of other kinds are stepped over. |
| OptionCodec.DssRoundTrip | rmptcp/net/mptcp/mptcp_input.c:1966-2027 | The acknowledgement, the mapping, the checksum and DATA_FIN flags of a DSS option come back. |
| OptionCodec.WideDssRead | rmptcp/net/mptcp/mptcp_input.c:1998-2024 | Of a 64-bit data number the low word is kept, with the flag that there is a high one; length, DATA_FIN and checksum flag are read behind it. |
| OptionCodec.MappingRoundTrip | rmptcp/include/net/mptcp.h:1036-1055 | The mapping read at the remembered offset gives data number, subflow number and length back. |
| OptionCodec.RemovedExactly | rmptcp/net/mptcp/mptcp_input.c:2256-2274 | The ids read from a REMOVE_ADDR are exactly the set bits. |
| OptionCodec.SetBitsExact | rmptcp/net/mptcp/mptcp_output.c:1136-1163 | The list of set bits is increasing and complete. |
| OptionCodec.HandleRemAddr | rmptcp/net/mptcp/mptcp_input.c:2256-2274 | The loop over the ids reads all of them. |
| OptionCodec.AnnouncementReadBack | rmptcp/net/mptcp/mptcp_input.c:2168-2254 | The id, the address and the HMAC stand where they are read. |
| OptionWriter.ReceiverLearns | rmptcp/net/mptcp/mptcp_output.c:1040-1207 | Whatever combination of options a header carries, the receiver reads every field back; where MP_CAPABLE and MP_FASTCLOSE share the key, or MP_JOIN and MP_PRIO the priority, the later one stands. |
| OptionWriter.HeaderWriter.OptionsWrite | rmptcp/net/mptcp/mptcp_output.c:1040-1207 | The writer leaves in the header exactly the encodings of the options, one after the other. |
| OptionWriter.HeaderWriter.RemoveAddrBytes | rmptcp/net/mptcp/mptcp_output.c:1136-1163 | The loops over set bits and NOPs write the option and its padding. |
| OptionWriter.Subsock.EstablishedOptions | rmptcp/net/mptcp/mptcp_output.c:909-1026 | The bytes reserved are exactly the bytes the writer will take, in every state; they fit in the 40 bytes of the header if and only if the options added without a look at the room do (`ForcedSize`); MP_CAPABLE and MP_FASTCLOSE never come together. The address announced is the first that fits, before or behind the acknowledgement according to the version. |
| OptionWriter.FailWithDataTooLong | rmptcp/net/mptcp/mptcp_output.c:926-1023 | 48 bytes: with twelve taken, MP_FAIL and a mapped segment make 44, and the room left wraps. |
| OptionWriter.Subsock.AddrSignal | rmptcp/net/mptcp/mptcp_fullmesh.c:1540-1668 | The room taken for announced and removed addresses is what they will need, and only what fits is taken. |
| OptionWriter.EncodedLength | rmptcp/include/net/mptcp.h:358-430 | Each option takes the aligned length its constant says. |
| OptionWriter.EmittedLength | rmptcp/net/mptcp/mptcp_output.c:1040-1207 | The length of what is written is the sum over the flags. |
| OptionWriter.SaveDssDataSeq | rmptcp/net/mptcp/mptcp_output.c:394-403 | The twenty bytes saved with a segment, read at their places: acknowledgement, data number, subflow number (0 exactly on a DATA_FIN without data), length, and checksum or two NOPs. |
| OptionWriter.WriteDssDataSeq | rmptcp/net/mptcp/mptcp_output.c:406-422 | Only the acknowledgement of a saved option is changed when it is written. |
| OptionWriter.ReconstructIff | rmptcp/net/mptcp/mptcp_output.c:60-90 | The data range reconstructed from a saved option is the original one exactly when the length fits in 16 bits; an infinite mapping keeps only the start. |
| OptionWriter.LongSegmentForgotten | rmptcp/net/mptcp/mptcp_output.c:60-90 | A segment of 2^16 bytes whose range does not come back. |
| WireMappings.MappingArrives | rmptcp/net/mptcp/mptcp_output.c:394-422 | A segment mapped at the write position, its option saved, written into a header with the acknowledgement of the moment, walked and parsed: the receiver is told exactly the mapping recorded for the segment, however often the numbers have wrapped. |
| WireMappings.WalkSaved | rmptcp/net/mptcp/mptcp_input.c:2115-2144 | A header that starts with a saved option is read as its acknowledgement and its mapping. |
| RedundancyLoop.StepApproaches | rmptcp/net/mptcp/rmptcp.c:1026-1054 | One send moves the measured redundancy toward the goal without crossing the band [T-6, T+5], and never out of it. |
| RedundancyLoop.Converges | rmptcp/net/mptcp/rmptcp.c:1026-1054 | From any non-zero start the measure is in the band after at most as many sends as its distance, and at every later one. |
| RedundancyLoop.ConvergesExactly | rmptcp/net/mptcp/rmptcp.c:1258-1273 | It settles exactly when the target is a multiple of 100, and on all enabled subflows when the target is out of reach. |
| RedundancyLoop.BandIsTight | rmptcp/net/mptcp/rmptcp.c:1026-1054 | Both ends of the band are reached from inside. |
| RedundancyLoop.NeverSettlesBetween | rmptcp/net/mptcp/rmptcp.c:1026-1054 | A reachable target that is no multiple of 100 is never settled on. |
| RedundancyLoop.ZeroStart | rmptcp/net/mptcp/rmptcp.c:1050-1053 | The first send from zero lands less than one subflow above the goal. |
| Scheduler.Register.ScanAll | rmptcp/net/mptcp/rmptcp.c:1090-1137 | The scan with its in-place removals leaves exactly the entries not forgotten, refreshed and in order, and its counters are the numbers of Available and of Available and Main entries. |
| Scheduler.ScanExact | rmptcp/net/mptcp/rmptcp.c:1090-1137 | What the scan keeps and makes Available, entry by entry. |
| Scheduler.Register.Kick | rmptcp/net/mptcp/rmptcp.c:1158-1200 | The kick loop ends with max(q_control, available - main + 1) subflows and a main one; no kicked main subflow was used before one that is kept. |
| Scheduler.Register.FindLatest | rmptcp/net/mptcp/rmptcp.c:1165-1186 | The candidate found was used last; ties go to the first. |
| Scheduler.Register.CheckAvail | rmptcp/net/mptcp/rmptcp.c:1060-1273 | All outcomes of the choice: clamped control value, kicked register, timeouts, timer, measured redundancy. |
| Scheduler.Register.SendNext | rmptcp/net/mptcp/rmptcp.c:1395-1437 | One segment, whatever the register: the number of subflows chosen when the target is met, on timeout and otherwise; copies up to the first that fails; the measured redundancy afterwards. With every Available subflow a main one and the target met, exactly the number asked for is chosen and the measure makes exactly one step of the closed loop. |
| Scheduler.Register.SendSkb | rmptcp/net/mptcp/rmptcp.c:1395-1437 | Each Available subflow gets one copy, up to the first that cannot be made. |
| Scheduler.SentOnEach | rmptcp/net/mptcp/rmptcp.c:1395-1437 | When every copy succeeds, as many copies go out as subflows were Available, and none stays Available. |
| Scheduler.Register.InsertSk | rmptcp/net/mptcp/rmptcp.c:137-190 | The new entry lands in address order, between unchanged others, with the stale means of the slot. |
| Scheduler.Register.RemoveAt | rmptcp/net/mptcp/rmptcp.c:1100-1106 | Shifting down removes exactly one entry. |
| Scheduler.Register.SetEnableFlag | rmptcp/net/mptcp/rmptcp.c:195-224 | Mask bits become Enabled bits, a disabled entry is not main, and the count is the number of enabled ones. |
| Scheduler.Register.UpdateMain | rmptcp/net/mptcp/rmptcp.c:322-399 | In Recovery the main subflows are those in use, in Congestion the uncongested ones (all if there is none), else those that pass the comparison with the lowest round-trip time and the highest bandwidth; if any subflow is usable one is main, and nothing but Main bits changes. |
| Scheduler.MainIsComparable | rmptcp/net/mptcp/rmptcp.c:362-391 | Without wrap-around a main subflow is within ratio + 1 of the best in both respects, and what is within ratio is main. |
| Scheduler.AllMainCount | rmptcp/net/mptcp/rmptcp.c:1117-1136 | When every Available entry is main the two counters agree. |
| Scheduler.KickKeepsLatest | rmptcp/net/mptcp/rmptcp.c:1158-1200 | One more kick of the latest candidate keeps the order between kicked and kept. |
| FailureMachine.Run | rmptcp/net/mptcp/rmptcp.c:1536-1608 | Every run: its history obeys the transition relation, which says when the state must change and when it must stay; Cong bits exist only in Congestion, and Sub bits only there or in a recovery not yet noticed. |
| FailureMachine.BackToOpenTakesThreeHolds | rmptcp/net/mptcp/rmptcp.c:751-865 | From entering Congestion to Open takes more than three hold times, unless the meta socket is reset. |
| FailureMachine.BackToOpenThroughRecovery | rmptcp/net/mptcp/rmptcp.c:673-868 | Between Congestion and Open lies Recovery. |
| FailureMachine.SecondTimeoutIsCongestion | rmptcp/net/mptcp/rmptcp.c:608-868 | A timed-out send outside Congestion is noticed at once; the next send, timed out too, finds the connection in Congestion unless the first one already made it so and the hold has passed since. |
| FailureMachine.QuietRunOpens | rmptcp/net/mptcp/rmptcp.c:673-868 | The bound from above: after a congestion, sends without timeout, loss or collapse at most `gap` apart have opened the connection again by three hold times and a gap. |
| FailureMachine.QuietSince | rmptcp/net/mptcp/rmptcp.c:673-868 | Where such a run stands before. |
| FailureMachine.WaitingSince | rmptcp/net/mptcp/rmptcp.c:673-868 | What each state says about the time since the congestion began. |
| FailureMachine.ThreeHoldsIsTight | rmptcp/net/mptcp/rmptcp.c:751-865 | The bound is reached up to two nanoseconds. |
| FailureMachine.Monitor.CheckFailure | rmptcp/net/mptcp/rmptcp.c:673-868 | When the machine must move, on fields and measurements: a timeout gives Timeout or, beyond twice the largest period, Congestion; a second one Congestion; enough in-time sends Recovery; an event with collapsed utilisation Congestion, in Recovery a collapse alone; Congestion is left exactly when the hold has passed, Recovery to Open exactly after two holds without loss; otherwise it stays. |
| FailureMachine.Monitor.SocketEvents | rmptcp/net/mptcp/rmptcp.c:681-714 | The worst socket state among the enabled subflows, and the Cong bits of substitutes. |
| FailureMachine.Monitor.TimeoutToCongestion | rmptcp/net/mptcp/rmptcp.c:608-657 | The subflow blamed for a timeout is the suspect due first. |
| FailureMachine.Monitor.DueIs | rmptcp/net/mptcp/rmptcp.c:626-630 | When a suspect was due: microseconds since its last use, its mean period and (100 + margin) per cent of the variation. |
| FailureMachine.Monitor.AdaptPath | rmptcp/net/mptcp/rmptcp.c:955-1021 | Substitutes are exactly the paths that share one end with the first congested path and the other with the uncongested enabled path of the highest bandwidth, and exist only in Congestion afterwards. |
| FailureMachine.Monitor.BestHealthy | rmptcp/net/mptcp/rmptcp.c:981-992 | The substitute's pattern has the highest bandwidth, as long as bandwidths fit in 32 bits. |
| FailureMachine.Monitor.SendNextSegment | rmptcp/net/mptcp/rmptcp.c:1536-1608 | One call of the scheduler: a segment that waited longer than the largest period and its margin with fewer subflows usable than asked for is a timeout; the reaction to a timeout, to the worst socket event and to a collapse is stated outright; the call is one step of the history and keeps the bits right, after `rmptcp_adaptPath` strictly. |
| PathCheck.PathIndex.GetPathCombinations | rmptcp/net/mptcp/rmptcp_pathcheck.c:88-191 | With fewer than four source addresses the recorded masks are exactly the overlap-free combinations of the largest size, once each and increasing, if there are at most 24; with four or more, the empty combination alone. `fits` says exactly when the source stays within `pM`. |
| PathCheck.TooManyCombinations | rmptcp/net/mptcp/rmptcp_pathcheck.c:178-187 | Two sources and six destinations have more than 24 combinations: the source writes behind `pM`. |
| PathCheck.PathIndex.GetAddresses | rmptcp/net/mptcp/rmptcp_pathcheck.c:25-81 | The distinct addresses of both sides; the destinations are given up when there are too many sources. |
| PathCheck.PathIndex.UsesNoAddressTwice | rmptcp/net/mptcp/rmptcp_pathcheck.c:128-170 | The scratch-array test decides whether a mask selects an address twice. |
| PathCheck.WantedMasksExact | rmptcp/net/mptcp/rmptcp_pathcheck.c:88-191 | The specification list is increasing and contains a mask exactly if it is wanted. |
| PathCheck.OverlapFreeIsBounded | rmptcp/net/mptcp/rmptcp_pathcheck.c:103-127 | No overlap-free combination has more subflows than the smaller side has addresses. |
| PathCheck.OnlyEmptyMask | rmptcp/net/mptcp/rmptcp_pathcheck.c:103-127 | Looking for combinations of no subflow finds the empty mask only. |
| PathCheck.FourSources | rmptcp/net/mptcp/rmptcp_pathcheck.c:25-81 | Four subflows without a common address: their combination is wanted, but with four sources none but the empty one is recorded. |
| AddressEvents.Run | rmptcp/net/mptcp/mptcp_fullmesh.c:972-1008 | For every interleaving of reports and worker steps, table and waiting events together say of each address what the whole uncoalesced log says; a drained queue leaves exactly the log's table. |
| AddressEvents.FmNs.AddPmEvent | rmptcp/net/mptcp/mptcp_fullmesh.c:972-1008 | A new event decides about its address and about no other; the queue never holds two events for one address. |
| AddressEvents.FmNs.HandleEvent | rmptcp/net/mptcp/mptcp_fullmesh.c:667-787 | A worker step changes nothing for the reader unless the table is full; the sockets hear of it exactly when the table changed. |
| AddressEvents.FollowEvent | rmptcp/net/mptcp/mptcp_fullmesh.c:699-787 | The table follows the event; it is lost exactly when it brings a new address into a full table; no address occupies two slots. |
| AddressEvents.FmNs.Step | rmptcp/net/mptcp/mptcp_fullmesh.c:667-787 | With at most eight addresses of a family no event is lost. |
| AddressEvents.FindFreeIndex | rmptcp/net/mptcp/mptcp_fullmesh.c:112-131 | The first clear bit at or after the base, cyclically; none exactly when all are set. |
| AddressEvents.FindAddress | rmptcp/net/mptcp/mptcp_fullmesh.c:632-665 | Found exactly if the address is in the table. |
| AddressEvents.LastEventWins | rmptcp/net/mptcp/mptcp_fullmesh.c:972-1008 | What a log leaves of an address is what its last event about it says. |
| AddressEvents.AfterUpdate | rmptcp/net/mptcp/mptcp_fullmesh.c:984-1000 | Rewriting a waiting event in place acts like a new event at the end. |
| AddressEvents.RoomForOneMore | rmptcp/net/mptcp/mptcp_fullmesh.c:112-131 | One of at most eight addresses that is not in the table finds a free slot. |
| AddressEvents.NinthAddressLost | rmptcp/net/mptcp/mptcp_fullmesh.c:735-745 | A run of nine announcements: the ninth address never gets into the table. |
| SubflowWorker.FullmeshPriv.CreateSubflows | rmptcp/net/mptcp/mptcp_fullmesh.c:442-591 | The worker ends; over both families exactly the pairs tried are marked, each tried once, and unless it is cut short no pair is missing afterwards; the further subflows of the first pair are opened once, when there is a master socket. |
| SubflowWorker.FullmeshPriv.RetrySubflows | rmptcp/net/mptcp/mptcp_fullmesh.c:341-433 | Each pair to be retried, of either family, is tried once more, no other. |
| SubflowWorker.FullmeshPriv.CreateAndRetry | rmptcp/net/mptcp/mptcp_fullmesh.c:341-591 | Together: each missing pair once, then, if one was unreachable, each of those and each that waited before once more; no other pair at all. |
| SubflowWorker.FullmeshPriv.FindMissing | rmptcp/net/mptcp/mptcp_fullmesh.c:501-580 | The IPv4 and IPv6 bit loops find a missing pair exactly if there is one; the first-pair test in front of the IPv6 loop never holds. |
| SubflowWorker.LoggedMeans | rmptcp/net/mptcp/mptcp_fullmesh.c:319-340 | One call for an unreachable pair, else as many as subflows are wanted, and at least one; none for any other pair. |
| Balia.BaliaCa.RecalcAi | rmptcp/net/mptcp/mptcp_balia.c:77-161 | With windows below 2^31 bytes and at most 40 subflows no 64-bit operation wraps, no divisor is zero, at most six scalings are made, the increase is never faster than plain TCP, and the decrease lies between cwnd/2 and 3*cwnd/4. |
| Balia.NoFasterThanReno | rmptcp/net/mptcp/mptcp_balia.c:142-152 | The increase term is at least the window, whatever the rates. |
| Balia.RenoOnOnePath | rmptcp/net/mptcp/mptcp_balia.c:142-152 | With one path's rate alone it is exactly the window. |
| Balia.IncreaseExact | rmptcp/net/mptcp/mptcp_balia.c:142-149 | The increase is the published quotient, rounded down twice. |
| Balia.RateExact | rmptcp/net/mptcp/mptcp_balia.c:100-101 | The rate is the window in bytes per round-trip time, rounded down. |
| Balia.IncreaseFits | rmptcp/net/mptcp/mptcp_balia.c:146-149 | Every product of the increase fits in 64 bits. |
| Balia.FortyIsTheLimit | rmptcp/net/mptcp/mptcp_balia.c:146-149 | With 41 equal subflows it does not. |
| Balia.ScaleDown | rmptcp/net/mptcp/mptcp_balia.c:118-122 | The scaling loop ends after at most six steps, with a non-zero rate of at most 2^25. |
| Balia.DecreaseBounds | rmptcp/net/mptcp/mptcp_balia.c:154-156 | The bounds of the decrease. |
| Balia.DecreaseExact | rmptcp/net/mptcp/mptcp_balia.c:154-156 | Half the window on the fastest path, else three quarters, rounded down. |
| Balia.MeasureRates | rmptcp/net/mptcp/mptcp_balia.c:94-111 | The sum is exact, and the maximum is the rate of a subflow. |
| Balia.SumScaled | rmptcp/net/mptcp/mptcp_balia.c:124-140 | The scaled sum is exact. |
| Olia.OliaCa.GetEpsilon | rmptcp/net/mptcp/mptcp_olia.c:102-186 | The epsilons sum to exactly zero over the reals; positive shares go exactly to the best subflows off the largest window, negative ones exactly to those on it. |
| Olia.TotalCounts | rmptcp/net/mptcp/mptcp_olia.c:156-184 | The sum of the shares, counted out. |
| Olia.EqualShares | rmptcp/net/mptcp/mptcp_olia.c:174-180 | n shares of 1/(c*n) are 1/c. |
| Olia.FindBest | rmptcp/net/mptcp/mptcp_olia.c:115-131 | Without wrap-around the path found has the largest quotient of loss distance and squared round-trip time. |
| Olia.GetMaxCwnd | rmptcp/net/mptcp/mptcp_olia.c:84-100 | The largest window, that of a subflow in recovery being its slow-start threshold, attained by a subflow. |
| Olia.LossDistanceIs | rmptcp/net/mptcp/mptcp_olia.c:108-131 | The loss distance is the larger of the two numbers of bytes, across a wrap of the counters too. |
| Olia.OliaCa.CountSets | rmptcp/net/mptcp/mptcp_olia.c:134-154 | The `u8` counters are the sizes of the two sets for fewer than 256 subflows. |

## Left out

- Connection.Run: a premise guards its events: nothing alive (pending mappings, queued segments, the window edge) falls 2^31 or more behind the end of what was written. It cannot be dropped: a segment may stay in the out-of-order queue long after its bytes were received elsewhere, because an unsorted queue can hold it back (`MetaSock.HeldBackRun`). The event that would break it leaves the state as it is.
- Connection.Run: packets do not straddle mapping borders, as they are cut by a peer whose mappings tile the subflow; with packets that do, the statement is false (`Straddling.GapRun`, `ForeignRun`), and `PushedInsideIff`, `StraddlingHonestIff` and `StartKeptIff` say when. Checksums are off in the run; `DssChecksum` is about them.
- Connection.Run: says what is true of every run; what a run achieves is in `Endpoints.Step`, `Delivery.Transfer` and `Delivery.WriteAndRead`. That packets arrive at all is up to the network.
- Delivery.Transfer: the subflow is idle when the segment is sent; with earlier mappings queued `Endpoints.Step` says what is received. Data beyond `rcv_nxt` is in `Subflow.QueueSkb`.
- SubflowRx.Subflow.DetectMapping: an option with data length 0, which announces the infinite mapping, is not modelled.
- SubflowRx.Subflow.DataReady: a mapping taken over earlier whose option is no longer queued is covered by `Subflow.QueueSkb`. The pass-or-hold answers of the low-pass filter are a list given beforehand, at the end of which it lets go; its clock and learned timeout are not modelled.
- Infinite mappings, MP_FAIL on the receiving side, subflow FINs, time-wait sockets, direct copy to the user, memory accounting: not modelled; a segment's bytes and DATA_FIN are.
- DssChecksum.VerifDssCsum: an empty packet behind the head is not modelled; an honest peer sends none in the middle of a mapping.
- Straddling.PushedUpNoGapIff: nothing is out of order and nothing coalesces; `MetaReceive.PushInOrder` has both, for one packet.
- `mptcp_prevalidate_skb` (packets before the connection is fully established) is not modelled.
- Queues are sequences of values: unlinking by pointer, buffer sharing between clones and reference counts are not captured; the identity of buffers, which the shortcuts need, is.
- Allocation failures in `mptcp_skb_split_tail`, `add_pm_event` and the worker's copy of the address table: taken to succeed. A failing copy in the scheduler is modelled.
- SendHighOrder.MetaSend.SendHead: less than 2^31 bytes are in flight; goes on from states in which array and bits are right, and says exactly when they still are.
- OptionWriter: bits that the writer leaves as they were in memory (the backup bit of a third-ACK MP_JOIN) are written as zero; the HMACs and keys are opaque bytes.
- OptionWriter.HeaderWriter.OptionsWrite: an MP_CAPABLE or MP_JOIN without any packet type is not modelled, because no caller sets it.
- `mptcp_parse_addropt`, the second walker for headers with several address options, is not modelled.
- `tcp_options_write` and `tcp_parse_options`, which surround the MPTCP options, are not part of this repository.
- RedundancyLoop: one round uses exactly the clamped control value; `Scheduler.Register.SendNext` says when the scheduler does that, and what it does otherwise.
- Scheduler.Register.InsertSk: requires room in the register; the source does not check `MAX_NUM_RED_SK`.
- Scheduler: `rmptcp_is_available` is an answer of the socket; bandwidth and period measurement are inputs.
- FailureMachine.Run: adaptive paths are on, adaptive redundancy and the path checker are off, and the settings are constant. A newcomer that would not fit in the register is skipped. `send_period_max` is an input of each call.
- FailureMachine.Monitor.TimeoutToCongestion: the sums of times are not wrapped at 64 bits.
- PathCheck.PathIndex.GetPathCombinations: the model stops at the first combination that has no room in `pM`; the source writes on.
- PathCheck: the measurements attached to each combination and the switching between combinations are not modelled.
- AddressEvents.Run: each address is always reported on the same interface, and at most eight addresses of a family occur; without the second `FollowEvent` tells what is lost. Telling the sockets about an event is not modelled.
- AddressEvents: nothing is said about address ids being unique across families; 4-byte and 16-byte ids can coincide.
- SubflowWorker: address sets do not change while a worker runs.
- Balia.BaliaCa.RecalcAi: the window of each subflow in bytes is below 2^31 and the own window at most 2^25 packets; wider ones can wrap.
- Olia: only the epsilons; the increase of the window uses 64-bit products that wrap and is left out.
- Sysctl and /proc interfaces, locks, RCU, timers, socket creation, the other path managers and schedulers, the control-centre programs.
