# Verified model of the streaming protocol

A server captures its screen, encodes it and streams it as RTP packets; a client decodes and shows it. This project
models the parts that have to agree with each other, in Dafny, and proves what they guarantee together.

**Sender and receiver.** `LVErasureManager` groups RTP packets into blocks of k (4), puts a 37-byte header before
each, and sends r (2) recovery datagrams for a block just before the first packet of the next one. `decode_loop`
hands packets on as they come in order, holds back everything after a gap, and repairs the block when a datagram of
another block arrives. `k` and `r` are symbolic, at least 1. The model works on bytes: what the channel delivers is
an arbitrary subsequence of the byte strings the sender emits.

**Feedback and bitrate.** The receive loop counts packets, blocks, out-of-order blocks and failures, and shares the
counts with a reporting thread under a lock; the server cuts or raises its bitrate by the reports.

**Display.** A double buffer between the decoder thread and the UI.

## How it is built

- `Bytes`, `Arith`, `Header`: machine integers, padding, the header codec (written and read in place).
- `Erasure`: the erasure code as a pair of functions and named hypotheses: `Restores` (any k distinct shards
  determine the originals), `Refuses` (fewer give an error), `ZeroTail` (recovery bytes past the longest payload are
  zero), `LocalTo` (symbols take g neighbouring bytes).
- `Stream`: blocks, the datagram at each place of a block, and when the receiver rebuilds the sender's shard.
- `Schedule`, `Sender`: the order of the wire and the class `ErasureManager`, whose invariant ties its reused buffer,
  size table and encoder to the stream sent so far.
- `Video`, `Receiver`: depacketizing, and one pass of the receive loop as a function. `ReceiveLoop` is the loop itself:
  a class with the loop's variables, its byte buffer and queue as arrays, and methods proved to do what `Receiver` says.
- `Arrival`, `BlockRun`, `BlockArrival`, `Session`: what an order of arrival means for one block, and for a run, with
  any fragment and any queue left over from before.
- `BlockOrder`, `EndToEnd`, `Reordering`, `Channel`: runs block by block, the specification, the refinement, tolerance, the
  limits under reordering, and both ends put together.
- `Signals`, `Feedback`, `Turns`, `ControlLoop`, `Controller`: what the counters say, the shared packet under every
  interleaving, the loop and the reporting thread taking turns, and the bitrate controller (`FeedbackServer` is its loop).
- `Display`: the double buffer and the two threads, one memory access or lock operation at a time.
- `Field256`, `Raid`, `Examples`: a concrete code and packet format that meet every hypothesis, and one that does not.

## What came out

- Tolerance holds exactly as intended without reordering. With reordering inside a block it does not, and how it fails is
  decided by the fragment p the receiver remembers when it enters a block: a block gives a gap-free prefix of itself if and only
  if p = k - 1 or its first original to arrive is not p + 1 (`Reordering.PrefixExactlyWhen`). A complete block whose originals
  did not come in order loses what is after the first gap, and unless its last original came last, the next block can
  be lost too, even complete and in order, or hand on packets of an earlier block from the queue, which is never cleared. `Channel.StaleOnTheWire` and
  `Channel.SpoiledOnTheWire` are two such runs, with the sender's own datagrams; in the second nothing is lost.
- Under reordering the count of lost packets can fall below zero, and the report then says nearly 2^16
  (`BlockArrival.WrapsExactlyWhen`, `Signals.LostTelescopes`).
- A datagram that comes twice while the receiver is in its block ends the receive loop (`Session.RunsExactlyWhen`).
- Cutting recovery shards at the longest payload rests on the code's symbol layout. `Stream.ShardAgreement` says
  exactly when it is harmless, `Examples.OddCutLoses` shows that it need not be. The theorems on the whole channel name this
  hypothesis (`CutsFitKept`), for the blocks of which a recovery datagram arrives.
- Reports are windows of datagrams, but consecutive windows meet only if the decoder writes the shared packet at most once
  between two reports. With more writes, datagrams are left out of all reports or reported twice
  (`Feedback.ReportsFollow`, `Feedback.ReportsSkip`, `Feedback.ReportsRepeat`).
- The controller's floor is 12000, not the 20000 in the code, until a raise wraps round a u32 (`Controller.RateFloor`,
  `Controller.FloorBroken`), and its middle branch is dead. The comment above the
  controller (server/src/server/feedback_server.rs:95-98) describes other thresholds and steps than the code has; the
  model follows the code.

## Model

| member | source | states |
|---|---|---|
| Channel.WireTolerance | client/src/decoder/video.rs:303-444 | Sender, lossy channel and receiver together, for every stream, every set of surviving datagrams: if at most r of the k + r datagrams of every block before the one reached were dropped, the decoder is handed exactly a prefix of the stream: all of those blocks, then the packets of the block reached up to the first one dropped |
| Channel.WireRefinement | client/src/decoder/video.rs:303-444 | For any loss at all: the receiver does not stop, and hands on exactly what the declarative specification says of the surviving slots (a finished block whole if k of its datagrams came, otherwise its gap-free prefix; then the prefix of the current block) |
| Channel.DecoderFed | client/src/decoder/video.rs:188-211 | For any loss: the H.264 decoder inputs plus the pending buffer are the depacketized bytes of the packets specified, no input is empty, inputs end where partition heads start and at every one of them |
| Channel.PickedCarry | server/src/packager/packet.rs:60-179 | Whatever is picked of the sender's wire, in any order, is a sequence of datagrams from which the receiver can rebuild the sender's shards |
| EndToEnd.Refinement | client/src/decoder/video.rs:304-370 | The same refinement for a receiver fed datagrams of any stream, lost but not reordered; the decoder's state is that of being handed the specified packets |
| EndToEnd.Tolerance | client/src/decoder/video.rs:303-444 | If no finished block lost more than r datagrams, everything sent before the current block comes out once and in order, followed by the current block up to its first gap |
| EndToEnd.OrderedSubsequence | client/src/decoder/video.rs:304-370 | Whatever is lost, the packets handed on are packets of the stream at strictly increasing positions: none twice, none out of order |
| Session.RunFollows | client/src/decoder/video.rs:276-491 | Induction over the run: after datagrams in any order, within blocks and across them, none twice while the receiver is in its block, the receiver's whole state is the one the arrivals determine, and so are its counters |
| Session.RunHands | client/src/decoder/video.rs:276-491 | For every such order: what is handed on is what each visit to a block yields when it is left, given the fragment and the queue the visit started with, then what of the current block came in turn |
| Session.RunsExactlyWhen | client/src/decoder/video.rs:382-400 | The loop goes on to the end if and only if no datagram comes twice while the receiver is in its block; the second one ends it |
| BlockOrder.RunHandsBlocks | client/src/decoder/video.rs:276-491 | Block by block, in any order inside a block as long as a complete block ends with its last fragment: each block left gives its first packets, their number by its own order of arrival alone |
| BlockArrival.DatagramArrives | client/src/decoder/video.rs:374-485 | A datagram of the current block, in any order of arrival, moves the receiver to the state of the longer arrival order; the next packet in turn is acknowledged with its own number and time; a packet put aside adds an amount that with the fragment expected makes its own modulo 2^32, and nothing else adds any |
| BlockArrival.WrapsExactlyWhen | client/src/decoder/video.rs:407-423 | In any order of arrival: a packet adds its distance from the fragment expected, and 2^32 less that if it is behind it |
| BlockArrival.BlockLeft | client/src/decoder/video.rs:305-354 | Leaving a block after any order of arrival and whatever fragment and queue it was entered with: its yield has been handed on, the out-of-order and failure counts say whether an original or too much was missing, and tracker and queue are what the order says |
| BlockArrival.SenderCarries | server/src/packager/packet.rs:87-121 | Header, padded payload and payload of each of the sender's datagrams are those the receiver needs: index, flag, sizes of that same block, the sender's shard, a packet that reads back |
| BlockRun.NextArrives | client/src/decoder/video.rs:439-444 | The next packet in order is handed on at once and the block invariant kept |
| BlockRun.OtherArrives | client/src/decoder/video.rs:404-437 | Any other packet goes to its own queue slot, is not handed on, and the block invariant is kept |
| BlockRun.RecoveryArrives | client/src/decoder/video.rs:382-394 | A recovery datagram adds its shard and the size table of its own block |
| BlockRun.RestoreFills | client/src/decoder/video.rs:318-330 | Restoring writes exactly the slots of the missing originals, each with the packet sent, and no other slot |
| BlockRun.NoStaleSlot | client/src/decoder/video.rs:316-345 | In a block whose packets in turn started with fragment 0, as they do when it is entered after fragment k - 1, every queue slot from the first gap on holds this block's packet after recovery, though the queue is never cleared; for other entries see `Reordering.StaleExactlyWhen` |
| BlockRun.LeaveRestored | client/src/decoder/video.rs:316-353 | With an original missing and k shards there, the whole block has been handed on, in order, once the block is left |
| BlockRun.LeaveFailed | client/src/decoder/video.rs:347-353 | With fewer than k shards nothing more is handed on and one failure is counted |
| BlockRun.LeaveComplete | client/src/decoder/video.rs:307-308 | With all originals there the recovery test is false and nothing changes |
| Arrival.IncreasingYield | client/src/decoder/video.rs:304-370 | Without reordering: the whole block if k datagrams arrived, otherwise the packets before the first one missing |
| Reordering.PrefixExactlyWhen | client/src/decoder/video.rs:415-444 | In any order of arrival, p being the previous fragment when the block is entered: the block gives the decoder a gap-free prefix of itself, or all of it, if and only if p = k - 1 or the first original to arrive is not p + 1 |
| Reordering.SafeYields | client/src/decoder/video.rs:305-444 | What it gives then: all of it if it is repaired; otherwise what came in turn for p = k - 1, and nothing for another p |
| Reordering.StaleExactlyWhen | client/src/decoder/video.rs:316-345 | Old queue slots are handed on with a block if and only if it is repaired, was entered with p not k - 1, and its first original to arrive was p + 1 |
| Reordering.WholeExactlyWhen | client/src/decoder/video.rs:304-444 | In any order of arrival and for any p: a block left was delivered whole if and only if k datagrams arrived and, all originals among them, p = k - 1 and they came in order, or, some original missing, p = k - 1 or p + 1 did not come first |
| Reordering.ReorderedBlockLost | client/src/decoder/video.rs:404-437 | Limit of the code: of a block entered with p = k - 1, if all originals arrive but a later one arrives first, nothing is ever delivered |
| Reordering.NextBlockSpoiled | client/src/decoder/video.rs:415-437 | Limit of the code: a block entered with p less than k - 1, all its originals coming in order, gives nothing, and the block after it is entered with k - 1 again |
| Reordering.SafeOrder | client/src/decoder/video.rs:276-491 | Over whole runs, block by block: if every block was entered with p = k - 1 or did not start with p + 1, the packets handed on are packets of the stream at strictly increasing positions, however many blocks were reordered |
| Channel.StaleOnTheWire | client/src/decoder/video.rs:307-345 | Limit of the code, with the sender's own datagrams from the start: block 0 arriving as 0, 2, 3, 1 and block 1 as 2, 3 and its recovery datagrams, packets 0, 6, 7, 2, 3, 8 are handed on, two of them stale, and 4 and 5 never |
| Channel.SpoiledOnTheWire | client/src/decoder/video.rs:307-437 | Limit of the code, nothing lost: two neighbouring datagrams of block 0 exchanged, only packets 0, 1 and 8 of the first nine are handed on |
| Receiver.StepWellFormed | client/src/decoder/video.rs:301-444 | For any bytes received: total less recovery packets is the number of distinct originals and equals in-order plus out-of-order; each pass counts one packet, a failure only with an out-of-order block, that only with a new block |
| Receiver.RunWellFormed | client/src/decoder/video.rs:276-491 | The same counter meaning in every state any run reaches |
| Receiver.LostIsDistance | client/src/decoder/video.rs:404-423 | For every state and every packet: put aside, the amount it adds and the fragment expected sum up to its own fragment modulo 2^32; handed on, it adds nothing |
| Receiver.AcksExactlyWhen | client/src/decoder/video.rs:439-485 | A pass acknowledges if and only if it hands on the datagram's own packet, and then that packet's sequence number and the header's timestamp |
| Receiver.DatagramSays | server/src/packager/packet.rs:87-161 | Read from a datagram of the sender: its block, its index, its flag, the sizes, the time it was stamped with, and the packet itself |
| Receiver.EndsExactlyWhen | client/src/decoder/video.rs:374-440 | For any bytes of the current block: the loop ends if and only if they are too short or too long, name a shard out of range or held already, or carry a packet that cannot be read or, being next in turn, be depacketized; each with its own error |
| Receiver.StoresExactly | client/src/decoder/video.rs:374-440 | For any bytes of the current block that are accepted: the padded payload is the one shard added, under the index named; a recovery datagram brings the sizes of its own header; a packet becomes the previous one and waits in its own queue slot unless it was handed on; nothing else is stored |
| Receiver.EntersThenStays | client/src/decoder/video.rs:303-370 | For any bytes of another block: if the old one cannot be left the loop ends so, and otherwise they do what they would do in the new block, still empty, with one block counted |
| Receiver.LeavingEndsExactlyWhen | client/src/decoder/video.rs:307-353 | Leaving a block ends the loop if and only if an original is missing, the code restores it, and what it restores cannot be read back or depacketized; it counts one failure exactly if the code refuses |
| Receiver.RestoreFailsExactlyWhen | client/src/decoder/video.rs:318-330 | Restoring fails if and only if some restored shard is shorter than its size or holds no packet |
| Receiver.EnterWellFormed | client/src/decoder/video.rs:303-370 | Entering a block keeps the counters' meaning, ends in the block named, counts at most one out-of-order block and at most that as failures |
| Stream.ExpectedIsNext | client/src/decoder/video.rs:415 | The fragment expected next is the previous one plus one, modulo k |
| ReceiveLoop.DecodeLoop.constructor | client/src/decoder/video.rs:249-274 | The loop starts in the initial state, counters zero |
| ReceiveLoop.DecodeLoop.RestoreSlots | client/src/decoder/video.rs:318-330 | The in-place loop over restored shards computes the specified queue, or stops exactly when a shard cannot be read back |
| ReceiveLoop.DecodeLoop.HandRest | client/src/decoder/video.rs:337-345 | The loop over the queue from the first gap hands on exactly those packets, stopping at the first error |
| ReceiveLoop.DecodeLoop.RecoverBlock | client/src/decoder/video.rs:305-354 | The recovery branch, with its counters, is the specification's |
| ReceiveLoop.DecodeLoop.EnterBlock | client/src/decoder/video.rs:303-370 | A new block id leaves the old block and resets everything but queue and sizes; nothing changes otherwise |
| ReceiveLoop.DecodeLoop.FillBuffer | client/src/decoder/video.rs:374-375 | Whatever the buffer held, it then holds the payload followed by zeros |
| ReceiveLoop.DecodeLoop.TakeRecovery | client/src/decoder/video.rs:382-394 | A recovery datagram is accepted or rejected as specified |
| ReceiveLoop.DecodeLoop.TakeOriginal | client/src/decoder/video.rs:396-444 | A packet is rejected, put aside or handed on as specified; the lost count wraps as a u32 |
| ReceiveLoop.DecodeLoop.Publish | client/src/decoder/video.rs:456-486 | The counters are written over the shared packet and start afresh exactly if it had been cleared |
| ReceiveLoop.DecodeLoop.Pass | client/src/decoder/video.rs:298-490 | One pass over buffers, queue, shards and shared packet is one step of the specification and one turn of the feedback protocol |
| ReceiveLoop.DecodeLoop.ValidPass | client/src/decoder/video.rs:298-490 | The same, keeping the invariant that the counters mean what they should |
| ReceiveLoop.Decode | client/src/decoder/video.rs:276-491 | The loop and the reporting thread over any list of turns: while no pass fails, the loop is in the run's state, its counters and the shared packet are those of the feedback protocol for these turns, and what the datagrams counted for is what they count for in the run; when one fails it ends with the run's error, and the reporting thread goes on; in either case what was sent is what the protocol sends |
| Stream.BlockIsStretch | server/src/packager/packet.rs:126-131 | Block m of a stream is its packets m k to m k + k, or what there is of them |
| Stream.ShardAgreement | server/src/packager/packet.rs:101-123 | The same for all recovery datagrams of a block if and only if the cut at the longest payload removes only zeros |
| Stream.ZeroTailFits | server/src/packager/packet.rs:109-112 | The sender's own assumption about the code (recovery bytes past the longest payload are zero) makes every cut harmless |
| Stream.LocalCutFits | server/src/packager/packet.rs:109-112 | For a code whose symbols take g neighbouring bytes: a cut at a multiple of g is harmless |
| Schedule.ClosedForm | server/src/packager/packet.rs:66-131 | The i-th datagram on the wire is at place i mod (k + r) of block i div (k + r); after n packets the recovery datagrams of a block just filled are not out yet |
| Schedule.ScheduleInOrder | server/src/packager/packet.rs:66-131 | No (block, place) is ever used twice, and later datagrams have later places |
| Schedule.BlockGrows | server/src/packager/packet.rs:126-131 | A packet sent joins one block, at the next place, and touches no other block |
| Schedule.WireStays | server/src/packager/packet.rs:175-178 | Datagrams already sent stay the right datagrams of the longer stream |
| Sender.ErasureManager.constructor | server/src/packager/packet.rs:38-54 | A new sender has sent nothing and is consistent |
| Sender.ErasureManager.EmitRecovery | server/src/packager/packet.rs:82-121 | The loop emits, through one reused buffer, r datagrams with indices 0 to r - 1, the block's id and sizes, and the shards cut to the longest payload; the running index is back where it was |
| Sender.ErasureManager.SendRecovery | server/src/packager/packet.rs:78-124 | For a complete block these are its recovery datagrams, and encoder and longest payload start afresh |
| Sender.ErasureManager.SendRegular | server/src/packager/packet.rs:133-178 | The datagram is the packet's own, and the encoder, size table and longest payload are those of the block with the packet added: nothing left in the buffer leaks into either |
| Sender.ErasureManager.SendLvPacket | server/src/packager/packet.rs:60-179 | Every call keeps: the wire is the schedule's, each slot holding its datagram; what the sender remembers is the open block. It emits the pending recovery datagrams and the packet's datagram with the times given |
| Sender.WireGrows | server/src/packager/packet.rs:60-179 | A call extends the wire by exactly the slots the schedule gives the packet |
| Sender.RemembersMore | server/src/packager/packet.rs:134-173 | Shards, sizes and longest payload of a block grown by a packet |
| Sender.RecoverySays | server/src/packager/packet.rs:87-98 | Recovery datagram j of a block says its block, its index j, the sizes of that block and the time read for it |
| Sender.PacketSays | server/src/packager/packet.rs:141-154 | A packet's datagram says its block, its fragment and the time read for it |
| Sender.BufferHolds | server/src/packager/packet.rs:159-173 | A buffer with a header and a payload in front: its rest is the padded payload if and only if only zeros follow, which is why the sender clears it |
| Sender.SameShard | server/src/packager/packet.rs:159-173 | The shard the encoder is given with a packet is the one the receiver makes of that packet's datagram by zero padding, if and only if the sender's buffer was zero behind the datagram |
| Header.DecodedOfEncoded | net/src/packet.rs:46-106 | Reading a written header gives it back, and the payload starts right behind it, whatever the number of packet sizes |
| Header.EncodedOfDecoded | net/src/packet.rs:46-106 | A header read from bytes re-encodes to those bytes if and only if its flag byte is 0 or 1 |
| Header.EncodedExample | net/src/packet.rs:46-78 | A header written out byte by byte: the fields in their order, each with its highest byte first |
| Header.ToBytes | net/src/packet.rs:46-78 | The moving-cursor writer fills exactly the header's bytes and leaves the rest of the buffer alone |
| Header.FromBytes | net/src/packet.rs:80-106 | The fixed-offset reader with its loop over sizes computes the decoded header |
| Header.BuiltSizes | net/src/packet.rs:9-10 | 37 header bytes and 1216-byte shards for the built-in constants |
| Header.SimdPacketSizeIsLeast | net/src/packet.rs:9-10 | The shard size is the least multiple of 64 that holds a datagram's payload |
| Bytes.PaddedCut | client/src/decoder/video.rs:374-375 | Cutting and zero padding restores a shard exactly when the cut removed only zeros |
| Video.DecoderInputs | client/src/decoder/video.rs:108-113 | For every run of packets, until one is rejected: decoder inputs and pending bytes concatenate to the depacketized stream, no input is empty, inputs end where partition heads start, and everything before a head has gone to the decoder |
| Video.HandConcat | client/src/decoder/video.rs:97-219 | Handing on two runs one after the other is handing on their concatenation |
| Video.RejectedAddsNothing | client/src/decoder/video.rs:108-211 | A packet the depacketizer rejects adds no byte to inputs and buffer, though one that opens a partition still empties the buffer into the decoder |
| Video.VideoDecoder.DepacketizeDecode | client/src/decoder/video.rs:97-219 | The method's effect on saved fragment, buffer and decoder inputs, and when it fails |
| Signals.CongestionSignals | client/src/decoder/video.rs:305-351 | Over the blocks entered and left: total blocks is their number, out-of-order blocks the number missing an original, failures the number with fewer than k datagrams |
| Signals.WindowSignals | client/src/decoder/video.rs:305-351 | The same for every stretch of the run: what it counts are the numbers of such blocks left in it |
| Signals.LossAccounting | client/src/decoder/video.rs:407-409 | Without reordering the lost packets of a run are, block by block, the originals missing below the highest one received; losses at the end of a block are not counted |
| Signals.WindowLoss | client/src/decoder/video.rs:407-423 | The same for every stretch of a run without reordering: its lost packets are the originals that turned out missing in it |
| Signals.LostTelescopes | client/src/decoder/video.rs:407-423 | In any order of arrival, within blocks and across them: the lost packets counted are, modulo 2^32, the sum over the visits of the last fragment, less the one remembered before, less the originals that came, plus k for each time the count went round; below zero it wraps |
| Signals.TelescopedIs | client/src/decoder/video.rs:407-423 | That sum for one visit in closed form: which of the rounds there are is decided by the fragment remembered before it and by whether fragment k - 1 came, but not last |
| Signals.NoUnderflow | client/src/decoder/video.rs:422-423 | Without reordering the subtraction in the lost count never underflows |
| Signals.NumberIsSize | client/src/decoder/video.rs:305-351 | The numbers above are sizes of sets of blocks |
| Feedback.EveryReportIsAWindow | client/src/decoder/feedback.rs:41-70 | Under every interleaving of decoder and reporting thread: each report is, as u16 sums, what one contiguous stretch of datagrams counted for, or zeros |
| Feedback.ReportFields | client/src/decoder/feedback.rs:41-70 | Every report field by field, under every interleaving: lost packets, blocks, out-of-order blocks, failures and packets of its stretch, each modulo 2^16, and the quantum of 1000 in all but the first |
| Feedback.ReportsFromLastReset | client/src/decoder/video.rs:456-486 | Each such stretch starts at a reset of the counters and contains no other reset |
| Feedback.CoversAlways | client/src/decoder/video.rs:456-486 | At every moment the counters are the totals since the last reset and the shared packet those of its stretch |
| Feedback.EveryReportIsNested | client/src/decoder/feedback.rs:41-70 | Under every interleaving, for every report sent whose stretch has fewer than 0x10000 datagrams: failures <= out-of-order blocks <= total blocks <= total packets = datagrams covered |
| Turns.PassesOfRun | client/src/decoder/video.rs:276-491 | Whatever the turns of the two threads, what the datagrams count for in the feedback protocol is what they count for in the receiver's run |
| Turns.SentAreReports | client/src/decoder/feedback.rs:42-63 | Every other message is the feedback packet of a report, one to each turn of the reporting thread |
| Turns.SentAcks | client/src/decoder/feedback.rs:65-72 | Under every interleaving: the message after report i is the acknowledgement of the last packet handed on before that report while the lock was free, or zeros if there was none |
| Turns.SentAcksOfRun | client/src/decoder/video.rs:484-485 | In every run of the receiver: it is the sequence number and the timestamp of the last datagram before that report whose packet was handed on on arrival while the lock was free |
| Turns.ReportsOfRunNested | client/src/decoder/feedback.rs:41-70 | So every report of every run of the receiver has its counts in that order |
| Feedback.RunIsNested | client/src/decoder/video.rs:301-350 | The receiver's passes have that order in every run |
| Feedback.ReportsFollow | client/src/decoder/video.rs:459-482 | How consecutive non-empty reports are related: written once after one write, the stretches meet; written once after several, the later repeats all of the earlier; written several times, something in between is in no report |
| Feedback.ReportsTileExactlyWhen | client/src/decoder/video.rs:459-482 | The reports cover the datagrams end to end if and only if the decoder writes the packet at most once between two reports |
| Feedback.ReportsCountOnce | client/src/decoder/video.rs:459-482 | In that case every datagram up to the last stretch is counted exactly once |
| Feedback.ReportsSkip | client/src/decoder/video.rs:459-482 | A run in which two of six datagrams are in no report |
| Feedback.ReportsRepeat | client/src/decoder/video.rs:459-482 | A run in which two of four datagrams are reported twice |
| Feedback.SharedFeedback.Report | client/src/decoder/feedback.rs:42-74 | The critical section sends the packet, clears it and sets its quantum, and sends the acknowledgement unchanged |
| ControlLoop.CongestedExactlyWhen | server/src/server/feedback_server.rs:100-112 | A report on fewer than 1000 blocks and 0x10000 datagrams is congestion exactly when some block was out of order |
| ControlLoop.ReportSays | server/src/server/feedback_server.rs:100-112 | From the network to the server: every report of a run, if its stretch has fewer than 0x10000 datagrams, counts the blocks left in that stretch, those of them missing an original and those beyond repair |
| ControlLoop.ReportLost | client/src/decoder/video.rs:407-470 | From the network to the server, without reordering: the lost packets of every report are, modulo 2^16, the originals that turned out missing in the stretch it covers |
| ControlLoop.IncompleteBlocksLowerTheRate | server/src/server/feedback_server.rs:100-151 | From the network to the bitrate, for every report whose stretch has fewer than 0x10000 datagrams: the rate goes down, or to its minimum, if and only if more than one in a thousand of the blocks left in the stretch missed an original or one was beyond repair; with fewer than 1000 blocks left in it, if and only if one missed an original |
| Controller.CongestionTest | server/src/server/feedback_server.rs:100-112 | For every rounding to floats that keeps the order and the two floats next above 0.001: the test on the rounded quotient, with 0/0 and n/0, is 1000 out-of-order > total or failures > 0 for all u16 counts |
| Controller.MiddleBranchDead | server/src/server/feedback_server.rs:136-138 | The branch between 0.15 and 0.2 is never taken |
| Controller.WrittenIsAdjusted | server/src/server/feedback_server.rs:110-151 | The three branches of the code do what the two that can be taken do |
| Controller.RunPatient | server/src/server/feedback_server.rs:118-143 | The count of clean reports stays below the patience in every run, so the test for equality never skips its target; the patience never falls |
| Controller.CleanRun | server/src/server/feedback_server.rs:139-149 | Closed form of q clean reports: (survived + q) div patience raises of 100000 and (survived + q) mod patience left over |
| Controller.RaiseNeedsPatience | server/src/server/feedback_server.rs:139-149 | A raise comes only after as many consecutive clean reports as the patience then asks for |
| Controller.PatienceGrows | server/src/server/feedback_server.rs:129-130 | After n cuts the patience is at least 10 * 1.7^n, or the largest u32 |
| Controller.CutExactly | server/src/server/feedback_server.rs:111-135 | Congestion takes rate and patience to 3 and 9 fifths, rounded down, the patience no higher than a u32; below 20000 it sets the rate and leaves the patience; nothing else changes the patience |
| Controller.RateBound | server/src/server/feedback_server.rs:27-31 | In every run the rate is at most 900000 + 100000 (clean reports / 10) |
| Controller.RateFloor | server/src/server/feedback_server.rs:111-145 | In every run: the rate has never been below 12000 if and only if no raise came at a rate from which adding 100000 leaves u32 by less than 12000 |
| Controller.FewReportsKeepFloor | server/src/server/feedback_server.rs:111-145 | So it has not in the first 429409 clean reports |
| Controller.FloorBroken | server/src/server/feedback_server.rs:142-145 | A run that breaks the floor: after five congested and 7859667 clean reports the sum wraps and the rate is 2688 |
| Controller.FewReportsFit | server/src/server/feedback_server.rs:142-145 | No raise leaves u32 in the first 429409 clean reports |
| Controller.FloorReached | server/src/server/feedback_server.rs:120-135 | From the start, ten congested reports bring the rate to 12000; after eight it is 15116, below the 20000 the code calls its minimum, and the patience 1065 |
| Controller.CongestedConverges | server/src/server/feedback_server.rs:111-135 | Unbroken congestion brings any rate to 20000 within n + 1 reports, where rate * 0.6^n is below 20000 |
| Controller.CongestedSettles | server/src/server/feedback_server.rs:111-135 | 26 congested reports are enough for any rate |
| Controller.CycleFrom | server/src/server/feedback_server.rs:111-135 | From there the rate alternates between 12000 and 20000 for as long as congestion lasts |
| Controller.FailuresFlushedAtOnce | server/src/server/feedback_server.rs:153-176 | The held back failure count is zero after every report, and flushed failures equal reported ones |
| Controller.OutOfOrderConserved | server/src/server/feedback_server.rs:153-176 | Flushed plus held back out-of-order counts equal the reported ones, as u16 sums |
| Controller.FlushesAre | server/src/server/feedback_server.rs:157-170 | Entry i of the statistics comes with the report that changes the rate for the i-th time, and carries the rate before it |
| Controller.OneFlushEach | server/src/server/feedback_server.rs:157-170 | There is one entry to each change of the rate |
| Controller.FeedbackServer.constructor | server/src/server/feedback_server.rs:27-31 | The loop starts from 900000 while the shared rate starts at 80000 |
| Controller.FeedbackServer.HandleReport | server/src/server/feedback_server.rs:100-176 | One report: new rate, patience, sums and statistics as specified; the shared rate is the loop's |
| Controller.FeedbackServer.HandleFeedback | server/src/server/feedback_server.rs:42-192 | Over everything read: state, shared rate and statistics are those of the run over the reports that could be decoded (`ReportsAreDecodable`); the shared rate stays 80000 until the first one |
| Controller.ReportsAreDecodable | server/src/server/feedback_server.rs:76-84 | The reports of the run are those of the decodable messages, whatever they say, in order, none left out, and nothing else |
| Controller.IdleLinkRaises | server/src/server/feedback_server.rs:100-145 | Reports on no block at all count as clean: after ten of them the rate is 1000000 |
| Display.DoubleBuffer.Initialize | client/src/double_buffer.rs:41-52 | Two distinct zeroed frames |
| Display.DoubleBuffer.PresentFrame | client/src/decoder/video.rs:115-173 | Setting up if need be, converting byte by byte and swapping, in place on the two frames, is step by step the decoder's path in the machine the interleaving theorems are about, and ends with the frame in front; the two buffers have changed places |
| Display.Always | client/src/double_buffer.rs:59-61 | In every interleaving of decoder and UI steps, byte by byte: taking the back lock never fails |
| Display.NeverShared | client/src/double_buffer.rs:63-79 | While the UI reads, no decoder step changes the front frame, and the decoder is not swapping |
| Display.Untorn | client/src/double_buffer.rs:63-79 | Every frame shown is whole, the latest published when the UI locked it, and frames never go back |
| Display.ShowsLatest | client/src/ui/wgpu_state.rs:246 | From every reachable state with a front frame, the UI idle and the decoder not swapping: in its next size + 2 turns, whatever the decoder does in between, the UI shows exactly one more frame, the latest published when it began |
| Display.FrameIsShown | client/src/decoder/video.rs:115-173 | From every reachable state with both threads at rest, as from the start: there is a run that publishes the next decoded frame and shows it |
| Display.NoDeadlock | client/src/double_buffer.rs:63-79 | Some thread can always move, and a decoder with a frame can whenever the UI is not reading |
| Raid.RaidIsLawful | server/src/packager/packet.rs:40-44 | The hypotheses on the erasure code hold of a concrete code with 4 data and 2 recovery shards: k shards of any kind restore the rest, fewer are refused |
| Raid.RaidZeroTail | server/src/packager/packet.rs:109-112 | That code also has zero recovery bytes where the data is zero to the end |
| Examples.HypothesesHoldTogether | server/src/packager/packet.rs:60-179 | Every hypothesis of the theorems above holds at once for the built-in sizes, every stream of short packets and whatever the channel keeps |
| Examples.OddCutLoses | server/src/packager/packet.rs:109-112 | The assumption about zero tails does not follow from the rest: with a code whose symbols take two bytes, four packets the sender accepts make its cut lose a recovery byte |
| Examples.ExchangedIsLocal | server/src/packager/packet.rs:109-112 | That code is local to pairs of bytes, so cuts of even length lose nothing |

## Left out

- Reed-Solomon, RTP marshalling and H.264 depacketizing are functions of the environment under named hypotheses: a code
  is `Lawful`, packets are `Sendable` (they fit the 1200-byte datagram and read back) and the depacketizer accepts
  them. Errors of these libraries outside the hypotheses end the receive loop in the model as in the code, with the reason kept.
- Session.RunFollows: asks that no datagram comes twice while the receiver is in its block; `Session.RunsExactlyWhen` says that
  the loop ends otherwise.
- BlockOrder.RunHandsBlocks: blocks visited twice are left to `Session.RunHands`, which gives what is handed on visit by visit.
- Wrap of the block id after 2^32 blocks: a precondition of `SendLvPacket`.
- Sockets, threads, timers, the clock and logging: sends succeed, timestamps are arbitrary parameters, a thread is a sequence
  of steps.
- Average buffer occupancy: it comes from an ioctl, and its division has no divisor if the packet is written before the
  ioctl has ever succeeded.
- Sender.ErasureManager.SendLvPacket: a send that fails halfway through a block's recovery datagrams is not modelled.
- Controller.RateFloor: a raise that leaves u32 wraps round, as in a release build; a debug build would stop. Multiplying by 0.6 is
  exact here, rounded down; the code multiplies 32-bit floats, whose rounding is modelled in the congestion test only.
- Controller.FloorBroken: multiplies by 0.6 and 1.8 exactly, as `Controller.RateFloor` does.
- Controller.FloorReached: multiplies by 0.6 exactly.
- Controller.PatienceGrows: multiplies by 1.8 exactly.
- Controller.CongestedConverges: multiplies by 0.6 exactly; so does `Controller.CongestedSettles`.
- Controller.CycleFrom: multiplies by 0.6 exactly.
- Feedback.ReportsTileExactlyWhen: asks that no u16 counter overflows between resets; counters wrap as in a release build.
- ReceiveLoop.Decode: of the loop that a failed pass has ended, only the error and the decoder's state are stated.
- Video.VideoDecoder.DepacketizeDecode: what the H.264 decoder returns, the colour conversion and the buffer swap
  (client/src/decoder/video.rs:113-187) are left out of the method; `Display` has the conversion and the swap.
- TCP framing of feedback and acknowledgements: one read is one whole message.
- Failed colour conversion, after which the code swaps frames all the same; frame sizes that change.
- Screen capture, encoders, input events, the statistics collector, the RTP queue and the hand-over of the bitrate to the
  encoder: device plumbing, or easy members that would add little.

Nothing was executed: the statements are about the model, checked by Dafny's verifier.
