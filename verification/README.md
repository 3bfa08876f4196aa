# Verified model of the radar gain and packet firmware

This project models the application code of a Zynq radar front end in Dafny and proves properties of
the model. `dafny verify dfyconfig.toml` checks all of it.

The firmware receives radar lines as UDP packets. Ten packets at a time are folded into one frame by
a peak-hold (the maximum of each big-endian 16-bit pair). The frame is handed to the gain task and
sent on, in that order, but the gain task has the lower priority and reads the frame only after it was
sent. Sending puts the UDP, IP and Ethernet headers in front of the frame in place and leaves the payload
pointer there, so everything in the frame appears to the gain task up to 42 bytes further on than to the merge.
The gain task scans the frame for saturated samples, keeps a ring of 1200 azimuth cells, and commands the
receiver gain of the next line. TCP commands switch between automatic and manual gain. A parser reads ASTERIX category 240
messages.

| file | content |
|---|---|
| `MachineTypes.dfy`, `Modular.dfy` | unsigned machine integers; remainders with a variable modulus |
| `GainCell.dfy` | one cell of the gain table: byte counter with wrap-around, flag, gain |
| `GainRing.dfy` | the ring: window marking, cleaning, gain messages; whole runs, in any order and in azimuth order |
| `LineScan.dfy` | header fields and sample scan of a frame |
| `GainControl.dfy` | the gain task as a class that updates its table and accumulators in place |
| `Averages.dfy` | the 32-bit accumulators over whole runs |
| `PeakHold.dfy`, `Batch.dfy` | the in-place merge of one packet, and of a whole batch |
| `ParseTask.dfy` | the batch counter and the held chain as a class |
| `Composition.dfy`, `EndToEnd.dfy` | scanning a held frame, after it was sent, is scanning all its packets; packets to gains |
| `Commands.dfy` | the TCP command parser and the mode it leaves |
| `Pipeline.dfy`, `PipelineContents.dfy`, `SystemRuns.dfy` | all tasks as a state machine: buffer ownership, buffer contents, and what holds in every run under any scheduler |
| `Scheduling.dfy` | the same tasks under the priorities of the firmware |
| `Cat240Bytes.dfy`, `Cat240Table.dfy` | byte order; a table-driven category 240 parser |
| `Cat240Parser.dfy` | the unrolled parser refines it, with its 32-bit counter of the bytes left |
| `Cat240Layout.dfy` | the same items byte by byte: presence bits, lengths, values |
| `Cat240RoundTrip.dfy`, `Cat240Decode.dfy` | encoding and parsing round trip; the accepted blocks are exactly the encodings |
| `RoundRobin.dfy`, `TimerFlags.dfy` | the list-walking macro of the scheduler; the timer flags |

## Main results

- For a ring of any size of at least `2 * zone + 2` cells and any number of revolutions, a cell holds,
  right after it is cleaned, the number of consecutive revolutions in which some line within `zone`
  of it was saturated; the commanded gain has a closed form in terms of these streaks. For 1200 lines
  the gain for line x is below 127 exactly when some line in [x-1205, x-1195], in [x-2405, x-2395] and in
  [x-3605, x-3595] was saturated, and then one in [x-4805, x-4795] or in [x-5, x-1]; this is carried
  through to the packets that the firmware accepts.
- What a frame stores, in bytes: the samples are the big-endian pairs behind 74 bytes of the first
  segment and from the start of all others, as many from each as bytes 71 and 72 announce; the line of
  bytes 54 and 55 stores the 32-bit sum of its old value and of the samples up to the first one above
  60500, divided by that count.
- The byte counter of a cell wraps, the gain does not notice, for any order of lines.
- The 32-bit accumulators of the gain task never wrap, in any run whose frames have up to 80 segments,
  announce at least two samples, and are small enough that the largest sum of a visit,
  `SumBound(segments, samples)`, is below 2^32. For frames of a given shape this is an if-and-only-if in
  the number of samples; it covers single segments of any size and chains of 45 segments with 813
  samples. For one segment the bound (a stored value of 126034, a sum of 3964998569) is attained. It is
  below 2^32 because the scan stops at the first saturated sample.
- The held frame is the pairwise maximum of its batch, whatever the order of the later packets. For
  headers of any even length up to 42, the gain scan of the frame after it was sent is saturated exactly
  when that of some packet is; its line index is the greatest of the batch while the azimuth lies in the
  merge window (up to 22 bytes of headers) and that of the first packet otherwise, in particular after
  an ordinary send with 42.
- Over all interleavings of the tasks, with commands possible between the two steps of a hand-off, each
  buffer has exactly one owner throughout a run exactly when every hand-off ends in the mode in which
  it began; a run without commands inside a hand-off is such a run. In these runs the k-th frame sent is
  the peak-hold of the k-th ten packets accepted, the gain task processes the queued frames in order,
  each cell of its table is the reference cell of its own passes as read off the accepted packets, and
  in azimuth order, from any first line, the commanded gain is the closed form.
- At every step a received packet is accepted exactly when fewer than 200 are waiting, and freed at once
  otherwise.
- A message sets the gain mode exactly when its length is one to five modulo 256 and its last byte is
  0xC3: first byte 0xFF resumes the gain task, 0x01..0x7E suspends it, and after any history of messages
  the task is suspended exactly when such a manual message has no automatic one after it.
- The priorities of the firmware give exactly such runs: packets and messages enter the queues only from
  the input thread, which has the lowest priority, and the parse task does not block inside a hand-off.
  From the priorities alone it follows that no command and no step of the gain task comes inside a
  hand-off, that a command never meets a gain task with a frame in hand or in its queue, that the gain
  queue never holds more than 20 frames, and that no batch is refused for a full gain queue.
- The unrolled category 240 parser has the result of a table-driven one for every input, on either byte
  order. Reads stay inside the announced block, and bytes behind it never matter, exactly when the block
  announces more than three bytes. Apart from such blocks the accepted inputs are exactly those that
  begin with an encoded message, and parsing gives back its fields.

## Where the code departs from what one would expect

- The merge window of the first segment begins at byte 32 but is as long as the segment is taken to be.
  A packet of one segment is merged whole, and the window ends 32 bytes behind it
  (`PeakHold.WindowPassesEnd`). A packet that arrived in fragments has 1472 bytes in its first segment
  and 1480 in the others, while the code counts 1480 for each: it is merged whole exactly when its last
  segment has fewer than eight bytes, and just seven if there are segments in the middle
  (`PeakHold.ReassembledMergedIff`, with the failing 1472 + 1480 bytes in `PeakHold.TailNotMerged`).
- The gain task sees the frame behind the headers of its transmission. After an ordinary send its line
  index and its sample count are those of the first packet of the batch, at bytes 12 and 28
  (`Composition.AfterFullSend`); the azimuths of the other nine are not looked at.
- Every segment of a chain is scanned for the whole announced count, so the scan of a packet that
  arrived in fragments leaves its buffers unless each of them holds the count or a saturated sample ends
  it (`LineScan.ReadableIff`, `LineScan.ScanInsideIff`, and 2952 bytes in buffers of 1700 as an input for
  which it does in `LineScan.FragmentedScanLeaves`).
- The stored value of a line is named an average. It divides by the samples of one segment what was
  added up over all segments, includes the value stored before, and leaves out what is behind the first
  saturated sample. When it is the mean of the samples all the same is stated by `Averages.MeanExactIff`,
  for one segment by `Averages.MeanExactOneSegmentIff`, and for scans that reach the end by
  `Averages.MeanExactUnsaturatedIff`; `Averages.MeanFails` has two frames for which it is not. With one sample for each frame nothing is averaged
  (`Averages.OneSampleSums`).
- The sum of a revolution is taken over 99 lines, 0 to 98, and divided by 98. The third revolution slot
  keeps its old value when the slots shift, so each later sum includes the value before it: a revolution
  closes with the quotient of its own lines exactly when it is one of the first three or the carried
  value is lost in the division (`Averages.OwnRevolutionIff`, `Averages.FourthRevolutionCarries`).
- A category 240 block that announces three bytes has no field specification. The code reads on behind
  it with a counter that has wrapped (`Cat240Table.ReadsInsideIff`, `Cat240Table.ThreeByteBlocks`).
- When several video blocks are present only the last one is reported (`Cat240RoundTrip.RoundTrip`).
- The length byte of the RE and SP fields is taken not to count itself, unlike the explicit length
  rule of ASTERIX Part 1. Encoder and parser of the model follow the code.

## Model

| member | source | states |
|---|---|---|
| GainCell.MarkCounts | src/auto_gain_control.c:88-103 | one mark moves a cell from n hit passes to n + 1 for every n, wrap-around included, and does nothing while the flag is up |
| GainCell.GainLawDespiteWrap | src/auto_gain_control.c:88-103 | after any history of marks and cleanings the counter is the number of consecutive hit passes modulo 256 and the gain follows 127, 117, 107, 100 on the unbounded number |
| GainCell.OncePerPass | src/auto_gain_control.c:139-147 | at most one counted mark for each cleaning, plus one while the flag is up; gain 100 needs five cleanings |
| GainRing.CellsFollowTheirHistory | src/auto_gain_control.c:83-107 | for any order of lines each cell of the ring is the reference cell of its own passes |
| GainRing.MinimalGainNeedsFivePasses | src/auto_gain_control.c:85-104 | for any order of lines the minimal gain of a cell needs five lines that cleaned it |
| GainRing.MarksCommute | src/auto_gain_control.c:85-104 | windows may be marked in either order, and twice is once |
| GainRing.StreakMeaning | src/auto_gain_control.c:85-107 | a streak of k is exactly k hit revolutions in a row |
| GainRing.NearUnwrapped | src/auto_gain_control.c:87 | the circular index arithmetic agrees with plain distances between unwrapped line numbers when the ring has at least 2 * zone + 2 cells |
| GainRing.LineAtCentre | src/auto_gain_control.c:83-134 | what one line does to the cell of a given centre: marked within the zone, cleaned just behind it |
| GainRing.RingInvariant | src/auto_gain_control.c:83-147 | after any number of lines in order, from any first line, every cell holds its previous streak plus one if its present window is already hit |
| GainRing.CleanedCellHoldsStreak | src/auto_gain_control.c:134-147 | the cell just cleaned holds the number of consecutive hit revolutions ending with the one just closed |
| GainRing.OutputClosedForm | src/auto_gain_control.c:134-159 | the gain in force after each line is the law on the previous streak of the next cell plus the lines up to now |
| GainRing.AttenuationRule | src/auto_gain_control.c:83-107 | for 1200 lines in order, from any first one: the gain for line x is below 127 exactly when a line in [x-1205, x-1195], one in [x-2405, x-2395] and one in [x-3605, x-3595] were saturated, and one in [x-4805, x-4795] or in [x-5, x-1] |
| GainRing.UpdateKeepsChangesOnly | src/auto_gain_control.c:150-159 | one gain update keeps the message list free of repetitions and appends the new gain and 0xC3 exactly when the gain changes |
| GainRing.MessagesCarryChanges | src/auto_gain_control.c:150-159 | for any order of lines, every message is one of 100, 107, 117, 127 followed by 0xC3, no two consecutive ones are equal, they only grow, and the gain in force is that of the next cell |
| GainRing.OneMessagePerChange | src/auto_gain_control.c:150-159 | at every line of every run the new gain and 0xC3 are sent once when the gain changes, and nothing otherwise |
| GainRing.MessagesReconstructGains | src/auto_gain_control.c:150-159 | replaying the messages sent by any moment gives the gain selected at that moment |
| LineScan.ScanConcat | src/auto_gain_control.c:71-108 | a scan that reaches the end of one segment goes on with the next, and stops at the first saturated sample |
| LineScan.AzimuthInTable | src/auto_gain_control.c:177 | the azimuth lies in the table exactly below 64800; the index never exceeds 1213 |
| LineScan.ReadableIff | src/auto_gain_control.c:60-110 | the scan stays inside the segments exactly when each one holds the announced count or follows, or contains, the first saturated sample |
| LineScan.ScanInsideIff | src/auto_gain_control.c:60-110 | for an unsaturated frame behind its headers: exactly when the first buffer holds 74 + 2n bytes from the headers on and every other one 2n |
| LineScan.FragmentedScanLeaves | src/auto_gain_control.c:60-110 | a packet of 2952 bytes with 1460 samples, in two buffers of 1700 bytes, is scanned beyond them |
| LineScan.SamplesAt | src/auto_gain_control.c:60-75 | as long as no earlier segment is saturated, sample j of segment k is the big-endian pair at 2j, behind 74 bytes in the first segment, and comes after n samples of each earlier segment |
| LineScan.SamplesInBytes | src/auto_gain_control.c:60-75 | the scanned samples of an unsaturated frame are exactly the n pairs of each segment in order |
| GainControl.GainTask.constructor | src/auto_gain_control.c:33-51 | the initial table and accumulators |
| GainControl.GainTask.MarkCell | src/auto_gain_control.c:88-103 | the in-place update of one cell is `Mark` |
| GainControl.GainTask.MarkWindow | src/auto_gain_control.c:85-104 | the window loop marks exactly the cells within circular distance 5, once each |
| GainControl.GainTask.CleanCell | src/auto_gain_control.c:139-147 | the in-place cleaning of one cell is `Clean` |
| GainControl.GainTask.SendGain | src/auto_gain_control.c:150-159 | a message is sent exactly when the gain changes |
| GainControl.GainTask.AddSample | src/auto_gain_control.c:74-82 | the special case of the first sample ever makes no difference: every sample is added modulo 2^32 |
| GainControl.GainTask.ScanSegment | src/auto_gain_control.c:71-108 | the scan of one segment adds the samples up to the first saturated one, which marks the window |
| GainControl.GainTask.Scan | src/auto_gain_control.c:53-110 | the nested loops with their jump add and mark what the scan of all samples in a row would |
| GainControl.GainTask.ScanAndDivide | src/auto_gain_control.c:60-112 | the stored value of the line after the division |
| GainControl.GainTask.AddRevolution | src/auto_gain_control.c:116-119 | the sum of lines 0..98 joins the slot in use |
| GainControl.GainTask.Account | src/auto_gain_control.c:116-131 | the slots and the mean after a revolution |
| GainControl.GainTask.FinishLine | src/auto_gain_control.c:134-135 | cleaning behind the window, gain of the next line |
| GainControl.GainTask.Fill | src/auto_gain_control.c:53-136 | one line is one step of the ring, of the line averages and of the revolution accounts |
| GainControl.GainTask.ProcessFrame | src/auto_gain_control.c:162-181 | the entry point performs the step that the header and the samples of the frame define |
| GainControl.HeaderInBytes | src/auto_gain_control.c:176-179 | the line index is bytes 54 and 55 divided by 54, the divisor is the count of bytes 71 and 72, and the samples are those of the frame |
| GainControl.ProcessableIff | src/auto_gain_control.c:60-75 | which frames the gain task can process, in bytes: an index below 1200, a count above zero, and every segment long enough or behind the first saturated sample |
| GainControl.LineInTheTable | src/auto_gain_control.c:83-107 | a saturated line marks the eleven cells from index + 1195 to index + 1205 and no others, and every line cleans cell index + 1194, all modulo 1200 |
| GainControl.MarkInLiterals | src/auto_gain_control.c:88-103 | one mark and one cleaning on any counter, flag and gain |
| Averages.FrameStores | src/auto_gain_control.c:73-112 | for every frame: the line it names stores (old value + its samples up to the first above 60500) modulo 2^32, divided by the count it announces; no other line changes |
| Averages.ScanLengthIs | src/auto_gain_control.c:76-108 | the scan ends at the first sample above 60500, or at the end |
| Averages.VisitKeepsBound | src/auto_gain_control.c:71-112 | one visit neither wraps nor leaves the bound on the stored value |
| Averages.RevolutionKeepsBound | src/auto_gain_control.c:116-131 | one revolution keeps the bound on the slots and the mean |
| Averages.NoAccumulatorWraps | src/auto_gain_control.c:71-132 | in every run no accumulator wraps, and all stored values stay within explicit bounds |
| Averages.SlotsHoldLastRevolutions | src/auto_gain_control.c:116-131 | after any number of revolutions, which closing values the slots hold, what is carried along, and the mean |
| Averages.AccountsInTask | src/auto_gain_control.c:114-132 | in every run the accounts are those of the visits of line 98 |
| Averages.LineAverageInTask | src/auto_gain_control.c:112 | the stored value of a line depends on the visits of that line only |
| Averages.OneSampleSums | src/auto_gain_control.c:81-112 | with one sample for each frame the stored value is the sum of all samples modulo 2^32 |
| Averages.AccumulatorSafeIff | src/auto_gain_control.c:76-112 | for frames of a given number of segments and largest sample count, whose largest sum fits 32 bits, the accumulator is safe in every run exactly when they announce two or more samples |
| Averages.FirmwareShapesSafeIff | src/auto_gain_control.c:60-112 | the same for single segments of any size and for chains of 45 segments with up to 813 samples each |
| Averages.BoundAttained | src/auto_gain_control.c:76-112 | a run reaches the bound exactly |
| Averages.MeanExactIff | src/auto_gain_control.c:71-112 | for a frame of k full segments, the stored value is the mean of all its samples exactly when k times the old value and k - 1 times the scanned sum are made up for by the unscanned samples and the remainder of the division, to within one quotient |
| Averages.MeanExactOneSegmentIff | src/auto_gain_control.c:71-112 | for one segment: exactly when the old value and the remainder of the sum make up for the samples behind the first saturated one |
| Averages.MeanExactUnsaturatedIff | src/auto_gain_control.c:71-112 | for a frame without saturated samples: exactly when the old value plus the sum modulo n (one segment) or the old value plus the whole sum (several segments) is below n |
| Averages.MeanFails | src/auto_gain_control.c:71-112 | two segments of 100s store 200, and a saturated segment stores half its mean |
| Averages.OwnRevolutionIff | src/auto_gain_control.c:116-131 | a revolution closes with the quotient of its own lines exactly when it is one of the first three or the carried value plus the remainder is below 98 |
| Averages.FourthRevolutionCarries | src/auto_gain_control.c:116-131 | of four revolutions in which every line stores 98 the first three close with 99, the fourth with 100 |
| PeakHold.WindowIs | src/main.c:89-101 | the windows in closed form: 1480 bytes in each segment taken as full, in all others the length modulo 1480 |
| PeakHold.WholePacketMergedIff | src/main.c:90-110 | for any segment lengths, every byte from 32 on lies in its window exactly when each segment ends within the closed-form end of its window |
| PeakHold.ReassembledMergedIff | src/main.c:90-110 | a packet of one segment is merged whole; one that arrived in fragments exactly when its last segment has under eight bytes and, with segments in the middle, seven |
| PeakHold.TailNotMerged | src/main.c:90-110 | of a packet of 1472 + 1480 bytes the last eight are in no window |
| PeakHold.WindowPassesEnd | src/main.c:90-102 | the window of a packet of one segment ends 32 bytes, or 33 for an odd length, behind the packet |
| PeakHold.MergeIsMaximum | src/main.c:101-108 | every pair of the window becomes the maximum, every other byte stays |
| PeakHold.FitsIff | src/main.c:84-110 | in closed form, which chains can take a packet: both reach the end of every window |
| PeakHold.MergePair | src/main.c:103-107 | comparing high bytes and then low bytes is comparing 16-bit values |
| PeakHold.MergeSegment | src/main.c:101-108 | the pair loop performs the merge of one window in place |
| PeakHold.WalkChains | src/main.c:90-110 | the segment loop takes the chains from no segment merged to all of them, each with its cursor and window |
| PeakHold.MergeChain | src/main.c:82-110 | one packet is merged into the held chain; the packet keeps its bytes |
| Batch.HoldExtends | src/main.c:82-110 | merging one packet more is the peak-hold of a batch that is one packet longer |
| Batch.HoldIsPeak | src/main.c:76-110 | every pair of the held frame is the maximum over the first packet and all packets whose window covers it |
| Batch.HoldKeepsOthers | src/main.c:89-110 | bytes outside all windows, such as the first 32, come from the first packet |
| Batch.HoldOrderIndependent | src/main.c:72-110 | the order of the later packets does not change a byte |
| ParseTask.PacketMerger.HandlePacket | src/main.c:74-130 | at every call the held chain is the peak-hold of the packets of the current batch; exactly the tenth finishes it |
| Composition.SaturatedPosition | src/auto_gain_control.c:60-110 | a saturated scan has a saturated sample at some position of some segment |
| Composition.PositionSaturates | src/auto_gain_control.c:60-110 | a saturated sample at any scanned position makes the scan saturated |
| Composition.HeldCount | src/auto_gain_control.c:179 | after the send the held frame announces the sample count of the first packet |
| Composition.HeldIndex | src/auto_gain_control.c:177 | for headers of any even length up to 42, the line index of the sent frame is the greatest of the batch if the azimuth lay in the merge window, and that of the first packet otherwise |
| Composition.AfterFullSend | external/ps7_cortexa9_0/libsrc/lwip211_v1_0/src/lwip-2.1.1/src/core/udp.c:760-779 | after a send that puts 42 bytes in front, line index and sample count are read from bytes 12 and 28 of the first packet |
| Composition.SingleSegmentsAligned | src/main.c:112-121 | for an ordinary send with 42 bytes of headers, every batch of one-segment packets with n samples each is aligned if the first announces n and an azimuth below 64800 |
| Composition.HeldProcessable | src/auto_gain_control.c:162-181 | the gain task can process the held frame of every aligned batch after it was sent |
| Composition.HeldSampleComesFrom | src/main.c:89-110 | each scanned sample of the sent frame is that of some packet, likewise moved |
| Composition.HeldSampleDominates | src/main.c:89-110 | no scanned sample of a packet, likewise moved, exceeds that of the sent frame |
| Composition.HeldLine | src/main.c:89-121 | the frame as the gain task sees it after the send is saturated exactly when some packet is, and has the line index of `HeldIndex` |
| EndToEnd.TaskRunsTheRing | src/auto_gain_control.c:162-181 | in every run the table of the gain task is the ring run on its lines |
| EndToEnd.HeldInputsFollowPackets | src/main.c:46-59 | the lines the gain task sees after the sends are those read directly off the packets |
| EndToEnd.PacketsToCells | src/main.c:46-133 | for any number of batches in any order of lines, each cell is the reference cell of its own passes as read off the packets |
| EndToEnd.PacketsToGain | src/main.c:46-133 | for any number of batches in azimuth order, from any first line, the gain is the closed form read off the packets |
| Commands.CommandTask.HighNibble | src/iwip.c:249-257 | for no data the nibble is zero; otherwise the last byte lies between 16 times the nibble and 15 more |
| Commands.CommandTask.SetAmplitude | src/iwip.c:299-330 | automatic resumes and sends 0x7F, 0x01..0x7E suspends, all else is ignored |
| Commands.CommandTask.ParseMessage | src/iwip.c:260-373 | in bytes, for a message of any length: a length of one to five modulo 256 and a last byte 0xC3 answer it, first byte 0xFF resumes and sends it with 0x7F, 0x01..0x7E suspends and sends it, and every other message leaves mode, replies and PL alone; the remembered command for every length and last byte |
| Commands.EffectInBytes | src/cmd.h:15-32 | which messages have which effect on mode and remembered command, in bytes |
| Commands.ModeIsLatestEffective | src/iwip.c:302-324 | suspended exactly when some message ended in 0xC3 with first byte 0x01..0x7E and no later one with first byte 0xFF |
| Pipeline.HandOffExactIff | src/main.c:114-127 | whatever happens between the two steps of a hand-off, there is one transmission and one disposal exactly when both reads of the mode agree; otherwise two of each or none |
| Pipeline.OwnershipStepIff | src/main.c:46-133 | in any state with one owner for each buffer, each step of each task keeps it so, except exactly one that ends a hand-off in another mode than it began: it leaves the buffer with two owners or none |
| Pipeline.OwnersConserved | src/main.c:72-130 | each such step moves buffers; only a reception adds one |
| Pipeline.BoundedStep | src/main.c:33-36 | each step keeps the queues within 200 and the batch counter within 1..10 |
| Pipeline.ReceptionStep | src/iwip.c:114-123 | a received packet is queued exactly when fewer than 200 wait, and freed at once otherwise; no other step accepts anything |
| PipelineContents.OwnedWritesApart | src/main.c:105-106 | the buffer a step writes to is in no queue and in no other hands |
| PipelineContents.ReceiveContentsStep | src/iwip.c:114-123 | packets reach the parse task unharmed and in order |
| PipelineContents.HeldContentsStep | src/main.c:76-110 | the held buffer is the peak-hold of the current batch |
| PipelineContents.SentContentsStep | src/main.c:112-127 | each frame sent is the peak-hold of its ten packets |
| PipelineContents.GainContentsStep | src/main.c:46-59 | frames pass through the gain queue in order, each with the headers that its transmission put in front of it |
| SystemRuns.RunRegular | src/main.c:33-36 | in every run the queues and the batch counter stay in range, and the mode is that of the commands |
| SystemRuns.OwnershipIffUndisturbed | src/main.c:112-130 | in a run every buffer has exactly one owner at every moment exactly when each hand-off ends in the mode in which it began |
| SystemRuns.SwitchNeedsCommand | src/main.c:115-123 | a hand-off ends in another mode only if a command that changes the mode came inside it |
| SystemRuns.NoCommandNoSwitch | src/main.c:115-123 | a run without a command inside a hand-off is undisturbed |
| SystemRuns.SwitchesBreakOwnership | src/main.c:115-126 | under another scheduler or other priorities, runs exist that leave a buffer with two owners, and with none |
| SystemRuns.RunInvariant | src/main.c:46-133 | ownership, bounds and contents at every moment of every undisturbed run |
| SystemRuns.BuffersOwned | src/iwip.c:114-123 | in every undisturbed run each buffer has one owner, is freed at most once and is then nowhere else |
| SystemRuns.FramesArePeaks | src/main.c:72-130 | in every undisturbed run one frame for each ten packets; the k-th is the peak-hold of the k-th ten packets accepted |
| SystemRuns.GainTaskInOrder | src/main.c:46-59 | queued frames are processed in order, none lost, none twice, each behind the headers of its transmission |
| SystemRuns.QueuedOnlyInAutomatic | src/main.c:113-127 | a frame enters the gain queue only in automatic mode, and then exactly when there is room |
| SystemRuns.AcceptedWhenRoom | src/iwip.c:118-121 | at every step of every run `accepted` grows exactly when a packet is received and fewer than 200 wait |
| SystemRuns.SuspendedTaskWaits | src/iwip.c:312-322 | while the latest effective command is a manual one the gain task takes and finishes no frame and none is queued for it |
| SystemRuns.ProcessedAreBatches | src/main.c:46-59 | whichever batches were refused, the processed frames are the peak-holds of the queued batches, behind their headers |
| SystemRuns.SystemCells | src/main.c:46-133 | in every undisturbed run with aligned queued batches, in any order, each cell is the reference cell of its passes as read off the accepted packets |
| SystemRuns.SystemGain | src/main.c:46-133 | and if the queued batches follow each other in azimuth order, from any first line, the gain in force is the closed form read off the accepted packets |
| Scheduling.PrioritizedStep | src/main.c:152-170 | every switch of tasks, arrival and step under the priorities keeps: messages wait, and the gain task is idle, only as long as the priorities allow; a complete batch or open hand-off only while the parse task runs |
| Scheduling.RunPrioritized | src/main.c:31-40 | the same at every moment of every run under the priorities |
| Scheduling.FirmwareIsUndisturbed | src/main.c:115-123 | every state of the firmware is reached by an undisturbed run |
| Scheduling.OnlyConcludeInside | src/main.c:115-123 | inside a hand-off only its second step can happen |
| Scheduling.FirmwareOwnsBuffers | src/main.c:112-130 | in the firmware every buffer has one owner at every moment |
| Scheduling.CommandsFindGainTaskIdle | src/iwip.c:302-322 | a command finds the gain task with no frame in hand or queued, and none waits while it is suspended |
| Scheduling.GainQueueHasRoom | src/main.c:34-36 | the gain queue never holds more than 20 frames |
| Scheduling.MessagesConserved | src/iwip.c:376-387 | a message that finds fewer than 200 waiting is queued behind them, the command task takes the first |
| Scheduling.MessagesInOrder | src/main.c:137-149 | in every run no message that found room is lost, handled twice or overtaken |
| Scheduling.NoBatchRefused | src/main.c:117-120 | no batch is refused for a full gain queue |
| Scheduling.FirmwareCells | src/main.c:46-133 | in the firmware each cell is the reference cell of its passes as read off the accepted packets |
| Scheduling.FirmwareGain | src/main.c:46-133 | in the firmware, in azimuth order from any first line, the gain in force is the closed form |
| Scheduling.FirmwareAttenuation | src/main.c:46-133 | in the firmware, in azimuth order, the gain is below 127 exactly when the lines of the accepted packets satisfy the rule of `GainRing.AttenuationRule` |
| Scheduling.ReadyTaskCanStep | src/main.c:152-170 | at every moment of every run each ready task has a step it can make as soon as it runs; the parse task, if its packet fits the held chain |
| Scheduling.NeverStuck | src/main.c:31-40 | some task can always be dispatched, and while the input thread runs any packet and message can arrive |
| Cat240Bytes.ReadsAreBigEndian | src/asterix_parse.c:3-41 | on either host, copying and swapping reads the big-endian value |
| Cat240Bytes.BitsRoundTrip | src/asterix_parse.c:106-111 | the presence bits of a field specification byte are those it was built from |
| Cat240Table.ReadsInsideIff | src/asterix_parse.c:74-289 | every read stays inside the announced block exactly when the block announces more than three bytes |
| Cat240Table.OnlyTheBlockMattersIff | src/asterix_parse.c:73-297 | bytes behind the announced length never change the result, exactly unless a category 240 block announces three bytes |
| Cat240Table.ThreeByteBlocks | src/asterix_parse.c:80-104 | of two inputs with the same three-byte block one is accepted and one rejected |
| Cat240Table.BadHeaderRejected | src/asterix_parse.c:59-78 | without first byte 240 and an announced length of 3 up to the bytes given, a message is rejected; with it alone can it be accepted |
| Cat240Table.AcceptedVideoIsSliceIff | src/asterix_parse.c:204-253 | an accepted video block follows its repetition byte and has the length that byte says; it lies inside the announced block exactly when that has more than three bytes |
| Cat240Parser.Parser.ReadU8 | src/asterix_parse.c:53-55 | reads one byte inside the input |
| Cat240Parser.Parser.ReadU16 | src/asterix_parse.c:28-33 | reads two bytes inside the input, big-endian |
| Cat240Parser.Parser.ReadU24 | src/asterix_parse.c:44-50 | reads three bytes inside the input, big-endian |
| Cat240Parser.Parser.ReadU32 | src/asterix_parse.c:36-41 | reads four bytes inside the input, big-endian |
| Cat240Parser.Parser.DataSource | src/asterix_parse.c:110-119 | I240/010 is row 1 of the table |
| Cat240Parser.Parser.MessageType | src/asterix_parse.c:121-129 | I240/000 is row 2 of the table |
| Cat240Parser.Parser.VideoRecordHeader | src/asterix_parse.c:131-138 | I240/020 is row 3 of the table |
| Cat240Parser.Parser.VideoSummary | src/asterix_parse.c:140-154 | I240/030 is row 4 of the table |
| Cat240Parser.Parser.VideoHeader | src/asterix_parse.c:156-177 | I240/040 and I240/041 are rows 5 and 6 of the table |
| Cat240Parser.Parser.ResolutionIndicator | src/asterix_parse.c:179-189 | I240/048 is row 7 of the table, split into 1, 7 and 8 bits |
| Cat240Parser.Parser.VideoCounters | src/asterix_parse.c:194-202 | I240/049 is row 8 of the table |
| Cat240Parser.Parser.VideoBlockItem | src/asterix_parse.c:204-253 | I240/050, 051 and 052 are rows 9, 10 and 11 of the table |
| Cat240Parser.Parser.TimeOfDay | src/asterix_parse.c:255-262 | I240/140 is row 12 of the table |
| Cat240Parser.Parser.OpaqueItem | src/asterix_parse.c:264-288 | RE and SP are rows 13 and 14 of the table |
| Cat240Parser.Parser.FieldSpecAndItems | src/asterix_parse.c:82-296 | from the field specification on, with the counter wrapping at zero, the unrolled items have the result and the furthest read of the table-driven walk |
| Cat240Parser.Parser.Parse | src/asterix_parse.c:57-297 | on either host and for every input the parser has the result, the message and the furthest read of the table-driven parser |
| Cat240Layout.PresentInBytes | src/asterix_parse.c:83-108 | which bit of which field specification byte announces which item |
| Cat240Layout.TakenIff | src/asterix_parse.c:110-288 | an item is taken exactly when the block holds all of its bytes, whose number is given for each item |
| Cat240Layout.ItemInBytes | src/asterix_parse.c:110-288 | the value that each item reports, byte by byte |
| Cat240Layout.ReadsInBytes | src/asterix_parse.c:110-288 | which bytes of an item are read, also when it does not fit the block or the input ends |
| Cat240RoundTrip.ResolutionRoundTrip | src/asterix_parse.c:184-187 | the 1/7/8-bit split survives encoding |
| Cat240RoundTrip.TakeWhole | src/asterix_parse.c:110-288 | an encoded item inside the block is taken with its own length, whatever follows it |
| Cat240RoundTrip.StoreDescribes | src/asterix_parse.c:110-288 | storing an encoded item extends what the message reports by that item and nothing else |
| Cat240RoundTrip.RoundTrip | src/asterix_parse.c:57-297 | every encodable message, as a block that begins with 240 and its length, with any slack in its block and any bytes behind it, is accepted with exactly its fields |
| Cat240Decode.AcceptedIffEncoding | src/asterix_parse.c:57-297 | apart from blocks that announce three bytes, the accepted inputs are exactly those that begin with an encoded message |
| RoundRobin.List.NextOwner | external/ps7_cortexa9_0/include/list.h:277-288 | one use goes to the next item and never stops at the end marker |
| RoundRobin.List.Round | external/ps7_cortexa9_0/include/list.h:277-288 | as many uses as items return the owners once round; one use more is back at the first |
| RoundRobin.RoundReturnsAll | external/ps7_cortexa9_0/include/list.h:277-288 | going once round returns every owner exactly as often as the list holds it |
| TimerFlags.SettingsAreServedOnce | src/ttc_timer.c:152-161 | in every interleaving each setting of a flag is served by exactly one call or still pending |
| TimerFlags.CallsBounded | src/main.c:156-165 | fast calls never exceed interrupts, slow calls never exceed half of them rounded up |
| TimerFlags.FlagsAreServed | src/main.c:156-166 | whatever the interrupts, a flag that is up is served within one round of the thread |

## Left out

- Cat240Parser.Parser.Parse: stops where a read would leave the input; the contents of a message that is rejected half-way are not described.
- Cat240Table.OnlyTheBlockMattersIff: says nothing about inputs without a header or shorter than they announce, which are always rejected.
- Composition.HeldLine: a send that finds no room in front of the frame puts the UDP header in a buffer of its own and moves nothing; headers above 42 bytes are not considered.
- SystemRuns.FramesArePeaks: a frame is the bytes of its buffers from the payload pointer on; how many of them are transmitted is not part of this model. When the gain queue is full the code frees the buffer before it sends it; the model sends the bytes the buffer had.
- SystemRuns.RunInvariant: says nothing about what buffers contain once a hand-off has ended in another mode than it began; covers runs in which every packet of a batch fits the held chain, which the merge loop needs.
- SystemRuns.BuffersOwned: each reception counts as a new buffer, also when the pool hands out the same memory again; the buffers of TCP messages are not followed.
- Scheduling.RunPrioritized: begins when all tasks and queues exist; the start-up is not followed. A step is not interrupted, and the library calls inside a step are taken not to block.
- PeakHold.MergeChain: a chain is a sequence of segment arrays; the code never changes the links between segments.
- Commands.CommandTask.ParseMessage: for a length that is a multiple of 256 the code reads the byte in front of the payload and does not use it; the model does not read it.
- GainControl.GainTask.ProcessFrame: needs a line index below 1200, at least one sample, and segments long enough for what the scan reads, because the code indexes and divides without checks.
- Averages.MeanExactIff: is about visits that do not wrap, and frames whose segments hold all announced samples.
- RoundRobin.List.Round: insertion and removal are not part of this model; it walks any well-formed list.
- The exact texts of the log output, and the transport of messages to the PL beyond their list.
- Manual gain commands write to the PL without updating the gain task's last value; the change-only statement is about the gain task's own messages.
- Network setup, connection handling, monitors and hardware bring-up: library calls without visible behaviour.
- Kernel internals: a queue is a bounded sequence and suspension a flag.
- Allocation failure of the gain table, whose check comes after the first use.
- The helper maxima in src/iwip.c lines 60-111, which have no visible caller and repeat the peak-hold.
- The ready-priority bitmap of the port layer, which would only add an easy member.
