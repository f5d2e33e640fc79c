# rewind: a verified model

rewind records what a bare-metal program asks of its peripherals and which interrupts it takes, writes
that down as a compact trace, and replays the program from the trace alone. This project models the
parts that carry its two claims, that what is recorded replays identically and that any loss is
visible, and proves them.

Each operation of the core files that works on objects or in loops is a method on a class or with a loop
here, proved equal to a function of the old state; the theorems are about those functions. `dafny verify
dfyconfig.toml` checks the whole project.

## Files

| file | what it holds |
|---|---|
| `Basics.dfy` | integer widths, little-endian access |
| `Crc32.dfy` | the nibble-table checksum, its agreement with bit-serial division, what damage it detects |
| `Varint.dfy` | LEB128 and ZigZag |
| `Trace.dfy`, `Stream.dfy` | events, delta coding, frames, and a stream as a list of blocks each accepted or lost |
| `TraceReader.dfy` | the parser, as a function and as the object that runs it |
| `TraceWriter.dfy` | the writer object over its reused buffer and an arbitrary sink |
| `Codec.dfy` | what reading gives back after writing: round trip, losses, cuts, damage |
| `Grammar.dfy`, `Loading.dfy` | what a trace is, in both format versions: exactly the byte strings that are read without error, and exactly those a replay loads |
| `Transcript.dfy` | whole traces: any calls, any buffer, any sink, and what reading them back gives |
| `RingBuffer.dfy`, `Spsc.dfy`, `Recorder.dfy` | the byte queue as a bounded FIFO and as a two-party protocol of single loads and stores; the recorder, a writer on a ring that is drained into a link |
| `RxPump.dfy`, `RxAccount.dfy`, `RxRecord.dfy`, `Board.dfy` | the access shim and the example firmware over an arbitrary backend; the account of its race; what a run's record says of its state; both in place |
| `Mcu.dfy`, `FixedTiming.dfy`, `Delivery.dfy` | the simulated microcontroller; the fixed firmware never loses a byte on it, and in the end has consumed them all |
| `Replay.dfy`, `ReplayHal.dfy`, `Verdict.dfy` | the backend that serves a trace, as functions and as an object with a capture point; when it diverges, and on what |
| `Session.dfy`, `WritesOff.dfy`, `RecordRun.dfy` | record and replay of whole runs, with and without recorded writes, on the same and on the other build, down to the bytes |
| `Resume.dfy`, `Timeline.dfy`, `Seek.dfy`, `Progress.dfy`, `Navigation.dfy` | checkpoints, seeking and bisection, and when they agree with plain re-execution |

A run is a function of the backend: `HalOps` is the table of backend functions, `World` the program's
state together with a record of the run (`seen` lists the calls made on the writer). The simulator and a
recorded trace are two backends. Theorems about recording hold for every backend whose interrupt windows
all close (`Terminating`): without that the shim's own polling loop would not end. Nothing more is asked;
`RxPump.ClosingTerminates` shows that closing windows suffice.

## What differs from the source's own documentation

* `host/include/rewind/timeline.h:85-87` says a seek reports the state at the instant the event is
  about to be served. If a checkpoint's cursor is the target itself, the capture happens at the first
  request after the checkpoint, and a busy pass has taken a byte out of the ring by then. Plain
  re-execution captures one pass earlier. `Seeking.SeekExactness`: the two snapshots are the same if and
  only if the checkpoint's cursor is strictly below the target, or the checkpoint is the start.
  `Seeking.EqualCursor` says what the difference is otherwise; the firmware states alone also agree when
  nothing was pending on either side (`Seeking.SeekStates`). `Seeking.SeekDiffers` gives a tape on which
  even they differ, and `Recordings.OneByteIsATrace` a trace that holds it.
* `host/include/rewind/timeline.h:86-87` says `event_count()` is the state at the end. It is captured at
  the last poll of the last pass, so it is the final state exactly when that pass was idle
  (`Seeking.SeekEnd`); the branch for "the final state is the answer" is then not taken.
  `Seeking.EndDiffers` gives a tape on which the two differ.
* A lost run of a multiple of 2^32 blocks is followed by the sequence number the reader expects next.
  The reader then stops at the loss if and only if its length is no such multiple (`Codec.StopsAtLoss`);
  if it is, the reader steps into the block behind it and decodes that with the predictor from before
  the loss (`Codec.InvisibleLoss`, and `Codec.InvisibleExists` for such a list of blocks). A run that
  wraps the number below the expected one is reported as a splice, not as a gap (`Codec.LossyRead`).
* A refused call (a timestamp before the last one, at the end of the trace included) makes the writer
  drop the events it had staged, although their calls succeeded, and write neither EV_STOP nor the
  terminator (core/src/trace_writer.cpp:206-223). If the sink refused nothing, the reader delivers what
  was flushed and ends without an error: that EV_STOP is missing is the only sign of the loss
  (`Transcript.ReadsBack`, `Transcript.DeliveredPart`).
* A block buffer of more than 2^32 - 10 bytes would let the writer's staging comparison
  (core/src/trace_writer.cpp:110) wrap around 32 bits; smaller ones cannot.
* Lost blocks at the very end of a trace leave no gap to report, since the terminator follows cleanly.
  What certifies completeness is that EV_STOP was delivered (`Codec.StopCertifiesCompleteness`).
* `step_forward` adds to the position without a check. If the sum wraps around 64 bits the timeline moves
  back instead of to the end (`Navigation.Timeline.StepForward`: if and only if it wraps).
* Without recorded writes a replay serves some interrupts earlier than they were taken. For the
  example firmware this changes no state between passes (`WritesOff.UncheckedFollows`).

## Model

| member | source | states |
|---|---|---|
| Basics.PutU32 | core/include/rewind/trace.h:128-133 | what is stored little-endian loads back |
| Basics.PutU64 | core/include/rewind/trace.h:135-138 | the same for the 64-bit fields of the header |
| Basics.PutGetU32 | core/include/rewind/trace.h:144-149 | storing what was loaded restores the bytes |
| Basics.LittleEndianWords | core/include/rewind/trace.h:128-152 | words of 16, 32 and 64 bits are all read as the number their bytes stand for, least significant first |
| Basics.PutU32Le | core/include/rewind/trace.h:128-133 | writes exactly four bytes of a buffer, in place |
| Crc32.UpdateLoop | core/src/crc32.cpp:29-36 | the byte loop with two table steps computes the fold of the bytes |
| Crc32.UpdateConcat | core/src/trace_reader.cpp:110-111 | updating over two pieces is updating over their concatenation |
| Crc32.StoredLikeAnyWord | core/src/trace_writer.cpp:89-90 | the checksum is stored and loaded by the same four little-endian bytes as every other word |
| Crc32.UpdateIsRfc1952 | core/src/crc32.cpp:12-36 | the nibble table algorithm equals bit-serial division by the reflected polynomial, byte by byte as in section 8 of RFC 1952 |
| Crc32.CheckValue | tests/test_crc32.cpp:17-19 | the checksum of the nine digits is the published check value |
| Crc32.UpdateInjective | core/src/crc32.cpp:29-36 | for fixed data, different register states stay different |
| Crc32.IntactResidue | core/src/trace_reader.cpp:110-116 | a frame is intact exactly if the register ends on the fixed residue after its checksum as well |
| Crc32.BurstDetected | core/src/trace_reader.cpp:110-116 | no change confined to four consecutive bytes turns an intact frame into another intact one |
| Varint.RoundTrip | core/src/varint.cpp:8-54 | decoding an encoding followed by anything gives the value and its length |
| Varint.Shortest | core/src/varint.cpp:8-16 | no byte string that decodes to a value is shorter than its encoding |
| Varint.EncodeInto | core/src/varint.cpp:8-16 | the loop writes the encoding, nothing else, and returns its length |
| Varint.Size | core/src/varint.cpp:18-25 | the size loop counts the bytes the encoder writes |
| Varint.DecodeFrom | core/src/varint.cpp:27-54 | succeeds exactly on inputs terminated within ten bytes whose value fits 64 bits, with that value and length |
| Varint.Zigzag | core/include/rewind/varint.h:40-46 | unzigzag undoes zigzag on all 64-bit signed values |
| Varint.ZigzagOnto | core/include/rewind/varint.h:48-53 | and zigzag undoes unzigzag |
| Varint.ZigzagByMagnitude | core/include/rewind/varint.h:40-53 | the map orders numbers by magnitude, so small steps in either direction get short encodings |
| Trace.EventsByExample | core/include/rewind/trace.h:37-67 | the bytes of one event of each kind |
| Trace.HeaderByExample | core/include/rewind/trace.h:6-15 | the bytes of a header |
| Trace.EventSize | core/src/trace_writer.cpp:107-114 | an encoded event has between 2 and 21 bytes, so it fits an empty block |
| Trace.EventsConcat | core/src/trace_writer.cpp:123-183 | delta coding a concatenation is coding its parts with the predictor carried over |
| Trace.TrailerIntact | core/src/trace_writer.cpp:84-90 | the checksum a writer appends is the one a reader accepts |
| TraceReading.LoadBlock | core/src/trace_reader.cpp:77-146 | every offset stays inside the trace; success leaves a non-empty block beyond the old position |
| TraceReading.Next | core/src/trace_reader.cpp:148-272 | a delivered event uses up at least two bytes; a failed call delivers nothing |
| TraceReading.FirstErrorStays | core/src/trace_reader.cpp:148-154 | after an error nothing changes any more; a call that delivers nothing leaves the reader done or failed |
| TraceReading.ReadTrace | core/src/trace_reader.cpp:27-272 | on any bytes whatever, at most (length - 32) / 2 events |
| TraceReading.TraceReader.OpenTrace | core/src/trace_reader.cpp:27-75 | the object forgets the previous trace and then validates the header as `Open` does, keeping a refused version number |
| TraceReading.TraceReader.LoadNextBlock | core/src/trace_reader.cpp:77-146 | with subtractions instead of sums, computes `LoadBlock` |
| TraceReading.TraceReader.MeasureBlock | core/src/trace_reader.cpp:81-108 | the length checks accept exactly the blocks that lie wholly in the trace |
| TraceReading.TraceReader.CheckFrame | core/src/trace_reader.cpp:110-116 | the piecewise checksum decides intactness |
| TraceReading.TraceReader.AdmitBlock | core/src/trace_reader.cpp:118-145 | lower numbers are refused as a splice, higher ones as a gap of that size |
| TraceReading.TraceReader.NextEvent | core/src/trace_reader.cpp:148-272 | the object's call computes `Next` |
| TraceReading.TraceReader.Decode | core/src/trace_reader.cpp:162-270 | the flag-driven decoder computes `ParseEvent`, with the address range check done before adding |
| TraceWriting.TraceWriter.Begin | core/src/trace_writer.cpp:34-76 | succeeds exactly for a first call with sink, buffer of at least 64 bytes and an accepted header, which is then all the sink got; buffers up to 2^32 - 10 bytes |
| TraceWriting.TraceWriter.FlushBlock | core/src/trace_writer.cpp:78-105 | offers the sink one frame of what is staged, whose verdict becomes that block's; numbers and counts move on either way |
| TraceWriting.TraceWriter.BuildFrame | core/src/trace_writer.cpp:84-92 | completes the frame in place around a payload that is already in the buffer |
| TraceWriting.TraceWriter.EncodeScratch | core/src/trace_writer.cpp:139-173 | the bytes assembled field by field are the event's encoding |
| TraceWriting.TraceWriter.Stage | core/src/trace_writer.cpp:107-121 | the history grows by the event; what was staged before goes out exactly if the event would not fit behind it |
| TraceWriting.TraceWriter.Record | core/src/trace_writer.cpp:123-183 | accepts exactly when healthy and not earlier than the last event; a refusal changes neither history nor stream |
| TraceWriting.TraceWriter.RecordInTime | core/src/trace_writer.cpp:128-183 | an event in order of time joins the history, and at most one block is offered to the sink on the way, exactly if the event would not fit behind what is staged |
| TraceWriting.TraceWriter.MmioRead | core/src/trace_writer.cpp:185-187 | the history grows by that event or stays |
| TraceWriting.TraceWriter.MmioWrite | core/src/trace_writer.cpp:189-194 | without the flag nothing is recorded and the result is the writer's health |
| TraceWriting.TraceWriter.IrqEnter | core/src/trace_writer.cpp:196-198 | the history grows by that event or stays |
| TraceWriting.TraceWriter.IrqEnterAt | core/src/trace_writer.cpp:200-204 | the same, with the return address |
| TraceWriting.TraceWriter.Finish | core/src/trace_writer.cpp:206-223 | the sink holds header, accepted frames and, on success only, the terminator; in order of time, all that was taken plus EV_STOP is in blocks; a trace not begun or already finished stays as it is |
| TraceWriting.Sink.Write | target/src/recorder.cpp:10-27 | a chunk goes into the ring whole or is refused for lack of room; any other callback decides as it likes |
| TraceWriting.FrameInBuffer | core/src/trace_writer.cpp:84-92 | length, number and checksum written around a payload make its frame |
| TraceWriting.BooksFlush | core/src/trace_writer.cpp:78-105 | flushing moves the staged events into the list of blocks and loses none of them |
| TraceWriting.BooksStage | core/src/trace_writer.cpp:109-152 | staging keeps the buffer equal to the encoding of the staged events |
| Grammar.OpensExactly | core/src/trace_reader.cpp:27-75 | a trace opens if and only if it has the magic number, a version from 2 to 3 and its fields where the format puts them; that is the header read |
| Grammar.ParsedIsSpelled | core/src/trace_reader.cpp:162-270 | whatever parses as an event is its code followed by numbers that stand for its fields, and the address predictor follows |
| Grammar.SpelledParses | core/src/trace_reader.cpp:162-270 | and every such string parses as that event, in shortest form or not |
| Grammar.CutEvent | core/src/trace_reader.cpp:188-262 | an event cut short is refused for the field the cut goes through |
| Grammar.OutOfRange | core/src/trace_reader.cpp:210-262 | numbers too wide for their field, and steps out of the address space, are refused as that |
| Grammar.Accepted | core/src/trace_reader.cpp:77-272 | reading on without error means: whole intact frames, numbered in sequence from the one expected, whose payloads decode to their ends |
| Grammar.Delivered | core/src/trace_reader.cpp:77-272 | of any such frames the reader delivers what they decode to, up to the first payload that does not, with that payload's error |
| Grammar.ReadsExactly | core/src/trace_reader.cpp:27-272 | a trace is read without error as certain events if and only if it is a header, such frames spelling these events, and a terminator or the end |
| Grammar.VersionRoundTrip | core/include/rewind/trace.h:44-51 | what is written reads back in either version; under version 2, if and only if it has no interrupt with a return address, which is an unknown event there |
| Codec.ParseEncoded | core/src/trace_reader.cpp:162-271 | an event's encoding, followed by anything, parses back to the event with the predictor advanced alike |
| Codec.RoundTrip | core/src/trace_reader.cpp:77-272 | a trace whose blocks all arrived reads back event for event, however they fell into blocks, and ends cleanly |
| Codec.LossyRead | core/src/trace_writer.cpp:92-104 | whatever blocks were refused, exactly the events before the first lost one are delivered; a later survivor makes a gap of the exact length of the lost run, or a step backwards if the number wrapped; all lost runs but multiples of 2^32 blocks show |
| Codec.StopsAtLoss | core/src/trace_reader.cpp:118-145 | the reader is done right after the blocks before the first loss if and only if nothing arrives behind it or the lost run is no multiple of 2^32 blocks |
| Codec.InvisibleLoss | core/src/trace_reader.cpp:118-145 | otherwise it has no error, has stepped into the block behind the loss, and decodes it with the predictor from before the loss |
| Codec.InvisibleExists | core/src/trace_writer.cpp:103 | there are blocks, which a writer may leave, that lose such a run |
| Codec.StopCertifiesCompleteness | core/src/trace_reader.cpp:118-137 | EV_STOP is delivered if and only if no block was lost |
| Codec.WholeBlocksFit | core/src/trace_reader.cpp:81-108 | the blocks counted as whole fit in the cut, and the next one does not |
| Transcript.Feed | core/src/trace_writer.cpp:185-204 | while a trace is open, each of the four entry points takes or refuses its event as `Offer` says; before and after, none takes anything |
| Transcript.Transcribe | core/src/trace_writer.cpp:34-223 | for every sink, every buffer and every sequence of calls: what the sink accepted reads back as the events taken before the first lost block; with all of them and EV_STOP if and only if no call was refused and no block lost; after a refused call the blocks hold a front part of what was taken |
| Transcript.DeliveredPart | core/src/trace_writer.cpp:206-223 | what is read of a finished trace is a front part of the calls taken plus EV_STOP, and EV_STOP is in it if and only if every call was taken and every block accepted |
| Codec.Truncation | core/src/trace_reader.cpp:81-108 | a cut trace gives exactly the events of the whole blocks inside the cut, then a clean end or a truncated block, and no other error |
| Codec.DamageDetected | core/src/trace_reader.cpp:110-116 | damage within four consecutive bytes of a block's number, payload or checksum stops the reader before any event of that block |
| Ring.PowersOfTwo | core/src/ring_buffer.cpp:9-11 | the capacities' predicate holds of the powers of two and nothing else |
| Ring.BitTest | core/src/ring_buffer.cpp:9-11 | a number has no bit in common with its predecessor if and only if it is a power of two |
| Ring.MaskIsRemainder | core/src/ring_buffer.cpp:42-44 | masking with the capacity less one is the remainder |
| Ring.WrapSlot | core/src/ring_buffer.cpp:86-97 | masking the wrapped counter addresses the same slot as the unbounded index |
| Ring.HoldsPush | core/src/ring_buffer.cpp:86-94 | the copy leaves every unread byte in place and adds the new ones behind |
| Ring.HoldsPeek | core/src/ring_buffer.cpp:116-122 | the region handed out is the front of the queue |
| Ring.TwoPeeksSuffice | core/src/ring_buffer.cpp:106-131 | what the store's end leaves of a queue is readable in one more piece |
| Ring.RingBuffer.Init | core/src/ring_buffer.cpp:27-48 | succeeds if and only if there is a store and the capacity is 2 to a power from 1 to 31 |
| Ring.RingBuffer.UsedIsLength | core/src/ring_buffer.cpp:58-65 | the difference of wrapped counters is the queue's length, never more than the capacity |
| Ring.RingBuffer.Push | core/src/ring_buffer.cpp:67-104 | all or nothing, at the end of the queue; drops and high water are counted exactly |
| Ring.RingBuffer.Peek | core/src/ring_buffer.cpp:106-123 | a prefix of the queue, non-empty if the queue is, ending where the store wraps |
| Ring.RingBuffer.Consume | core/src/ring_buffer.cpp:125-131 | removes that many bytes from the front or nothing |
| Ring.RingBuffer.TakeAll | core/src/ring_buffer.cpp:106-131 | two rounds of peek and consume take out everything, in order, and leave the ring empty |
| Ring.Exercise | core/src/ring_buffer.cpp:67-131 | over any run of pushes and releases from an empty ring, the high-water mark is the largest fill after any of them |
| Ring.RingBuffer.Reset | core/src/ring_buffer.cpp:50-56 | empties the queue and the statistics |
| Spsc.StepKeeps | core/src/ring_buffer.cpp:67-131 | every single load, byte copy and store of either side keeps the shared invariant |
| Spsc.ReadIsPublished | core/include/rewind/ring_buffer.h:26-29 | a byte the consumer reads is the next published one, whatever the producer is doing |
| Spsc.RunKeeps | core/src/ring_buffer.cpp:67-131 | so does every interleaving, across counter wrap-around |
| Spsc.Safety | core/include/rewind/ring_buffer.h:26-29 | from an empty ring: output is a prefix of input, occupancy within capacity, nothing unpublished seen, reserved room stays free, and neither side ever counts more bytes or more room than there is |
| Spsc.PushAlone | core/src/ring_buffer.cpp:67-104 | a push not interrupted publishes all its bytes if and only if they fit, and otherwise changes nothing |
| Spsc.TakeAlone | core/src/ring_buffer.cpp:106-131 | a drain not interrupted releases, in order, all that is published up to where the store wraps |
| Pipeline.MoveChunk | target/src/recorder.cpp:57-74 | what a link takes of a chunk leaves the ring, even if it claims more than it was offered |
| Pipeline.Drain | target/src/recorder.cpp:50-77 | moves a front part of the queue to the link in order, without loss; nothing moves only if the ring is empty or the link refuses |
| Pipeline.Recorder.Begin | target/src/recorder.cpp:29-37 | succeeds exactly if ring and block buffer are acceptable and the header fits the ring |
| Pipeline.Recorder.Note | target/src/recorder.cpp:10-27 | a call in any state: an open writer takes it as `Offer` says, with its blocks going into the ring or counted as lost; any other takes nothing |
| Pipeline.Recorder.DrainInto | target/src/recorder.cpp:50-77 | a drain moves bytes from waiting to sent and changes nothing else |
| Pipeline.Recorder.Stop | target/src/recorder.cpp:44-48 | sent and waiting bytes are then header, accepted frames and the terminator if it was accepted; the blocks hold all calls taken plus EV_STOP, or a front part of them if one was refused; without an open trace nothing happens |
| Pipeline.Recorder.Healthy | target/src/recorder.cpp:79-84 | up to 2^32 blocks, a recorder is healthy if and only if the writer is and no block was lost |
| Pipeline.Recorder.AllCarried | target/src/recorder.cpp:10-27 | at every moment, sent and waiting bytes are exactly what the writer's sink accepted, and the writer's byte count is their number |
| Pipeline.Session | target/src/recorder.cpp:10-84 | for every schedule of calls and drains and every link: bytes received and bytes waiting are the header, exactly the accepted frames and the terminator if accepted, the writer counts them, and they read back as `Transcribe` promises, with EV_STOP if and only if no call was refused and no block lost |
| RxPump.TerminatingCloses | target/src/hal.cpp:37-50 | on an admitted backend every interrupt window closes |
| RxPump.ClosingTerminates | target/src/hal.cpp:37-50 | every backend whose windows close is admitted |
| RxPump.IterateCases | firmware/src/rx_pump.cpp:82-114 | the critical sections bracket no access, so they leave no mark on a pass |
| RxPump.RunSplit | firmware/src/rx_pump.cpp:82-114 | a run of a + b passes is a run of a followed by one of b |
| RxPump.RunQuiet | target/src/hal.cpp:26-51 | after a poll that found nothing, the next thing to cross the shim is an access |
| RxPump.RunKeeps | target/src/hal.cpp:96-119 | what no single access or poll of a backend breaks, no run breaks |
| RxPump.RunOrdered | target/src/hal.cpp:96-119 | on a clock that never runs back, a run makes its calls on the writer in timestamp order |
| RxPump.OrderedRecordable | core/src/trace_writer.cpp:123-162 | such calls are all acceptable to the writer |
| Firmware.Board.constructor | firmware/src/rx_pump.cpp:65-80 | after reset and attach the board is in the boot state |
| Firmware.Board.Restore | firmware/src/rx_pump.cpp:120-122 | a restored board is in exactly the given state, shim reset |
| Firmware.Board.MmioRead32 | target/src/hal.cpp:96-107 | the access, its record, then the interrupt window |
| Firmware.Board.MmioWrite32 | target/src/hal.cpp:109-119 | the same for a write |
| Firmware.Board.PumpIrqs | target/src/hal.cpp:26-51 | the polling loop computes `PumpLoop`; masked or nested it does nothing |
| Firmware.Board.IrqEnable | target/src/hal.cpp:150-154 | unmasking never goes below zero |
| Firmware.Board.IsrUartRx | firmware/src/rx_pump.cpp:17-34 | the handler in place computes `Isr` |
| Firmware.Board.StoreByte | firmware/src/rx_pump.cpp:25-33 | stores and counts the byte, or counts an overflow and leaves the ring |
| Firmware.Board.Consume | firmware/src/rx_pump.cpp:40-48 | takes a byte, stamps it and shows the count |
| Firmware.Board.RxPumpRun | firmware/src/rx_pump.cpp:82-114 | the main loop in place computes `Run` |
| RxAccount.QueueSnoc | firmware/src/rx_pump.cpp:25-32 | a byte stored at head joins the end of the queue |
| RxAccount.RaceAccount | firmware/src/rx_pump.cpp:23-112 | in both variants the ring is a queue of the accepted bytes; between passes the counter equals its content, for the buggy variant short by exactly the bytes accepted inside a drain |
| RxAccount.NeverDrainsEmpty | firmware/src/rx_pump.cpp:101-103 | no pass takes a byte from an empty ring |
| RxAccount.DebtGrows | firmware/src/rx_pump.cpp:109-112 | what the buggy variant strands is never recovered |
| RxAccount.ChecksumMeans | firmware/src/rx_pump.cpp:43 | the checksum is the number whose digits to the base 31 are the bytes, modulo 2^32 |
| RxRecord.RunTold | firmware/src/rx_pump.cpp:17-48 | after every pass, on every backend: each handler ran to its end right behind its interrupt and at no other time; the port has shown 1, 2, 3 up to the count; the stamp is the clock as read before the last of these; the overflows are the received bytes missing from the ring |
| RxRecord.FullMeans | firmware/src/rx_pump.cpp:25-29 | a byte overflows exactly when 15 are queued |
| RxRecord.AccessWindow | target/src/hal.cpp:26-51 | an access while masked or inside a handler leaves one event; any other ends on a poll that finds nothing |
| RxRecord.MaskedRun | tests/test_hal.cpp:158-193 | a run under a mask takes no interrupt: it stays in the boot state and reads the clock once a pass |
| Simulator.McuTerminates | sim/src/mcu.cpp:42-109 | the simulator is a backend with a monotone clock and finitely many interrupts between accesses |
| Simulator.Device.constructor | sim/src/mcu.cpp:8-30 | seeding, warming up and the first arrival time |
| Simulator.Device.NextRandom | sim/src/mcu.cpp:35-40 | draws the next value of the seed's stream |
| Simulator.Device.Advance | sim/src/mcu.cpp:42-67 | time passes and at most one byte arrives, only once the last was read |
| Simulator.Device.Read32 | sim/src/mcu.cpp:69-94 | register values after the access's own cost; reading DR frees the register |
| Simulator.Device.Write32 | sim/src/mcu.cpp:96-101 | only the output port is writable |
| Simulator.Device.PollIrq | sim/src/mcu.cpp:103-109 | the latch is reported once |
| FixedTiming.WindowTakes | firmware/src/rx_pump.cpp:17-34 | the window after an arrival takes the byte out of the register and closes |
| FixedTiming.AfterAccess | sim/src/mcu.cpp:42-67 | one access of the main loop keeps the timing invariant, at the cost of one access to spare |
| FixedTiming.FixedNeverLoses | firmware/src/rx_pump.cpp:82-114 | for every stream of random values and number of bytes, at every pass: sent = consumed + pending, the checksum is that of the consumed bytes, no overflow, at most one frame in the ring |
| Delivery.RunSound | sim/src/mcu.cpp:42-101 | in any run clock reads give the time, port reads what was last written, reads of nothing zero; every access takes three cycles, and the wire carries the bytes of the seed's stream in order |
| Delivery.Spacing | sim/src/mcu.cpp:56-66 | 600 to 899 cycles between frames of three bytes, 6 to 205 within one |
| Delivery.NeverZero | sim/src/mcu.cpp:8-40 | the generator never reaches zero, from any seed |
| Delivery.WireIsHeard | sim/src/mcu.cpp:42-94 | in either variant the bytes read from the data register are the bytes sent, in order, but for one that may still wait; overflows are what is missing from the ring |
| Delivery.FixedDeliversAll | tests/test_determinism.cpp:142-158 | on every stream and for every number of bytes, after more than 900 * (bytes + 1) passes the fixed firmware has consumed all of them, with the sender's checksum and nothing left over |
| Replaying.ReplayTerminates | host/src/replay.cpp:195-213 | a trace is a backend too |
| Replaying.PollMirrors | host/src/replay.cpp:195-213 | a poll is answered as the recorded one was |
| Replaying.PumpLoopMirrors | target/src/hal.cpp:37-50 | an interrupt window is replayed handler for handler |
| Replaying.IterateMirrors | firmware/src/rx_pump.cpp:82-114 | a pass that mirrors its recording at the start does so at the end |
| Playback.ReplayHal.Load | host/src/replay.cpp:49-77 | decodes the whole trace, refuses one with any defect, and starts on its first event; a trace refused after its header has replaced header and events already |
| Loading.LoadsExactly | host/src/replay.cpp:49-77 | a trace loads as certain events if and only if it is a trace of these events, as `Grammar.ReadsExactly` has it |
| Loading.LossyLoad | host/src/replay.cpp:66-72 | what a writer leaves loads if and only if no block arrived behind the first lost one, then as the events before it; otherwise it is refused as a gap or, if the number wrapped, as a splice |
| Loading.DamagedLoad | host/src/replay.cpp:66-72 | a block damaged within four consecutive bytes behind its length word: refused |
| Loading.CutLoad | host/src/replay.cpp:66-72 | a trace cut inside a block, behind its length word: refused; cut elsewhere: its whole blocks |
| Loading.VersionLoad | host/src/replay.cpp:49-77 | an older trace loads if and only if it has no event its version does not know |
| Playback.ReplayHal.SetCapturePoint | host/src/replay.cpp:79-84 | arms a capture that has not fired, and changes nothing else |
| Playback.ReplayHal.ClearCapturePoint | host/src/replay.cpp:86-90 | disarms it, and changes nothing else |
| Playback.ReplayHal.MaybeCapture | host/src/replay.cpp:102-107 | fires once, on the first request made with the cursor on the chosen event |
| Playback.ReplayHal.Read32 | host/src/replay.cpp:122-154 | serves a matching read, otherwise latches the first divergence and answers zero |
| Playback.ReplayHal.Write32 | host/src/replay.cpp:156-193 | checks a write if writes were recorded, ignores it otherwise |
| Playback.ReplayHal.PollIrq | host/src/replay.cpp:195-213 | serves an interrupt of either kind if it is next |
| Playback.ReplayHal.SetCursor | host/src/replay.cpp:92-97 | moves the cursor and forgets the divergence |
| Verdicts.PlayedJudged | host/src/replay.cpp:109-213 | for any trace, with or without writes, either build and any number of passes: the divergence is the first objection to what the firmware did, in order, against the trace; without one, every request matches its event |
| Verdicts.Undiverged | host/src/replay.cpp:122-193 | a replay has not diverged if and only if each request consumed an event, and then it did and was told what the trace says |
| Verdicts.NoReadNext | tests/test_determinism.cpp:266-276 | a replay at whose cursor the trace has no read diverges in the next pass, for good, and over just that |
| Verdicts.PlayedFounded | host/src/replay.cpp:122-213 | even after diverging, a read gets zero or a value the trace has for its address, and an interrupt is one of the trace |
| Verdicts.NoneHeldBack | host/src/replay.cpp:195-213 | between passes the trace never goes on with an interrupt, of either kind: all that were due have been served |
| Session.VariantFor | host/src/session.cpp:101-115 | known build ids name their variant, all others none |
| Session.RecordingForetells | target/src/hal.cpp:96-119 | a recording determines its own replay: its events, and where no interrupt came |
| Session.ReplayFollows | host/src/session.cpp:156-185 | for every backend, mask, variant and length: at every pass the replay is in the recorded state, at the recorded place in the trace, without divergence |
| Session.ReplayEnds | host/src/session.cpp:174-179 | it ends with the cursor on EV_STOP |
| Session.BuildsAgree | firmware/src/rx_pump.cpp:105-112 | without a byte accepted inside a drain the two variants run alike |
| Session.PassesAgree | firmware/src/rx_pump.cpp:105-112 | a pass differs between them in the counter alone, by what arrived inside the drain |
| Session.BuildMismatch | host/src/replay.cpp:156-193 | a buggy recording diverges on the fixed build if and only if a byte was accepted inside a drain before the last pass; otherwise everything is consumed and the end states differ in the counter at most |
| WritesOff.ConsumeShadows | host/src/replay.cpp:159-164 | interrupts served before the port write instead of after it leave the same state |
| WritesOff.UncheckedFollows | host/src/replay.cpp:156-213 | without recorded writes, too, every pass of the replay ends in the recorded state |
| Recordings.RecordRun | host/src/session.cpp:117-154 | the recorded trace loads as exactly what crossed the shim, then EV_STOP, writes included only if flagged |
| Recordings.ReplayRunAs | host/src/session.cpp:156-185 | replays any trace by a given build, or says why not |
| Recordings.ReplayRun | host/src/session.cpp:187-203 | picks the build the trace names and refuses unknown ones |
| Recordings.RecordedReplays | host/src/session.cpp:117-203 | a recorded trace, with or without writes, is after every pass of its replay in the recorded state, undiverged, with the events recorded up to there consumed; asked for more passes than were recorded, the replay is reported as diverged |
| Recordings.MismatchReported | tests/test_determinism.cpp:194-221 | through the bytes: a buggy recording replayed as the fixed build is reported as diverged if and only if a byte was accepted inside a drain before the last pass |
| Recordings.RunsIntoStop | tests/test_determinism.cpp:266-276 | a replay asked for more passes than were recorded objects to the read after EV_STOP |
| Recordings.CompletedExactly | host/src/session.cpp:187-203 | a replay runs, and a timeline opens, if and only if the bytes are below 4 GiB and a trace of some events by a known build |
| Recordings.HoleReported | tests/test_recorder.cpp:139-150 | a trace with a hole is refused by every replay and every timeline, as a gap or a splice |
| Recordings.DamageReported | tests/test_determinism.cpp:278-288 | so is one with a damaged block |
| Recordings.CutReported | host/src/replay.cpp:69-72 | so is one cut inside a block |
| Recordings.RecordedIsFaithful | host/src/timeline.cpp:41-48 | such a trace opens on a timeline as a complete replay |
| Recordings.RecordBuffered | host/src/session.cpp:50-99 | a run recorded in slices through a bounded ring: received and waiting bytes are header, accepted frames and terminator, and read back as far as nothing was lost; the recording is healthy if and only if terminator and all blocks were accepted, and if it then reached the link whole it loads as the run |
| Recordings.SlicesCompose | host/src/session.cpp:75-80 | a run in slices is the run of slices * (iterations / slices) passes |
| Recordings.Passes | host/src/session.cpp:75-76 | these are the most passes the slices divide evenly, and all that were asked for exactly if they divide those |
| Resuming.IterateAlike | host/src/timeline.cpp:13-21 | a run restored from a checkpoint goes the way of the one that led there, request for request |
| Timelines.PlayedOnward | host/src/replay.cpp:99-107 | the cursor only advances, and passes no event without a request made at it |
| Timelines.PlayedClocked | host/src/replay.cpp:150-152 | the replay's clock is the timestamp of the last event served |
| Timelines.SkipAhead | host/src/timeline.cpp:86-98 | passes that end before the target may be skipped |
| Timelines.SeekWindow | host/src/timeline.cpp:124-140 | a snapshot carries the time of the last event before the target |
| Timelines.PassAdvances | host/src/timeline.cpp:66-76 | without divergence every pass serves something and ends on a poll that finds nothing |
| Timelines.CaptureAtLastPoll | host/src/replay.cpp:195-196 | re-execution to the end of a pass captures before the closing update |
| Timelines.CaptureAtFirstRequest | host/src/timeline.cpp:117-130 | execution from the target itself captures at the first request of the pass |
| Seeking.MarksInOrder | host/src/timeline.cpp:66-76 | checkpoints are in cursor order, the first at the start of the run |
| Seeking.NearestFacts | host/src/timeline.cpp:86-98 | the chosen checkpoint is at or before the target, the next one beyond |
| Seeking.CheckpointsExact | host/src/timeline.cpp:100-149 | for any trace and spacing, a seek equals re-execution from the start if its checkpoint is strictly before the target or is the start |
| Seeking.SeekExactness | host/src/timeline.cpp:86-149 | for complete replays with writes: a seek's snapshot is that of plain re-execution if and only if the checkpoint is strictly before the target or is the start |
| Seeking.SeekStates | host/src/timeline.cpp:86-149 | the firmware states agree if and only if that holds or nothing was pending on either side of the checkpoint |
| Seeking.EqualCursor | host/src/timeline.cpp:91-92 | the exact difference when the checkpoint's cursor is the target |
| Seeking.SeekDiffers | host/src/timeline.cpp:91-92 | a trace on which they differ |
| Recordings.OneByteIsATrace | host/src/timeline.cpp:35-48 | that tape is the content of a trace the timeline opens |
| Seeking.SeekEnd | host/src/timeline.cpp:132-140 | the end of the timeline is the final state exactly if the last pass was idle, and lacks the closing update otherwise |
| Seeking.SeekStart | tests/test_timeline.cpp:123-137 | the start of the timeline is the firmware as booted, at time zero |
| Seeking.EndDiffers | host/src/timeline.cpp:132-140 | a trace on which the two differ |
| Seeking.SeekCost | host/src/timeline.cpp:122-130 | a seek stops before the next checkpoint's pass, or at the end of the run |
| Progress.ExecuteSees | host/src/replay.cpp:99-107 | a snapshot is the state at one of the run's requests at the target, or the end of the run |
| Progress.PlayedInOrder | host/src/main.cpp:393-395 | requests at later events see at least as many bytes consumed |
| Progress.ConsumedMonotone | host/src/main.cpp:393-395 | along the seeks of a complete replay the count of consumed bytes never falls |
| Navigation.Timeline.Open | host/src/timeline.cpp:35-84 | succeeds exactly for traces that load and name a known build, and leaves the checkpoint index of one full pass |
| Navigation.Timeline.BuildIndex | host/src/timeline.cpp:56-78 | the loop takes a checkpoint before every interval-th pass and counts the events served |
| Navigation.Timeline.NearestTo | host/src/timeline.cpp:86-98 | the scan finds the last checkpoint at or before the target, none only in a run of no passes |
| Navigation.Timeline.Seek | host/src/timeline.cpp:100-149 | a target up to the event count becomes the position, any other the event count; the snapshot is that of the new position, a function of trace and position alone, at the cost of at most one interval of passes |
| Navigation.Timeline.Rerun | host/src/timeline.cpp:117-140 | the forward loop computes execution from the checkpoint, and stops after the pass in which the capture fired |
| Navigation.Timeline.StepBack | host/src/timeline.cpp:188-191 | back by that many events, or to the start |
| Navigation.Timeline.StepForward | host/src/timeline.cpp:193-195 | forward by that many events, or to the end; back, if and only if the sum wraps around 64 bits |
| Navigation.Timeline.ThereAndBack | tests/test_timeline.cpp:177-195 | a step back undoes a step forward that does not run into the end |
| Navigation.LogMeans | host/src/timeline.cpp:169-183 | the number of halvings is the logarithm to the base two, rounded down |
| Navigation.Timeline.FindFirst | host/src/timeline.cpp:151-186 | for any predicate true at the end: a point where it holds and does not one event earlier, with at most floor(log2 n) + 3 seeks; one seek if it is false there |
| Navigation.Timeline.Bisect | host/src/timeline.cpp:169-183 | for any predicate true at the end, the loop finds a boundary within the logarithmic number of seeks |
| Navigation.FirstOfMonotone | host/src/timeline.cpp:169-186 | for a predicate that stays true once it is, a search finds the first point at which it is true |
| Navigation.FirstConsumed | host/src/main.cpp:393-395 | searching for k bytes consumed finds the first such point |

## Left out

- Text of error messages and of divergence reports: enumerations and a latched flag instead.
- `rx_pump_state_hash`: states are compared whole, so hash collisions play no part.
- Null checks on a backend's function table, a null destination in `next` and a null `out` in `seek`, `find_first` and `peek`: references here are never null where the source only guards against misuse.
- `host/src/main.cpp` apart from the predicate it searches with, `target/src/clock.cpp`, the Cortex-M parts, build files and the emulator setup.
- EV_IRQ_AT in replay: served like EV_IRQ_ENTER, as in the source; stopping at the recorded address is documented there as not done.
- `Timeline::events_replayed`: not kept as a field; `Timelines.Onward` relates events served to the cursor's movement.
- Corruption of a block's length word: it lies outside the checksum.
- Memory order of the processor: `Spsc` interleaves loads and stores one at a time in program order. The producer's read of the tail for its high-water statistic is not a step there.
- Recordings.RecordRun: the clock stays below 2^64, and loading is claimed for traces below 4 GiB.
- Recordings.RecordRun: the writer is fed with the list of calls after the run rather than during it, and `RecordBuffered` after each slice. The shim ignores the writer's results, so the run cannot tell.
- Pipeline.Recorder.Begin: a second call, which sets the ring up again under a writer that then refuses it, is not modelled.
- Pipeline.Drain: the ring is not written while a chunk is on its way, as in the source's single-threaded use; `Spsc` covers the concurrent one.
- TraceWriting.TraceWriter.Begin: excludes the buffers of more than 2^32 - 10 bytes named above.
- Codec.LossyRead: excludes the lost runs of a multiple of 2^32 blocks named above, as does Codec.StopCertifiesCompleteness.
- TraceReading.TraceReader.OpenTrace: the magic number is not a field, so what a refused open leaves of it is not modelled.
- Seeking.SeekExactness: needs recorded writes and no interrupt with the number that means "none"; `Seeking.CheckpointsExact` needs neither.
- Simulator.Device.Advance: the cycle counter is unbounded.
- FixedTiming.FixedNeverLoses: the random stream is arbitrary, which covers every seed.
- Bitwise and is defined on numbers, bit by bit; `Spsc` finds slots with the remainder that `Ring.MaskIsRemainder` shows masking to be.
- Recordings.MismatchReported: needs recorded writes; without them the port writes that give the other build away are not checked.
- Navigation.Timeline.StepForward: positions are taken to have 64 bits.
- Verdicts.PlayedJudged: needs a trace without interrupts numbered like "none", as `Seeking.SeekExactness` does.
- The capture callback: the timeline looks for the first request at the target among those made since the checkpoint, which `Playback.ReplayHal` proves is what the callback took down.
