# Verified model of the capture, routing and polling core

This project models, in Dafny, the parts of meerstetter-go whose correctness spans many steps, failures
and interleavings, and proves what they guarantee. Each module states its results about every input, every
run or every reachable state.

| module | what it models |
|---|---|
| `MergeRecords` | merging the primary and the fallback capture ring |
| `CaptureRing`, `CaptureRingReader`, `CaptureRingWriter` | the capture ring file under crashes, its snapshots, its writer object |
| `CaptureRingFrames` | which frames a snapshot shows: a ledger of the frames accepted, against the file |
| `CaptureRingLoss` | snapshots of a capture ring that has lost any of its slots |
| `CaptureRingResize`, `CaptureRingResume`, `CaptureRingRuns` | dying while the ring is re-opened with another size; living on after that; runs that reach the awkward states |
| `RingFrames`, `RingFrameRoundTrip` | the byte-stuffed CRTVStream grammar and its resumable parser |
| `RingReader` | the cursor over the device's wrapping 32-bit pointer |
| `Serial`, `Crc16` | feeding a register symbol by symbol; the CRC-16 loop and what it detects |
| `MeComFrames` | MeCom text frames, their checksum, address-zero rewriting |
| `RankSort`, `RouteFrame` | ordering downstream routes and falling back between them |
| `CommandCache`, `WriteOnce` | the idempotency cache shared by concurrent clients; cache and routing together |
| `Broker` | one owned downstream connection per route |
| `AddressZero` | reference-counted leases for clients that ask address zero |
| `BulkRead` | bulk reads of the device bridge against single reads |
| `PdoPlan`, `PdoReadBack` | re-mapping a PDO on a strict CANopen node and reading it back |
| `PollQueue`, `Readout` | round-robin polling with a front lane, and the readout scheduler on top |
| `Wrappers`, `Sequences`, `Wrapping` | options and results; the last elements of a list; remainders |

`dafny verify dfyconfig.toml` checks everything.

## How the world is modelled

- The capture ring file is two superblock slots and a fixed number of chunk slots, each valid with some content
  or invalid. A write that the process does not survive leaves its slot old, new or invalid; writes take effect in
  program order.
- Concurrent clients (command cache, address-zero leases) are interleavings of the sections between two lock
  operations. In the command cache a client reads the clock before it takes the lock, so it may look up with a
  stale time.
- A downstream device answers each request it receives once and in order on the connection it came from. Everything
  else that can happen to a request (cancellation, failed dial, failed write with or without delivery, timeout, a
  watchdog that closes the connection late) is arbitrary.
- The ring reader's device keeps a record of its answers, of what was asked for and of what the clock showed; what the
  reader does is stated in terms of that record.
- The frames accepted by the capture ring are kept in a ledger that follows the events of a run only.
- Text functions of the library (upper case, white space) are exact on ASCII; on other bytes they are parameters of
  which only idempotence and a few plain laws are used.
- Outcomes of route attempts, client reads, SDO reads and clock readings are parameters of the operations.
- The catalogue tables of the device bridge are functions that satisfy what the loader checks
  (`mecom/canopen_sdo_map.go`, lines 410-496 and 648-657); a float64 is a whole 32-bit number, another number or not
  a number.
- The CANopen node is strict: it refuses every write that the re-mapping procedure of CiA 301 (sections 7.5.2.36 and
  7.5.2.38) does not allow.

## Where the code falls short of the obvious law

- Opening a ring with another size first cuts the file and then clears chunk slots one after the other, while the old
  header is still valid. A crash in between leaves a full snapshot with a gap exactly when slots of both the current and
  the previous turn of the ring are left and some slot is lost, and a limited snapshot exactly when it then reaches back
  beyond the hole (`CaptureRingResize.InterruptedResize` for every reachable state and every limit,
  `CaptureRingRuns.ShrinkingLeavesGap` for a run that gets there). Opening the file with its old size again resumes with
  the hole in place; the gap stays exactly as long as a chunk older than a missing one is still there
  (`CaptureRingResume.GapPersists`, with `CaptureRingRuns.GapStays` as a run in which it does).
- A chunk written without its header (the process died between the two) is visible to the full scan but is met last by
  the recent scan. `Snapshot(limit)` is then not the last `limit` records of `Snapshot(0)` unless the limit reaches
  past all committed chunks (`CaptureRingReader.RecentAgrees` is an if-and-only-if; `CaptureRingRuns.StaleRun` reaches
  such a state for every geometry).
- A lone 0x88 at the end of a buffer without a start marker is dropped. For streams that parse, resuming differs from
  one-shot parsing exactly when such a byte is the first half of a start marker (`RingFrames.ResumeExactly`); cutting any
  written stream after its first byte does that (`RingFrameRoundTrip.CutAfterMark`).
- After an overlap, the ring reader moves its cursor to the pointer read at the beginning of the poll. That is behind
  bytes it has already read exactly if the poll had taken in more bytes than it was behind the pointer, which the device
  allows by announcing more data (`RingReader.LandsBehind`, and `RingReader.Reader.Fetch` for the poll itself;
  `RingReader.OverlapRewinds` gives answers that do it). The next chunk then brings bytes a second time
  (`RingReader.TwiceExactly`); as long as no poll does this, no byte is ever taken in twice (`RingReader.Reader.Poll`).
- A response without a body (a bare acknowledgement) keeps the device's address (`MeComFrames.RestoredResponse` is exact,
  `MeComFrames.BareAckKeepsAddress` gives the responses), and the checksum of a response is not checked before its
  address is rewritten: a restored response is accepted exactly if it was accepted before or was rewritten
  (`MeComFrames.RestoredVerifies`), so damage is hidden (`MeComFrames.DamageHidden`).
- A request built for a negative address is refused, and one for an address above 255 is accepted as a request for the
  address of its two leading digits, with a displaced sequence number and payload (`MeComFrames.BuiltRequestParses`).
- A transmission type that is lost in all four attempts is read as 0 and not reported, unlike every other failed read of
  a PDO (`PdoReadBack.ReadBack` says exactly when the scan recovers the configuration, `PdoReadBack.ScanPDOs` which
  failures are reported).

## Model

| member | source | states |
|---|---|---|
| `MergeRecords.RankTransitive` | canring/ring.go:190-201 | "not after" composes: time, sequence, identifier, interface is a strict weak order |
| `MergeRecords.StableSortUnique` | canring/ring.go:99-110 | a list is the result of the stable sort if and only if it is sorted and keeps the order of equally ranked records |
| `MergeRecords.SortIsWeave` | canring/ring.go:163-183 | stably sorting two sorted lists is their two-way merge with the first list winning ties |
| `MergeRecords.FilteredWeave` | canring/ring.go:126-183 | for sorted inputs, de-duplicating and sorting is merging the two lists filtered separately, the fallback also against all primary keys |
| `MergeRecords.RecordsSorted` | canring/ring.go:117-124 | comparing neighbours decides sortedness of the whole list |
| `MergeRecords.AppendUnseen` | canring/ring.go:83-98 | one loop appends exactly the first occurrence of every key not seen before and remembers all keys |
| `MergeRecords.MergeRecordsFull` | canring/ring.go:80-115 | equals de-duplicate, stable sort, keep the last `limit` |
| `MergeRecords.PushTail` | canring/ring.go:153-159 | the circular buffer always holds the last pushed records, oldest at `start` |
| `MergeRecords.ReadTail` | canring/ring.go:184-188 | reading the circular buffer out gives the last `limit` pushed records in order |
| `MergeRecords.MergeRecordsTail` | canring/ring.go:126-188 | the bounded merge with a circular buffer equals de-duplicate, stable sort, keep the last `limit` |
| `MergeRecords.MergeRecords` | canring/ring.go:72-115 | for all record lists and all limits both paths equal the simple reference, and the result is what callers rely on, field by field: times ascend, then sequence numbers, identifiers and interfaces; ties keep the input order; no two results agree in time, identifier, length, data and interface; every result is the first reading of its frame; without a limit every input frame has a result, and with one a frame left out makes way for `limit` others that do not come before it |
| `MergeRecords.OrderInFields` | canring/ring.go:190-201 | not coming after another record means: earlier, or at the same time with a smaller sequence number, identifier or interface name, or equal in all four |
| `MergeRecords.MergedInFields` | canring/ring.go:80-115 | the reference itself is chronological, unrepeated, complete and in input order among ties |
| `CaptureRing.PlanGeometry` | canring/ring.go:264-283 | a size is refused exactly when chunks are too small or fewer than two fit; otherwise the most chunks that fit |
| `CaptureRing.MaxRecords` | canring/ring.go:553-555 | as many 48-byte records as fit behind the 64-byte header of a chunk |
| `CaptureRing.ReadLatestHeader` | canring/ring.go:654-669 | the valid superblock of the highest generation, the first one winning a tie |
| `CaptureRing.OpenKeeps` | canring/ring.go:264-324 | opening an existing, empty or differently shaped file keeps the invariant of the ring |
| `CaptureRing.WriteChunkKeeps` | canring/ring.go:557-581 | a chunk write replaces only the oldest slot and keeps the invariant before its header is written |
| `CaptureRing.CommitHeaderKeeps` | canring/ring.go:581-607 | the header write commits the chunk and keeps the invariant |
| `CaptureRing.TornHeaderKeeps` | canring/ring.go:590-607 | a superblock torn while it is written leaves the previous header in force |
| `CaptureRing.CrashKeeps` | canring/ring.go:557-607 | dying at any point, also inside a chunk or superblock write, keeps the invariant |
| `CaptureRing.NextKeeps` | canring/ring.go:264-365 | every step (open, append, chunk, header, close, crash) keeps the invariant |
| `CaptureRing.RunKeeps` | canring/ring.go:264-365 | the invariant holds in every state of every run |
| `CaptureRing.HeaderRecovery` | canring/ring.go:590-669 | the recovered header is the last committed one or the one being committed, and once a header exists one is always found |
| `CaptureRingReader.ReadAllChunks` | canring/ring.go:452-468 | the valid chunks of all slots in use, in slot order |
| `CaptureRingReader.ReadRecentChunks` | canring/ring.go:489-512 | the chunks met walking back from the newest slot until enough records are in hand |
| `CaptureRingReader.TakeSnapshot` | canring/ring.go:409-450 | the records of the chosen chunks in chunk order, cut to the last `limit` |
| `CaptureRingReader.SortsTo` | canring/ring.go:419-424 | sorting any listing of the chunks of an ascending list gives that list |
| `CaptureRingReader.SnapshotIsLogTail` | canring/ring.go:409-440 | in every state of every run a full snapshot is a gap-free tail of the committed log followed by at most one uncommitted chunk |
| `CaptureRingReader.SnapshotGapFree` | canring/ring.go:409-468 | in every state of every run a snapshot with any limit is a gap-free, strictly increasing run of sequence numbers |
| `CaptureRingReader.RecentReads` | canring/ring.go:489-512 | what a snapshot with a positive limit returns: the last records of all visible chunks, or of the secure ones when the scan misses the stale chunk |
| `CaptureRingReader.RecentAgrees` | canring/ring.go:409-512 | in every state the recent path returns the last `limit` records of the full snapshot if and only if no stale chunk is in view or the limit reaches past all secure chunks; otherwise it returns the last `limit` records of the secure chunks |
| `CaptureRingReader.CommittedNotStale` | canring/ring.go:328-365 | from a header write on, over appends, closes, crashes between writes and clean re-opens, no stale chunk is in view, so the two paths agree in every committed state |
| `CaptureRingResize.InterruptedResize` | canring/ring.go:288-322 | in every state of every run and for every limit: a crash after the file was cut to `m` slots and `k` of them were cleared leaves a gap in the full snapshot if and only if slots of both turns of the ring are left and some slot is lost, and in a limited one only then and exactly if it draws on chunks on both sides of a lost one (without a stale chunk: if it asks for more records than there are behind the hole) |
| `CaptureRingResize.UndamagedResize` | canring/ring.go:470-487 | for a ring that has lost nothing the condition is: it has wrapped, the slot written next lies strictly behind the cleared and before the cut slots, and some slot is lost |
| `CaptureRingResize.LimitedGap` | canring/ring.go:489-512 | a limited snapshot of a half-resized ring without a stale chunk shows the gap exactly if it asks for more records than the current turn has left |
| `CaptureRingLoss.DamagedReads` | canring/ring.go:409-512 | whatever slots are lost, a snapshot with any limit returns the last records of the chunks left, or of the secure ones left when the scan stops before the stale chunk |
| `CaptureRingLoss.GapExactly` | canring/ring.go:409-512 | whatever slots are lost, a snapshot with any limit has a gap if and only if a lost chunk lies between two chunks that it draws records from |
| `CaptureRingLoss.LimitAddsNoGap` | canring/ring.go:432-434 | if the full snapshot has no gap, no limited one has |
| `CaptureRingResume.RunShadow` | canring/ring.go:284-324 | after any crashes and interrupted resizes the ring is one that keeps the invariant, with some slots lost |
| `CaptureRingResume.HardRunGap` | canring/ring.go:303-312 | in every such state the full snapshot has a gap if and only if a chunk number is missing between two that the reader finds, and without one no snapshot has a gap |
| `CaptureRingResume.RunAdvances` | canring/ring.go:303-350 | writing on with the old size brings no missing chunk back, loses a chunk only when its slot is due again, and keeps every new chunk |
| `CaptureRingResume.GapPersists` | canring/ring.go:303-350 | writing on with the old size, once a chunk is committed, the snapshot has a gap if and only if a chunk older than one that was missing is still there |
| `CaptureRingRuns.FullRun` | canring/ring.go:264-365 | every geometry and every number of committed chunks is reached by a run |
| `CaptureRingRuns.StaleRun` | canring/ring.go:557-588 | every geometry has a run that ends with a stale chunk in view and two read paths that disagree |
| `CaptureRingRuns.ShrinkingLeavesGap` | canring/ring.go:288-318 | a run after which cutting the file by one slot and dying leaves a gap |
| `CaptureRingRuns.GapStays` | canring/ring.go:288-312 | a run that dies while shrinking the ring, resumes with the old size, commits another chunk and still has the gap |
| `CaptureRingWriter.Writer.constructor` | canring/ring.go:264-324 | opening is the open step, followed by the header step when the ring is initialised; the frames committed before are kept exactly when the geometry matches |
| `CaptureRingWriter.Writer.CommitHeader` | canring/ring.go:590-607 | is the header step of the machine |
| `CaptureRingWriter.Writer.StoreChunk` | canring/ring.go:557-581 | is the chunk step of the machine: the chunk goes to the next slot, the counters advance, the buffer is emptied |
| `CaptureRingWriter.Writer.FlushChunk` | canring/ring.go:557-588 | is the chunk step followed by the header step, empties the buffer and loses no frame |
| `CaptureRingWriter.Writer.AppendFrame` | canring/ring.go:328-350 | refuses exactly when closed or not a classic frame, and then changes nothing; otherwise is the append step and, with a full buffer, a flush, and exactly this frame comes behind those accepted before |
| `CaptureRingWriter.Writer.Close` | canring/ring.go:352-365 | flushes what is buffered, then halts, losing no frame; a second close changes nothing |
| `CaptureRingWriter.Writer.GivesAllBack` | canring/ring.go:328-450 | as long as no chunk has been overwritten, the full snapshot of a closed file is every frame accepted, in order |
| `CaptureRingWriter.Writer.Recorded` | canring/ring.go:328-450 | between any two calls every record of a snapshot carries the frame accepted under its number |
| `CaptureRingFrames.StepHasEvent` | canring/ring.go:264-365 | every step of the machine is one of the events, and every event is a step |
| `CaptureRingFrames.RunAgrees` | canring/ring.go:328-365 | in every state of every run, with any crashes and interrupted resizes, the file, the buffer and the ledger of accepted frames agree |
| `CaptureRingFrames.SnapshotShowsLedger` | canring/ring.go:328-450 | in every such state and for every limit each record of a snapshot carries, in identifier, length, data, time and elapsed time, the frame accepted under its sequence number |
| `CaptureRingFrames.FullSnapshotFrames` | canring/ring.go:409-440 | the frames of a full snapshot are the end of the frames committed, then those of a chunk stored but not committed; all of them as long as no chunk has been overwritten |
| `RingFrames.FindRingStart` | mecom/protocol.go:474-481 | the scan is the reference search, which finds the first start marker |
| `RingFrames.FindRingEnd` | mecom/protocol.go:483-496 | the scan is the reference search, which finds the first end marker that is not part of a doubled 0x88 |
| `RingFrames.FirstStart` | mecom/protocol.go:474-481 | the position found is a start marker and no earlier one at or after the offset is; none is found exactly if there is none |
| `RingFrames.FirstEnd` | mecom/protocol.go:483-496 | the position found is an end marker with an even number of 0x88 bytes immediately before it, and no earlier position is; none is found exactly if there is none |
| `RingFrames.UnescapePayload` | mecom/protocol.go:498-515 | undoes the doubling of 0x88, or reports a truncated escape or a stray marker |
| `RingFrames.DecodeRingFrame` | mecom/protocol.go:517-572 | the header fields and all samples of a payload, or the first decoding error |
| `RingFrames.DecodeRaw` | mecom/protocol.go:424-436 | unescapes and decodes the bytes between a start marker and its end marker |
| `RingFrames.ParseRingFrames` | mecom/protocol.go:412-440 | the frames, tail and error of the recursive reference parser |
| `RingFrames.Resume` | mecom/protocol.go:412-440 | if `a` parses with frames f and tail t and no start marker straddles the cut, parsing `a + b` gives f followed by parsing `t + b` |
| `RingFrames.ResumeExactly` | mecom/protocol.go:412-481 | for streams that parse, resuming agrees with one-shot parsing if and only if no start marker straddles the cut |
| `RingFrames.LostMark` | mecom/protocol.go:416-418 | dropping the 0x88 of a start marker changes every successful parse |
| `RingFrameRoundTrip.UnescapeEscape` | mecom/protocol.go:498-515 | unescaping a payload with every 0x88 doubled gives it back |
| `RingFrameRoundTrip.DecodeFrame` | mecom/protocol.go:517-572 | decoding a written frame gives its kind, header fields and samples |
| `RingFrameRoundTrip.RoundTrip` | mecom/protocol.go:412-440 | parsing any written list of normal and sync frames returns exactly those frames, in order, with an empty tail |
| `RingFrameRoundTrip.CutAfterMark` | mecom/protocol.go:416-418 | cutting any written stream after its first byte makes resumed parsing differ from one-shot parsing, which gives all frames |
| `RingReader.Distance` | mecom/ring_reader.go:247-256 | the forward distance modulo 2^32, or none when the pointer moved backwards by more than the device ring explains |
| `RingReader.AheadIsGap` | mecom/ring_reader.go:247-256 | less than a turn apart, the 32-bit pointers tell exactly how far apart two stream positions are |
| `RingReader.StampFrames` | mecom/ring_reader.go:361-385 | all samples in order; those of the last frame with samples carry the clock reading, those of a frame whose 16-bit timestamp is `d` behind it modulo 2^16 carry `d` times 10 microseconds less |
| `RingReader.DeltaIsDifference` | mecom/ring_reader.go:387-392 | the delta of two timestamps is their difference modulo 2^16 |
| `RingReader.SamplesOfOne` | mecom/ring_reader.go:374-382 | a single frame contributes exactly its samples |
| `RingReader.RingParserResumable` | mecom/protocol.go:412-440 | the ring parser resumes across every cut that does not hide a start marker |
| `RingReader.DigestIsOneShot` | mecom/ring_reader.go:213-231 | digesting chunks one by one, each behind the tail of the one before, is one-shot parsing if every chunk parses and no cut hides a start marker |
| `RingReader.TrailGrows` | mecom/ring_reader.go:190-244 | along any answers the tail is that of digesting the chunks handed over, and the samples sent are theirs |
| `RingReader.TrailCovers` | mecom/ring_reader.go:190-244 | the chunks handed over are the stretch of the stream the cursor passed over |
| `RingReader.StreamContinuity` | mecom/ring_reader.go:144-245 | if every chunk since the start or the last jump parses and no boundary hides a start marker, the samples sent since then are one-shot parsing of the stream passed over |
| `RingReader.LandsBehind` | mecom/ring_reader.go:200-206 | a poll that jumps lands behind bytes it has read if and only if it had taken in more bytes than it was behind the pointer it began with |
| `RingReader.TrailAscends` | mecom/ring_reader.go:190-244 | the chunks of one poll lie one behind the other in the stream |
| `RingReader.TwiceExactly` | mecom/ring_reader.go:200-244 | over two polls a byte is taken in twice if and only if the first left the cursor behind what it had read and the second gets a chunk |
| `RingReader.OverlapRewinds` | mecom/ring_reader.go:200-243 | answers of a two-byte stream with which a poll reads past its pointer, meets an overlap and lands behind the second byte |
| `RingReader.FailuresCount` | mecom/ring_reader.go:285-297 | failures with nothing but announcements between them are counted, and three of them end the reader |
| `RingReader.GivesUpAtLimits` | mecom/ring_reader.go:285-331 | the reader gives up only with three failures, four lost places, or eight within the window on record |
| `RingReader.FourLosses` | mecom/ring_reader.go:299-331 | four places lost in a row end the reader |
| `RingReader.EighthLoss` | mecom/ring_reader.go:299-331 | the eighth place lost within half a minute ends the reader |
| `RingReader.Reader.NoteFailure` | mecom/ring_reader.go:285-297 | counts failures, clears the resets and disables the reader at the limit |
| `RingReader.Reader.NoteCursorReset` | mecom/ring_reader.go:299-331 | goes on exactly while both reset limits are kept; clears the failures; the window restarts after its time |
| `RingReader.Reader.NoteHealthy` | mecom/ring_reader.go:333-338 | clears both counters |
| `RingReader.Reader.MoveCursor` | mecom/ring_reader.go:168-189 | jumps to the pointer with an empty tail if the limits allow it, otherwise gives up and stays |
| `RingReader.Reader.Accept` | mecom/ring_reader.go:213-231 | moves past the chunk, keeps the new tail or drops it on a parse failure, counts the failure or clears the counters, and sends exactly the samples completed, stamped by the clock as it stands |
| `RingReader.Reader.FetchChunk` | mecom/ring_reader.go:190-244 | asks for what remains but at most 279 bytes; takes in exactly the chunk answered; jumps exactly on overlap within the limits; says whether the poll ends and what remains |
| `RingReader.Reader.FetchChunks` | mecom/ring_reader.go:190-244 | asks for up to sixteen chunks until an answer ends it, each for what is missing up to the pointer or for 279 bytes, and takes in all of them |
| `RingReader.Reader.Fetch` | mecom/ring_reader.go:144-245 | one poll jumps exactly when the device's answers say that the place is lost and the limits allow it, and lands on the position of the pointer it read; otherwise it takes in exactly the chunks answered; it ends behind bytes it has read if and only if it jumps after taking in more than it was behind, and never behind where it began; every request has the right size, every sample is stamped by the clock reading of its chunk and the timestamps, and the failure and reset counters follow the answers; in both cases the reader is in step with the stream since the last jump |
| `RingReader.Reader.Poll` | mecom/ring_reader.go:130-142 | over any number of polls every jump is explained by an answer that loses the place, without a jump all answers are added, the position never falls back, no byte is taken in twice unless some poll moves the cursor behind bytes already read, and the reader stays in step with the stream |
| `Crc16.ShiftOnce` | mecom/protocol.go:106-110 | the two branches of the inner loop are one division step |
| `Crc16.CRC16` | mecom/protocol.go:100-114 | the byte-wise loop is the remainder of feeding all bits, most significant first |
| `Crc16.LeadingZero` | mecom/protocol.go:100-104 | the register starts at zero: zero bytes in front of a message change nothing |
| `Crc16.CrcOfOne` | mecom/protocol.go:100-114 | the byte 1 has the checksum 0x1021, the polynomial |
| `Crc16.BurstDetected` | mecom/protocol.go:100-114 | messages of equal length that differ only inside sixteen consecutive bits have different checksums |
| `Crc16.AdjacentBytesDetected` | mecom/protocol.go:100-114 | messages of equal length that differ only in two adjacent bytes have different checksums |
| `Crc16.LastByteDetected` | mecom/protocol.go:100-114 | messages that differ only in their last byte have checksums that differ in their low twelve bits |
| `Crc16.OddErrorsDetected` | mecom/protocol.go:100-114 | an odd number of flipped bits, anywhere, changes the checksum |
| `Serial.BurstDetected` | mecom/protocol.go:100-114 | the burst law for any register whose step can be undone one level at a time |
| `Serial.TailBurst` | mecom/protocol.go:100-114 | a difference in the last symbols cannot be confined to the part of the register that is out of its reach |
| `MeComFrames.VerifyCRC` | mecom/protocol.go:609-623 | accepts exactly frames whose last four characters are the checksum of the rest in hexadecimal |
| `MeComFrames.TamperedFrameRejected` | mecom/protocol.go:609-623 | two accepted frames of one length that differ only in two adjacent bytes, anywhere, differ at most in the letter case of the checksum; every other damage to two adjacent bytes is rejected |
| `MeComFrames.ChecksumTextDetermined` | mecom/protocol.go:609-623 | the checksum text of an accepted frame is determined by the frame, up to letter case |
| `MeComFrames.BuiltRequestParses` | mecom/protocol.go:268-271 | a built request parses to its address, sequence and upper-case payload if the address fits into a byte; a negative address is refused; a wider one is read as its two leading digits, the next four digits as sequence number and the rest as payload |
| `MeComFrames.RoutedRequestParses` | mecomserver/router.go:569-572 | the same for a routed request |
| `MeComFrames.ParsedRequestRebuilds` | mecomserver/device_bridge.go:758-788 | building from a parsed upper-case request restores its text |
| `MeComFrames.RewrittenRequest` | mecomserver/router.go:574-583 | a valid address-00 request becomes the same request to the device's address; every other frame is unchanged |
| `MeComFrames.RewriteSeals` | mecomserver/router.go:597-608 | a rewritten response has the new address, the same sequence and body, and a matching checksum, whatever its own checksum was |
| `MeComFrames.RestoredResponse` | mecomserver/router.go:585-608 | a valid response gets the new address, with sequence and body kept, if and only if it has a body or already had the address |
| `MeComFrames.RestoredVerifies` | mecomserver/router.go:585-608 | a restored response is accepted if and only if it was accepted before or was rewritten, whatever it holds |
| `MeComFrames.BareAckKeepsAddress` | mecomserver/router.go:597-604 | every device's bare acknowledgement of an address-00 request is a valid response that keeps the device's address |
| `MeComFrames.AddressZeroExchange` | mecomserver/device_bridge.go:821-855 | the requester of address zero reads from the restored response what the bridge reads from the device's response |
| `MeComFrames.ResponseGives` | mecomserver/device_bridge.go:821-855 | a response gives its body in upper case, without a leading plus sign, exactly to a requester of its sequence number who asked its address or address zero; a leading minus sign gives nothing |
| `MeComFrames.DamageHidden` | mecomserver/router.go:585-608 | a response whose body is damaged in two adjacent bytes is rejected as it is and accepted once restored |
| `RankSort.SortHead` | mecomserver/router.go:468-483 | the head of the stable sort is the first element of least rank |
| `RankSort.SortStable` | mecomserver/router.go:468-483 | the sort keeps the order of equally ranked elements |
| `RouteFrame.OrderedIsStable` | mecomserver/router.go:468-524 | ordering permutes the routes, ranks them by priority (or by score for dynamic reads) and is stable |
| `RouteFrame.OrderedBy` | mecomserver/router.go:468-483 | dynamic reads take the routes by ascending score, everything else by ascending configured priority |
| `RouteFrame.ScorePrefers` | mecomserver/router.go:492-524 | all else being equal, the route of higher standing, with less to do, connected, with fewer errors is preferred |
| `RouteFrame.WritePrimary` | mecomserver/router.go:468-483 | the first route for a write is the first one of least configured priority, whatever the policy and the load |
| `RouteFrame.PreferNative` | mecomserver/router.go:691-710 | for a virtual read native routes come first, each group in its order, and no route is lost |
| `RouteFrame.NativesSelect` | mecomserver/router.go:695-708 | the first group holds only native routes, the second only others |
| `RouteFrame.TryRoute` | mecomserver/router.go:622-683 | the requests put on the route's queue are those of its attempts; it ends the loop exactly if it settles a request, the caller has gone, the frame is a write or no route is left; a settled request gets the restored answer |
| `RouteFrame.Visit` | mecomserver/router.go:610-689 | the requests sent are those of the routes up to the first one that ends the loop, the reply is the answer of that route exactly if it settles the request, and reads and writes are served as `ReadLaw` and `WriteLaw` say |
| `RouteFrame.ReadLaw` | mecomserver/router.go:610-689 | if every route before `i` fails with the caller waiting, or answers with an answer to fall through, and route `i` answers finally, a read replies with the restored answer of route `i` after asking routes 0 to `i`, each once more after a failure in passing, and no others; it ends in an error only without routes, if its caller has gone, or if its last route failed |
| `RouteFrame.WriteLaw` | mecomserver/router.go:610-689 | a write makes one attempt at the first route and replies with its restored answer or an error |
| `RouteFrame.SendsInOrder` | mecomserver/router.go:620-684 | requests go out route by route, the second attempt after the first, each the rewritten frame on the queue of its route |
| `RouteFrame.AnswerOfLastSend` | mecomserver/router.go:640-657 | the answer a client gets is that of the last request sent |
| `RouteFrame.WriteSendsOnce` | mecomserver/router.go:610-689 | a write is put on one queue at most, that of the configured primary |
| `RouteFrame.AtMostTwoEach` | mecomserver/router.go:620-684 | at most two requests per route |
| `RouteFrame.AliasKeepsKind` | mecomserver/router.go:543-567 | the compatibility alias never turns a write into a read or a read into a write |
| `RouteFrame.AliasRewrites` | mecomserver/router.go:543-572 | the identity query goes downstream as the firmware query with its address and sequence number; every other built request is left as it is |
| `RouteFrame.ReadsAreQueries` | mecomserver/router.go:762-771 | a built request is a read exactly if its payload starts with a question mark, a bare text exactly if the text does |
| `RouteFrame.RefusalFalls` | mecomserver/router.go:773-784 | a refusal is fallen through for code 1, for code 3 on known parameters and for codes 4 and 5 where the serial line may do better, and for nothing else |
| `RouteFrame.AnswerStands` | mecomserver/router.go:773-784 | an answer that is no refusal is never passed over |
| `RouteFrame.JobOrder` | mecomserver/router.go:609-621 | the routes of a job are the ordered ones, native ones first for a virtual read |
| `RouteFrame.Route` | mecomserver/router.go:453-689 | the requests sent are those of the routing job, one at most for a write and two at most per route for a read; the reply is the answer of the route at which the loop ends; reads fall back and writes do not, as `ReadLaw` and `WriteLaw` say |
| `CommandCache.Cache.Prune` | mecomserver/router.go:437-443 | removes exactly the completed entries whose time has passed |
| `CommandCache.Cache.Lookup` | mecomserver/router.go:408-424 | joins an in-flight or unexpired entry, otherwise opens a new execution |
| `CommandCache.Cache.Complete` | mecomserver/router.go:427-433 | records reply and expiry of its own entry only |
| `CommandCache.StepKeeps` | mecomserver/router.go:399-435 | every step of every client keeps the invariant |
| `CommandCache.OneInFlight` | mecomserver/router.go:399-435 | after any interleaving at most one execution per key is in flight, run by its owner |
| `CommandCache.ExecutionsSpaced` | mecomserver/router.go:399-435 | a later execution of a key starts only after the earlier one has finished and its TTL has elapsed, and everything it sends is a TTL later than everything the earlier one sent |
| `CommandCache.OneSenderPerWindow` | mecomserver/router.go:399-435 | in any TTL window only one execution of a key sends anything downstream |
| `WriteOnce.KeyedFrames` | mecomserver/router.go:445-451 | exactly the non-empty frames that are not reads have a key, and it is their trimmed text |
| `WriteOnce.WritesOncePerWindow` | mecomserver/router.go:345-354 | after any interleaving of clients whose executions send what their routing sends, identical writes are put on a downstream queue at most once in any TTL window |
| `CommandCache.AnswerIsFresh` | mecomserver/router.go:411-419 | a caller gets the reply of an execution of its key that was in flight or unexpired when it read the clock |
| `CommandCache.AnswerIsOwnOrJoined` | mecomserver/router.go:399-435 | a call gets the reply of the very execution it opened when it looked, or joined while it was in flight or unexpired by the clock it had read |
| `CommandCache.WaitIsServed` | mecomserver/router.go:411-419 | a waiting caller's execution has finished or is being run |
| `CommandCache.RecordsArePermanent` | mecomserver/router.go:399-435 | an outcome is never changed and nothing sent is ever taken back |
| `CommandCache.ReplyIsGiven` | mecomserver/router.go:426-433 | the outcome on record is the reply given to the client that ran the execution, good for one TTL from then |
| `CommandCache.SendsAreCounted` | mecomserver/router.go:424-427 | every send made for an execution is on record |
| `CommandCache.SendIsMade` | mecomserver/router.go:424-427 | every send on record was made at that time by a client running the execution |
| `CommandCache.OpenedByLooking` | mecomserver/router.go:410-424 | an execution is on record with the client that opened it, its key and its time |
| `CommandCache.PrunedExactly` | mecomserver/router.go:437-443 | pruning removes an entry exactly if its execution has finished and its time has passed |
| `CommandCache.OpensOnlyWhenNeeded` | mecomserver/router.go:410-424 | an execution is opened only if all earlier ones of the key are finished and expired |
| `Broker.Broker.Exchange` | mecomserver/server.go:335-379 | a success is the answer to this very request and leaves nothing unread |
| `Broker.Broker.Handle` | mecomserver/server.go:284-330 | exactly one reply per dequeued request, a success exactly if it is not cancelled, a connection is open and live or none is open and one can be dialled, and the exchange works; an open connection is used; a failure closes the connection, a cancellation leaves it; the idle connection has no unread answer; the request is delivered at most once |
| `Broker.Broker.Run` | mecomserver/server.go:269-333 | over any sequence of requests and failures every success answers its own request, in order, and no request is delivered twice |
| `AddressZero.Selector.Next` | mecomserver/router.go:887-899 | the fixed address, none, or the next of the configured order |
| `AddressZero.Selector.Lease` | mecomserver/router.go:901-925 | the address of the leases the client holds, or the next of the configured order; the token of the lease names that address |
| `AddressZero.Selector.Release` | mecomserver/router.go:927-943 | marks its lease released, touches no other client, and keeps the entry exactly while the client holds another lease |
| `AddressZero.RefsCountLeases` | mecomserver/router.go:901-943 | after every interleaving an entry exists exactly while leases are held, and counts them |
| `AddressZero.ConcurrentLeasesShare` | mecomserver/router.go:901-925 | all leases a client holds at one time are for the same address |
| `AddressZero.AssignmentsCycle` | mecomserver/router.go:887-899 | fresh assignments follow the configured order cyclically |
| `BulkRead.Bridge.SoftParameterValue` | mecomserver/device_bridge.go:1462-1521 | live value, else cached value, else placeholder; a live value is remembered; disturbs no other read |
| `BulkRead.Bridge.VirtualParameterValue` | mecomserver/device_bridge.go:1523-1574 | soft value, else stored virtual value, else default; disturbs no other read |
| `BulkRead.Bridge.SingleRead` | mecomserver/device_bridge.go:1391-1460 | a live reading is shown, masked; without one the value last stored, for a virtual parameter then its own store, then the default; constants and synthesised values as the tables say; nothing to show is refused; a live reading is remembered and no other entry changes |
| `BulkRead.SingleShown` | mecomserver/device_bridge.go:1391-1574 | the single-read function of the stores shows what there is to show, stated on tables, device and stores |
| `BulkRead.ReadingOutlivesDevice` | mecomserver/device_bridge.go:1462-1521 | once read live, a kept parameter goes on showing its value when the device falls silent |
| `BulkRead.SingleStable` | mecomserver/device_bridge.go:1391-1552 | reads before a read do not change its answer |
| `BulkRead.Bridge.Gather` | mecomserver/device_bridge.go:1637-1694 | every local slot shows what its single read answers; only directly read parameters are left to the bulk primitive |
| `BulkRead.Bridge.AskDevice` | mecomserver/device_bridge.go:1695-1710 | scattering the bulk answer, or the single fallback, fills exactly the pending slots |
| `BulkRead.Bridge.BulkRead` | mecomserver/device_bridge.go:1580-1730 | every slot shows what there is to show, as a single read would; a slot read directly from a silent device shows what was noted last where the table allows it; the bulk read fails only if some single read fails |
| `BulkRead.Bridge.ReadSingly` | mecomserver/device_bridge.go:1391-1460 | reading the parameters one after the other gives the single answers of the initial state |
| `BulkRead.Bridge.CompareReads` | mecomserver/device_bridge.go:1391-1730 | when all single reads succeed the bulk payload is their concatenation in order |
| `PdoPlan.U32RoundTrip` | canmap/observe.go:199-203 | reading four little-endian bytes restores the value |
| `PdoPlan.RawRoundTrip` | canmap/registry.go:117-130 | decoding an encoded mapping entry gives it back without its comment |
| `PdoPlan.DecodeRoundTrip` | canmap/registry.go:117-130 | encoding a decoded mapping value gives it back |
| `PdoPlan.CheckMapping` | cmd/canpdoctl/main.go:389-401 | reports the first bad entry, or too many bits, exactly when there is one |
| `PdoPlan.BuildPDOPlan` | cmd/canpdoctl/main.go:374-436 | a plan exists exactly for acceptable input, has the prescribed steps, and every refusal names a real fault |
| `PdoPlan.Device.Execute` | cmd/canpdoctl/main.go:340-372 | whatever fails, the node is where some prefix of the plan leaves it; nothing is done after a failure |
| `PdoPlan.PlanAccepted` | cmd/canpdoctl/main.go:409-435 | a strict node accepts every step, and every prefix leaves exactly the expected contents |
| `PdoPlan.PlanConfigures` | cmd/canpdoctl/main.go:409-435 | after the plan the node holds, byte for byte, the entries, their number, the transmission type, the timer and a COB-ID whose highest bit is set exactly if the PDO is to stay disabled or carries nothing |
| `PdoPlan.PrefixSafe` | cmd/canpdoctl/main.go:409-435 | the PDO is invalid from the disable step to the last COB-ID write, entries go only into a cleared mapping, nothing else is touched |
| `PdoReadBack.ReadSDO` | canmap/observe.go:47-63 | the first of four attempts that decides |
| `PdoReadBack.RetriesAreTruthful` | canmap/observe.go:47-63 | lost attempts never change what is read, and one that gets through suffices |
| `PdoReadBack.ScanPDOs` | canmap/observe.go:149-197 | every PDO before the first absent record is observed, every failed read of a COB-ID, a mapping count or a mapping entry is reported, and nothing else is; only absence or cancellation ends the scan |
| `PdoReadBack.LosingReads` | canmap/observe.go:47-63 | an object is read as it is if one of four attempts gets through, and not at all otherwise |
| `PdoReadBack.PickedAt` | canmap/observe.go:149-166 | a scan that gets past a position has its PDO exactly if its COB-ID could be read, whatever happened to the others |
| `PdoReadBack.ReadBack` | canmap/observe.go:149-197 | scanning the node after a plan, over a bus that loses any attempts, recovers exactly the intended configuration if and only if every object of the PDO that matters gets through once in four attempts; otherwise the mapping is cut short, the transmission type 0 or the PDO not found |
| `PdoReadBack.MapsEqual` | canmap/diff.go:153-163 | equal exactly when index, subindex and length agree entry by entry |
| `PdoReadBack.PickPDO` | canmap/diff.go:144-151 | the first PDO of the number |
| `PdoReadBack.DiffPdo` | canmap/diff.go:111-128 | one finding per deviation, a match if and only if there is none |
| `PdoReadBack.ConfigureAndVerify` | cmd/canpdoctl/main.go:340-436 | building, executing, scanning over a bus that loses attempts, and comparing reports a match if and only if the PDO is not to stay disabled, carries something, and its COB-ID and mapping get through, and a missing PDO if and only if its COB-ID does not |
| `PollQueue.PollQueue.Enqueue` | mecom/pollqueue.go:46-56 | adds an entry unless its key is in the rotation |
| `PollQueue.PollQueue.EnqueueFront` | mecom/pollqueue.go:58-68 | adds a front entry unless its key is pending |
| `PollQueue.PollQueue.NextChunk` | mecom/pollqueue.go:82-108 | oldest front entries first, then the next entries of the rotation, each at most once |
| `PollQueue.PollQueue.RecordBulk` | mecom/pollqueue.go:119-130 | the last result of a key wins and no other key is touched |
| `PollQueue.PollQueue.Latest` | mecom/pollqueue.go:132-137 | everything queued can be looked up |
| `PollQueue.ChunkKeeps` | mecom/pollqueue.go:82-108 | key sets match their lists and no list repeats a key after a chunk |
| `PollQueue.ChunkFills` | mecom/pollqueue.go:82-108 | a chunk is as long as it may be: all pending front entries first, then the entries of the rotation that are next, one turn at most |
| `PollQueue.QueueingAppends` | mecom/pollqueue.go:46-80 | queueing puts an entry at the end, once per key, and gives it a place for its result |
| `PollQueue.RunIsFair` | mecom/pollqueue.go:58-108 | over every run with a fixed list the normal picks are one cyclic sequence |
| `PollQueue.EveryEntryOnce` | mecom/pollqueue.go:58-108 | any as many consecutive normal picks as there are entries cover every entry exactly once |
| `PollQueue.FrontIsFifo` | mecom/pollqueue.go:58-108 | front entries leave first in, first out, and no key is pending twice |
| `Readout.Clamp` | mecom/readout.go:208-213 | a window between 1 and 279 bytes, the given one where possible |
| `Readout.Tuned` | mecom/readout.go:355-371 | the window stays between its bounds, at most doubles or halves, grows exactly when the device has more or the answer filled three quarters, and shrinks exactly when all data was read and filled less than a quarter |
| `Readout.Distribute` | mecom/readout.go:185-204 | high-priority parameters fill the ring slots in order, all others go to the rotation with their specification |
| `Readout.RingCaptures` | mecom/readout.go:185-204 | the ring captures high-priority parameters only, in their order, each under its name |
| `Readout.RingTakesFirst` | mecom/readout.go:185-204 | a high-priority parameter is left out only when the ring is full of earlier ones, and whatever is left out is in the rotation |
| `Readout.RestIsRest` | mecom/readout.go:185-204 | nothing else is in the rotation |
| `Readout.Readout.constructor` | mecom/readout.go:134-206 | the first high-priority parameters fill the ring plan in order up to the limit of at most sixteen, with indices equal to positions; all others are in the rotation; the window bounds are clamped |
| `Readout.Readout.EnqueueFront` | mecom/readout.go:215-224 | a front request keeps the plan and has its specification |
| `Readout.Readout.MoveRingCaptureToBackground` | mecom/readout.go:330-353 | every ring parameter moves to the rotation and the front lane; none is lost |
| `Readout.Readout.PollRing` | mecom/readout.go:246-291 | cursor, window and tail after each kind of answer; the plan is kept, or moved without ring support |
| `Readout.Readout.PollBackground` | mecom/readout.go:373-409 | every parameter of the chunk is reported, in order, under its specification, and its last result, or the error, is on record |
| `Readout.Readout.Poll` | mecom/readout.go:233-244 | a poll keeps all configured parameters, slots and bounds, reports the next chunk of the rotation, after the ring parameters have moved there if the client has no ring, and records its results |

## Left out

- Bytes of the ring file: superblock and chunk layout, CRC-32 and the interface name are one valid-or-invalid slot; a reader concurrent with the writer, disk write failures that return to a living process, and write reordering on power loss are not modelled; counters are unbounded.
- CaptureRing.RunKeeps: treats cutting and clearing the data region at re-initialisation as one step; crashes inside it are the subject of CaptureRingResize and CaptureRingResume.
- CaptureRingResize.InterruptedResize: counts whole slots; with another chunk size the cut may fall inside a slot, which is then readable, absent, or makes the snapshot fail, depending on its length.
- RingReader.Reader.Fetch: does not model a stop request while a sample is being sent.
- RouteFrame.Route: target texts, catalogue lookups and error classes are parameters; nil candidates and cache observation of answers are not modelled.
- CommandCache.StepKeeps: frames with an empty key and read frames do not use the cache; the key is the trimmed frame text.
- Broker.Broker.Run: statistics, the pause after a failed dial and shutdown are not modelled; a device that sends unsolicited frames is outside the assumption.
- AddressZero.AssignmentsCycle: the counter does not wrap at 2^64.
- BulkRead.Bridge.BulkRead: the text of ?VR and ?VX payloads and the missing client are not modelled; payloads are their 32-bit slots.
- PdoPlan.PlanAccepted: the node accepts a COB-ID write that sets the invalid bit in every state.
- Diff over whole registries, registry validation, pattern export and import: easier than what is proved here.
- Readout.Readout.PollRing: reduction of samples and the derived channel model are not modelled, and continuity of its stream is not claimed.
- Client.roundTripRaw, CAN and CANopen client loops, sockets, serial ports, HTTP and SSE handlers, catalogue data, floating-point models, write leases.
