# Modbus gateway firmware: verified model

A Dafny model of the parts of the firmware that have to be right when power fails, when identifiers wrap and when
tasks interleave: the flash-backed blackbox logger, the CRC and the entry codec with its offline parser, the slab
pool and the hand-over of slabs between tasks, the frame slicer, and the certificate blob.

`dafny verify dfyconfig.toml` checks the whole project.

## How it is organised

The logger is modelled twice. `LoggerSpec.dfy` and `RecoverySpec.dfy` say what a call does as a function of the
concrete state: device cells, batch bytes, offsets, last id, last erased sector, saved hint. `Logger.dfy` is the object
itself, with fields updated in place and the loops of the C code; each method is proved to compute the function. What
the calls achieve is proved about the functions:

| file | content |
|---|---|
| `Bytes.dfy`, `Crc.dfy`, `Entry.dfy`, `Layout.dfy` | words, alignment, CRC-16/Modbus, the entry format and its validator, runs of entries in sectors |
| `Flash.dfy` | the NOR device: bits only clear, whole sectors are erased, writes can be cut at any byte |
| `LoggerSpec.dfy`, `RecoverySpec.dfy` | the calls as functions |
| `Invariant.dfy` | one history of entries behind flash, batch and cursor; what every reachable logger looks like |
| `FlushSteps.dfy`, `FlushPasses.dfy`, `Operations.dfy`, `Replay.dfy` | every call keeps the invariant |
| `Recovery.dfy`, `SearchPatterns.dfy`, `Scanning.dfy`, `ChainScan.dfy`, `HintRecovery.dfy`, `AnyFlash.dfy` | head search on rotated and other ids, linear scan from the head or from any entry, recovery, the saved hint, arbitrary flash |
| `FlushSuccess.dfy`, `TornFlush.dfy`, `Drain.dfy`, `Conservation.dfy` | when a flush succeeds, what a cut one leaves, the replay loop, reading the flash back |
| `Runs.dfy`, `RunRecovery.dfy`, `FreshSector.dfy`, `FreshHeads.dfy`, `RunResults.dfy` | whole runs from erased flash, and what a boot finds after them |
| `SavedHints.dfy`, `FlushHints.dfy` | boots from any hint that a run has saved |
| `Losses.dfy`, `Backlog.dfy`, `FlushCursor.dfy` | exactly what a run loses, exactly what a drain delivers, what a flush does to the replay cursor and leaves to replay |
| `CallLaws.dfy` | single reads, replays and writes, told from the bytes of flash and batch |
| `AnyFlush.dfy`, `BootFlush.dfy` | the flush loop on any flash, and the first flush after a boot |
| `SmallRuns.dfy`, `Examples.dfy`, `LapExamples.dfy` | runs that reach the failing side of each exact condition, on any geometry |
| `Logger.dfy`, `Reboot.dfy` | the logger object, and a power cycle |
| `LogParser.dfy` | the offline parser and writer |
| `SlabPool.dfy`, `SlabProtocol.dfy`, `SlabFlow.dfy`, `LoggerService.dfy` | free list, ownership over all interleavings and where each slab goes, the logger task's quota loop |
| `Slicer.dfy`, `CertBlob.dfy` | the frame slicer, the certificate blob |

The invariant keeps the whole history of written entries as one sequence. Sector `k` of the flash holds entries
`lo[k]..hi[k]`, the batch holds everything from `flushed` on, and a failed write leaves a torn prefix of the batch at the
write offset. Ids are the position in the history modulo 2^32, so id wrap-around and laps around the partition need no
special case.

## What turned out not to hold

Each comes with the condition under which it happens, and with runs that reach it. These runs write one payload over and
over, for any sector size and any payload that fits; sectors of 4096 bytes are one case (`UnitTestPlan`,
`UnitTestPlanWithGap`).

- Filling the last sector to the last byte leaves the write offset at the partition size, where nothing is ever written
  again (`FullPartitionIsFinal`, reached by `DeadEndIsReached`). A flush on a healthy device succeeds if and only if it
  neither starts there nor fills up to there with entries left over (`FlushAfterRunIff`).
- The documentation promises that buffered telemetry survives a reboot (line 351 of the repository's README.md). A booted
  logger remembers no erased sector. Its first flush, even one that fails, keeps the entries of the sector recovery ended
  in if and only if recovery ended on a sector boundary or the first new entry does not fit behind them; otherwise that
  sector is erased with all of them (`FirstFlushAfterBoot`, reached by `EntryLostAtBoot`).
- A flush that erased a new sector and was cut before an entry arrived leaves a sector in which recovery can find
  nothing. If it is not the first sector, recovery ends in the one before, unless the bytes of a cut id mislead the
  search. If it is the first sector, on a later lap, the newest entry is found if and only if the head search ends
  behind the first sector and no sector from there to the last but one has room for a header behind its entries
  (`LapRecoveredIff`). Where the search ends follows from the ids the sectors start with (`HeadAfterRun`). There are two
  ways to fail: a boot starts over at offset 0, with id 0 or what a cut header reads, as it always does with two sectors
  and no header there (`LapIsForgotten`), or it stops in a middle sector and returns an offset and an id of the past
  (`LapStopsMidway`). `RecoveryAfterRun` gives the result for every run.
- The saved hint points at the start of the last chunk but carries the newest id. Right after the successful flush that
  saved it, recovery from it is exact if and only if the hint is the default or that chunk held one entry
  (`ExactHintIff`, reached by `HintFallsShort`). A hint on an entry, saved at any time before, is exact if and only if
  that entry has the hint's id or a later one and no sector on the way leaves room for a header (`HintExactIff`); what a
  failed flush saves is told by `HintOfFlush`.
- Replay gives up its backlog at the gap in front of a sector end. A drain gets to the newest entry if and only if there is
  nothing to replay or no sector from the replay offset to that entry ends in a gap (`Backlog.DrainCompleteIff`, reached by
  `BacklogLostBehindGap`). Nor does replay ever come back to what lies in front of the cursor. A writer that reaches a
  cursor at the start of a sector does not push it, since the rule asks for an offset beyond the writer's, and the whole
  older lap is skipped (`NeverBehind`, `LapSkipsBacklog`). Unless the writer reaches the cursor, a flush costs replay only
  what it erases (`BacklogAfterFlush`).
- An entry cut after 9, 10 or 11 bytes has a length field whose missing bytes read as erased. The validator then reads the
  tail, and runs the CRC, far outside its buffer, unless the 32-bit tail offset wraps into the header. The model marks
  such a read as `Stray` and tells exactly when it happens (`CutEntryNeverValidates`, `StrayLaw`, reached by
  `CutLengthStrays`).
- The logger task takes an entry off its queue before it looks at its quota: with three or more queued it loses the third
  and its slab (`ThirdEntryLost`, `WakeUp`). A frame with a bad CRC and a full live queue lose a slab as well; 32 losses
  leave the device without a slab (`LossesExhaustThePool`, `ThirtyTwoBadFrames`). The slicer's header says that a slab
  nobody takes is freed later (components/modbus_analyzer/include/modbus_slicer.h:90-93); for a bad CRC the code never does.
- A frame carries the time of its first byte if and only if nothing was dropped, by an overflow or by silence without a
  callback, since its slab was taken (`StartIsFirstByteIff`, failing in `StaleTimestamp`).
- What is emitted for a frame does not depend on how the driver cuts it if and only if the frame has at most 513 bytes, one
  more than a slab: one byte too many drops all of it, more can leave an end of it behind as a frame of its own
  (`CutsDoNotMatterIff`).
- The silence that ends a frame can fall short of 3.5 characters, because it is computed from the character time in whole
  microseconds. It is long enough if and only if that is 6 or more, or 2 to 5 with at most a seventh of it cut off
  (`SilenceIsLongEnoughIff`); 11 bits at 3 700 000 baud, for one, fall short (`FastLineFallsShort`).

## Model

| member | source | states |
|---|---|---|
| `Crc.CalculateWithTable` | components/utils/utils.c:19-54 | the table build returns the CRC-16/Modbus of the message, for every message |
| `Crc.CalculateBitwise` | components/utils/utils.c:56-76 | the bitwise build returns the same function of the message; so do the two Python loops |
| `Crc.TableIsShiftByte` | components/utils/utils.c:21-43 | every one of the 256 table entries is its index shifted through eight polynomial steps |
| `Crc.TableStep` | components/utils/utils.c:46-51 | one table step equals eight bit steps, for every 16-bit register and every byte |
| `Crc.BurstDetected` | components/utils/utils.c:56-76 | two messages of any length that differ in one byte or two adjacent bytes never have the same CRC |
| `Crc.FramePassesIffRegisterIsZero` | components/modbus_analyzer/modbus_parser.c:11-32 | a frame of fewer than four bytes is refused for its size; any other passes its check if and only if the CRC register run over the whole frame, CRC bytes included, ends at zero, and is refused for its CRC otherwise (section 2.5.1.2 of MODBUS over Serial Line V1.02) |
| `Crc.RequestPasses` | components/modbus_analyzer/modbus_parser.c:11-32 | an eight-byte read request, in bytes, passes |
| `Crc.CheckValue` | components/utils/utils.c:56-76 | the CRC of the ASCII digits 1 to 9 is the check value 0x4B37 of CRC-16/Modbus |
| `Bytes.AlignUpIsLeastMultiple` | components/blackbox_logger/private_include/blackbox_logger_internal.h:54-57 | for a power of two the mask form gives the least multiple not below the number |
| `Entry.EntrySizeBounds` | components/blackbox_logger/private_include/blackbox_logger_internal.h:66-82 | without 32-bit wrap the aligned size covers header, payload and tail and exceeds them by less than the alignment |
| `Entry.EntryValidates` | components/blackbox_logger/blackbox_logger.c:42-91 | what the writer lays down validates, whatever follows it and whatever the alignment gap holds |
| `Entry.EntryFields` | components/blackbox_logger/blackbox_logger.c:701-719 | magic, id, length and payload read back from a written entry are those written |
| `Entry.EntryBytes` | components/blackbox_logger/blackbox_logger.c:701-719 | the format in bytes: magic, id and length low byte first, payload, CRC of all of these low byte first, the magic backwards, and fewer bytes of padding than the alignment |
| `Entry.SampleEntry` | components/blackbox_logger/blackbox_logger.c:701-719 | the nineteen bytes of the entry with id 1 and one byte of payload |
| `Entry.ValidatorOutcome` | components/blackbox_logger/blackbox_logger.c:42-91 | the status for any bytes whose length field does not wrap the tail offset: too short or no magic, beyond what may be read, beyond the data, wrong CRC, wrong end, in this order |
| `Entry.CorruptionDetected` | components/blackbox_logger/blackbox_logger.c:75-80 | one wrong byte or two adjacent ones in id or payload of a valid entry always give a CRC error |
| `Entry.CutEntryNeverValidates` | components/blackbox_logger/blackbox_logger.c:42-91 | an entry cut anywhere before its last tail byte never validates; the validator leaves its buffer if and only if the cut is inside the length field and the tail offset does not wrap |
| `Entry.WrappedTailNeverValid` | components/blackbox_logger/blackbox_logger.c:65-87 | a tail offset that wrapped into the header never validates, for any id |
| `Entry.BlankIsNoEntry` | components/blackbox_logger/blackbox_logger.c:56-60 | one erased byte at the start is enough for a reader to find no entry |
| `Entry.ValidEntryAdvances` | components/blackbox_logger/blackbox_logger.c:450-461 | a scan always moves on past an entry that validates, even if its size wraps |
| `Flash.ProgramLaw` | components/blackbox_logger/test/mock_partition.c:29-78 | for any input and any outcome no bit goes from 0 to 1, nothing outside the range changes, and an OK write leaves exactly the source bytes |
| `Flash.ProgramOutcome` | components/blackbox_logger/test/mock_partition.c:29-78 | exactly which bytes of a write arrive on any cells, and which error ends it: the injected fault, a bit that would have to be set, or the end of the device |
| `Flash.EraseLaw` | components/blackbox_logger/test/mock_partition.c:80-98 | misaligned and oversized erases change nothing; any other sets every cell of the range and touches no other |
| `Flash.ProgramReady` | components/blackbox_logger/test/mock_partition.c:48-74 | a write to cells that are erased or already hold the byte is never refused; an injected fault leaves exactly the prefix before it |
| `Flash.MockFlash.Write` | components/blackbox_logger/test/mock_partition.c:29-78 | the byte loop computes the device function, fault injection and refusal included |
| `Flash.MockFlash.EraseRange` | components/blackbox_logger/test/mock_partition.c:80-98 | an aligned range inside the device reads erased afterwards, the rest is unchanged |
| `LoggerSpec.FlushPassProgress` | components/blackbox_logger/blackbox_logger.c:856-945 | every pass without an error writes bytes or moves from inside a sector to a sector start: the flush loop ends |
| `FlushSteps.FitCountIsLongest` | components/blackbox_logger/blackbox_logger.c:145-185 | the greedy count of entries that fit is the longest prefix that fits |
| `FlushSteps.ChunkLaw` | components/blackbox_logger/blackbox_logger.c:145-185 | on a batch of entries the chunk is exactly the bytes of the longest run of whole entries that fits the space |
| `FlushSteps.ReadyForChunk` | components/blackbox_logger/blackbox_logger.c:907-909 | the cells under the next chunk are erased or hold the same byte, also when a torn write is retried after more entries were appended |
| `FlushSteps.EraseKeeps` | components/blackbox_logger/blackbox_logger.c:889-899 | erasing the sector entered drops whole entries of that sector and nothing else |
| `FlushSteps.ProgramChunk` | components/blackbox_logger/blackbox_logger.c:905-921 | a chunk arrives whole, or is cut at the injected fault and leaves a torn prefix; it is never refused |
| `Invariant.PushKeeps` | components/blackbox_logger/blackbox_logger.c:868-882 | the tail-bite rule moves the replay cursor if and only if the writer stands at the start of the next sector of the ring and the cursor lies ahead in it; the cursor then stands at the oldest entry kept, never below one already accepted |
| `FlushCursor.CursorAfterFlush` | components/blackbox_logger/blackbox_logger.c:868-882 | after any run, any flush, failed or not, moves the cursor if and only if it goes on in another sector and the cursor lies in that sector behind its first byte; the cursor then stands at the start of the sector after that one; the saved hint carries the cursor and the last id |
| `FlushCursor.BacklogAfterFlush` | components/blackbox_logger/blackbox_logger.c:868-882 | unless the writer reaches the cursor, all the entries in front of it that the flush did not erase are still in front of it, first and in order; if it does, only entries of the batch are |
| `FlushPasses.PassKeeps` | components/blackbox_logger/blackbox_logger.c:856-945 | one pass keeps the flash shape, whatever sector boundary, gap, wrap or fault it meets, and the bounds of every sector it does not enter |
| `FlushPasses.PassAtEnd` | components/blackbox_logger/blackbox_logger.c:889-916 | at the end of the partition a pass fails and leaves flash and batch alone |
| `Operations.LoopKeeps` | components/blackbox_logger/blackbox_logger.c:856-945 | the whole flush loop keeps the flash shape; OK means nothing is left; the last chunk starts at the saved offset |
| `Operations.FlushKeeps` | components/blackbox_logger/blackbox_logger.c:848-961 | a flush moves a prefix of the batch to the flash and keeps the rest in the batch, whatever error stops it; at most one sector, the one behind the current one in the ring, gives up what it held |
| `Operations.AppendKeeps` | components/blackbox_logger/blackbox_logger.c:699-723 | appending adds exactly one entry to the history, under the next id modulo 2^32 |
| `Operations.WriteKeeps` | components/blackbox_logger/blackbox_logger.c:651-738 | for every 32-bit length a write that returns OK adds exactly its payload at the end of the history and any error adds nothing, the flush it may trigger included; a copy out of the batch needs a length whose entry size wraps |
| `CallLaws.WriteLaw` | components/blackbox_logger/blackbox_logger.c:651-738 | one write on any flash: refused with nothing changed, or taken into the batch behind what is there under the next id with nothing else changed; the batch is flushed first if and only if the entry does not fit, and a failed flush is all that happens |
| `CallLaws.OkEmpties` | components/blackbox_logger/blackbox_logger.c:822-976 | on any flash a flush of an empty batch is refused and changes nothing, and one that succeeds leaves nothing in the batch |
| `Replay.ReadEntry` | components/blackbox_logger/blackbox_logger.c:740-820 | reading a stored entry gives back its payload, or reports that the buffer is too small |
| `CallLaws.ReadIff` | components/blackbox_logger/blackbox_logger.c:740-820 | the read on any flash gives back a payload if and only if the bytes of an entry with it stand at the offset, within a batch and the partition, and the buffer takes it |
| `Replay.ReplayKeeps` | components/blackbox_logger/blackbox_logger.c:978-1030 | an accepted replay hands out the entry at the cursor, at or above everything accepted before; any other outcome accepts nothing |
| `CallLaws.ReplayTakesFirst` | components/blackbox_logger/blackbox_logger.c:978-1030 | one replay after any run offers the first entry the flash holds from the replay offset on; accepted, exactly the rest is left; refused, nothing changes; with a short buffer or nothing to offer the cursor goes to the write offset |
| `Recovery.SearchFindsHead` | components/blackbox_logger/blackbox_logger.c:321-356 | on any rotated array of sector ids the search ends at the last sector of the current lap |
| `SearchPatterns.HeadOfTurn` | components/blackbox_logger/blackbox_logger.c:321-356 | on ids that turn at most once against the base behind the first sector, with or without a header in the first, the search ends at a sector that the leading ids, the probes going down and the middle id determine |
| `Recovery.SerialOrder` | components/blackbox_logger/private_include/blackbox_logger_internal.h:91-95 | for entries less than 2^31 apart, serial comparison of ids is the order of the history, across wrap-around |
| `Recovery.Window` | components/blackbox_logger/blackbox_logger.c:339-348 | everything in a partition addressable with 32 bits lies within 2^28 ids, so serial comparison is sound |
| `Recovery.HeadIsCurrent` | components/blackbox_logger/blackbox_logger.c:280-367 | on the flash of any reachable logger the search finds the sector last entered and its first id, as soon as magic and id of its first header are there |
| `Scanning.ScanEntries` | components/blackbox_logger/blackbox_logger.c:442-462 | from an entry that is next in serial order the scan runs to the last whole entry of the sector |
| `Scanning.ScanTail` | components/blackbox_logger/blackbox_logger.c:442-477 | behind the last whole entry the scan stops, or finds no room for a header and goes on; when it leaves the buffer is told exactly |
| `Scanning.NextSectorStops` | components/blackbox_logger/blackbox_logger.c:463-484 | what stands in the next sector of the ring is older or erased, so a scan that goes on ends there unchanged |
| `Scanning.RecoveryLaw` | components/blackbox_logger/blackbox_logger.c:520-588 | recovery without a usable hint, once the current sector holds a whole entry, returns the end and id of the last wholly written entry, wherever the last write was cut |
| `ChainScan.ChainLaw` | components/blackbox_logger/blackbox_logger.c:407-485 | from an entry of any sector that is next in serial order the scan goes from sector to sector, ends at the first that has room for a header behind its entries, or goes on into the current sector |
| `Scanning.WholeRecovery` | components/blackbox_logger/blackbox_logger.c:520-588 | with nothing torn it returns the write offset in RAM and the id of the last flushed entry |
| `HintRecovery.HintLaw` | components/blackbox_logger/blackbox_logger.c:532-558 | recovery from the hint of a successful flush is exact for the default hint or a one-entry chunk and otherwise stays at the start of the chunk |
| `CallLaws.HintNeedsHeader` | components/blackbox_logger/blackbox_logger.c:532-558 | on any flash a hint at offset 0, at the end of the partition or where no magic stands makes no difference; any other is where the scan starts, without a search |
| `SavedHints.HintAfterRun` | components/blackbox_logger/blackbox_logger.c:532-558 | after any run recovery from any hint that stands on an entry, whenever it was saved: it stays there if the id there is older than the hint's, and otherwise goes on to the first sector with room for a header behind its entries or to the last whole entry |
| `SavedHints.HintExactIff` | components/blackbox_logger/blackbox_logger.c:532-558 | such a hint leads to the last whole entry if and only if the id there is at or after the hint's and no sector from there on leaves room for a header; or the hint names that very end |
| `FlushHints.HintOfFlush` | components/blackbox_logger/blackbox_logger.c:947-952 | after any run and one more flush, failed or not, what recovery makes of the hint it saved: unusable ones fall back to the search, those on an entry go as far as any such hint, those on a cut entry stay or stray |
| `FlushSuccess.FlushSucceedsIff` | components/blackbox_logger/blackbox_logger.c:860-921 | with no fault pending a flush succeeds if and only if it neither starts at the end of the partition nor fills up to it with entries left |
| `TornFlush.FlushAfterRunIff` | components/blackbox_logger/blackbox_logger.c:860-921 | the same after any run, in terms of the concrete state |
| `TornFlush.FirstFlushSucceeds` | components/blackbox_logger/blackbox_logger.c:822-976 | any entry that fits the batch can be written and flushed from erased flash |
| `TornFlush.CutFlush` | components/blackbox_logger/blackbox_logger.c:889-961 | a flush cut after k bytes of its first chunk, in the current sector, in a new one or behind a gap: exactly those k bytes are in the flash at the chunk's start, its sector erased if it was new, the offset stands there, batch and ids are as they were |
| `TornFlush.CutAfterRun` | components/blackbox_logger/test/mock_partition.c:48-57 | the same after any run, retries of an earlier torn write included |
| `FlushSuccess.FlushAtEnd` | components/blackbox_logger/blackbox_logger.c:889-918 | at the end of the partition every flush fails, the first one for the erase and any other for the write, and changes neither flash nor batch |
| `Drain.ReplayAdvances` | components/blackbox_logger/blackbox_logger.c:1008-1016 | an accepted replay moves the cursor towards the end of the partition on any flash image |
| `Drain.IterateFrom` | components/blackbox_logger/blackbox_logger.c:1032-1047 | the replay loop ends on every flash image and for every callback, with an outcome other than OK |
| `Drain.DrainLaw` | components/blackbox_logger/blackbox_logger.c:1032-1047 | with an accepting callback it delivers in order exactly the entries up to the writer or the first gap and leaves the offsets equal |
| `Drain.StopIff` | components/blackbox_logger/blackbox_logger.c:1000-1004 | in terms of the history, a drain from a sector gets to the newest entry if and only if no sector between ends in a gap |
| `Backlog.DrainAfterRun` | components/blackbox_logger/blackbox_logger.c:1032-1047 | after any run a drain with an accepting callback and a buffer for every payload written delivers exactly the entries that stand in the flash from the replay offset to the write offset or the first gap, a stretch of what was written, and leaves the offsets equal |
| `CallLaws.DrainAnswers` | components/blackbox_logger/blackbox_logger.c:1032-1047 | a drain after any run with any buffer and any answers: it delivers what the flash holds from the replay offset on up to the first entry refused or too large; a refused one and the rest stay for the next time, anything else sends the cursor to the write offset |
| `Backlog.DrainCompleteIff` | components/blackbox_logger/blackbox_logger.c:1000-1004 | what it delivers ends with the newest flushed entry if and only if there is nothing to replay or no sector from the replay offset up to the newest one ends in a gap, told from the bytes of the flash |
| `Backlog.NeverBehind` | components/blackbox_logger/blackbox_logger.c:868-882 | after any run, whatever calls follow, they deliver only entries from the backlog on; with equal offsets every entry flushed by then and not delivered is skipped for good |
| `Conservation.SectorReads` | components/blackbox_logger/blackbox_logger.c:442-477 | reading any sector back gives exactly the entries the history has there, torn bytes in the current one or not |
| `Conservation.FlashIsHistory` | components/blackbox_logger/blackbox_logger.c:848-968 | the partition read in ring order is a consecutive stretch of the history ending with the last whole entry |
| `Runs.FreshIsGood` | components/blackbox_logger/blackbox_logger.c:600-636 | erased flash satisfies the invariant, whatever the batch buffer holds and whatever the first id |
| `Runs.StepKeeps` | components/blackbox_logger/blackbox_logger.c:651-1030 | every call and every injected fault keeps the invariant |
| `Runs.RunHistory` | components/blackbox_logger/blackbox_logger.c:651-1030 | every run from erased flash has a history behind it |
| `Runs.DeliveredInOrder` | components/blackbox_logger/blackbox_logger.c:978-1030 | every run: accepted entries are written entries, byte for byte, each at most once, in the order written |
| `Runs.NeverRefused` | components/blackbox_logger/blackbox_logger.c:889-922 | every run: no write ever needs a 0 to become a 1 |
| `RunRecovery.ExactRecovery` | components/blackbox_logger/blackbox_logger.c:280-588 | after any run ending in a successful flush, recovery without a hint returns the offset in RAM and the newest id |
| `RunRecovery.ExactHintIff` | components/blackbox_logger/blackbox_logger.c:947-952 | recovery from the hint saved by that flush agrees if and only if the hint is the default or its entry ends at the write offset |
| `RunRecovery.TornRecovery` | components/blackbox_logger/blackbox_logger.c:426-485 | after any run that left a whole entry in the current sector, flushed or brought there by a torn write, recovery returns the end of the last entry whose bytes, tail included, are in the flash, and the id a reader finds last; the stray read is told apart by the bytes of flash and batch |
| `RunRecovery.StrayLaw` | components/blackbox_logger/blackbox_logger.c:65-73 | recovery leaves its buffer if and only if 9 to 11 bytes of the first entry that did not arrive whole stand in the flash and the length read there does not wrap the tail offset |
| `FreshSector.FreshRecovery` | components/blackbox_logger/blackbox_logger.c:407-485 | after any run that left no whole entry in the current sector, recovery ends with the entries of the first sector, from the head the search found on, that has room for a header behind them, or of the one before the current sector; from the current sector itself it stays at its start or strays |
| `FreshHeads.HeadAfterRun` | components/blackbox_logger/blackbox_logger.c:291-356 | after any run, where the head search ends, told from the ids the sectors start with, a header cut inside its id included |
| `FreshHeads.LapRecoveredIff` | components/blackbox_logger/blackbox_logger.c:280-494 | on a later lap with no whole entry in the first sector, recovery gets to the newest entry if and only if the search ends behind that sector and no sector from there to the last but one has room for a header behind its entries |
| `FreshHeads.RecoveryAfterRun` | components/blackbox_logger/blackbox_logger.c:520-588 | the result of recovery without a hint after every run, with no condition on what reached the flash |
| `RunRecovery.ArrivedLaw` | components/blackbox_logger/blackbox_logger.c:905-921 | comparing batch and flash byte by byte finds exactly the entries that arrived whole |
| `Losses.FlushConserves` | components/blackbox_logger/blackbox_logger.c:848-961 | one flush of a reachable logger, whatever error ends it: the flash read back loses exactly the entries of the one sector erased and gains entries of the batch in order, and what leaves the batch is in the flash |
| `Losses.FlushDropsOnlyErased` | components/blackbox_logger/blackbox_logger.c:889-899 | the same on concrete state after any run |
| `Losses.OnlyOldestLost` | components/blackbox_logger/blackbox_logger.c:848-961 | after any run flash and batch hold, each under its own id, every entry written but the oldest, and exactly as many are missing as stood in the sectors the run erased |
| `Losses.NothingLostOnFirstLap` | components/blackbox_logger/blackbox_logger.c:889-899 | as long as the sector behind the head is empty the run has erased no entry |
| `RunResults.FullPartitionIsFinal` | components/blackbox_logger/blackbox_logger.c:918-921 | once the last sector is full to the last byte, no later call changes the flash |
| `AnyFlash.ErasedFlashIsEmpty` | components/blackbox_logger/blackbox_logger.c:520-588 | a boot on erased flash starts at offset 0 with id 0 whatever hint was saved |
| `AnyFlash.RecoveryStaysInside` | components/blackbox_logger/blackbox_logger.c:426-494 | on any flash image and any aligned hint recovery returns an aligned offset not beyond the partition |
| `AnyFlash.OneLap` | components/blackbox_logger/blackbox_logger.c:407-494 | on a flash whose sectors never stop a scan it ends after one lap, at the end of the sector before the one it started in |
| `BootFlush.FirstFlushKeepsHeadIff` | components/blackbox_logger/blackbox_logger.c:889-899 | on any flash image, the first flush of a booted logger, whatever comes of it, keeps the entries of the sector in front of the recovered offset if that is a sector boundary or the next chunk is empty; otherwise a reader finds nothing there |
| `BootFlush.FirstFlushAfterBoot` | components/blackbox_logger/blackbox_logger.c:600-604 | the same for a boot without a hint after any run, torn writes included, in terms of the recovered offset and the size of the first entry; a whole entry in the current sector makes sure there are entries to lose |
| `Examples.DeadEndIsReached` | components/blackbox_logger/blackbox_logger.c:918-921 | rounds that fill every sector to the last byte leave the write offset at the partition size |
| `Examples.HintFallsShort` | components/blackbox_logger/blackbox_logger.c:947-952 | two entries in one flush, and recovery from the saved hint is both of them short of the write offset |
| `Examples.EntryLostAtBoot` | components/blackbox_logger/blackbox_logger.c:600-604 | write, flush, reboot, write, flush: all succeed and the first entry is gone |
| `Examples.CutLengthStrays` | components/blackbox_logger/blackbox_logger.c:65-73 | a flush cut one byte into the length field after which recovery reads outside its buffer |
| `LapExamples.BacklogLostBehindGap` | components/blackbox_logger/blackbox_logger.c:1000-1004 | rounds into a second sector behind a gap, and a drain delivers the first sector and gives up the rest |
| `LapExamples.LapSkipsBacklog` | components/blackbox_logger/blackbox_logger.c:868-882 | a lap of rounds and one more with nothing replayed: whatever calls follow, no entry of the lap is ever delivered, although all but those of one sector stand in the flash |
| `LapExamples.LapIsForgotten` | components/blackbox_logger/blackbox_logger.c:291-356 | two sectors, the flush that starts the next lap cut: the second sector is full and a boot starts over with offset 0 and id 0 |
| `LapExamples.LapStopsMidway` | components/blackbox_logger/blackbox_logger.c:291-356 | four sectors and ids that pass 2^31 between the second and the third, with the same cut: a boot returns the end and the id of the second sector |
| `Logger.ValidateEntry` | components/blackbox_logger/blackbox_logger.c:107-128 | the checks in the order of the code compute the validator function |
| `Logger.BlackboxLogger.ChunkSizeWithCeiling` | components/blackbox_logger/blackbox_logger.c:145-185 | the header-walking loop computes the chunk function |
| `Logger.BlackboxLogger.EraseAndWrite` | components/blackbox_logger/blackbox_logger.c:891-922 | erase on entry and write of a chunk, with the sector remembered even if the erase failed |
| `Logger.BlackboxLogger.PushedOffset` | components/blackbox_logger/blackbox_logger.c:869-882 | computes the tail-bite rule on the two offsets; what it comes to in a flush is `CursorAfterFlush` |
| `Logger.BlackboxLogger.FlushOnce` | components/blackbox_logger/blackbox_logger.c:858-944 | the loop body computes one pass |
| `Logger.BlackboxLogger.Flush` | components/blackbox_logger/blackbox_logger.c:822-976 | the do-while, the saved parameters and the compaction compute the flush function on the whole state |
| `Logger.BlackboxLogger.AppendEntry` | components/blackbox_logger/blackbox_logger.c:701-723 | header, payload and tail copied in place leave exactly the appended state |
| `Logger.BlackboxLogger.Write` | components/blackbox_logger/blackbox_logger.c:651-738 | computes the write function on the whole state |
| `Logger.BlackboxLogger.Read` | components/blackbox_logger/blackbox_logger.c:740-820 | computes the read function and changes nothing |
| `Logger.BlackboxLogger.NextReplay` | components/blackbox_logger/blackbox_logger.c:978-1030 | computes the replay function; only the replay offset moves |
| `Logger.BlackboxLogger.IterateReplay` | components/blackbox_logger/blackbox_logger.c:1032-1047 | the loop computes the drain and ends |
| `Logger.BlackboxLogger.FindHead` | components/blackbox_logger/blackbox_logger.c:291-356 | the binary search loop computes the head search |
| `Logger.BlackboxLogger.BinarySearchRecover` | components/blackbox_logger/blackbox_logger.c:358-363 | the parameters point at the head sector and its id |
| `Logger.BlackboxLogger.ScanBuffer` | components/blackbox_logger/blackbox_logger.c:442-477 | the inner scan loop computes the scan of one sector |
| `Logger.BlackboxLogger.ScanFlash` | components/blackbox_logger/blackbox_logger.c:407-485 | the outer loop computes the scan around the ring and reads at most every sector once |
| `Logger.BlackboxLogger.RecoverParameters` | components/blackbox_logger/blackbox_logger.c:520-588 | hint check, head search and scan compute the recovery function |
| `Logger.BlackboxLogger.constructor` | components/blackbox_logger/blackbox_logger.c:590-649 | boot leaves an empty batch, no erased sector and the flash as it was, and the recovered offsets unless recovery reads outside its buffer |
| `Reboot.FlushAndReboot` | components/blackbox_logger/blackbox_logger.c:590-649 | a logger flushed after any run and a second one booted on its flash without parameters agree on offset and id |
| `LogParser.ParsesIff` | tools/modbus_pipeline/log_parser.py:73-113 | the parser accepts at an offset exactly the bytes of an entry, with exactly its id and payload |
| `LogParser.ParserOutcome` | tools/modbus_pipeline/log_parser.py:73-113 | the entry and the next offset, or the message, for any offset of any dump, told from the bytes |
| `LogParser.RoundTrip` | tools/modbus_pipeline/log_parser.py:64-113 | parsing entries laid back to back, with any padding and any number of erased bytes behind, gives back exactly the list |
| `LogParser.CreatedLays` | tools/modbus_pipeline/log_parser.py:136-152 | the writer's output is such an entry, padded with fewer than four zero bytes to a multiple of four |
| `LogParser.LoggedLays` | components/blackbox_logger/blackbox_logger.c:701-722 | so is an entry the logger laid down with the same alignment |
| `LogParser.SectorDump` | tools/modbus_pipeline/log_parser.py:64-113 | a dump of any sector, torn bytes or not, parses to exactly the entries that stand wholly in it |
| `LogParser.DumpAfterRun` | tools/modbus_pipeline/log_parser.py:64-113 | after any run parser and logger read the same entries from every sector |
| `LogParser.AgreesWithValidator` | tools/modbus_pipeline/log_parser.py:73-113 | the parser accepts exactly what the validator accepts under a length that does not make the 32-bit tail offset wrap |
| `LogParser.Parser.constructor` | tools/modbus_pipeline/log_parser.py:55-59 | iteration has still to yield everything the parser finds from offset 0 on |
| `LogParser.Parser.ParseEntry` | tools/modbus_pipeline/log_parser.py:73-113 | the checks in order, the offset moved and the error message kept |
| `LogParser.Parser.Next` | tools/modbus_pipeline/log_parser.py:64-71 | yields the first of what remains and leaves the rest, or ends |
| `SlabPool.Pool.Init` | components/slab_pool/slab_pool.c:56-93 | chains all 32 nodes in order; a second call is refused and changes nothing |
| `SlabPool.Pool.Alloc` | components/slab_pool/slab_pool.c:95-119 | takes the head of the free list and clears its length, or reports that there is none |
| `SlabPool.Pool.Free` | components/slab_pool/slab_pool.c:121-136 | puts a slab that is not free in front; the list stays an acyclic chain without duplicates |
| `SlabPool.DoubleFreeLoops` | components/slab_pool/slab_pool.c:121-136 | freeing the slab at the head once more leaves no chain at all, which is why the protocol matters |
| `SlabFlow.LastFreedFirst` | components/slab_pool/slab_pool.c:95-136 | the slab freed last is the next one taken, and taking it leaves the list as it was before |
| `SlabProtocol.OneOwner` | components/telemetry_pipeline/telemetry_pipeline.c:65-89 | over every interleaving each of the 32 slabs is in exactly one place |
| `SlabProtocol.StepKeeps` | components/telemetry_pipeline/telemetry_pipeline.c:141-147 | no step of any task gains or loses a reference, and the live queue stays within its bound |
| `SlabFlow.Routes` | components/controller/router.c:36-46 | over every interleaving: packed slabs dispatched online while the live queue has room are those telemetry received, then those still queued there; those dispatched offline are those the logger took, then those queued for it; good frames are those the pipeline received, then those in the raw queue; lost slabs are those of the three kinds of loss, each in order |
| `SlabFlow.Hands` | components/telemetry_pipeline/telemetry_pipeline.c:65-89 | over every interleaving each task gives on or frees exactly the slabs it took, in order: the pipeline frees the raw ones and hands on the packed ones |
| `SlabFlow.FreeListMoves` | components/slab_pool/slab_pool.c:95-136 | every step takes at most the first free slab or puts in front the one slab its task gives back |
| `SlabFlow.RecordRouted` | components/controller/router.c:36-46 | one record through the pipeline: its packed slab is in the live queue if online with fewer than sixteen there, in the logging queue if offline, lost or freed otherwise, and the raw slab is free |
| `SlabFlow.RecordDropped` | components/telemetry_pipeline/telemetry_pipeline.c:65-89 | with no free slab the record is dropped and its raw slab is freed |
| `SlabProtocol.SendsNeverFail` | components/telemetry_pipeline/telemetry_pipeline.c:141-147 | the raw and the logging queue are never full when a slab is sent there |
| `SlabProtocol.NoDoubleFree` | components/slab_pool/slab_pool.c:121-136 | a slab is given back only while it is not in the free list |
| `SlabProtocol.AbandonedIff` | components/modbus_analyzer/modbus_analyzer.c:155-176 | a slab is abandoned exactly at a bad CRC, a full live queue, or a dequeue past the logger's quota |
| `SlabProtocol.LossesExhaustThePool` | components/logger_service/logger_service.c:60-69 | no run loses more than 32 slabs, and after 32 no task ever gets one again |
| `SlabProtocol.ThirtyTwoBadFrames` | components/modbus_analyzer/modbus_analyzer.c:158-175 | 32 frames with a bad CRC empty the pool |
| `SlabProtocol.ThirdEntryLost` | components/logger_service/logger_service.c:60-69 | with three or more entries queued one wake-up stores two and loses the third |
| `SlabFlow.LoggerDrains` | components/logger_service/logger_service.c:60-69 | with one or two entries queued a wake-up stores them, frees their slabs and loses nothing |
| `SlabFlow.Limits` | components/slab_pool/slab_pool.c:56-93 | at the start all 32 slabs are free in order and every queue is empty; 32 bad frames use them up |
| `LoggerService.Service.WakeUp` | components/logger_service/logger_service.c:60-69 | the quota loop writes the first two records to the log in order, counts the writes that fail, frees both slabs whatever the outcome, and takes a third record off the queue that ends up nowhere |
| `LoggerService.Service.Store` | components/logger_service/logger_service.c:134-154 | one record: the logger takes one write, a failure is reported, and the slab is free afterwards either way |
| `Runs.WritesGoOn` | components/logger_service/logger_service.c:60-69 | the writes of wake-ups take a reachable logger to a reachable one, so what is proved of runs holds of it |
| `Slicer.BytesConserved` | components/modbus_analyzer/modbus_slicer.c:34-133 | for every sequence of calls the bytes fed are those emitted, dropped or pending, in order |
| `Slicer.FramesAreSized` | components/modbus_analyzer/modbus_slicer.c:63-75 | emitted frames have 1 to 512 bytes |
| `Slicer.FramesIndependentOfChunks` | components/modbus_analyzer/modbus_slicer.c:34-116 | nothing is dropped if and only if every frame fits a slab; then the frames emitted are those on the line, however they were chunked (section 2.5.1.1 of MODBUS over Serial Line V1.02) |
| `Slicer.CutsDoNotMatterIff` | components/modbus_analyzer/modbus_slicer.c:63-69 | with the chunks the driver makes, what is emitted for a frame is the same for all ways to cut it if and only if it has at most one byte more than a slab |
| `Slicer.SmallFrames` | components/modbus_analyzer/modbus_slicer.c:63-75 | up to that length, what is emitted is the frame itself if it fits a slab and nothing otherwise, however it was cut |
| `Slicer.StartIsFirstByteIff` | components/modbus_analyzer/modbus_slicer.c:45-69 | for every sequence of calls with bytes pending, the frame's time is that of the feed that brought its first byte if and only if nothing was dropped since the slab was taken, or the two stamps coincide; it always is the stamp of the feed that took the slab |
| `Slicer.PendingHasOrigins` | components/modbus_analyzer/modbus_slicer.c:45-69 | after every sequence of calls with bytes pending there is the feed that took the slab and the feed that brought the first pending byte, so the result above always applies |
| `Slicer.RunState` | components/modbus_analyzer/modbus_slicer.c:34-133 | the state it speaks of is the state a run of the slicer ends in |
| `Slicer.StaleTimestamp` | components/modbus_analyzer/modbus_slicer.c:45-69 | a run in which they differ: 513 bytes in driver chunks from time 0 on, two bytes at time 9, emitted under time 0 |
| `Slicer.DropsAreReported` | components/modbus_analyzer/modbus_slicer.c:78-90 | with a callback every drop is reported and nothing else is: missing memory with the time of the feed, bytes beyond 512 with the time the slab was taken; without one nothing is reported and the slicer goes on in the same way |
| `Slicer.ClockEmitsIff` | components/modbus_analyzer/modbus_slicer.c:118-133 | after any run the clock ends a frame if and only if bytes are pending and the last feed lies more than the limit back; it emits all of them with the time stamp kept and gives the slab away, and otherwise changes nothing |
| `Slicer.UsualRates` | components/modbus_analyzer/modbus_slicer.c:24-32 | the silence at 9600, 19 200 and 115 200 baud, in microseconds |
| `Slicer.SilenceIsLongEnoughIff` | components/modbus_analyzer/modbus_slicer.c:24-32 | the silence is at least 3.5 real character times if and only if the whole microseconds of a character are 6 or more, or 2 to 5 with at most a seventh cut off |
| `Slicer.FastLineFallsShort` | components/modbus_analyzer/modbus_slicer.c:24-32 | at 11 bits and 3 700 000 baud it is not |
| `Slicer.ModbusSlicer.FeedBytes` | components/modbus_analyzer/modbus_slicer.c:34-94 | gathering in the slab computes the feed function |
| `Slicer.ModbusSlicer.Silence` | components/modbus_analyzer/modbus_slicer.c:96-116 | the slab is handed on with the frame and no longer referred to, or kept and cleared |
| `Slicer.ModbusSlicer.CheckSilence` | components/modbus_analyzer/modbus_slicer.c:118-133 | the same once the line has been silent for longer than the limit |
| `CertBlob.BlobLoads` | tools/scripts/provisionDevice.py:95-117 | for any three files the loader accepts the blob; its three spans hold the files without the white space at their ends, the six bytes written out, and with a NUL behind each; the blob has the seven header words, four zero bytes, zeros up to a multiple of 32 and the CRC of all before it |
| `CertBlob.BlobIsMade` | tools/scripts/provisionDevice.py:88-125 | the blob is empty if a file is missing, and is made whenever the files fit 32 bits together |
| `CertBlob.StripTrims` | tools/scripts/provisionDevice.py:95-97 | stripping leaves what stands between the white space at both ends of a file |
| `CertBlob.TrimsOnce` | tools/scripts/provisionDevice.py:95-97 | a file has only one such part |
| `CertBlob.StripOneMore` | tools/scripts/provisionDevice.py:95-97 | one more byte at either end is stripped if it is one of 0x09 to 0x0D or 0x20 and kept if not |
| `CertBlob.SameCrcOffset` | components/system_config/system_config.c:160-163 | the loader's 32-bit arithmetic finds the packer's CRC offset |
| `CertBlob.CorruptBlobRefused` | components/system_config/system_config.c:165-176 | one wrong byte or two adjacent ones in front of the CRC are refused as long as the header words used are intact |
| `CertBlob.Config.LoadMqttCerts` | components/system_config/system_config.c:108-198 | the checks in order; spans are stored only on success; a wrong magic gives the mapping back, a CRC failure keeps it and so refuses the next call |
| `CertBlob.MagicIff` | components/system_config/system_config.c:148-155 | an image with a header is refused for its state if and only if its first four bytes are not the magic |
| `CertBlob.BlankIsRefused` | components/system_config/system_config.c:148-155 | so is the erased partition of a device never provisioned |
| `CertBlob.LoaderOutcome` | components/system_config/system_config.c:157-176 | for any image with the magic whose end does not wrap: the CRC is looked for at the first place behind the third file from which two bytes reach a multiple of 32 |

## Left out

- Locks, timeouts, the one-shot flush timer and task notifications: each logger call is one atomic step. `next_replay` does
  not take the write lock, so preemption between it and a flush is not modelled.
- Erase failures inside runs: a failed erase is remembered as done, so the flash shape is not kept there; `EraseAndWrite`
  still has the failing branch. Runs continued after a reboot are followed up to the end of the first flush.
- A partition of one sector, a batch larger than a sector, and a partition of 2^32 bytes or more (`Geometry.Valid`).
- The build that refuses to overwrite old entries: it only replaces the tail-bite branch by an error.
- `RunRecovery.ExactRecovery`: states the recovered write offset and id; the replay offset comes from the saved parameters
  alone and is not recovered from the flash.
- `LoggerSpec.FlushPassProgress`: the chunk walk stops at an entry whose size wraps to zero, where the C loop would not end;
  no reachable batch contains one.
- `Stray` marks a read outside a buffer; what the C code does after such a read is not modelled.
- `CertBlob.BlobLoads`: blobs longer than 2^32 bytes are excluded; files for which packing a field fails give an empty blob.
- `SlabProtocol.OneOwner`: the telemetry task's quotas only restrict when it dequeues, so the model lets it dequeue at any
  time; MQTT publishing and the serializer are a Boolean outcome.
- `LoggerService.Service.WakeUp`: a record is its slab and what that holds; the time stamp that an error event carries is
  not modelled.
- `Slicer.ModbusSlicer.FeedBytes`: null pointers and a missing clock function have no case; the pool is the slab offered.
- The flash device is the mock of the unit tests, used as the environment; driver-level behaviour of the real part is not
  modelled.
- The Python CRC loops are not repeated; they are the bitwise loop on a register that stays within 16 bits.
- MQTT bridge, Wi-Fi, BLE provisioning, RS485 driver, NVS manager, event bus, metrics, controller, serializer, partition table
  lookup, encryption and flashing of the blob: foreign calls, generated code or input and output.
