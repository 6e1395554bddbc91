/**
 * The logger object: its fields are updated in place, call by call, over a flash device. Every method is
 * proved to compute the function of LoggerSpec.dfy or RecoverySpec.dfy that the other files reason about.
 */
module Logger {
  import opened Bytes
  import opened Crc
  import opened Entry
  import opened Layout
  import opened Flash
  import opened LoggerSpec
  import opened RecoverySpec
  import opened Drain
  import opened Scanning

  /** The validator: `data` is what counts as the entry, `capacity` bytes from its start may be read. */
  method ValidateEntry(data: seq<Byte>, capacity: nat) returns (err: Err)
    requires |data| <= capacity
    ensures err == Validate(data, capacity)
  {
    if |data| < OVERHEAD {
      return InvalidEntry;
    }
    if WordAt(data, 0) != HEADER_MAGIC {
      return InvalidEntry;
    }
    var tailOffset := (HEADER_SIZE + WordAt(data, 8)) % WORD;
    if tailOffset + TAIL_SIZE > capacity {
      return Stray;
    }
    if tailOffset + TAIL_SIZE > |data| {
      return NoMem;
    }
    var expected := CalculateWithTable(data[..tailOffset]);
    if HalfAt(data, tailOffset) != expected {
      return InvalidCrc;
    }
    if WordAt(data, tailOffset + 2) != TAIL_MAGIC {
      return InvalidEntry;
    }
    return Ok;
  }

  /** The parameters that point at the head sector. */
  function HeadHint(geo: Geometry, mem: seq<Byte>, replayOffset: nat): (h: Hint)
    requires geo.Valid() && |mem| == geo.Size()
    ensures h.writeOffset < geo.Size() && h.lastId < WORD
  {
    var head := HeadSearch(SectorIds(geo, mem));
    SectorInside(geo, head.sector);
    Hint(head.sector * geo.sector, replayOffset, head.id)
  }

  class BlackboxLogger {
    const geo: Geometry
    const flash: MockFlash
    const batch: array<Byte>
    var batchLen: nat
    var writeOffset: nat
    var replayOffset: nat
    var lastId: nat
    var lastErasedSector: int
    var parameters: Hint

    ghost predicate Valid()
      reads this, flash, flash.memory, batch
    {
      Sized(geo, State()) && flash.sector == geo.sector && batch != flash.memory
    }

    ghost function State(): LoggerSpec.State
      reads this, flash, flash.memory, batch
    {
      LoggerSpec.State(flash.State(), batch[..], batchLen, writeOffset, replayOffset, lastId, lastErasedSector,
          parameters)
    }

    /** Boot: recover offset and id from the flash, the replay offset from the saved parameters. */
    constructor (geometry: Geometry, device: MockFlash, batchBuffer: array<Byte>, saved: Hint)
      requires geometry.Valid() && device.memory.Length == geometry.Size() && device.sector == geometry.sector
      requires batchBuffer.Length == geometry.batch && batchBuffer != device.memory && saved.lastId < WORD
      ensures Valid() && geo == geometry && flash == device && batch == batchBuffer
      ensures batchLen == 0 && lastErasedSector == -1 && State().dev == device.State()
      ensures State().batch == batchBuffer[..]
      ensures var recovered := Recover(geometry, device.memory[..], saved);
              recovered.Recovered? ==>
                State() == Booted(device.State(), batchBuffer[..], recovered.writeOffset, saved.replayOffset,
                    recovered.lastId)
    {
      geo, flash, batch := geometry, device, batchBuffer;
      batchLen, lastErasedSector, parameters := 0, -1, saved;
      writeOffset, replayOffset, lastId := 0, 0, 0;
      new;
      var err := RecoverParameters();
    }

    /** The header words at an offset of the partition. */
    method ReadHeader(offset: nat) returns (err: DevErr, magic: nat, id: nat)
      requires Valid()
      ensures err == if offset + HEADER_SIZE > geo.Size() then DevInvalidSize else DevOk
      ensures id < WORD
      ensures err == DevOk ==> magic == WordAt(State().dev.mem, offset) && id == WordAt(State().dev.mem, offset + 4)
    {
      var data;
      data, err := flash.Read(offset, HEADER_SIZE);
      magic, id := 0, 0;
      if err == DevOk {
        magic, id := WordAt(data, 0), WordAt(data, 4);
      }
    }

    /** Search the sector starts for the last one of the current lap. */
    method FindHead() returns (head: Head)
      requires Valid()
      ensures head == HeadSearch(SectorIds(geo, flash.memory[..]))
    {
      hide WordAt, SectorId, SectorIds, IsNext, SearchFrom;
      ghost var mem := flash.memory[..];
      ghost var ids := SectorIds(geo, mem);
      DivUnique(geo.Size(), geo.sector, geo.sectors, 0);
      var low, high := 0, geo.Size() / geo.sector - 1;
      SectorHeader(geo, mem, 0);
      var err, magic, baseId := ReadHeader(0);
      if magic != HEADER_MAGIC {
        baseId := 0;
      }
      head := Head(0, baseId);
      while low <= high
        invariant 0 <= low && high < geo.sectors && head.id < WORD && head.sector < geo.sectors
        invariant SearchFrom(ids, baseId, low, high, head) == HeadSearch(ids)
        decreases high - low + 1
      {
        var mid := low + (high - low) / 2;
        SectorHeader(geo, mem, mid);
        SearchStep(ids, baseId, low, high, head);
        var midErr, midMagic, midId := ReadHeader(mid * geo.sector);
        if midMagic == HEADER_MAGIC && IsNext(midId, baseId) {
          head, low := Head(mid, midId), mid + 1;
        } else {
          high := mid - 1;
        }
      }
      SearchStep(ids, baseId, low, high, head);
    }

    /** Point the parameters at the head sector. */
    method BinarySearchRecover()
      requires Valid()
      modifies this`parameters
      ensures Valid() && parameters == HeadHint(geo, flash.memory[..], old(parameters.replayOffset))
    {
      hide HeadSearch, SectorIds;
      var head := FindHead();
      parameters := Hint(head.sector * geo.sector, parameters.replayOffset, head.id);
    }

    /** The scan of one sector buffer. */
    method ScanBuffer(buf: seq<Byte>, base: nat, start: nat, writeOffset: nat, highest: nat) returns (scan: Scan)
      requires Scannable(geo.align, buf) && highest < WORD
      ensures scan == ScanSector(geo.align, buf, base, start, writeOffset, highest) && (scan.stray ==> scan.done)
    {
      hide WordAt, Validate, EntrySize, IsNext;
      scan := Scan(writeOffset, highest, false, false);
      var pos := start;
      while pos + HEADER_SIZE <= |buf| && !scan.done
        invariant scan.highest < WORD && (scan.stray ==> scan.done)
        invariant ScanSector(geo.align, buf, base, start, writeOffset, highest) ==
                  if scan.done then scan else ScanSector(geo.align, buf, base, pos, scan.writeOffset, scan.highest)
        decreases !scan.done, |buf| - pos
      {
        var err := ValidateEntry(buf[pos..], |buf| - pos);
        if err == Ok {
          ValidHasHeader(buf[pos..], |buf| - pos);
          ValidEntryAdvances(buf[pos..], |buf| - pos, geo.align);
          var id := WordAt(buf[pos..], 4);
          var entrySize := EntrySize(WordAt(buf[pos..], 8), geo.align);
          if IsNext(id, scan.highest) {
            scan := Scan(base + pos + entrySize, id, false, false);
            pos := pos + entrySize;
          } else {
            scan := scan.(done := true);
          }
        } else {
          scan := scan.(done := true, stray := err == Stray);
        }
      }
    }

    /** Scan linearly, around the ring at most once, until the newest entry. */
    method ScanFlash(offset: nat, lastId: nat) returns (scan: Scan)
      requires Valid() && offset < geo.Size() && lastId < WORD
      ensures Linear(geo, flash.memory[..], offset, lastId) ==
              if scan.stray then StrayRead else Recovered(scan.writeOffset, scan.highest)
      ensures scan.highest < WORD
    {
      hide ScanSector, ScanRing, Sector;
      ghost var mem := flash.memory[..];
      OffsetInRing(geo, offset);
      DivUnique(geo.Size(), geo.sector, geo.sectors, 0);
      var currentSector: nat := offset / geo.sector;
      var totalSectors := geo.Size() / geo.sector;
      var pos: nat := offset % geo.sector;
      var processed: nat := 0;
      scan := Scan(offset, lastId, false, false);
      ghost var whole := ScanRing(geo, mem, currentSector, pos, 0, offset, lastId);
      while !scan.done && processed < totalSectors
        invariant currentSector < geo.sectors && scan.highest < WORD && processed <= geo.sectors
        invariant whole == if scan.done then scan
                           else ScanRing(geo, mem, currentSector, pos, processed, scan.writeOffset, scan.highest)
        invariant scan.stray ==> scan.done
        decreases geo.sectors - processed
      {
        var base := currentSector * geo.sector;
        RingScanUnfolds(geo, mem, currentSector, pos, processed, scan.writeOffset, scan.highest);
        SectorBytesAre(geo, mem, currentSector);
        var buf, readErr := flash.Read(base, geo.sector);
        scan := ScanBuffer(buf, base, pos, scan.writeOffset, scan.highest);
        pos := 0;
        currentSector := (currentSector + 1) % totalSectors;
        processed := processed + 1;
      }
      if !scan.done {
        LapEnds(geo, mem, currentSector, pos, processed, scan);
      }
    }

    /** Linear recovery from the parameters on. */
    method LinearRecover() returns (err: Err)
      requires Valid() && parameters.writeOffset < geo.Size() && parameters.lastId < WORD
      modifies this`parameters
      ensures Valid() && (err == Ok || err == Stray)
      ensures Linear(geo, flash.memory[..], old(parameters.writeOffset), old(parameters.lastId)) ==
              if err == Ok then Recovered(parameters.writeOffset, parameters.lastId) else StrayRead
      ensures parameters.replayOffset == old(parameters.replayOffset) && parameters.lastId < WORD
    {
      hide Linear;
      var scan := ScanFlash(parameters.writeOffset, parameters.lastId);
      err := if scan.stray then Stray else Ok;
      if err == Ok {
        parameters := Hint(scan.writeOffset, parameters.replayOffset, scan.highest);
      }
    }

    /** Recover from the hint if a header stands there, else from the head sector. */
    method RecoverParameters() returns (err: Err)
      requires Valid() && parameters.lastId < WORD
      modifies this`parameters, this`writeOffset, this`replayOffset, this`lastId
      ensures Valid() && (err == Ok || err == Stray)
      ensures Recover(geo, flash.memory[..], old(parameters)) ==
              if err == Ok then Recovered(writeOffset, lastId) else StrayRead
      ensures err == Ok ==>
              parameters == Hint(writeOffset, replayOffset, lastId) && replayOffset == old(parameters.replayOffset)
    {
      hide WordAt, Linear, HeadSearch, SectorIds;
      ghost var mem := flash.memory[..];
      var usable := false;
      if parameters.writeOffset != 0 {
        var readErr, magic, id := ReadHeader(parameters.writeOffset);
        usable := readErr == DevOk && magic == HEADER_MAGIC;
      }
      assert usable == HintUsable(geo, mem, parameters);
      if !usable {
        BinarySearchRecover();
      }
      err := LinearRecover();
      if err == Ok {
        writeOffset, replayOffset, lastId := parameters.writeOffset, parameters.replayOffset, parameters.lastId;
      }
    }

    /** The largest chunk of whole entries of the batch from `start` on that fits `ceiling`. */
    method ChunkSizeWithCeiling(start: nat, size: nat, ceiling: nat) returns (maxSize: nat)
      requires Valid()
      ensures maxSize == ChunkFrom(batch[..], start, size, ceiling, geo.align, 0)
    {
      hide WordAt, EntrySize;
      maxSize := 0;
      var isChunkFit := true;
      while isChunkFit && maxSize < size
        invariant ChunkFrom(batch[..], start, size, ceiling, geo.align, 0) ==
                  if isChunkFit then ChunkFrom(batch[..], start, size, ceiling, geo.align, maxSize) else maxSize
        decreases isChunkFit, size - maxSize
      {
        if start + maxSize + HEADER_SIZE <= batch.Length && WordAt(batch[..], start + maxSize) == HEADER_MAGIC {
          var entrySize := EntrySize(WordAt(batch[..], start + maxSize + 8), geo.align);
          if entrySize > 0 && maxSize + entrySize <= ceiling {
            maxSize := maxSize + entrySize;
          } else {
            isChunkFit := false;
          }
        } else {
          isChunkFit := false;
        }
      }
    }

    /** Erase the sector of `write` unless it was the last one erased, then write `chunk` bytes of the batch there. */
    method EraseAndWrite(write: nat, from: nat, chunk: nat) returns (err: Err, ghost devErr: DevErr)
      requires Valid() && from + chunk <= geo.batch
      modifies this`lastErasedSector, flash, flash.memory
      ensures Valid() && State().batch == old(State().batch)
      ensures var (s1, eraseErr) := EnterSector(geo, old(State()), write);
              if eraseErr != DevOk then State() == s1 && err == EraseFail && devErr == eraseErr
              else
                var (dev, writeErr) := Program(s1.dev, write, s1.batch[from..from + chunk]);
                && State() == s1.(dev := dev) && devErr == writeErr
                && err == if writeErr == DevOk then Ok else WriteFail
    {
      hide Program, Erase;
      err, devErr := Ok, DevOk;
      var sector := write / geo.sector;
      if sector != lastErasedSector {
        var eraseErr := flash.EraseRange(sector * geo.sector, geo.sector);
        lastErasedSector := sector;
        devErr := eraseErr;
        if eraseErr != DevOk {
          err := EraseFail;
        }
      }
      if err == Ok {
        var writeErr := flash.Write(write, batch[from..from + chunk]);
        devErr := writeErr;
        if writeErr != DevOk {
          err := WriteFail;
        }
      }
    }

    /** What was not written moves to the front of the batch. */
    method Compact(written: nat)
      requires Valid() && written <= batchLen
      modifies this`batchLen, batch
      ensures Valid()
      ensures State() == old(State()).(batch := Compacted(old(batch[..]), written, old(batchLen) - written),
                                       batchLen := old(batchLen) - written)
    {
      var remaining := batchLen - written;
      if remaining > 0 && written > 0 {
        ghost var before := batch[..];
        forall i | 0 <= i < remaining {
          batch[i] := batch[written + i];
        }
        assert batch[..] == before[written..written + remaining] + before[remaining..];
      }
      batchLen := remaining;
    }

    /** The flush loop stands at `f`. */
    ghost predicate InLoop(f: Flushing, write: nat, replay: nat, written: nat, left: nat, hintOffset: nat, err: Err)
      reads this, flash, flash.memory, batch
    {
      f.s == State() && f.write == write && f.replay == replay && f.written == written && f.left == left
      && f.hintOffset == hintOffset && f.err == err
    }

    /** The tail-bite rule: a cursor ahead in the sector to be written moves to the start of the next one. */
    method PushedOffset(write: nat, replay: nat) returns (replay': nat)
      requires Valid()
      ensures replay' == PushReplay(geo, write, replay)
    {
      var currentWriteSector := write / geo.sector;
      var currentReplaySector := replay / geo.sector;
      replay' := replay;
      if currentWriteSector == currentReplaySector && replay > write {
        replay' := (currentReplaySector + 1) * geo.sector;
        if replay' >= geo.Size() {
          replay' := 0;
        }
      }
    }

    /** One pass of the flush loop: push the replay cursor, write the next chunk or skip the gap. */
    method FlushOnce(ghost f: Flushing, write: nat, replay: nat, written: nat, left: nat, hintOffset: nat)
      returns (write': nat, replay': nat, written': nat, left': nat, hintOffset': nat, err: Err)
      requires Valid() && written + left <= geo.batch && InLoop(f, write, replay, written, left, hintOffset, Ok)
      modifies this`lastErasedSector, this`replayOffset, this`writeOffset, flash, flash.memory
      ensures Valid() && InLoop(FlushPass(geo, f), write', replay', written', left', hintOffset', err)
    {
      hide ChunkFrom, Program, Erase, EnterSector, FlushStart, PushReplay;
      write', replay', written', left', hintOffset', err := write, replay, written, left, hintOffset, Ok;
      NextSectorStartLaw(geo, write);
      var currentWriteSector := write / geo.sector;
      var nextSectorStart := (currentWriteSector + 1) * geo.sector;
      var remaining := nextSectorStart - write;
      if nextSectorStart >= geo.Size() {
        nextSectorStart := 0;
      }
      replay' := PushedOffset(write, replay);
      var chunk := ChunkSizeWithCeiling(written, left, remaining);
      if chunk > left {
        err := Stray;
      } else if chunk > 0 {
        ghost var devErr;
        err, devErr := EraseAndWrite(write, written, chunk);
        if err == Ok {
          write', written', left' := write + chunk, written + chunk, left - chunk;
        }
      } else if remaining < geo.sector {
        write' := nextSectorStart;
      } else {
        err := NoMem;
      }
      if err == Ok {
        replayOffset := replay';
        hintOffset' := writeOffset;
        writeOffset := write';
      }
    }

    /** Flush the batch to the flash. */
    method Flush() returns (err: Err)
      requires Valid()
      modifies this, flash, flash.memory, batch
      ensures Valid()
      ensures State() == FlushOp(geo, old(State())).s && err == FlushOp(geo, old(State())).err
    {
      hide FlushPass, Compacted;
      if batchLen == 0 {
        return InvalidArg;
      }
      err := Ok;
      var write, replay, hintOffset, written, left := writeOffset, replayOffset, writeOffset, 0, batchLen;
      ghost var start := FlushStart(State());
      ghost var f := start;
      var again := true;
      while again
        invariant Valid() && written + left == batchLen
        invariant InLoop(f, write, replay, written, left, hintOffset, err)
        invariant again ==> err == Ok
        invariant FlushLoop(geo, start) == if again then FlushLoop(geo, f) else f
        decreases again, f.left, GapAhead(geo, f.write)
      {
        FlushPassProgress(geo, f);
        write, replay, written, left, hintOffset, err := FlushOnce(f, write, replay, written, left, hintOffset);
        f := FlushPass(geo, f);
        again := left > 0 && err == Ok;
      }
      replayOffset := replay;
      parameters := Hint(hintOffset, replay, lastId);
      writeOffset := write;
      Compact(written);
    }

    /** Copy bytes into the batch buffer. */
    method CopyToBatch(at: nat, src: seq<Byte>)
      requires Valid() && at + |src| <= geo.batch
      modifies batch
      ensures Valid() && State() == old(State()).(batch := Splice(old(batch[..]), at, src))
    {
      ghost var before := batch[..];
      forall i | 0 <= i < |src| {
        batch[at + i] := src[i];
      }
      assert batch[..] == Splice(before, at, src);
    }

    /** Lay an entry down at the end of the batch: header, payload, then the tail with the CRC of both. */
    method AppendEntry(payload: seq<Byte>)
      requires Valid() && EntryFits(geo, State(), payload)
      modifies this`batchLen, this`lastId, batch
      ensures Valid() && State() == Append(geo, old(State()), payload)
    {
      hide EntrySize, Word, Half, Crc16, BitClear, NoWrap, Header, Tail, Splice, Append, WordAt, AlignUp, Covered,
          Unpadded;
      EntryFitsParts(geo, State(), payload);
      EntrySizeLaw(|payload|, geo.align);
      ghost var before := State();
      var id := (lastId + 1) % WORD;
      CopyToBatch(batchLen, Header(id, |payload|));
      CopyToBatch(batchLen + HEADER_SIZE, payload);
      ghost var laid := batch[..];
      var covered := batch[batchLen..batchLen + HEADER_SIZE + |payload|];
      var crc := CalculateWithTable(covered);
      CopyToBatch(batchLen + HEADER_SIZE + |payload|, Tail(crc));
      var size := EntrySize(|payload|, geo.align);
      batchLen := batchLen + size;
      lastId := id;
      AppendLaidDown(geo, before, payload, id, laid, covered, crc, batch[..]);
    }

    /** Write an entry. */
    method Write(payload: seq<Byte>) returns (err: Err)
      requires Valid() && |payload| < WORD
      modifies this, flash, flash.memory, batch
      ensures Valid()
      ensures State() == WriteOp(geo, old(State()), payload).s && err == WriteOp(geo, old(State()), payload).err
    {
      hide FlushOp, Append, EntrySize, NoWrap;
      if |payload| == 0 {
        return InvalidArg;
      }
      err := Ok;
      var entrySize := EntrySize(|payload|, geo.align);
      if entrySize > geo.batch {
        err := NoMem;
      } else if batchLen + entrySize > geo.batch {
        err := Flush();
      }
      if err == Ok {
        if batchLen + entrySize > geo.batch || batchLen + OVERHEAD + |payload| > geo.batch {
          err := Stray;
        } else {
          AppendEntry(payload);
        }
      }
    }

    /** Read the entry at an offset of the partition into a buffer of `room` bytes. */
    method Read(offset: nat, room: nat) returns (err: Err, payload: seq<Byte>)
      requires Valid()
      ensures ReadResult(err, payload) == ReadOp(geo, State().dev.mem, offset, room)
    {
      hide WordAt, Validate;
      payload := [];
      if offset >= geo.Size() {
        return InvalidArg, [];
      }
      var readSize := geo.batch;
      var remainingSpace := geo.Size() - offset;
      if readSize > remainingSpace {
        readSize := remainingSpace;
      }
      var data, readErr := flash.Read(offset, readSize);
      err := ValidateEntry(data, geo.sector);
      if err == Ok {
        ValidHasHeader(data, geo.sector);
        var length := WordAt(data, 8);
        if length > room {
          err := NoMem;
        } else if HEADER_SIZE + length > |data| {
          err := Stray;
        } else {
          payload := data[HEADER_SIZE..HEADER_SIZE + length];
        }
      }
    }

    /** Offer the entry at the replay offset to the callback; `offered` is what it got to see. */
    method NextReplay(room: nat, accepts: seq<Byte> -> bool) returns (err: Err, offered: seq<Byte>)
      requires Valid()
      modifies this`replayOffset
      ensures Valid()
      ensures ReplayResult(State(), err, offered) == ReplayOp(geo, old(State()), room, accepts)
    {
      hide ReadOp, EntrySize;
      offered := [];
      if writeOffset == replayOffset {
        return InvalidEntry, [];
      }
      var payload;
      err, payload := Read(replayOffset, room);
      if err != Ok {
        replayOffset := writeOffset;
      } else {
        offered := payload;
        var isProcessed := accepts(payload);
        if isProcessed {
          replayOffset := replayOffset + EntrySize(|payload|, geo.align);
        } else {
          err := ProcessFail;
        }
      }
    }

    /** Replay until the first outcome that is not OK. */
    method IterateReplay(room: nat, answers: Callback) returns (err: Err, ghost accepted: seq<seq<Byte>>)
      requires Valid()
      modifies this`replayOffset
      ensures Valid()
      ensures IterateResult(State(), err, accepted) == IterateFrom(geo, old(State()), room, answers, 0)
    {
      hide ReplayOp, AtCall;
      err, accepted := Ok, [];
      var n := 0;
      ghost var start := State();
      while err == Ok
        invariant Valid()
        invariant var whole := IterateFrom(geo, start, room, answers, 0);
                  if err == Ok then
                    var rest := IterateFrom(geo, State(), room, answers, n);
                    whole == IterateResult(rest.s, rest.err, accepted + rest.accepted)
                  else whole == IterateResult(State(), err, accepted)
        decreases err == Ok, Ahead(geo, State())
      {
        ghost var before := State();
        IterateUnfolds(geo, before, room, answers, n);
        var offered;
        err, offered := NextReplay(room, AtCall(answers, n));
        if err == Ok {
          ReplayAdvances(geo, before, room, AtCall(answers, n));
          accepted := accepted + [offered];
        }
        n := n + 1;
      }
    }
  }

  lemma EntrySizeLaw(length: nat, align: nat)
    requires NoWrap(length, align)
    ensures length < WORD && align >= 1 && OVERHEAD + length <= EntrySize(length, align)
  {
    EntrySizeBounds(length, align);
  }

  lemma AppendLaidDown(geo: Geometry, s: State, payload: seq<Byte>, id: nat, laid: seq<Byte>, covered: seq<Byte>,
                       crc: bv16, batch: seq<Byte>)
    requires Sized(geo, s) && EntryFits(geo, s, payload)
    requires id == (s.lastId + 1) % WORD && |payload| < WORD && s.batchLen + OVERHEAD + |payload| <= |s.batch|
    requires laid == Splice(Splice(s.batch, s.batchLen, Header(id, |payload|)), s.batchLen + HEADER_SIZE, payload)
    requires covered == laid[s.batchLen..s.batchLen + HEADER_SIZE + |payload|] && crc == Crc16(covered)
    requires batch == Splice(laid, s.batchLen + HEADER_SIZE + |payload|, Tail(crc))
    ensures Append(geo, s, payload) ==
            s.(batch := batch, batchLen := s.batchLen + EntrySize(|payload|, geo.align), lastId := id)
  {
    hide Header, Tail, Crc16, EntrySize, Splice, NoWrap;
    SpliceTwice(s.batch, s.batchLen, Header(id, |payload|), payload);
    SpliceTwice(s.batch, s.batchLen, Covered(id, payload), Tail(crc));
  }

  lemma SpliceTwice(buf: seq<Byte>, at: nat, x: seq<Byte>, y: seq<Byte>)
    requires at + |x| + |y| <= |buf|
    ensures Splice(Splice(buf, at, x), at + |x|, y) == Splice(buf, at, x + y)
    ensures Splice(buf, at, x + y)[at..at + |x| + |y|] == x + y
  {
  }

  lemma SectorHeader(geo: Geometry, mem: seq<Byte>, k: nat)
    requires geo.Valid() && |mem| == geo.Size() && k < geo.sectors
    ensures k * geo.sector + HEADER_SIZE <= geo.Size()
    ensures SectorIds(geo, mem)[k] ==
            if WordAt(mem, k * geo.sector) == HEADER_MAGIC then Some(WordAt(mem, k * geo.sector + 4)) else None
  {
    hide WordAt;
    SectorInside(geo, k);
  }

  lemma SearchStep(ids: seq<Option<nat>>, base: nat, low: int, high: int, head: Head)
    requires Words(ids) && base < WORD && 0 <= low && high < |ids| && head.id < WORD && head.sector < |ids|
    ensures low > high ==> SearchFrom(ids, base, low, high, head) == head
    ensures low <= high ==>
              var mid := low + (high - low) / 2;
              SearchFrom(ids, base, low, high, head) ==
              if ids[mid].Some? && IsNext(ids[mid].value, base)
              then SearchFrom(ids, base, mid + 1, high, Head(mid, ids[mid].value))
              else SearchFrom(ids, base, low, mid - 1, head)
  {
  }

  lemma SectorBytesAre(geo: Geometry, mem: seq<Byte>, k: nat)
    requires geo.Valid() && |mem| == geo.Size() && k < geo.sectors
    ensures k * geo.sector + geo.sector <= |mem|
    ensures mem[k * geo.sector..k * geo.sector + geo.sector] == Sector(geo, mem, k)
  {
    SectorInside(geo, k);
  }

  lemma LapEnds(geo: Geometry, mem: seq<Byte>, sector: nat, pos: nat, processed: nat, scan: Scan)
    requires geo.Valid() && |mem| == geo.Size() && sector < geo.sectors && processed >= geo.sectors
    requires scan.highest < WORD
    ensures ScanRing(geo, mem, sector, pos, processed, scan.writeOffset, scan.highest) ==
            Scan(scan.writeOffset, scan.highest, false, false)
  {
  }

  lemma ValidHasHeader(data: seq<Byte>, capacity: nat)
    requires |data| <= capacity && Validate(data, capacity) == Ok
    ensures |data| >= OVERHEAD
  {
    hide WordAt, HalfAt;
  }
}
