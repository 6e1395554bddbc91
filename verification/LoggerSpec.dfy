/**
 * The logger as functions on its concrete state. The class in Logger.dfy is proved to compute these
 * functions; what they achieve is proved in the files from Invariant.dfy to RunResults.dfy.
 */
module LoggerSpec {
  import opened Bytes
  import opened Entry
  import opened Layout
  import opened Flash

  /** The parameters saved as a hint for the next boot. */
  datatype Hint = Hint(writeOffset: nat, replayOffset: nat, lastId: nat)

  datatype State = State(
    dev: Device, batch: seq<Byte>, batchLen: nat,
    writeOffset: nat, replayOffset: nat, lastId: nat, lastErased: int, hint: Hint)

  /** A freshly booted logger on `dev` with recovered offsets. */
  function Booted(dev: Device, batch: seq<Byte>, writeOffset: nat, replayOffset: nat, lastId: nat): State {
    State(dev, batch, 0, writeOffset, replayOffset, lastId, -1, Hint(writeOffset, replayOffset, lastId))
  }

  predicate Sized(geo: Geometry, s: State) {
    && geo.Valid() && |s.dev.mem| == geo.Size() && |s.batch| == geo.batch && s.batchLen <= geo.batch
    && s.lastId < WORD
  }

  // ---------- Chunks ----------

  /**
   * The longest run of whole entries from `start`, `size` bytes in all, that fits `ceiling`; `taken` bytes
   * are counted so far. Only headers are looked at. Where an entry size wraps to zero the walk stops; the C loop
   * would not end there.
   */
  function ChunkFrom(buf: seq<Byte>, start: nat, size: nat, ceiling: nat, align: nat, taken: nat): (r: nat)
    requires align >= 1
    ensures taken <= ceiling ==> taken <= r <= ceiling
    decreases size - taken
  {
    if taken >= size || start + taken + HEADER_SIZE > |buf| || WordAt(buf, start + taken) != HEADER_MAGIC then taken
    else
      var step := EntrySize(WordAt(buf, start + taken + 8), align);
      if step == 0 || taken + step > ceiling then taken
      else ChunkFrom(buf, start, size, ceiling, align, taken + step)
  }

  // ---------- Flush ----------

  /** The flush loop: `s` is the logger, the rest its local variables; `devErr` is what the device last said. */
  datatype Flushing = Flushing(
    s: State, write: nat, replay: nat, written: nat, left: nat, hintOffset: nat, err: Err, devErr: DevErr)

  /** Where a sector that would start at `off` starts in the ring. */
  function Wrapped(geo: Geometry, off: nat): nat {
    if off >= geo.Size() then 0 else off
  }

  function NextSectorStart(geo: Geometry, off: nat): nat
    requires geo.sector > 0
  {
    (off / geo.sector + 1) * geo.sector
  }

  /** Overwriting old entries: a replay cursor ahead in the sector about to be written moves to the next sector. */
  function PushReplay(geo: Geometry, write: nat, replay: nat): nat
    requires geo.sector > 0
  {
    if write / geo.sector == replay / geo.sector && replay > write
    then Wrapped(geo, NextSectorStart(geo, replay))
    else replay
  }

  /** Erase the sector of `write` unless it was the last one erased. A failed erase is remembered as well. */
  function EnterSector(geo: Geometry, s: State, write: nat): (r: (State, DevErr))
    requires Sized(geo, s)
    ensures Sized(geo, r.0)
  {
    var sector := write / geo.sector;
    if sector == s.lastErased then (s, DevOk)
    else
      var (dev, err) := Erase(s.dev, geo.sector, sector * geo.sector, geo.sector);
      (s.(dev := dev, lastErased := sector), err)
  }

  /** Write one chunk of the batch. */
  function WriteChunk(geo: Geometry, f: Flushing, chunk: nat): (r: Flushing)
    requires Sized(geo, f.s) && f.written + chunk <= geo.batch && chunk <= f.left
    ensures Sized(geo, r.s) && r.s.batch == f.s.batch && r.s.lastId == f.s.lastId && r.replay == f.replay
    ensures r.written + r.left == f.written + f.left
  {
    var (s1, eraseErr) := EnterSector(geo, f.s, f.write);
    if eraseErr != DevOk then f.(s := s1, err := EraseFail, devErr := eraseErr)
    else
      var (dev, writeErr) := Program(s1.dev, f.write, s1.batch[f.written..f.written + chunk]);
      if writeErr != DevOk then f.(s := s1.(dev := dev), err := WriteFail, devErr := writeErr)
      else f.(s := s1.(dev := dev), devErr := DevOk,
              write := f.write + chunk, written := f.written + chunk, left := f.left - chunk)
  }

  /** The logger fields follow the local offsets after every pass without an error. */
  function Settle(f: Flushing): Flushing {
    if f.err != Ok then f
    else f.(hintOffset := f.s.writeOffset, s := f.s.(replayOffset := f.replay, writeOffset := f.write))
  }

  /** One pass of the flush loop. A batch of whole entries never yields a chunk beyond what is left. */
  function FlushPass(geo: Geometry, f: Flushing): (r: Flushing)
    requires Sized(geo, f.s) && f.written + f.left <= geo.batch && f.err == Ok
    ensures Sized(geo, r.s) && r.s.batch == f.s.batch && r.s.lastId == f.s.lastId
    ensures r.written + r.left == f.written + f.left
  {
    var next := NextSectorStart(geo, f.write);
    var remaining := if next >= f.write then next - f.write else 0;
    var f1 := f.(replay := PushReplay(geo, f.write, f.replay));
    var chunk := ChunkFrom(f.s.batch, f.written, f.left, remaining, geo.align, 0);
    if chunk > f.left then f1.(err := Stray)
    else if chunk > 0 then Settle(WriteChunk(geo, f1, chunk))
    else if remaining < geo.sector then Settle(f1.(write := Wrapped(geo, next)))
    else f1.(err := NoMem)
  }

  /** At a sector start there is nothing left to skip. */
  function GapAhead(geo: Geometry, write: nat): nat
    requires geo.sector > 0
  {
    if write % geo.sector == 0 then 0 else 1
  }

  lemma NextSectorStartLaw(geo: Geometry, off: nat)
    requires geo.sector > 0
    ensures NextSectorStart(geo, off) == off + (geo.sector - off % geo.sector)
    ensures Wrapped(geo, NextSectorStart(geo, off)) % geo.sector == 0
  {
    var k := off / geo.sector;
    assert off == k * geo.sector + off % geo.sector;
    assert (k + 1) * geo.sector == k * geo.sector + geo.sector;
    DivUnique((k + 1) * geo.sector, geo.sector, k + 1, 0);
  }

  /** Every pass without an error writes bytes, or moves from inside a sector to the start of one. */
  lemma FlushPassProgress(geo: Geometry, f: Flushing)
    requires Sized(geo, f.s) && f.written + f.left <= geo.batch && f.err == Ok
    ensures FlushPass(geo, f).err == Ok ==>
              || FlushPass(geo, f).left < f.left
              || (FlushPass(geo, f).left == f.left && GapAhead(geo, FlushPass(geo, f).write) < GapAhead(geo, f.write))
  {
    hide ChunkFrom, EnterSector, Program;
    NextSectorStartLaw(geo, f.write);
  }

  /** The do-while of the flush. */
  function FlushLoop(geo: Geometry, f: Flushing): (r: Flushing)
    requires Sized(geo, f.s) && f.written + f.left <= geo.batch && f.err == Ok
    ensures Sized(geo, r.s) && r.s.batch == f.s.batch && r.s.lastId == f.s.lastId
    ensures r.written + r.left == f.written + f.left
    decreases f.left, GapAhead(geo, f.write)
  {
    FlushPassProgress(geo, f);
    var f' := FlushPass(geo, f);
    if f'.left > 0 && f'.err == Ok then FlushLoop(geo, f') else f'
  }

  function FlushStart(s: State): Flushing {
    Flushing(s, s.writeOffset, s.replayOffset, 0, s.batchLen, s.writeOffset, Ok, DevOk)
  }

  /** What is left of the batch moves to its front. */
  function Compacted(batch: seq<Byte>, written: nat, left: nat): (r: seq<Byte>)
    requires written + left <= |batch|
    ensures |r| == |batch|
  {
    if written == 0 then batch else batch[written..written + left] + batch[left..]
  }

  /** After the loop: save the hint, store the offsets, keep what was not written. */
  function FlushEnd(geo: Geometry, f: Flushing): (r: State)
    requires Sized(geo, f.s) && f.written + f.left <= geo.batch
    ensures Sized(geo, r)
  {
    f.s.(replayOffset := f.replay, writeOffset := f.write,
         hint := Hint(f.hintOffset, f.replay, f.s.lastId),
         batch := Compacted(f.s.batch, f.written, f.left), batchLen := f.left)
  }

  datatype FlushResult = FlushResult(s: State, err: Err, devErr: DevErr)

  function FlushOp(geo: Geometry, s: State): (r: FlushResult)
    requires Sized(geo, s)
    ensures Sized(geo, r.s)
  {
    if s.batchLen == 0 then FlushResult(s, InvalidArg, DevOk)
    else
      var f := FlushLoop(geo, FlushStart(s));
      FlushResult(FlushEnd(geo, f), f.err, f.devErr)
  }

  // ---------- Write ----------

  lemma BatchIsSmall(geo: Geometry)
    requires geo.Valid()
    ensures geo.batch <= 0x8000_0000 && 1 <= geo.align <= 255
  {
    MulLe(2, geo.sectors, geo.sector);
  }

  /** The size computed for an entry and the bytes copied for it both fit what is left of the batch. */
  predicate EntryFits(geo: Geometry, s: State, payload: seq<Byte>)
    requires geo.align >= 1
  {
    && s.batchLen + EntrySize(|payload|, geo.align) <= geo.batch
    && s.batchLen + OVERHEAD + |payload| <= geo.batch
  }

  lemma EntryFitsParts(geo: Geometry, s: State, payload: seq<Byte>)
    requires geo.Valid() && EntryFits(geo, s, payload)
    ensures NoWrap(|payload|, geo.align) && OVERHEAD + |payload| < WORD
    ensures s.batchLen + EntrySize(|payload|, geo.align) <= geo.batch && OVERHEAD + |payload| <= geo.batch
  {
    BatchIsSmall(geo);
    FitsNoWrap(|payload|, geo.align, geo.batch);
    hide EntrySize;
  }

  /** Append one entry to the batch. */
  function Append(geo: Geometry, s: State, payload: seq<Byte>): (r: State)
    requires Sized(geo, s) && EntryFits(geo, s, payload)
    ensures Sized(geo, r)
  {
    EntryFitsParts(geo, s, payload);
    EntrySizeBounds(|payload|, geo.align);
    var id := (s.lastId + 1) % WORD;
    s.(batch := Splice(s.batch, s.batchLen, Unpadded(id, payload)),
       batchLen := s.batchLen + EntrySize(|payload|, geo.align),
       lastId := id)
  }

  /**
   * Write an entry; a full batch is flushed first and a failed flush rejects the entry. A length so close to 2^32
   * that the entry size wraps can pass both size checks; the copy then leaves the batch.
   */
  function WriteOp(geo: Geometry, s: State, payload: seq<Byte>): (r: FlushResult)
    requires Sized(geo, s) && |payload| < WORD
    ensures Sized(geo, r.s)
  {
    var size := EntrySize(|payload|, geo.align);
    if |payload| == 0 then FlushResult(s, InvalidArg, DevOk)
    else if size > geo.batch then FlushResult(s, NoMem, DevOk)
    else
      var r := if s.batchLen + size > geo.batch then FlushOp(geo, s) else FlushResult(s, Ok, DevOk);
      if r.err != Ok then r
      else if r.s.batchLen + size > geo.batch || r.s.batchLen + OVERHEAD + |payload| > geo.batch
      then FlushResult(r.s, Stray, r.devErr)
      else FlushResult(Append(geo, r.s, payload), Ok, r.devErr)
  }

  /** Writes one after the other, whatever each of them returns. */
  function WriteAll(geo: Geometry, s: State, payloads: seq<seq<Byte>>): (r: State)
    requires Sized(geo, s) && forall i :: 0 <= i < |payloads| ==> |payloads[i]| < WORD
    ensures Sized(geo, r)
    decreases |payloads|
  {
    hide WriteOp, Sized;
    if payloads == [] then s else WriteAll(geo, WriteOp(geo, s, payloads[0]).s, payloads[1..])
  }

  /** How many of these writes return an error. */
  function WriteErrors(geo: Geometry, s: State, payloads: seq<seq<Byte>>): nat
    requires Sized(geo, s) && forall i :: 0 <= i < |payloads| ==> |payloads[i]| < WORD
    decreases |payloads|
  {
    hide WriteOp, Sized;
    if payloads == [] then 0
    else
      var r := WriteOp(geo, s, payloads[0]);
      (if r.err == Ok then 0 else 1) + WriteErrors(geo, r.s, payloads[1..])
  }

  // ---------- Read and replay ----------

  datatype ReadResult = ReadResult(err: Err, payload: seq<Byte>)

  /** Read and validate the entry at `off`, into a caller's buffer of `room` bytes. */
  function ReadOp(geo: Geometry, mem: seq<Byte>, off: nat, room: nat): ReadResult
    requires geo.Valid() && |mem| == geo.Size()
  {
    if off >= geo.Size() then ReadResult(InvalidArg, [])
    else
      var size := if geo.batch > geo.Size() - off then geo.Size() - off else geo.batch;
      var data := mem[off..off + size];
      var err := Validate(data, geo.sector);
      if err != Ok then ReadResult(err, [])
      else
        var length := WordAt(data, 8);
        if length > room then ReadResult(NoMem, [])
        else if HEADER_SIZE + length > |data| then ReadResult(Stray, [])
        else ReadResult(Ok, data[HEADER_SIZE..HEADER_SIZE + length])
  }

  datatype ReplayResult = ReplayResult(s: State, err: Err, offered: seq<Byte>)

  /**
   * Offer the next entry to a callback that answers `accepts(payload)`. A failed read gives up the backlog:
   * the cursor jumps to the write offset.
   */
  function ReplayOp(geo: Geometry, s: State, room: nat, accepts: seq<Byte> -> bool): (r: ReplayResult)
    requires Sized(geo, s)
    ensures Sized(geo, r.s)
  {
    if s.writeOffset == s.replayOffset then ReplayResult(s, InvalidEntry, [])
    else
      var read := ReadOp(geo, s.dev.mem, s.replayOffset, room);
      if read.err != Ok then ReplayResult(s.(replayOffset := s.writeOffset), read.err, [])
      else if !accepts(read.payload) then ReplayResult(s, ProcessFail, read.payload)
      else ReplayResult(s.(replayOffset := s.replayOffset + EntrySize(|read.payload|, geo.align)), Ok, read.payload)
  }
}
