/** What a fault inside a flush leaves behind, and that flushes do succeed. */
module TornFlush {
  import opened Bytes
  import opened Entry
  import opened Layout
  import opened Flash
  import opened LoggerSpec
  import opened Invariant
  import opened FlushSteps
  import opened FlushPasses
  import opened Operations
  import opened FlushSuccess
  import opened RecoverySpec
  import opened Scanning
  import opened Runs
  import opened RunRecovery
  import opened AnyFlush

  // ---------- A cut chunk ----------

  /** Where the first chunk of a flush goes: behind the write offset, or to the next sector if no entry fits there. */
  function ChunkStart(geo: Geometry, s: State): nat
    requires geo.Valid()
  {
    if NextChunk(geo, FlushStart(s)) > 0 then s.writeOffset else Wrapped(geo, NextSectorStart(geo, s.writeOffset))
  }

  /** How many bytes it has. A batch always fits a whole sector. */
  function ChunkSize(geo: Geometry, s: State): nat
    requires geo.Valid()
  {
    if NextChunk(geo, FlushStart(s)) > 0 then NextChunk(geo, FlushStart(s)) else s.batchLen
  }

  /** The fault waiting in the device hits the first chunk. */
  predicate CutsFirstChunk(geo: Geometry, s: State)
    requires geo.Valid()
  {
    s.batchLen > 0 && s.writeOffset < geo.Size() && s.dev.failNext && s.dev.failAfter < ChunkSize(geo, s)
  }

  /** The flash a chunk for offset `at` finds: its sector is erased unless it was the last one erased. */
  function Opening(geo: Geometry, s: State, at: nat): (mem: seq<Byte>)
    requires geo.Valid() && |s.dev.mem| == geo.Size()
    ensures |mem| == geo.Size()
  {
    var q := at / geo.sector;
    if q == s.lastErased || q >= geo.sectors then s.dev.mem
    else
      SectorInside(geo, q);
      Splice(s.dev.mem, q * geo.sector, Blank(geo.sector))
  }

  /** The loop state after a chunk at its write offset was cut after `k` bytes. */
  predicate CutThere(geo: Geometry, f: Flushing, f': Flushing, k: nat) {
    && geo.Valid() && |f.s.dev.mem| == geo.Size() && f.written + k <= |f.s.batch| && f.write + k <= geo.Size()
    && f'.err == WriteFail && f'.write == f.write && f'.written == f.written && f'.left == f.left
    && f'.s.batch == f.s.batch && f'.s.lastId == f.s.lastId && f'.s.lastErased == f.write / geo.sector
    && f'.s.dev == Device(Splice(Opening(geo, f.s, f.write), f.write, f.s.batch[f.written..f.written + k]), false, k)
  }

  lemma OpeningIs(geo: Geometry, f: Flushing)
    requires Sized(geo, f.s) && geo.Valid() && |f.s.dev.mem| == geo.Size() && f.write / geo.sector < geo.sectors
    ensures Prepared(geo, f, f.write / geo.sector).s.dev.mem == Opening(geo, f.s, f.write)
    ensures Prepared(geo, f, f.write / geo.sector).s.dev.failNext == f.s.dev.failNext
    ensures Prepared(geo, f, f.write / geo.sector).s.dev.failAfter == f.s.dev.failAfter
  {
  }

  lemma Arrives(d: Device, size: nat)
    requires d.failNext && d.failAfter < size
    ensures Arriving(d, size) == d.failAfter
  {
  }

  lemma PushedIs(geo: Geometry, f: Flushing)
    requires geo.Valid()
    ensures Pushed(geo, f) == f.(replay := Pushed(geo, f).replay)
  {
    hide PushReplay;
  }

  lemma CutFields(geo: Geometry, f: Flushing, f1: Flushing, r: (Device, DevErr), chunk: nat, k: nat, at: nat)
    requires geo.Valid() && |f.s.dev.mem| == geo.Size() && f.written + k <= |f.s.batch| && f.write + k <= geo.Size()
    requires f1 == f.(replay := f1.replay, s := f.s.(dev := f1.s.dev, lastErased := f.write / geo.sector))
    requires chunk <= f.left
    requires r.1 == DevFail && f.err == Ok
    requires r.0 == Device(Splice(Opening(geo, f.s, f.write), f.write, f.s.batch[f.written..f.written + k]), false, k)
    ensures CutThere(geo, f, Settle(Answered(f1, r, chunk)), k)
  {
    hide Opening, Splice;
  }

  lemma PrefixOfSlice(s: seq<Byte>, at: nat, n: nat, k: nat)
    requires k <= n && at + n <= |s|
    ensures s[at..at + n][..k] == s[at..at + k]
  {
    var x := s[at..at + n];
    assert forall i :: 0 <= i < k ==> x[i] == s[at + i];
  }

  predicate CellsReady(geo: Geometry, f: Flushing, chunk: nat) {
    && Sized(geo, f.s) && geo.sector > 0 && f.write / geo.sector < geo.sectors && f.written + chunk <= |f.s.batch|
    && var mem := Prepared(geo, f, f.write / geo.sector).s.dev.mem;
       f.write + chunk <= |mem| == geo.Size() && Ready(mem, f.write, f.s.batch[f.written..f.written + chunk])
  }

  lemma CellsReadyIs(geo: Geometry, f: Flushing, chunk: nat, mem: seq<Byte>)
    requires Sized(geo, f.s) && geo.sector > 0 && f.write / geo.sector < geo.sectors && f.written + chunk <= |f.s.batch|
    requires mem == Prepared(geo, f, f.write / geo.sector).s.dev.mem
    ensures CellsReady(geo, f, chunk) <==>
            f.write + chunk <= |mem| == geo.Size() && Ready(mem, f.write, f.s.batch[f.written..f.written + chunk])
  {
    hide Prepared, Ready;
  }

  lemma CellsReadyParts(geo: Geometry, f: Flushing, chunk: nat)
    requires CellsReady(geo, f, chunk)
    ensures Sized(geo, f.s) && geo.sector > 0 && f.write / geo.sector < geo.sectors && f.written + chunk <= |f.s.batch|
  {
    hide Prepared, Ready;
  }

  /** The cells in front of the next chunk, once its sector is open. */
  lemma OpenCells(geo: Geometry, f: Flushing, g: History, c: Cursor)
    requires FlushInv(geo, f, g, c) && f.err == Ok && f.left > 0 && geo.Valid() && !AtEnd(geo, f.write)
    requires NextChunk(geo, f) > 0
    ensures NextChunk(geo, f) <= f.left && CellsReady(geo, f, NextChunk(geo, f))
  {
    hide *;
    FlushInvParts(geo, f, g, c);
    NotAtEnd(geo, f.write);
    var q, chunk := f.write / geo.sector, NextChunk(geo, f);
    PreparedParts(geo, f, q);
    RoomPositive(geo, f.write);
    RoomEnds(geo, f.write);
    var m := NextChunkLaw(geo, f, g, c);
    FittingLaw(g.raw, g.flushed, Room(geo, f.write), m);
    if q == f.s.lastErased {
      StayingWhere(geo, f.write, f.s.lastErased, g);
      StayingFits(geo, f.write, g, m);
      ChunkPositive(geo, g, m);
      ChunkOfBatch(g.raw, f.s.batch, f.written, f.left, g.flushed, m);
      FlashParts(geo, f.s.dev.mem, f.write, f.s.lastErased, g);
      ReadyForChunk(geo, f.s.dev.mem, f.write, g, m);
    } else {
      StartOfSector(geo, f.write);
      PreparedIsReady(geo, f, q, f.s.batch[f.written..f.written + chunk]);
    }
    CellsReadyIs(geo, f, chunk, Prepared(geo, f, q).s.dev.mem);
  }

  lemma NotAtEnd(geo: Geometry, write: nat)
    requires geo.Valid() && !AtEnd(geo, write)
    ensures geo.sector > 0 && write / geo.sector < geo.sectors
  {
  }

  /** A pass whose chunk the fault hits. */
  lemma PassCut(geo: Geometry, f: Flushing, g: History, c: Cursor)
    requires FlushInv(geo, f, g, c) && f.err == Ok && f.left > 0 && geo.Valid() && !AtEnd(geo, f.write)
    requires NextChunk(geo, f) > 0
    requires f.s.dev.failNext && f.s.dev.failAfter < NextChunk(geo, f)
    ensures Sized(geo, f.s) && f.written + f.left <= geo.batch
    ensures CutThere(geo, f, FlushPass(geo, f), f.s.dev.failAfter)
  {
    hide *;
    FlushInvParts(geo, f, g, c);
    OpenCells(geo, f, g, c);
    CellsReadyParts(geo, f, NextChunk(geo, f));
    PassShape(geo, f);
    PushedIs(geo, f);
    PushedParts(geo, f);
    var f1, chunk, q, k := Pushed(geo, f), NextChunk(geo, f), f.write / geo.sector, f.s.dev.failAfter;
    ChunkIs(geo, f1, chunk, q);
    OpeningIs(geo, f1);
    OpeningIs(geo, f);
    PreparedParts(geo, f1, q);
    PreparedParts(geo, f, q);
    CellsReadyIs(geo, f, chunk, Prepared(geo, f, q).s.dev.mem);
    var f2 := Prepared(geo, f1, q);
    var src := f.s.batch[f.written..f.written + chunk];
    ProgramReady(f2.s.dev, f.write, src);
    Arrives(f2.s.dev, chunk);
    PrefixOfSlice(f.s.batch, f.written, chunk, k);
    CutFields(geo, f, f2, Program(f2.s.dev, f.write, src), chunk, k, f.write);
  }

  lemma StartParts(s: State)
    ensures FlushStart(s) == Flushing(s, s.writeOffset, s.replayOffset, 0, s.batchLen, s.writeOffset, Ok, DevOk)
  {
  }

  /** What a flush cut after `k` bytes of its first chunk at `at` leaves. */
  predicate CutResult(geo: Geometry, s: State, r: FlushResult, at: nat, k: nat) {
    && geo.Valid() && |s.dev.mem| == geo.Size() && at + k <= geo.Size() && k <= s.batchLen <= |s.batch|
    && r.err == WriteFail
    && r.s.dev == Device(Splice(Opening(geo, s, at), at, s.batch[..k]), false, k)
    && r.s.batch == s.batch && r.s.batchLen == s.batchLen && r.s.writeOffset == at && r.s.lastId == s.lastId
    && r.s.lastErased == at / geo.sector
  }

  /** The end of a flush whose loop ended with a cut chunk. */
  lemma CutEnds(geo: Geometry, s: State, f: Flushing, f': Flushing, k: nat, devErr: DevErr)
    requires Sized(geo, s) && f.s.dev == s.dev && f.s.batch == s.batch && f.s.lastErased == s.lastErased
    requires f.s.lastId == s.lastId
    requires f.written == 0 && f.left == s.batchLen && CutThere(geo, f, f', k) && k <= s.batchLen
    requires Sized(geo, f'.s) && f'.written + f'.left <= geo.batch
    ensures CutResult(geo, s, FlushResult(FlushEnd(geo, f'), f'.err, devErr), f.write, k)
  {
    hide Splice;
    assert s.batch[0..0 + k] == s.batch[..k];
  }

  lemma CutParts(geo: Geometry, s: State)
    requires geo.Valid() && CutsFirstChunk(geo, s)
    ensures s.batchLen > 0 && s.writeOffset < geo.Size() && s.dev.failNext && s.dev.failAfter < ChunkSize(geo, s)
    ensures NextChunk(geo, FlushStart(s)) > 0 ==>
              ChunkSize(geo, s) == NextChunk(geo, FlushStart(s)) && ChunkStart(geo, s) == s.writeOffset
    ensures NextChunk(geo, FlushStart(s)) == 0 ==>
              ChunkSize(geo, s) == s.batchLen && geo.sector > 0
              && ChunkStart(geo, s) == Wrapped(geo, NextSectorStart(geo, s.writeOffset))
  {
    hide NextChunk, NextSectorStart;
  }

  lemma ThereFails(geo: Geometry, f: Flushing, f': Flushing, k: nat)
    requires CutThere(geo, f, f', k)
    ensures f'.err != Ok
  {
  }

  /** A pass that skips a gap, by its fields. */
  lemma SkipFields(geo: Geometry, f: Flushing)
    requires Sized(geo, f.s) && f.written + f.left <= geo.batch && f.err == Ok && NextChunk(geo, f) == 0
    requires geo.sector > 0
    requires FlushPass(geo, f).err == Ok
    ensures var f' := FlushPass(geo, f);
            && f'.write == Wrapped(geo, NextSectorStart(geo, f.write)) && f'.written == f.written && f'.left == f.left
            && f'.s.dev == f.s.dev && f'.s.batch == f.s.batch && f'.s.lastErased == f.s.lastErased
               && f'.s.lastId == f.s.lastId
  {
    hide NextChunk, NextSectorStart, FlushPass;
    PassShape(geo, f);
  }

  lemma OkAfterSkip(geo: Geometry, f: Flushing, g: History, c: Cursor) returns (g': History, c': Cursor)
    requires FlushInv(geo, f, g, c) && f.err == Ok && f.left > 0 && geo.Valid() && !AtEnd(geo, f.write)
    requires NextChunk(geo, f) == 0
    ensures Sized(geo, f.s) && f.written + f.left <= geo.batch
    ensures FlushInv(geo, FlushPass(geo, f), g', c') && FlushPass(geo, f).err == Ok && g'.moved
  {
    hide *;
    FlushInvParts(geo, f, g, c);
    NotAtEnd(geo, f.write);
    if f.write / geo.sector == f.s.lastErased {
      g', c' := PassSkips(geo, f, g, c);
    } else {
      EnteringHere(geo, f.write, f.s.lastErased, g, f.write / geo.sector);
      EnteringStart(geo, f.write, f.s.lastErased, g, f.write / geo.sector);
      RoomAtStart(geo, f.write);
      BatchFitsSector(geo, f, g, c);
      g', c' := g, c;
      assert false;
    }
  }

  /**
   * A flush cut after `failAfter` bytes of its first chunk, wherever that chunk goes: exactly that many bytes of the
   * batch are in the flash at the start of the chunk, in a sector erased before if it was a new one; the write offset
   * stands there, and batch and ids are what they were.
   */
  lemma CutFlush(geo: Geometry, s: State, g: History, c: Cursor)
    requires Inv(geo, s, g, c) && geo.Valid() && CutsFirstChunk(geo, s)
    ensures Sized(geo, s) && CutResult(geo, s, FlushOp(geo, s), ChunkStart(geo, s), s.dev.failAfter)
  {
    hide *;
    InvParts(geo, s, g, c);
    CutParts(geo, s);
    FlushBegins(geo, s, g, c);
    StartParts(s);
    var f, k := FlushStart(s), s.dev.failAfter;
    FlushInvParts(geo, f, g, c);
    FlushOpUnfolds(geo, s);
    LoopUnfolds(geo, f);
    OffsetInRing(geo, s.writeOffset);
    InRingIsNotEnd(geo, s.writeOffset);
    var m := NextChunkLaw(geo, f, g, c);
    var f1 := FlushPass(geo, f);
    if NextChunk(geo, f) > 0 {
      PassCut(geo, f, g, c);
      ThereFails(geo, f, f1, k);
      CutEnds(geo, s, f, f1, k, f1.devErr);
    } else {
      var g1, c1 := OkAfterSkip(geo, f, g, c);
      SkipFields(geo, f);
      MovedStart(geo, f1, g1, c1);
      FlushInvParts(geo, f1, g1, c1);
      RoomAtStart(geo, f1.write);
      BatchFitsSector(geo, f1, g1, c1);
      LoopUnfolds(geo, f1);
      PassCut(geo, f1, g1, c1);
      var f2 := FlushPass(geo, f1);
      ThereFails(geo, f1, f2, k);
      CutEnds(geo, s, f1, f2, k, f2.devErr);
    }
  }

  lemma InRingIsNotEnd(geo: Geometry, write: nat)
    requires geo.sector > 0 && write / geo.sector < geo.sectors
    ensures !AtEnd(geo, write)
  {
  }

  /** `CutFlush` after any run. */
  lemma CutAfterRun(geo: Geometry, batch: seq<Byte>, lastId: nat, ops: seq<Op>)
    requires Startable(geo, batch, lastId, ops) && geo.Valid()
    requires CutsFirstChunk(geo, Reached(geo, batch, lastId, ops).s)
    ensures var s := Reached(geo, batch, lastId, ops).s;
            CutResult(geo, s, FlushOp(geo, s), ChunkStart(geo, s), s.dev.failAfter)
  {
    hide *;
    StartableParts(geo, batch, lastId, ops);
    var g, c, picks := RunHistory(geo, batch, lastId, ops);
    var x := Reached(geo, batch, lastId, ops);
    GoodParts(geo, x, g, c, picks);
    CutFlush(geo, x.s, g, c);
  }

  // ---------- Success ----------

  /**
   * After any run, on a device with no fault pending, a flush of a non-empty batch succeeds if and only if it
   * neither starts at the end of the partition nor fills up to it with entries left over.
   */
  lemma FlushAfterRunIff(geo: Geometry, batch: seq<Byte>, lastId: nat, ops: seq<Op>)
    requires Startable(geo, batch, lastId, ops) && geo.Valid()
    requires Reached(geo, batch, lastId, ops).s.batchLen > 0 && !Reached(geo, batch, lastId, ops).s.dev.failNext
    ensures var s := Reached(geo, batch, lastId, ops).s;
            FlushOp(geo, s).err == Ok <==> s.writeOffset != geo.Size() && !FillsPartition(geo, FlushStart(s))
  {
    hide *;
    StartableParts(geo, batch, lastId, ops);
    var g, c, picks := RunHistory(geo, batch, lastId, ops);
    var x := Reached(geo, batch, lastId, ops);
    GoodParts(geo, x, g, c, picks);
    FlushSucceedsIff(geo, x.s, g, c);
  }

  lemma AfterOneWrite(geo: Geometry, batch: seq<Byte>, lastId: nat, payload: seq<Byte>)
    requires Startable(geo, batch, lastId, [OpWrite(payload)]) && payload != []
    requires OVERHEAD + |payload| <= geo.batch && EntrySize(|payload|, geo.align) <= geo.batch
    ensures NoWrap(|payload|, geo.align) && geo.sector > 0
    ensures var s := Reached(geo, batch, lastId, [OpWrite(payload)]).s;
            s.writeOffset == 0 && s.batchLen == EntrySize(|payload|, geo.align) > 0 && !s.dev.failNext
  {
    var ops := [OpWrite(payload)];
    assert Allowed(ops[0]);
    FreshSized(geo, batch, lastId, ops);
    BatchIsSmall(geo);
    FitsNoWrap(|payload|, geo.align, geo.batch);
    EntrySizeBounds(|payload|, geo.align);
    hide EntrySize, Unpadded, Splice, FlushOp, NoWrap;
    assert ops[1..] == [];
    var x := Fresh(geo, batch, lastId);
    assert Execute(geo, x, ops) == Step(geo, x, ops[0]);
  }

  /** The first flush: any entry that fits the batch can be written and flushed from erased flash. */
  lemma FirstFlushSucceeds(geo: Geometry, batch: seq<Byte>, lastId: nat, payload: seq<Byte>)
    requires Startable(geo, batch, lastId, [OpWrite(payload)]) && payload != []
    requires OVERHEAD + |payload| <= geo.batch && EntrySize(|payload|, geo.align) <= geo.batch
    ensures FlushOp(geo, Reached(geo, batch, lastId, [OpWrite(payload)]).s).err == Ok
  {
    hide *;
    var ops := [OpWrite(payload)];
    StartableParts(geo, batch, lastId, ops);
    AfterOneWrite(geo, batch, lastId, payload);
    var g, c, picks := RunHistory(geo, batch, lastId, ops);
    var x := Reached(geo, batch, lastId, ops);
    GoodParts(geo, x, g, c, picks);
    FlushBegins(geo, x.s, g, c);
    StartFields(x.s);
    FlushOpUnfolds(geo, x.s);
    ZeroIsInside(geo);
    DevOkIsNoFault();
    StartFinishes(geo, FlushStart(x.s), g, c);
  }

  lemma ZeroIsInside(geo: Geometry)
    requires geo.Valid()
    ensures geo.sector > 0 && !AtEnd(geo, 0) && 0 % geo.sector == 0
  {
    SectorOfOffset(geo, 0, 0);
  }
}
