/** Exactly when a flush on a healthy device succeeds, and what the end of the partition does to the log. */
module FlushSuccess {
  import opened Bytes
  import opened Entry
  import opened Layout
  import opened Flash
  import opened LoggerSpec
  import opened Invariant
  import opened FlushSteps
  import opened FlushPasses
  import opened Operations

  /** The next chunk ends exactly at the end of the partition and leaves entries behind. */
  predicate FillsPartition(geo: Geometry, f: Flushing)
    requires geo.Valid()
  {
    f.write + NextChunk(geo, f) == geo.Size() && NextChunk(geo, f) < f.left
  }

  // ---------- Without faults ----------

  lemma {:induction false} FaultNeedsFlag(d: Device, off: nat, src: seq<Byte>, i: nat)
    requires i <= |src| && off + |src| <= |d.mem| && !d.failNext
    ensures ProgramFrom(d, off, src, i).1 != DevFail && !ProgramFrom(d, off, src, i).0.failNext
    decreases |src| - i
  {
    hide Programmable, Combined;
    if i < |src| && Programmable(d.mem[off + i], src[i]) {
      FaultNeedsFlag(d.(mem := d.mem[off + i := Combined(d.mem[off + i], src[i])]), off, src, i + 1);
    }
  }

  lemma ProgramFault(d: Device, off: nat, src: seq<Byte>)
    requires !d.failNext
    ensures Program(d, off, src).1 != DevFail && !Program(d, off, src).0.failNext
  {
    hide ProgramFrom;
    if off + |src| <= |d.mem| {
      FaultNeedsFlag(d, off, src, 0);
    }
  }

  lemma EnterFault(geo: Geometry, s: State, write: nat)
    requires Sized(geo, s) && !s.dev.failNext
    ensures !EnterSector(geo, s, write).0.dev.failNext && EnterSector(geo, s, write).1 != DevFail
    ensures EnterSector(geo, s, write).0.batch == s.batch
  {
  }

  lemma ChunkFault(geo: Geometry, f: Flushing, chunk: nat)
    requires Sized(geo, f.s) && f.written + chunk <= geo.batch && chunk <= f.left && !f.s.dev.failNext && f.err == Ok
    ensures var f' := WriteChunk(geo, f, chunk);
            && f'.devErr != DevFail && !f'.s.dev.failNext
            && (f'.err == Ok ==>
               f'.write == f.write + chunk && f'.left == f.left - chunk && f'.written == f.written + chunk)
  {
    EnterFault(geo, f.s, f.write);
    hide EnterSector, Program;
    var s1 := EnterSector(geo, f.s, f.write).0;
    ProgramFault(s1.dev, f.write, s1.batch[f.written..f.written + chunk]);
  }

  /** One pass on a device with no fault pending. */
  lemma PassFault(geo: Geometry, f: Flushing)
    requires Sized(geo, f.s) && f.written + f.left <= geo.batch && f.err == Ok && NextChunk(geo, f) <= f.left
    requires !f.s.dev.failNext && f.devErr != DevFail
    ensures var f' := FlushPass(geo, f);
            && f'.devErr != DevFail && !f'.s.dev.failNext
            && (f'.err == Ok && NextChunk(geo, f) > 0 ==>
                  f'.write == f.write + NextChunk(geo, f) && f'.left == f.left - NextChunk(geo, f))
            && (NextChunk(geo, f) == 0 ==> f'.left == f.left)
  {
    hide FlushPass, WriteChunk, ChunkFrom, NextChunk;
    PassShape(geo, f);
    if NextChunk(geo, f) > 0 {
      ChunkFault(geo, Pushed(geo, f), NextChunk(geo, f));
    }
  }

  lemma HealthyOutcome(geo: Geometry, f: Flushing, g: History, f': Flushing, g': History)
    requires PassOutcome(geo, f, g, f', g') && f'.devErr != DevFail
    ensures f'.err == Ok && f'.s.writeOffset == f'.write
    ensures g'.moved <==> f'.left == f.left
    ensures SameHistory(g, g')
  {
  }

  lemma MovedStart(geo: Geometry, f: Flushing, g: History, c: Cursor)
    requires FlushInv(geo, f, g, c) && g.moved
    ensures f.write % geo.sector == 0 && !AtEnd(geo, f.write)
  {
    hide Run, MemOk, LogOk, Ring, ReplayOk;
    WriteSector(geo, f.write, f.s.lastErased, g);
  }

  /** A pass from the start of a sector inside the partition finishes the flush. */
  lemma StartFinishes(geo: Geometry, f: Flushing, g: History, c: Cursor)
    requires FlushInv(geo, f, g, c) && f.err == Ok && f.left > 0 && !AtEnd(geo, f.write) && f.write % geo.sector == 0
    requires !f.s.dev.failNext && f.devErr != DevFail
    ensures Sized(geo, f.s) && f.written + f.left <= geo.batch && FlushLoop(geo, f).err == Ok
  {
    hide *;
    FlushInvParts(geo, f, g, c);
    LoopUnfolds(geo, f);
    var m := NextChunkLaw(geo, f, g, c);
    PassFault(geo, f);
    var g', c' := PassKeeps(geo, f, g, c);
    HealthyOutcome(geo, f, g, FlushPass(geo, f), g');
  }

  /** A pass that skips the gap leaves one more pass, which finishes. */
  lemma GapFinishes(geo: Geometry, f: Flushing, g: History, c: Cursor)
    requires FlushInv(geo, f, g, c) && f.err == Ok && f.left > 0 && !AtEnd(geo, f.write) && NextChunk(geo, f) == 0
    requires !f.s.dev.failNext && f.devErr != DevFail
    ensures Sized(geo, f.s) && f.written + f.left <= geo.batch && FlushLoop(geo, f).err == Ok
  {
    hide *;
    FlushInvParts(geo, f, g, c);
    LoopUnfolds(geo, f);
    PassFault(geo, f);
    var g', c' := PassKeeps(geo, f, g, c);
    var f' := FlushPass(geo, f);
    HealthyOutcome(geo, f, g, f', g');
    MovedStart(geo, f', g', c');
    StartFinishes(geo, f', g', c');
  }

  lemma RoomShrinks(geo: Geometry, write: nat, chunk: nat)
    requires geo.Valid() && 0 < chunk <= Room(geo, write) && (write + chunk) % geo.sector != 0
    ensures Room(geo, write + chunk) == Room(geo, write) - chunk
  {
    var k, d := write / geo.sector, write % geo.sector;
    assert write == k * geo.sector + d;
    if d + chunk < geo.sector {
      DivUnique(write + chunk, geo.sector, k, d + chunk);
    } else {
      assert (k + 1) * geo.sector == k * geo.sector + geo.sector;
      DivUnique(write + chunk, geo.sector, k + 1, 0);
    }
  }

  lemma NoMoreFits(raw: seq<seq<Byte>>, a: nat, room: nat, room': nat, b: nat)
    requires a <= b <= |raw| && b == Fitting(raw, a, room)
    requires |Run(raw, a, b)| <= room && room' == room - |Run(raw, a, b)|
    ensures Fitting(raw, b, room') == b
  {
    hide Run, Fitting;
    var m := Fitting(raw, b, room');
    FittingLaw(raw, b, room', b);
    RunSplit(raw, a, b, m);
    FittingLaw(raw, a, room, m);
  }

  lemma FlushedBy(geo: Geometry, g: History, g': History, m: nat)
    requires Ranges(geo, g) && g'.raw == g.raw && m <= |g.raw| && g'.flushed <= |g.raw|
    requires |Run(g.raw, g'.flushed, |g.raw|)| == |Run(g.raw, m, |g.raw|)|
    ensures g'.flushed == m
  {
    if g'.flushed < m {
      RunSplit(g.raw, g'.flushed, m, |g.raw|);
      RunPositive(g.raw, g'.flushed, m);
    } else if m < g'.flushed {
      RunSplit(g.raw, m, g'.flushed, |g.raw|);
      RunPositive(g.raw, m, g'.flushed);
    }
    hide Run;
  }

  /** After a chunk that leaves room in its sector nothing more fits there. */
  lemma NothingMoreFits(geo: Geometry, f: Flushing, g: History, c: Cursor, f': Flushing, g': History, c': Cursor)
    requires FlushInv(geo, f, g, c) && FlushInv(geo, f', g', c') && SameHistory(g, g') && NextChunk(geo, f) > 0
    requires f'.write == f.write + NextChunk(geo, f) && f'.left == f.left - NextChunk(geo, f)
    requires f'.write % geo.sector != 0
    ensures NextChunk(geo, f') == 0
  {
    hide *;
    FlushInvParts(geo, f, g, c);
    FlushInvParts(geo, f', g', c');
    SameHistoryParts(g, g');
    RoomPositive(geo, f.write);
    var m := NextChunkLaw(geo, f, g, c);
    FittingLaw(g.raw, g.flushed, Room(geo, f.write), g.flushed);
    RunSplit(g.raw, g.flushed, m, |g.raw|);
    FlushedBy(geo, g, g', m);
    RoomShrinks(geo, f.write, NextChunk(geo, f));
    NoMoreFits(g.raw, g.flushed, Room(geo, f.write), Room(geo, f'.write), m);
    var m' := NextChunkLaw(geo, f', g', c');
    RunEmpty(g.raw, m);
  }

  lemma AtEndIffSize(geo: Geometry, f: Flushing, g: History, c: Cursor)
    requires FlushInv(geo, f, g, c)
    ensures AtEnd(geo, f.write) <==> f.write == geo.Size()
    ensures f.write <= geo.Size()
  {
    hide Run, MemOk, LogOk, Ring, ReplayOk;
    WriteSector(geo, f.write, f.s.lastErased, g);
    SectorInside(geo, g.cur);
    DivUnique(geo.sectors * geo.sector, geo.sector, geo.sectors, 0);
  }

  lemma FillsIs(geo: Geometry, f: Flushing)
    requires geo.Valid()
    ensures FillsPartition(geo, f) <==> f.write + NextChunk(geo, f) == geo.Size() && NextChunk(geo, f) < f.left
  {
  }

  /** The loop on a healthy device: it succeeds unless it starts at, or fills up to, the end of the partition. */
  lemma LoopSucceedsIff(geo: Geometry, f: Flushing, g: History, c: Cursor)
    requires FlushInv(geo, f, g, c) && f.err == Ok && f.left > 0
    requires !f.s.dev.failNext && f.devErr != DevFail
    ensures geo.Valid() && Sized(geo, f.s) && f.written + f.left <= geo.batch
    ensures FlushLoop(geo, f).err == Ok <==> f.write != geo.Size() && !FillsPartition(geo, f)
  {
    hide *;
    FlushInvParts(geo, f, g, c);
    AtEndIffSize(geo, f, g, c);
    LoopUnfolds(geo, f);
    FillsIs(geo, f);
    var m := NextChunkLaw(geo, f, g, c);
    PassFault(geo, f);
    var f' := FlushPass(geo, f);
    if AtEnd(geo, f.write) {
      var c' := PassAtEnd(geo, f, g, c);
      StuckErr(geo, f, f');
    } else {
      var g', c' := PassKeeps(geo, f, g, c);
      HealthyOutcome(geo, f, g, f', g');
      AtEndIffSize(geo, f', g', c');
      if NextChunk(geo, f) == 0 {
        GapFinishes(geo, f, g, c);
      } else if f'.left > 0 {
        if AtEnd(geo, f'.write) {
          var c2 := PassAtEnd(geo, f', g', c');
          FlushInvParts(geo, f', g', c');
          LoopUnfolds(geo, f');
          StuckErr(geo, f', FlushPass(geo, f'));
        } else if f'.write % geo.sector == 0 {
          StartFinishes(geo, f', g', c');
        } else {
          NothingMoreFits(geo, f, g, c, f', g', c');
          GapFinishes(geo, f', g', c');
        }
      }
    }
  }

  lemma StartFields(s: State)
    ensures FlushStart(s).write == s.writeOffset && FlushStart(s).s == s && FlushStart(s).devErr == DevOk
  {
  }

  /**
   * A flush of a non-empty batch with no device fault pending succeeds if and only if the write offset is
   * not the end of the partition and the chunk that fits the current sector does not end there with entries
   * left over.
   */
  lemma FlushSucceedsIff(geo: Geometry, s: State, g: History, c: Cursor)
    requires Inv(geo, s, g, c) && s.batchLen > 0 && !s.dev.failNext
    ensures geo.Valid() && Sized(geo, s)
    ensures FlushOp(geo, s).err == Ok <==> s.writeOffset != geo.Size() && !FillsPartition(geo, FlushStart(s))
  {
    hide *;
    InvParts(geo, s, g, c);
    FlushBegins(geo, s, g, c);
    StartFields(s);
    FlushOpUnfolds(geo, s);
    DevOkIsNoFault();
    LoopSucceedsIff(geo, FlushStart(s), g, c);
  }

  lemma DevOkIsNoFault()
    ensures DevOk != DevFail
  {
  }

  // ---------- The dead end ----------

  lemma FlushEndStuck(geo: Geometry, f: Flushing, f': Flushing)
    requires Sized(geo, f.s) && Sized(geo, f'.s) && f.written + f.left <= geo.batch && StuckAt(geo, f, f')
    requires f.written == 0
    requires f'.s.batch == f.s.batch
    ensures FlushEnd(geo, f').dev == f.s.dev && FlushEnd(geo, f').writeOffset == f.write
    ensures FlushEnd(geo, f').batchLen == f.left
    ensures FlushEnd(geo, f').batch == f.s.batch
  {
  }

  /** At the end of the partition every flush fails and changes neither flash nor batch. */
  lemma FlushAtEnd(geo: Geometry, s: State, g: History, c: Cursor)
    requires Inv(geo, s, g, c) && s.batchLen > 0 && s.writeOffset == geo.Size()
    ensures Sized(geo, s)
    ensures var r := FlushOp(geo, s);
            && r.err == (if s.lastErased == geo.sectors then WriteFail else EraseFail)
            && r.s.dev == s.dev && r.s.writeOffset == s.writeOffset && r.s.batchLen == s.batchLen
               && r.s.batch == s.batch
  {
    hide *;
    InvParts(geo, s, g, c);
    FlushBegins(geo, s, g, c);
    StartFields(s);
    var f := FlushStart(s);
    AtEndIffSize(geo, f, g, c);
    FlushOpUnfolds(geo, s);
    LoopUnfolds(geo, f);
    var c' := PassAtEnd(geo, f, g, c);
    var f' := FlushPass(geo, f);
    StuckErr(geo, f, f');
    StuckErrs(geo, f, f');
    WrittenZero(s);
    FlushInvParts(geo, f', g, c');
    FlushEndStuck(geo, f, f');
    StartIsState(s);
  }

  lemma StartIsState(s: State)
    ensures FlushStart(s).s == s
  {
  }

  lemma StuckErrs(geo: Geometry, f: Flushing, f': Flushing)
    requires StuckAt(geo, f, f')
    ensures f'.err == if f.s.lastErased == geo.sectors then WriteFail else EraseFail
  {
  }

  lemma WrittenZero(s: State)
    ensures FlushStart(s).written == 0 && FlushStart(s).left == s.batchLen
  {
  }
}
