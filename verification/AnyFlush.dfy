/** The flush loop on a flash of which nothing is known: which sectors it can change. */
module AnyFlush {
  import opened Bytes
  import opened Entry
  import opened Layout
  import opened Flash
  import opened LoggerSpec
  import opened Invariant
  import opened FlushSteps
  import opened FlushPasses
  import opened Operations
  import opened Scanning
  import opened Conservation
  import opened RunRecovery

  // ---------- Passes over any flash ----------

  /** A flush loop with a batch of whole entries, on a flash of which nothing is known. */
  predicate Loaded(geo: Geometry, f: Flushing, g: History) {
    && Sized(geo, f.s) && f.written + f.left <= geo.batch && f.err == Ok
    && LogOk(geo, g) && g.flushed <= |g.raw|
       && f.s.batch[f.written..f.written + f.left] == Run(g.raw, g.flushed, |g.raw|)
  }

  lemma LoadedParts(geo: Geometry, f: Flushing, g: History)
    requires Loaded(geo, f, g)
    ensures Sized(geo, f.s) && geo.Valid() && geo.sector > 0 && f.written + f.left <= geo.batch == |f.s.batch|
    ensures f.err == Ok
    ensures LogOk(geo, g) && g.flushed <= |g.raw| && |f.s.dev.mem| == geo.Size() && geo.batch <= geo.sector
    ensures f.s.batch[f.written..f.written + f.left] == Run(g.raw, g.flushed, |g.raw|)
    ensures f.left == |Run(g.raw, g.flushed, |g.raw|)|
  {
    hide LogOk, Run;
  }

  lemma LoadedFrom(geo: Geometry, f: Flushing, g: History)
    requires Sized(geo, f.s) && f.written + f.left <= geo.batch && f.err == Ok
    requires LogOk(geo, g) && g.flushed <= |g.raw|
    requires f.s.batch[f.written..f.written + f.left] == Run(g.raw, g.flushed, |g.raw|)
    ensures Loaded(geo, f, g)
  {
    hide LogOk, Run;
  }

  /** The next chunk is a run of whole entries that fits the room; in front of a whole sector it is all of them. */
  lemma NextTakes(geo: Geometry, f: Flushing, g: History) returns (m: nat)
    requires Loaded(geo, f, g)
    ensures geo.Valid() && g.flushed <= m <= |g.raw| && m == Fitting(g.raw, g.flushed, Room(geo, f.write))
    ensures NextChunk(geo, f) == |Run(g.raw, g.flushed, m)| <= Room(geo, f.write)
    ensures NextChunk(geo, f) <= f.left
    ensures f.left <= Room(geo, f.write) ==> m == |g.raw| && NextChunk(geo, f) == f.left
    ensures Room(geo, f.write) == geo.sector ==> f.left <= Room(geo, f.write)
  {
    hide *;
    LoadedParts(geo, f, g);
    RoomPositive(geo, f.write);
    m := Fitting(g.raw, g.flushed, Room(geo, f.write));
    ChunkLaw(geo, g, f.s.batch, f.written, f.left, Room(geo, f.write));
    NextChunkIs(geo, f);
    InOrder(g.raw, g.flushed, m);
    InOrder(g.raw, g.flushed, |g.raw|);
    RunAdds(g.raw, g.flushed, m, |g.raw|);
    FittingLaw(g.raw, g.flushed, Room(geo, f.write), m);
    FittingLaw(g.raw, g.flushed, Room(geo, f.write), |g.raw|);
  }

  /** Only sector `q` differs. */
  predicate SameOutside(geo: Geometry, mem: seq<Byte>, mem': seq<Byte>, q: nat)
    requires geo.Valid() && |mem| == |mem'| == geo.Size()
  {
    forall j: nat :: j < geo.sectors && j != q ==> Sector(geo, mem', j) == Sector(geo, mem, j)
  }

  /** The first byte of sector `h` is erased. */
  predicate FirstBlank(geo: Geometry, mem: seq<Byte>, h: nat) {
    h * geo.sector < |mem| && mem[h * geo.sector] == ERASED
  }

  lemma FirstBlankIs(geo: Geometry, mem: seq<Byte>, h: nat)
    ensures FirstBlank(geo, mem, h) <==> h * geo.sector < |mem| && mem[h * geo.sector] == ERASED
  {
  }

  /** The flash has changed in sector `q` at most. */
  predicate Only(geo: Geometry, s: State, s': State, q: nat) {
    geo.Valid() && |s.dev.mem| == |s'.dev.mem| == geo.Size() && SameOutside(geo, s.dev.mem, s'.dev.mem, q)
  }

  lemma OnlyIs(geo: Geometry, s: State, s': State, q: nat)
    requires geo.Valid()
    ensures Only(geo, s, s', q) <==>
            |s.dev.mem| == |s'.dev.mem| == geo.Size() && SameOutside(geo, s.dev.mem, s'.dev.mem, q)
  {
    hide SameOutside;
  }

  lemma OnlySame(geo: Geometry, s: State, s': State, q: nat)
    requires geo.Valid() && |s.dev.mem| == geo.Size() && s'.dev == s.dev
    ensures Only(geo, s, s', q)
  {
  }

  lemma SectorCells(geo: Geometry, mem: seq<Byte>, mem': seq<Byte>, q: nat)
    requires geo.Valid() && |mem| == |mem'| == geo.Size() && q < geo.sectors
    requires forall a :: 0 <= a < |mem| && (a < q * geo.sector || q * geo.sector + geo.sector <= a) ==>
             mem'[a] == mem[a]
    ensures SameOutside(geo, mem, mem', q)
  {
    forall j: nat | j < geo.sectors && j != q
      ensures Sector(geo, mem', j) == Sector(geo, mem, j)
    {
      SectorInside(geo, j);
      if j < q {
        SectorsApart(geo, j, q);
      } else {
        SectorsApart(geo, q, j);
      }
    }
  }

  /** Entering a sector from any offset in it. */
  lemma EnterAnywhere(geo: Geometry, s: State, write: nat, q: nat)
    requires Sized(geo, s) && geo.sector > 0 && q == write / geo.sector && q != s.lastErased && q < geo.sectors
    ensures q * geo.sector + geo.sector <= |s.dev.mem|
    ensures EnterSector(geo, s, write) ==
            (s.(dev := s.dev.(mem := Splice(s.dev.mem, q * geo.sector, Blank(geo.sector))), lastErased := q), DevOk)
  {
    SectorInside(geo, q);
    DivUnique(q * geo.sector, geo.sector, q, 0);
    DivUnique(geo.sector, geo.sector, 1, 0);
  }

  /** The loop state in front of the device write: in the sector last erased, or in one just erased. */
  function Prepared(geo: Geometry, f: Flushing, q: nat): Flushing
    requires Sized(geo, f.s) && q < geo.sectors
  {
    SectorInside(geo, q);
    if q == f.s.lastErased then f
    else f.(s := f.s.(dev := f.s.dev.(mem := Splice(f.s.dev.mem, q * geo.sector, Blank(geo.sector))), lastErased := q))
  }

  lemma PreparedParts(geo: Geometry, f: Flushing, q: nat)
    requires Sized(geo, f.s) && q < geo.sectors
    ensures var f1 := Prepared(geo, f, q);
            && f1 == f.(s := f.s.(dev := f1.s.dev, lastErased := q)) && |f1.s.dev.mem| == geo.Size() && Sized(geo, f1.s)
            && f1.s.dev.failNext == f.s.dev.failNext
            && (q == f.s.lastErased ==> f1 == f)
            && q * geo.sector + geo.sector <= geo.Size()
            && (q != f.s.lastErased ==> f1.s.dev.mem == Splice(f.s.dev.mem, q * geo.sector, Blank(geo.sector)))
  {
    SectorInside(geo, q);
    assert f.s == f.s.(dev := f.s.dev, lastErased := f.s.lastErased);
  }

  lemma ChunkIs(geo: Geometry, f: Flushing, chunk: nat, q: nat)
    requires Sized(geo, f.s) && f.written + chunk <= geo.batch && chunk <= f.left && f.err == Ok
    requires geo.sector > 0 && q == f.write / geo.sector < geo.sectors && f.written + chunk <= |f.s.batch|
    ensures var f1 := Prepared(geo, f, q);
            WriteChunk(geo, f, chunk) ==
            Answered(f1, Program(f1.s.dev, f.write, f.s.batch[f.written..f.written + chunk]), chunk)
  {
    hide EnterSector, Program, Splice;
    if q != f.s.lastErased {
      EnterAnywhere(geo, f.s, f.write, q);
    } else {
      WriteChunkStays(geo, f, chunk);
    }
  }

  /** Bytes written into sector `q`, prepared for them, leave the others alone and the cells in front of them. */
  lemma CellsAfter(geo: Geometry, mem: seq<Byte>, mem1: seq<Byte>, mem': seq<Byte>, q: nat, write: nat, src: seq<Byte>,
                   done: bool)
    requires geo.Valid() && |mem| == |mem1| == |mem'| == geo.Size() && q < geo.sectors
    requires q * geo.sector <= write && write + |src| <= q * geo.sector + geo.sector <= geo.Size()
    requires mem1 == mem || mem1 == Splice(mem, q * geo.sector, Blank(geo.sector))
    requires Obeys(mem1, mem', write, src, done)
    ensures SameOutside(geo, mem, mem', q)
    ensures q * geo.sector < write && (mem1 != mem || mem[q * geo.sector] == ERASED) ==> mem'[q * geo.sector] == ERASED
  {
    hide Programmable;
    forall a | 0 <= a < |mem| && (a < q * geo.sector || q * geo.sector + geo.sector <= a)
      ensures mem'[a] == mem[a]
    {
      assert mem1[a] == mem[a];
    }
    SectorCells(geo, mem, mem', q);
    hide SameOutside;
    if mem1 != mem {
      assert mem1[q * geo.sector] == ERASED;
    }
  }

  /** What a chunk written into sector `q` does to the flash, whatever the device answers. */
  lemma ChunkEffect(geo: Geometry, f: Flushing, chunk: nat, q: nat)
    requires Sized(geo, f.s) && geo.Valid() && f.err == Ok && chunk <= f.left
    requires f.written + chunk <= geo.batch == |f.s.batch|
    requires q == f.write / geo.sector < geo.sectors && f.write + chunk <= q * geo.sector + geo.sector
    ensures var f' := WriteChunk(geo, f, chunk);
            && |f'.s.dev.mem| == |f.s.dev.mem| == geo.Size() && q * geo.sector < |f.s.dev.mem|
            && SameOutside(geo, f.s.dev.mem, f'.s.dev.mem, q) && f'.s.lastErased == q
            && (f'.err == Ok ==>
                  f'.write == f.write + chunk && f'.written == f.written + chunk && f'.left == f.left - chunk)
            && (q * geo.sector < f.write && (q != f.s.lastErased || f.s.dev.mem[q * geo.sector] == ERASED) ==>
                  f'.s.dev.mem[q * geo.sector] == ERASED)
  {
    hide *;
    var mem := f.s.dev.mem;
    SizedBatch(geo, f.s);
    PreparedParts(geo, f, q);
    ChunkIs(geo, f, chunk, q);
    var f1, src := Prepared(geo, f, q), f.s.batch[f.written..f.written + chunk];
    ProgramLaw(f1.s.dev, f.write, src);
    var r := Program(f1.s.dev, f.write, src);
    AnsweredFields(f1, r, chunk);
    StartOfSector(geo, f.write);
    CellsAfter(geo, mem, f1.s.dev.mem, r.0.mem, q, f.write, src, r.1 == DevOk);
    if q != f.s.lastErased && f1.s.dev.mem == mem && q * geo.sector < f.write {
      BlankStart(geo, mem, q);
    }
  }

  lemma BlankStart(geo: Geometry, mem: seq<Byte>, q: nat)
    requires geo.Valid() && q * geo.sector + geo.sector <= |mem|
    ensures Splice(mem, q * geo.sector, Blank(geo.sector))[q * geo.sector] == ERASED
  {
  }

  lemma StartOfSector(geo: Geometry, write: nat)
    requires geo.Valid()
    ensures geo.sector > 0 && write / geo.sector * geo.sector <= write
  {
  }

  lemma AnsweredFields(f: Flushing, r: (Device, DevErr), chunk: nat)
    requires chunk <= f.left
    ensures var f' := Answered(f, r, chunk);
            && f'.s == f.s.(dev := r.0) && (f.err == Ok ==> (f'.err == Ok <==> r.1 == DevOk))
            && (r.1 == DevOk ==>
               f'.write == f.write + chunk && f'.written == f.written + chunk && f'.left == f.left - chunk)
  {
  }

  /** A pass that writes: its chunk goes to the sector of the write offset. */
  lemma PassWrites(geo: Geometry, f: Flushing, g: History, q: nat) returns (m: nat)
    requires Loaded(geo, f, g) && geo.Valid() && NextChunk(geo, f) > 0 && q == f.write / geo.sector < geo.sectors
    ensures Sized(geo, f.s) && f.written + f.left <= geo.batch
    ensures Only(geo, f.s, FlushPass(geo, f).s, q) && FlushPass(geo, f).s.lastErased == q
    ensures FlushPass(geo, f).err == Ok ==>
              && FlushPass(geo, f).write == f.write + NextChunk(geo, f) <= q * geo.sector + geo.sector
              && FlushPass(geo, f).left == f.left - NextChunk(geo, f)
                 && Loaded(geo, FlushPass(geo, f), g.(flushed := m))
    ensures q * geo.sector < f.write && (q != f.s.lastErased || FirstBlank(geo, f.s.dev.mem, q)) ==>
              FirstBlank(geo, FlushPass(geo, f).s.dev.mem, q)
  {
    hide *;
    LoadedParts(geo, f, g);
    m := NextTakes(geo, f, g);
    PassShape(geo, f);
    PushedParts(geo, f);
    var chunk, f1 := NextChunk(geo, f), Pushed(geo, f);
    RoomEnds(geo, f.write);
    ChunkEffect(geo, f1, chunk, q);
    SettleFails(WriteChunk(geo, f1, chunk));
    var f' := FlushPass(geo, f);
    SettledWritten(WriteChunk(geo, f1, chunk));
    OnlyIs(geo, f.s, f'.s, q);
    FirstBlankIs(geo, f.s.dev.mem, q);
    FirstBlankIs(geo, f'.s.dev.mem, q);
    ChunkOfBatch(g.raw, f.s.batch, f.written, f.left, g.flushed, m);
    if f'.err == Ok {
      SameLog(geo, g, g.(flushed := m));
      LoadedFrom(geo, f', g.(flushed := m));
    }
  }

  lemma SettledWritten(f: Flushing)
    ensures Settle(f).written == f.written && Settle(f).s.dev == f.s.dev && Settle(f).s.lastErased == f.s.lastErased
  {
  }

  lemma RoomEnds(geo: Geometry, write: nat)
    requires geo.Valid()
    ensures write + Room(geo, write) == write / geo.sector * geo.sector + geo.sector
  {
  }

  /** From the start of a sector one pass ends the loop, and only that sector changes. */
  lemma LoopFromStart(geo: Geometry, f: Flushing, g: History, q: nat)
    requires Loaded(geo, f, g) && geo.Valid() && f.left > 0 && f.write == q * geo.sector && q < geo.sectors
    ensures Sized(geo, f.s) && f.written + f.left <= geo.batch && Only(geo, f.s, FlushLoop(geo, f).s, q)
  {
    hide *;
    LoadedParts(geo, f, g);
    SectorOfOffset(geo, q, 0);
    RoomAtStart(geo, f.write);
    var _ := NextTakes(geo, f, g);
    LoopUnfolds(geo, f);
    var _ := PassWrites(geo, f, g, q);
  }

  lemma ByteOfSector(geo: Geometry, s: State, s': State, q: nat, h: nat)
    requires Only(geo, s, s', q) && h < geo.sectors && h != q
    ensures FirstBlank(geo, s.dev.mem, h) <==> FirstBlank(geo, s'.dev.mem, h)
  {
    SectorInside(geo, h);
    assert Sector(geo, s.dev.mem, h)[0] == Sector(geo, s'.dev.mem, h)[0];
  }

  /** Once the first byte of the head sector is erased and chunks go behind it, it stays erased. */
  lemma {:induction false} LoopLeavesBlank(geo: Geometry, f: Flushing, g: History, h: nat)
    requires Loaded(geo, f, g) && geo.Valid() && f.left > 0 && h < geo.sectors && f.s.lastErased == h
    requires h * geo.sector < f.write <= h * geo.sector + geo.sector && FirstBlank(geo, f.s.dev.mem, h)
    ensures Sized(geo, f.s) && f.written + f.left <= geo.batch
    ensures FirstBlank(geo, FlushLoop(geo, f).s.dev.mem, h)
    decreases f.left
  {
    hide *;
    LoadedParts(geo, f, g);
    LoopUnfolds(geo, f);
    var m := NextTakes(geo, f, g);
    PassShape(geo, f);
    PushedParts(geo, f);
    SectorInside(geo, h);
    var f' := FlushPass(geo, f);
    if f.write < h * geo.sector + geo.sector {
      SectorOfOffset(geo, h, f.write - h * geo.sector);
      RoomInside(geo, f.write);
      if NextChunk(geo, f) > 0 {
        var m' := PassWrites(geo, f, g, h);
        if f'.err == Ok && f'.left > 0 {
          LoopLeavesBlank(geo, f', g.(flushed := m'), h);
        }
      } else {
        var q := AfterGap(geo, f, g);
        ByteOfSector(geo, f.s, FlushLoop(geo, f).s, q, h);
      }
    } else if h + 1 < geo.sectors {
      LoopFromStart(geo, f, g, h + 1);
      ByteOfSector(geo, f.s, FlushLoop(geo, f).s, h + 1, h);
    } else {
      EndOfRing(geo, f.write, h);
      RoomAtStart(geo, f.write);
      WriteAtEnd(geo, Pushed(geo, f), f.left);
      SettleFails(WriteChunk(geo, Pushed(geo, f), f.left));
      EndWriteFields(geo, Pushed(geo, f), f.left);
      FailsAreNotOk();
    }
  }

  lemma EndWriteFields(geo: Geometry, f: Flushing, chunk: nat)
    requires Sized(geo, f.s) && f.written + chunk <= geo.batch && 0 < chunk <= f.left
    requires f.write == geo.Size() && f.write / geo.sector == geo.sectors
    ensures WriteChunk(geo, f, chunk).s.dev == f.s.dev && WriteChunk(geo, f, chunk).err != Ok
  {
    hide WriteChunk;
    WriteAtEnd(geo, f, chunk);
  }

  lemma FailsAreNotOk()
    ensures WriteFail != Ok && EraseFail != Ok
  {
  }

  lemma EndOfRing(geo: Geometry, write: nat, h: nat)
    requires geo.Valid() && h + 1 == geo.sectors && write == h * geo.sector + geo.sector
    ensures write == geo.Size() && write / geo.sector == geo.sectors && write % geo.sector == 0
  {
    SectorInside(geo, h);
    SectorOfOffset(geo, geo.sectors, 0);
  }

  lemma RoomInside(geo: Geometry, write: nat)
    requires geo.Valid()
    ensures Room(geo, write) == geo.sector - write % geo.sector
  {
  }

  /** A pass that skips the rest of the sector, and the one pass behind it. */
  lemma AfterGap(geo: Geometry, f: Flushing, g: History) returns (q: nat)
    requires Loaded(geo, f, g) && geo.Valid() && f.left > 0 && NextChunk(geo, f) == 0 && f.write % geo.sector != 0
    requires f.write / geo.sector < geo.sectors
    ensures Sized(geo, f.s) && f.written + f.left <= geo.batch
    ensures q < geo.sectors && q != f.write / geo.sector && Only(geo, f.s, FlushLoop(geo, f).s, q)
  {
    hide *;
    LoadedParts(geo, f, g);
    LoopUnfolds(geo, f);
    PassShape(geo, f);
    PushedParts(geo, f);
    RoomInside(geo, f.write);
    var f1 := Pushed(geo, f).(write := Wrapped(geo, NextSectorStart(geo, f.write)));
    q := NextStart(geo, f.write);
    SettleFails(f1);
    SettledWritten(f1);
    var f' := FlushPass(geo, f);
    LoadedFrom(geo, f', g);
    LoopFromStart(geo, f', g, q);
    OnlyIs(geo, f.s, FlushLoop(geo, f).s, q);
    OnlyIs(geo, f'.s, FlushLoop(geo, f).s, q);
  }

  /** Behind a sector comes another one of the ring. */
  lemma NextStart(geo: Geometry, write: nat) returns (q: nat)
    requires geo.Valid() && write / geo.sector < geo.sectors
    ensures geo.sector > 0 && q < geo.sectors && q != write / geo.sector
    ensures Wrapped(geo, NextSectorStart(geo, write)) == q * geo.sector
  {
    var h := write / geo.sector;
    if h + 1 < geo.sectors {
      q := h + 1;
      SectorInside(geo, h + 1);
    } else {
      q := 0;
    }
  }

  lemma PreparedIsReady(geo: Geometry, f: Flushing, q: nat, src: seq<Byte>)
    requires Sized(geo, f.s) && q < geo.sectors && geo.sector > 0 && q != f.s.lastErased
    requires q * geo.sector <= f.write && f.write + |src| <= q * geo.sector + geo.sector
    ensures var dev := Prepared(geo, f, q).s.dev;
            f.write + |src| <= |dev.mem| && Ready(dev.mem, f.write, src)
  {
    SectorInside(geo, q);
  }

  lemma NoFault(d: Device, size: nat)
    requires !d.failNext
    ensures Arriving(d, size) == size
  {
  }
}
