/** The flush loop as a whole keeps the invariant, loses nothing and never asks the device for a 0 to 1 bit. */
module FlushPasses {
  import opened Bytes
  import opened Entry
  import opened Layout
  import opened Flash
  import opened LoggerSpec
  import opened Invariant
  import opened FlushSteps

  /** The loop state with the replay cursor pushed out of the way. */
  function Pushed(geo: Geometry, f: Flushing): Flushing
    requires geo.sector > 0
  {
    f.(replay := PushReplay(geo, f.write, f.replay))
  }

  function Room(geo: Geometry, write: nat): nat
    requires geo.sector > 0
  {
    geo.sector - write % geo.sector
  }

  /** The chunk the next pass takes. */
  function NextChunk(geo: Geometry, f: Flushing): nat
    requires geo.Valid()
  {
    ChunkFrom(f.s.batch, f.written, f.left, Room(geo, f.write), geo.align, 0)
  }

  lemma PassShape(geo: Geometry, f: Flushing)
    requires Sized(geo, f.s) && f.written + f.left <= geo.batch && f.err == Ok && NextChunk(geo, f) <= f.left
    ensures FlushPass(geo, f) ==
            if NextChunk(geo, f) > 0 then Settle(WriteChunk(geo, Pushed(geo, f), NextChunk(geo, f)))
            else if Room(geo, f.write) < geo.sector
                then Settle(Pushed(geo, f).(write := Wrapped(geo, NextSectorStart(geo, f.write))))
            else Pushed(geo, f).(err := NoMem)
  {
    hide ChunkFrom, WriteChunk, NextSectorStart;
    NextSectorStartLaw(geo, f.write);
  }

  lemma PushedKeeps(geo: Geometry, f: Flushing, g: History, c: Cursor) returns (c': Cursor)
    requires FlushInv(geo, f, g, c)
    ensures FlushInv(geo, Pushed(geo, f), g, c') && c'.mark == c.mark
    ensures Clear(geo, f.write, Pushed(geo, f).replay)
  {
    hide Run, MemOk, LogOk, Ring, Ranges, WriteOk;
    c' := PushKeeps(geo, f.write, f.replay, f.s.lastErased, g, c);
  }

  lemma SettleKeeps(geo: Geometry, f: Flushing, g: History, c: Cursor)
    requires FlushInv(geo, f, g, c)
    ensures FlushInv(geo, Settle(f), g, c)
  {
    hide FlashOk, ReplayOk, Run, Ranges;
  }

  /** The chunk is the longest run of whole entries that fits the room left in the sector. */
  lemma NextChunkLaw(geo: Geometry, f: Flushing, g: History, c: Cursor) returns (m: nat)
    requires FlushInv(geo, f, g, c)
    ensures m == Fitting(g.raw, g.flushed, Room(geo, f.write))
    ensures NextChunk(geo, f) == |Run(g.raw, g.flushed, m)| <= f.left
  {
    hide *;
    FlushInvParts(geo, f, g, c);
    RoomPositive(geo, f.write);
    m := Fitting(g.raw, g.flushed, Room(geo, f.write));
    ChunkLaw(geo, g, f.s.batch, f.written, f.left, Room(geo, f.write));
    NextChunkIs(geo, f);
    RunSplit(g.raw, g.flushed, m, |g.raw|);
  }

  lemma RoomPositive(geo: Geometry, write: nat)
    requires geo.Valid()
    ensures 0 < Room(geo, write) <= geo.sector && geo.align >= 1
  {
  }

  lemma NextChunkIs(geo: Geometry, f: Flushing)
    requires geo.Valid()
    ensures NextChunk(geo, f) == ChunkFrom(f.s.batch, f.written, f.left, Room(geo, f.write), geo.align, 0)
  {
  }

  /** One entry always fits an empty sector, and a whole batch does. */
  lemma BatchFitsSector(geo: Geometry, f: Flushing, g: History, c: Cursor)
    requires FlushInv(geo, f, g, c) && Room(geo, f.write) == geo.sector
    ensures Fitting(g.raw, g.flushed, geo.sector) == |g.raw|
    ensures NextChunk(geo, f) == f.left
  {
    hide *;
    FlushInvParts(geo, f, g, c);
    var m := NextChunkLaw(geo, f, g, c);
    FittingLaw(g.raw, g.flushed, geo.sector, |g.raw|);
    BatchAtMostSector(geo);
  }

  lemma BatchAtMostSector(geo: Geometry)
    requires geo.Valid()
    ensures geo.batch <= geo.sector
  {
  }

  // ---------- At the end of the partition ----------

  /** The write offset at the end of the partition is never wrapped. */
  predicate AtEnd(geo: Geometry, write: nat)
    requires geo.sector > 0
  {
    write / geo.sector >= geo.sectors
  }

  lemma AtEndWhere(geo: Geometry, write: nat, lastErased: int, g: History)
    requires Ranges(geo, g) && WriteOk(geo, write, lastErased, g) && AtEnd(geo, write)
    ensures !g.moved && write == geo.Size() && write / geo.sector == geo.sectors && write % geo.sector == 0
    ensures g.cur == geo.sectors - 1 && Used(geo, g) == geo.sector
  {
    hide Run;
    WriteSector(geo, write, lastErased, g);
  }

  lemma EnterAtEnd(geo: Geometry, s: State, write: nat)
    requires Sized(geo, s) && write == geo.Size() && write / geo.sector == geo.sectors
    ensures EnterSector(geo, s, write) ==
            if s.lastErased == geo.sectors then (s, DevOk) else (s.(lastErased := geo.sectors), DevInvalidSize)
  {
    DivUnique(geo.sectors * geo.sector, geo.sector, geo.sectors, 0);
    DivUnique(geo.sector, geo.sector, 1, 0);
  }

  lemma WriteAtEnd(geo: Geometry, f: Flushing, chunk: nat)
    requires Sized(geo, f.s) && f.written + chunk <= geo.batch && 0 < chunk <= f.left
    requires f.write == geo.Size() && f.write / geo.sector == geo.sectors
    ensures WriteChunk(geo, f, chunk) ==
            if f.s.lastErased == geo.sectors then f.(err := WriteFail, devErr := DevInvalidSize)
            else f.(s := f.s.(lastErased := geo.sectors), err := EraseFail, devErr := DevInvalidSize)
  {
    hide EnterSector;
    EnterAtEnd(geo, f.s, f.write);
  }

  lemma EndRemembered(geo: Geometry, f: Flushing, g: History, c: Cursor, err: Err)
    requires FlushInv(geo, f, g, c) && !g.moved && f.write == geo.Size()
    ensures FlushInv(geo, f.(s := f.s.(lastErased := geo.sectors), err := err, devErr := DevInvalidSize), g, c)
    ensures FlushInv(geo, f.(err := err, devErr := DevInvalidSize), g, c)
  {
    hide Ranges, Ring, MemOk, LogOk, ReplayOk, Run;
  }

  /** What is left of the loop state when a pass fails. */
  predicate StuckAt(geo: Geometry, f: Flushing, f': Flushing) {
    && (f'.s.lastErased == f.s.lastErased || f'.s.lastErased == geo.sectors)
    && f'.err == (if f.s.lastErased == geo.sectors then WriteFail else EraseFail) && f'.devErr == DevInvalidSize
    && f'.s.dev == f.s.dev && f'.write == f.write && f'.left == f.left && f'.written == f.written
  }

  /** From the end of the partition no byte is ever written again. */
  lemma PassAtEnd(geo: Geometry, f: Flushing, g: History, c: Cursor) returns (c': Cursor)
    requires FlushInv(geo, f, g, c) && f.err == Ok && f.left > 0 && AtEnd(geo, f.write)
    ensures FlushInv(geo, FlushPass(geo, f), g, c') && c'.mark == c.mark && !g.moved
    ensures StuckAt(geo, f, FlushPass(geo, f))
  {
    hide *;
    FlushInvParts(geo, f, g, c);
    AtEndWhere(geo, f.write, f.s.lastErased, g);
    RoomAtStart(geo, f.write);
    BatchFitsSector(geo, f, g, c);
    c' := PushedKeeps(geo, f, g, c);
    PushedParts(geo, f);
    var f1 := Pushed(geo, f);
    PassShape(geo, f);
    WriteAtEnd(geo, f1, f.left);
    EndRemembered(geo, f1, g, c', EraseFail);
    EndRemembered(geo, f1, g, c', WriteFail);
    SettleFails(WriteChunk(geo, f1, f.left));
    StuckParts(geo, f, FlushPass(geo, f));
  }

  lemma StuckParts(geo: Geometry, f: Flushing, f': Flushing)
    requires geo.sector > 0
    requires f.s.lastErased == geo.sectors ==> f' == Pushed(geo, f).(err := WriteFail, devErr := DevInvalidSize)
    requires f.s.lastErased != geo.sectors ==>
               f' == Pushed(geo, f).(s := f.s.(lastErased := geo.sectors), err := EraseFail, devErr := DevInvalidSize)
    ensures StuckAt(geo, f, f')
  {
  }

  lemma RoomAtStart(geo: Geometry, write: nat)
    requires geo.Valid()
    ensures write % geo.sector == 0 ==> Room(geo, write) == geo.sector
  {
  }

  lemma PushedParts(geo: Geometry, f: Flushing)
    requires geo.sector > 0
    ensures Pushed(geo, f).s == f.s && Pushed(geo, f).write == f.write && Pushed(geo, f).left == f.left
    ensures Pushed(geo, f).written == f.written && Pushed(geo, f).err == f.err
    ensures Pushed(geo, f).hintOffset == f.hintOffset
  {
  }

  lemma SettleFails(f: Flushing)
    ensures f.err != Ok ==> Settle(f) == f
    ensures Settle(f).err == f.err && Settle(f).devErr == f.devErr && Settle(f).write == f.write
    ensures Settle(f).left == f.left
    ensures Settle(f).written == f.written && Settle(f).s.dev == f.s.dev && Settle(f).s.batch == f.s.batch
    ensures f.err == Ok ==> Settle(f).s.writeOffset == f.write && Settle(f).hintOffset == f.s.writeOffset
    ensures Settle(f).s.lastId == f.s.lastId && Settle(f).s.lastErased == f.s.lastErased
  {
  }

  // ---------- Entering a sector ----------

  lemma EnterErases(geo: Geometry, s: State, write: nat, q: nat)
    requires Sized(geo, s) && q == write / geo.sector && q != s.lastErased && write == q * geo.sector
    requires write + geo.sector <= geo.Size()
    ensures EnterSector(geo, s, write) ==
            (s.(dev := s.dev.(mem := Splice(s.dev.mem, write, Blank(geo.sector))), lastErased := q), DevOk)
  {
    DivUnique(q * geo.sector, geo.sector, q, 0);
    DivUnique(geo.sector, geo.sector, 1, 0);
  }

  /** The loop state once sector `q` has been erased. */
  function Opened(geo: Geometry, f: Flushing, q: nat): Flushing
    requires f.write + geo.sector <= |f.s.dev.mem|
  {
    f.(s := f.s.(dev := f.s.dev.(mem := Splice(f.s.dev.mem, f.write, Blank(geo.sector))), lastErased := q))
  }

  lemma OpenedKeeps(geo: Geometry, f: Flushing, g: History, c: Cursor, q: nat) returns (c': Cursor)
    requires FlushInv(geo, f, g, c) && Entering(geo, f.write, f.s.lastErased, g, q) && Clear(geo, f.write, f.replay)
    ensures f.write + geo.sector <= |f.s.dev.mem|
    ensures FlushInv(geo, Opened(geo, f, q), Entered(g, q), c') && c'.mark == c.mark
  {
    hide Ring, MemOk, LogOk, ReplayOk, WriteOk, Run, Entering, EntersFrom;
    EraseKeeps(geo, f.s.dev.mem, f.write, f.s.lastErased, g, q);
    EnteredRanges(geo, g, q);
    c' := EraseKeepsReplay(geo, f.write, f.replay, f.s.lastErased, g, c, q);
    hide FlashOk, Ranges;
  }

  lemma AllFitsFresh(geo: Geometry, g: History, q: nat)
    requires Ranges(geo, g) && q < geo.sectors && Ranges(geo, Entered(g, q)) && g.flushed < |g.raw|
    requires |Run(g.raw, g.flushed, |g.raw|)| <= geo.sector
    ensures Fits(geo, Entered(g, q), |g.raw|)
  {
    RunEmpty(g.raw, g.flushed);
    hide Run;
  }

  lemma WriteChunkOpened(geo: Geometry, f: Flushing, q: nat, chunk: nat)
    requires Sized(geo, f.s) && f.written + chunk <= geo.batch && chunk <= f.left
    requires q == f.write / geo.sector && q != f.s.lastErased && f.write == q * geo.sector
    requires f.write + geo.sector <= geo.Size() && f.err == Ok
    ensures var f1 := Opened(geo, f, q);
            WriteChunk(geo, f, chunk) ==
            Answered(f1, Program(f1.s.dev, f.write, f.s.batch[f.written..f.written + chunk]), chunk)
  {
    hide EnterSector, Program;
    EnterErases(geo, f.s, f.write, q);
  }

  lemma WriteChunkStays(geo: Geometry, f: Flushing, chunk: nat)
    requires Sized(geo, f.s) && f.written + chunk <= geo.batch && chunk <= f.left
    requires f.write / geo.sector == f.s.lastErased && f.err == Ok
    ensures WriteChunk(geo, f, chunk) ==
            Answered(f, Program(f.s.dev, f.write, f.s.batch[f.written..f.written + chunk]), chunk)
  {
    hide Program;
  }

  // ---------- One pass ----------

  /** The chunk written by a pass: entries `g.flushed..g'.flushed`, from offset `at` in the current sector. */
  predicate ChunkAt(geo: Geometry, at: nat, g: History, g': History) {
    && g'.cur < |g'.lo| && g'.lo[g'.cur] <= g.flushed < g'.flushed <= |g'.raw|
    && at == g'.cur * geo.sector + |Run(g'.raw, g'.lo[g'.cur], g.flushed)|
  }

  /** What a pass that reaches the device, or skips a gap, leaves behind. */
  predicate PassOutcome(geo: Geometry, f: Flushing, g: History, f': Flushing, g': History) {
    && SameHistory(g, g')
    && (|| (f'.err == Ok && g'.moved && f'.left == f.left)
        || (f'.err == Ok && !g'.moved && ChunkAt(geo, f.write, g, g') && f'.devErr == DevOk && f'.left < f.left)
        || (f'.err == WriteFail && f'.devErr == DevFail && !g'.moved && g'.flushed == g.flushed && f'.left == f.left))
    && (f'.err == Ok ==> f'.s.writeOffset == f'.write && f'.hintOffset == f.s.writeOffset)
  }

  lemma ChunkOutcome(geo: Geometry, f: Flushing, f2: Flushing, g: History, g2: History, g': History, m: nat,
                     r: (Device, DevErr), chunk: nat)
    requires f2.write == f.write && f2.left == f.left && f2.err == Ok && f2.s.writeOffset == f.s.writeOffset
    requires SameHistory(g, g2) && g2.flushed == g.flushed && SameHistory(g2, g') && !g'.moved && g'.cur == g2.cur
    requires Ranges(geo, g2) && Fits(geo, g2, m) && f.write == g2.cur * geo.sector + Used(geo, g2)
    requires 0 < chunk <= f2.left
    requires if r.1 == DevOk then g' == Written(g2, m) else r.1 == DevFail && g'.flushed == g2.flushed
    ensures PassOutcome(geo, f, g, Settle(Answered(f2, r, chunk)), g')
  {
    hide Run;
  }

  lemma ChunkPositive(geo: Geometry, g: History, m: nat)
    requires Ranges(geo, g) && g.flushed <= m <= |g.raw|
    ensures |Run(g.raw, g.flushed, m)| > 0 <==> g.flushed < m
  {
    RunPositive(g.raw, g.flushed, m);
    hide Run;
  }

  lemma SettleAnswered(geo: Geometry, f: Flushing, r: (Device, DevErr), chunk: nat, g: History, c: Cursor)
    requires chunk <= f.left && FlushInv(geo, Answered(f, r, chunk), g, c)
    ensures FlushInv(geo, Settle(Answered(f, r, chunk)), g, c)
  {
    hide *;
    SettleKeeps(geo, Answered(f, r, chunk), g, c);
  }

  /** A pass that enters a sector: the whole batch goes behind its start. */
  lemma PassEnters(geo: Geometry, f: Flushing, g: History, c: Cursor, q: nat) returns (g': History, c': Cursor)
    requires FlushInv(geo, f, g, c) && f.err == Ok && f.left > 0 && Entering(geo, f.write, f.s.lastErased, g, q)
    ensures FlushInv(geo, FlushPass(geo, f), g', c') && c'.mark == c.mark
    ensures PassOutcome(geo, f, g, FlushPass(geo, f), g') && !g'.moved
    ensures FlushPass(geo, f).err == Ok ==> FlushPass(geo, f).left == 0
    ensures FlushPass(geo, f).s.lastErased == q && Enters(geo, g, g', q)
  {
    hide *;
    FlushInvParts(geo, f, g, c);
    EnteringStart(geo, f.write, f.s.lastErased, g, q);
    RoomAtStart(geo, f.write);
    BatchFitsSector(geo, f, g, c);
    var c1 := PushedKeeps(geo, f, g, c);
    PushedParts(geo, f);
    PassShape(geo, f);
    var f1 := Pushed(geo, f);
    FlushInvParts(geo, f1, g, c1);
    c' := OpenedKeeps(geo, f1, g, c1, q);
    var f2 := Opened(geo, f1, q);
    OpenedParts(geo, f1, q);
    var g2 := Entered(g, q);
    EnteredParts(geo, g, q);
    FlushInvParts(geo, f2, g2, c');
    ChunkPositive(geo, g, |g.raw|);
    BatchAtMostSector(geo);
    AllFitsFresh(geo, g, q);
    WriteChunkOpened(geo, f1, q, f.left);
    ChunkOfBatch(g.raw, f.s.batch, f.written, f.left, g.flushed, |g.raw|);
    var r := Program(f2.s.dev, f.write, f.s.batch[f.written..f.written + f.left]);
    g' := ChunkInSector(geo, f2, g2, c', |g.raw|, f.left, r);
    ChunkOutcome(geo, f, f2, g, g2, g', |g.raw|, r, f.left);
    SettleAnswered(geo, f2, r, f.left, g', c');
    AnsweredParts(f2, r, f.left);
    SettleFails(Answered(f2, r, f.left));
    EnteringWhere(geo, f.write, f.s.lastErased, g, q);
    EntersThenStays(geo, g, g', q);
  }

  lemma EnteringStart(geo: Geometry, write: nat, lastErased: int, g: History, q: nat)
    requires Ranges(geo, g) && Entering(geo, write, lastErased, g, q)
    ensures write == q * geo.sector && q == write / geo.sector && q != lastErased && q < geo.sectors
    ensures q < |g.lo| == |g.hi| && write % geo.sector == 0 && write + geo.sector <= geo.Size()
  {
    hide Run;
    EnteringWhere(geo, write, lastErased, g, q);
    SectorInside(geo, q);
    DivUnique(q * geo.sector, geo.sector, q, 0);
  }

  lemma OpenedParts(geo: Geometry, f: Flushing, q: nat)
    requires f.write + geo.sector <= |f.s.dev.mem|
    ensures var f2 := Opened(geo, f, q);
            f2.write == f.write && f2.left == f.left && f2.written == f.written && f2.err == f.err
            && f2.s.writeOffset == f.s.writeOffset && f2.s.batch == f.s.batch && f2.s.lastErased == q
  {
  }

  lemma EnteredParts(geo: Geometry, g: History, q: nat)
    requires Ranges(geo, g) && q < geo.sectors
    ensures var g2 := Entered(g, q);
            SameHistory(g, g2) && g2.flushed == g.flushed && g2.cur == q && !g2.moved && g2.raw == g.raw
            && Ranges(geo, g2) && Used(geo, g2) == 0
  {
    EnteredRanges(geo, g, q);
    RunEmpty(g.raw, g.flushed);
    hide Run;
  }

  // ---------- Staying in a sector ----------

  /** The write offset stands inside the sector last erased. */
  lemma StayingWhere(geo: Geometry, write: nat, lastErased: int, g: History)
    requires Ranges(geo, g) && WriteOk(geo, write, lastErased, g)
    requires !AtEnd(geo, write) && write / geo.sector == lastErased
    ensures !g.moved && lastErased == g.cur && Used(geo, g) < geo.sector
    ensures write == g.cur * geo.sector + Used(geo, g) && Room(geo, write) == geo.sector - Used(geo, g)
    ensures g.flushed <= |g.raw| && g.tornTo <= |g.raw| && g.flushed <= g.tornTo
  {
    hide Run;
    WriteSector(geo, write, lastErased, g);
  }

  lemma StayingFits(geo: Geometry, write: nat, g: History, m: nat)
    requires Ranges(geo, g) && !g.moved && Room(geo, write) == geo.sector - Used(geo, g)
    requires m == Fitting(g.raw, g.flushed, Room(geo, write))
    ensures g.flushed < m ==> Fits(geo, g, m)
    ensures g.torn > 0 ==> g.flushed < m
  {
    FittingLaw(g.raw, g.flushed, Room(geo, write), g.tornTo);
    RunPositive(g.raw, g.flushed, g.tornTo);
    hide Run, Fitting;
  }

  /** A pass that adds a chunk to the sector it is in. */
  lemma PassAdds(geo: Geometry, f: Flushing, g: History, c: Cursor) returns (g': History, c': Cursor)
    requires FlushInv(geo, f, g, c) && f.err == Ok && f.left > 0 && NextChunk(geo, f) > 0
    requires !AtEnd(geo, f.write) && f.write / geo.sector == f.s.lastErased
    ensures FlushInv(geo, FlushPass(geo, f), g', c') && c'.mark == c.mark
    ensures PassOutcome(geo, f, g, FlushPass(geo, f), g') && !g'.moved
    ensures FlushPass(geo, f).s.lastErased == f.s.lastErased && Stays(g, g')
  {
    hide *;
    FlushInvParts(geo, f, g, c);
    StayingWhere(geo, f.write, f.s.lastErased, g);
    var m := NextChunkLaw(geo, f, g, c);
    FittingLaw(g.raw, g.flushed, Room(geo, f.write), g.flushed);
    StayingFits(geo, f.write, g, m);
    ChunkPositive(geo, g, m);
    c' := PushedKeeps(geo, f, g, c);
    PushedParts(geo, f);
    PassShape(geo, f);
    var f1 := Pushed(geo, f);
    FlushInvParts(geo, f1, g, c');
    var chunk := NextChunk(geo, f);
    WriteChunkStays(geo, f1, chunk);
    ChunkOfBatch(g.raw, f.s.batch, f.written, f.left, g.flushed, m);
    var r := Program(f.s.dev, f.write, f.s.batch[f.written..f.written + chunk]);
    g' := ChunkInSector(geo, f1, g, c', m, chunk, r);
    SameHistoryReflexive(g);
    ChunkOutcome(geo, f, f1, g, g, g', m, r, chunk);
    SettleAnswered(geo, f1, r, chunk, g', c');
    AnsweredParts(f1, r, chunk);
    SettleFails(Answered(f1, r, chunk));
  }

  lemma SameHistoryReflexive(g: History)
    ensures SameHistory(g, g) && SameHistory(g, g.(moved := true))
  {
  }

  lemma GapOffset(geo: Geometry, write: nat, g: History)
    requires Ranges(geo, g) && WriteOk(geo, write, g.cur, g) && !g.moved && 0 < Used(geo, g) < geo.sector
    ensures Wrapped(geo, NextSectorStart(geo, write)) == Wrapped(geo, g.cur * geo.sector + geo.sector)
    ensures g.lo[g.cur] < g.hi[g.cur]
  {
    RunPositive(g.raw, g.lo[g.cur], g.hi[g.cur]);
    hide Run;
    WriteSector(geo, write, g.cur, g);
    NextSectorStartLaw(geo, write);
  }

  lemma MovedOffset(geo: Geometry, write: nat, g: History)
    requires Ranges(geo, g) && g.torn == 0 && 0 < Used(geo, g) < geo.sector && g.lo[g.cur] < g.hi[g.cur]
    requires Ranges(geo, g.(moved := true)) && write == Wrapped(geo, g.cur * geo.sector + geo.sector)
    ensures WriteOk(geo, write, g.cur, g.(moved := true))
  {
    hide Run;
  }

  lemma MovedReplay(geo: Geometry, replay: nat, g: History, c: Cursor)
    requires Ranges(geo, g) && Ring(geo, g) && ReplayOk(geo, replay, g, c) && Ranges(geo, g.(moved := true))
    ensures ReplayOk(geo, replay, g.(moved := true), c) && Ring(geo, g.(moved := true))
  {
    hide Run;
  }

  /** Skipping the gap at the end of the sector. */
  lemma GapKeeps(geo: Geometry, f: Flushing, g: History, c: Cursor)
    requires FlushInv(geo, f, g, c) && !g.moved && f.s.lastErased == g.cur && g.torn == 0
    requires 0 < Used(geo, g) < geo.sector
    ensures FlushInv(geo, f.(write := Wrapped(geo, NextSectorStart(geo, f.write))), g.(moved := true), c)
  {
    hide Run, MemOk, LogOk, Ring, WriteOk, Ranges, ReplayOk;
    MovedKeeps(geo, f.s.dev.mem, g);
    GapOffset(geo, f.write, g);
    MovedOffset(geo, Wrapped(geo, NextSectorStart(geo, f.write)), g);
    MovedReplay(geo, f.replay, g, c);
  }

  lemma MovedKeeps(geo: Geometry, mem: seq<Byte>, g: History)
    requires Ranges(geo, g) && MemOk(geo, mem, g) && LogOk(geo, g)
    ensures Ranges(geo, g.(moved := true)) && MemOk(geo, mem, g.(moved := true)) && LogOk(geo, g.(moved := true))
  {
    hide Run;
    SameLog(geo, g, g.(moved := true));
    hide LogOk, Sector;
    assert forall k: nat | k < geo.sectors :: Content(geo, g.(moved := true), k) == Content(geo, g, k);
  }

  lemma GapOutcome(geo: Geometry, f: Flushing, f1: Flushing, g: History)
    requires f1.err == Ok && f1.left == f.left && f1.s.writeOffset == f.s.writeOffset
    ensures PassOutcome(geo, f, g, Settle(f1), g.(moved := true))
  {
  }

  /** A pass that finds no entry to fit moves to the next sector of the ring. */
  lemma PassSkips(geo: Geometry, f: Flushing, g: History, c: Cursor) returns (g': History, c': Cursor)
    requires FlushInv(geo, f, g, c) && f.err == Ok && f.left > 0 && NextChunk(geo, f) == 0
    requires !AtEnd(geo, f.write) && f.write / geo.sector == f.s.lastErased
    ensures FlushInv(geo, FlushPass(geo, f), g', c') && c'.mark == c.mark
    ensures PassOutcome(geo, f, g, FlushPass(geo, f), g') && g'.moved && !g.moved && FlushPass(geo, f).err == Ok
    ensures FlushPass(geo, f).s.lastErased == f.s.lastErased && Stays(g, g')
  {
    hide *;
    FlushInvParts(geo, f, g, c);
    StayingWhere(geo, f.write, f.s.lastErased, g);
    var m := NextChunkLaw(geo, f, g, c);
    FittingLaw(g.raw, g.flushed, Room(geo, f.write), g.flushed);
    StayingFits(geo, f.write, g, m);
    ChunkPositive(geo, g, m);
    if Room(geo, f.write) == geo.sector {
      BatchFitsSector(geo, f, g, c);
    }
    c' := PushedKeeps(geo, f, g, c);
    PushedParts(geo, f);
    PassShape(geo, f);
    var f1 := Pushed(geo, f);
    GapKeeps(geo, f1, g, c');
    g' := g.(moved := true);
    var f2 := f1.(write := Wrapped(geo, NextSectorStart(geo, f.write)));
    SettleKeeps(geo, f2, g', c');
    SettleFails(f2);
    GapOutcome(geo, f, f2, g);
    StaysReflexive(geo, g);
  }

  /** Every pass away from the end of the partition. */
  lemma PassKeeps(geo: Geometry, f: Flushing, g: History, c: Cursor) returns (g': History, c': Cursor)
    requires FlushInv(geo, f, g, c) && f.err == Ok && f.left > 0 && !AtEnd(geo, f.write)
    ensures FlushInv(geo, FlushPass(geo, f), g', c') && c'.mark == c.mark
    ensures PassOutcome(geo, f, g, FlushPass(geo, f), g')
    ensures g.moved ==> !g'.moved
    ensures KeepsBounds(geo, f.s.lastErased, FlushPass(geo, f).s.lastErased, g, g')
    ensures FlushPass(geo, f).err == Ok && FlushPass(geo, f).left > 0 ==>
              FlushPass(geo, f).s.lastErased == f.s.lastErased && Stays(g, g')
    ensures f.write % geo.sector == 0 && FlushPass(geo, f).err == Ok ==> FlushPass(geo, f).left == 0
  {
    hide *;
    FlushInvParts(geo, f, g, c);
    var q := f.write / geo.sector;
    if q != f.s.lastErased {
      EnteringHere(geo, f.write, f.s.lastErased, g, q);
      g', c' := PassEnters(geo, f, g, c, q);
      EnteringIsSector(geo, f.write, f.s.lastErased, g, q);
      BoundsOfEnters(geo, f.s.lastErased, q, g, g');
    } else {
      StayingWhere(geo, f.write, f.s.lastErased, g);
      if NextChunk(geo, f) > 0 {
        g', c' := PassAdds(geo, f, g, c);
        if f.write % geo.sector == 0 && FlushPass(geo, f).err == Ok {
          RoomAtStart(geo, f.write);
          BatchFitsSector(geo, f, g, c);
          WholeBatchLeavesNothing(geo, f);
        }
      } else {
        if f.write % geo.sector == 0 {
          RoomAtStart(geo, f.write);
          BatchFitsSector(geo, f, g, c);
        }
        g', c' := PassSkips(geo, f, g, c);
      }
      BoundsOfStays(geo, f.s.lastErased, FlushPass(geo, f).s.lastErased, g, g');
    }
  }

  lemma EnteringIsSector(geo: Geometry, write: nat, lastErased: int, g: History, q: nat)
    requires Ranges(geo, g) && Entering(geo, write, lastErased, g, q)
    ensures q < geo.sectors && q != lastErased
  {
    hide Run, WriteOk;
  }

  lemma EnteringHere(geo: Geometry, write: nat, lastErased: int, g: History, q: nat)
    requires Ranges(geo, g) && WriteOk(geo, write, lastErased, g) && !AtEnd(geo, write)
    requires q == write / geo.sector && q != lastErased
    ensures Entering(geo, write, lastErased, g, q)
  {
    hide Run;
  }

  lemma WholeBatchLeavesNothing(geo: Geometry, f: Flushing)
    requires Sized(geo, f.s) && f.written + f.left <= geo.batch && f.err == Ok && NextChunk(geo, f) == f.left > 0
    requires FlushPass(geo, f).err == Ok
    ensures FlushPass(geo, f).left == 0
  {
    hide ChunkFrom, EnterSector, Program, NextChunk;
    PassShape(geo, f);
    hide FlushPass;
  }
}
