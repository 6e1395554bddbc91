/** The hint that any flush saves, whatever comes of it, and what recovery makes of it. */
module FlushHints {
  import opened Bytes
  import opened Entry
  import opened Layout
  import opened Flash
  import opened LoggerSpec
  import opened Invariant
  import opened FlushSteps
  import opened FlushPasses
  import opened Operations
  import opened FlushSuccess
  import opened Replay
  import opened RecoverySpec
  import opened Recovery
  import opened Scanning
  import opened HintRecovery
  import opened Conservation
  import opened Runs
  import opened RunRecovery
  import opened ChainScan
  import opened FreshSector
  import opened SavedHints

  // ---------- Where the hint points ----------

  /** The offset of entry `e` of sector `k`, or the end of the entries of an older sector with room behind them. */
  predicate Placed(geo: Geometry, g: History, off: nat, k: nat, e: nat) {
    && k < geo.sectors == |g.lo| == |g.hi| && g.lo[k] <= e <= g.hi[k] <= |g.raw|
    && off == SectorStart(geo, k) + |Run(g.raw, g.lo[k], e)|
    && (e == g.hi[k] ==> k != g.cur && |Run(g.raw, g.lo[k], e)| < geo.sector)
  }

  lemma PlacedParts(geo: Geometry, g: History, off: nat, k: nat, e: nat)
    requires Placed(geo, g, off, k, e)
    ensures k < geo.sectors == |g.lo| == |g.hi| && g.lo[k] <= e <= g.hi[k] <= |g.raw| && Between(g.raw, g.lo[k], e)
    ensures off == SectorStart(geo, k) + |Run(g.raw, g.lo[k], e)|
    ensures e == g.hi[k] ==> k != g.cur && |Run(g.raw, g.lo[k], e)| < geo.sector
  {
    hide Run, SectorStart;
  }

  /** A pass that fails leaves offset and hint as they were. */
  lemma FailKeepsHint(geo: Geometry, f: Flushing)
    requires Sized(geo, f.s) && f.written + f.left <= geo.batch && f.err == Ok && NextChunk(geo, f) <= f.left
    ensures FlushPass(geo, f).err != Ok ==>
            FlushPass(geo, f).hintOffset == f.hintOffset && FlushPass(geo, f).write == f.write
  {
    hide FlushPass, NextChunk, EnterSector, Program, NextSectorStart;
    PassShape(geo, f);
  }

  lemma PassPlaces(geo: Geometry, f: Flushing, g: History, f': Flushing, g': History)
    requires PassOutcome(geo, f, g, f', g') && f'.err == Ok && f.s.writeOffset == f.write
    ensures f'.hintOffset == f.write && f'.s.writeOffset == f'.write
    ensures !g'.moved ==> ChunkAt(geo, f.write, g, g')
    ensures g'.moved ==> f'.left == f.left
  {
    hide ChunkAt;
  }

  /** A chunk is still where it was written after whatever follows in the same flush. */
  lemma ChunkPlaced(geo: Geometry, off: nat, g: History, g1: History, g2: History, before: int, after: int)
    requires Ranges(geo, g1) && Ranges(geo, g2) && ChunkAt(geo, off, g, g1) && KeepsBounds(geo, before, after, g1, g2)
    requires g2.raw == g1.raw
    ensures Placed(geo, g2, off, g1.cur, g.flushed)
  {
    hide Run;
  }

  /** The gap in front of which the flush gave up its sector. */
  lemma GapPlaced(geo: Geometry, off: nat, g: History, g2: History, q: nat)
    requires Ranges(geo, g) && Ranges(geo, g2) && Enters(geo, g, g2, q) && q != g.cur && g2.raw == g.raw
    requires g2.flushed == g.flushed && Used(geo, g) < geo.sector && off == g.cur * geo.sector + Used(geo, g)
    ensures Placed(geo, g2, off, g.cur, g.flushed)
  {
    hide Run;
  }

  lemma MovedEnters(geo: Geometry, f: Flushing, g: History, c: Cursor) returns (q: nat)
    requires FlushInv(geo, f, g, c) && g.moved
    ensures Entering(geo, f.write, f.s.lastErased, g, q) && q != g.cur
  {
    hide *;
    FlushInvParts(geo, f, g, c);
    q := MovedWhere(geo, f.write, f.s.lastErased, g);
  }

  lemma MovedWhere(geo: Geometry, write: nat, lastErased: int, g: History) returns (q: nat)
    requires Ranges(geo, g) && WriteOk(geo, write, lastErased, g) && g.moved
    ensures Entering(geo, write, lastErased, g, q) && q != g.cur
  {
    hide Run;
    WriteSector(geo, write, lastErased, g);
    q := write / geo.sector;
  }

  /** The loop from a pass on: how it ends, and where its hint points if it fails. */
  lemma {:induction false} LoopPlaces(geo: Geometry, f: Flushing, g: History, c: Cursor)
    returns (g': History, c': Cursor, k: nat, e: nat)
    requires FlushInv(geo, f, g, c) && f.err == Ok && f.left > 0 && f.s.writeOffset == f.write && !g.moved
    ensures Sized(geo, f.s) && f.written + f.left <= geo.batch
    ensures FlushInv(geo, FlushLoop(geo, f), g', c') && SameHistory(g, g') && !g'.moved
    ensures KeepsBounds(geo, f.s.lastErased, FlushLoop(geo, f).s.lastErased, g, g')
    ensures FlushLoop(geo, f).err != Ok ==>
              || (FlushLoop(geo, f).hintOffset == f.hintOffset && FlushLoop(geo, f).write == f.write)
              || Placed(geo, g', FlushLoop(geo, f).hintOffset, k, e)
    decreases f.left
  {
    hide *;
    FlushInvParts(geo, f, g, c);
    LoopUnfolds(geo, f);
    var m := NextChunkLaw(geo, f, g, c);
    FailKeepsHint(geo, f);
    var f1 := FlushPass(geo, f);
    k, e := 0, 0;
    if AtEnd(geo, f.write) {
      c' := PassAtEnd(geo, f, g, c);
      g' := g;
      StuckErr(geo, f, f1);
      StaysReflexive(geo, g);
      SameHistoryReflexive(g);
      BoundsOfStays(geo, f.s.lastErased, f1.s.lastErased, g, g);
    } else {
      var g1, c1 := PassKeeps(geo, f, g, c);
      HistoryOfPass(geo, f, g, f1, g1);
      OutcomeOfPass(geo, f, g, f1, g1);
      if f1.err != Ok || f1.left == 0 {
        g', c' := g1, c1;
        LoopOutcomeParts(f1, g, g1);
      } else {
        PassPlaces(geo, f, g, f1, g1);
        FlushInvParts(geo, f1, g1, c1);
        LoopUnfolds(geo, f1);
        SameHistoryParts(g, g1);
        if g1.moved {
          FlushedBy(geo, g, g1, g.flushed);
          g', c', k, e := AfterSkip(geo, f, g, c, f1, g1, c1);
        } else {
          ChunkShrinks(geo, f, g, f1, g1);
          g', c', k, e := LoopPlaces(geo, f1, g1, c1);
          SameHistoryParts(g1, g');
          SameHistoryTrans(g, g1, g');
          var f2 := FlushLoop(geo, f1);
          FlushInvParts(geo, f2, g', c');
          StaysThenBounds(geo, f.s.lastErased, f2.s.lastErased, g, g1, g');
          if f2.err != Ok && f2.hintOffset == f1.hintOffset {
            k, e := g1.cur, g.flushed;
            ChunkPlaced(geo, f.write, g, g1, g', f1.s.lastErased, f2.s.lastErased);
          }
        }
      }
    }
  }

  lemma SameHistoryTrans(g: History, g1: History, g2: History)
    requires SameHistory(g, g1) && SameHistory(g1, g2)
    ensures SameHistory(g, g2)
  {
  }

  lemma ChunkShrinks(geo: Geometry, f: Flushing, g: History, f': Flushing, g': History)
    requires PassOutcome(geo, f, g, f', g') && f'.err == Ok && !g'.moved
    ensures f'.left < f.left
  {
    hide ChunkAt;
  }

  /** Behind a skipped gap one more pass ends the loop. */
  lemma AfterSkip(geo: Geometry, f: Flushing, g: History, c: Cursor, f1: Flushing, g1: History, c1: Cursor)
    returns (g': History, c': Cursor, k: nat, e: nat)
    requires FlushInv(geo, f, g, c) && FlushInv(geo, f1, g1, c1) && f1.err == Ok && f1.left > 0 && !g.moved && g1.moved
    requires Sized(geo, f1.s) && f1.written + f1.left <= geo.batch && SameHistory(g, g1) && Stays(g, g1)
    requires f1.hintOffset == f.write && f1.s.lastErased == f.s.lastErased && g1.flushed == g.flushed
    ensures FlushInv(geo, FlushLoop(geo, f1), g', c') && SameHistory(g, g') && !g'.moved
    ensures KeepsBounds(geo, f.s.lastErased, FlushLoop(geo, f1).s.lastErased, g, g')
    ensures FlushLoop(geo, f1).err != Ok ==> Placed(geo, g', FlushLoop(geo, f1).hintOffset, k, e)
  {
    hide *;
    FlushInvParts(geo, f, g, c);
    FlushInvParts(geo, f1, g1, c1);
    LoopUnfolds(geo, f1);
    var m := NextChunkLaw(geo, f1, g1, c1);
    FailKeepsHint(geo, f1);
    var q := MovedEnters(geo, f1, g1, c1);
    g', c' := PassEnters(geo, f1, g1, c1, q);
    var f2 := FlushPass(geo, f1);
    HistoryOfPass(geo, f1, g1, f2, g');
    SameHistoryTrans(g, g1, g');
    EnteringStart(geo, f1.write, f1.s.lastErased, g1, q);
    BoundsOfEnters(geo, f1.s.lastErased, q, g1, g');
    StaysThenBounds(geo, f.s.lastErased, q, g, g1, g');
    k, e := g1.cur, g1.flushed;
    if f2.err != Ok {
      FlushInvParts(geo, f2, g', c');
      SameHistoryParts(g1, g');
      FailKeepsFlushed(geo, f1, g1, f2, g');
      GapWhere(geo, f.write, f.s.lastErased, g, g1, f1.write);
      GapPlaced(geo, f.write, g1, g', q);
    }
  }

  lemma FailKeepsFlushed(geo: Geometry, f: Flushing, g: History, f': Flushing, g': History)
    requires PassOutcome(geo, f, g, f', g') && f'.err != Ok
    ensures g'.flushed == g.flushed
  {
    hide ChunkAt;
  }

  lemma GapWhere(geo: Geometry, write: nat, lastErased: int, g: History, g1: History, write1: nat)
    requires Ranges(geo, g) && Ranges(geo, g1) && WriteOk(geo, write, lastErased, g) && !g.moved && Stays(g, g1)
    requires g1.moved && WriteOk(geo, write1, lastErased, g1) && g1.flushed == g.flushed && g1.raw == g.raw
    ensures g1.cur < |g1.lo| == |g1.hi| && Between(g1.raw, g1.lo[g1.cur], g1.hi[g1.cur])
    ensures write == g1.cur * geo.sector + Used(geo, g1) && Used(geo, g1) < geo.sector
  {
    hide Run;
  }

  lemma LastChunkPlaced(geo: Geometry, off: nat, g: History, first: nat)
    requires Ranges(geo, g) && LastChunk(geo, off, g, first)
    ensures Placed(geo, g, off, g.cur, first)
  {
    hide Run;
  }

  lemma SameLastId(geo: Geometry, s: State)
    requires Sized(geo, s)
    ensures FlushStart(s).s.lastId == s.lastId && FlushStart(s).hintOffset == s.writeOffset
  {
  }

  /** The hint after a flush of a non-empty batch, whatever comes of it. */
  lemma FlushPlaces(geo: Geometry, s: State, g: History, c: Cursor) returns (g': History, c': Cursor, k: nat, e: nat)
    requires Inv(geo, s, g, c) && s.batchLen > 0 && Sized(geo, s)
    ensures var s' := FlushOp(geo, s).s;
            && Inv(geo, s', g', c')
            && (s'.hint.writeOffset == s'.writeOffset || Placed(geo, g', s'.hint.writeOffset, k, e))
            && s'.hint.lastId == s'.lastId
  {
    hide *;
    InvParts(geo, s, g, c);
    var r := FlushOp(geo, s);
    var first;
    g', c', first := FlushKeeps(geo, s, g, c);
    FlushEffectHint(geo, r, g, g', first);
    if r.err == Ok {
      InvParts(geo, r.s, g', c');
      k, e := g'.cur, first;
      LastChunkPlaced(geo, r.s.hint.writeOffset, g', first);
    } else {
      FlushBegins(geo, s, g, c);
      StartFields(s);
      SameLastId(geo, s);
      FlushOpUnfolds(geo, s);
      g', c', k, e := LoopPlaces(geo, FlushStart(s), g, c);
      var f := FlushLoop(geo, FlushStart(s));
      FlushInvParts(geo, f, g', c');
      SameHistoryParts(g, g');
      FlushEnds(geo, f, g', c');
      EndedParts(geo, f, r.s);
    }
  }

  lemma FlushEffectHint(geo: Geometry, r: FlushResult, g: History, g': History, first: nat)
    requires FlushEffect(geo, r, g, g', first)
    ensures r.err == Ok ==> LastChunk(geo, r.s.hint.writeOffset, g', first)
    ensures r.s.hint.lastId == r.s.lastId
  {
    hide LastChunk;
  }

  lemma EndedParts(geo: Geometry, f: Flushing, s': State)
    requires Ended(geo, f, s')
    ensures s'.hint.writeOffset == f.hintOffset && s'.writeOffset == f.write
  {
  }

  // ---------- What stands there ----------

  lemma {:induction false} EntryIsMet(geo: Geometry, g: History, buf: seq<Byte>, a: nat, e: nat, b: nat, i: nat)
    requires geo.align >= 1 && EntriesAt(geo, g, buf, a, b) && a <= e <= i < b <= |g.raw| == |g.payloads|
    requires Scannable(geo.align, buf) && Between(g.raw, a, e) && Between(g.raw, a, i)
    ensures Meets(geo.align, buf, |Run(g.raw, a, e)|, |Run(g.raw, a, i)|)
    decreases i - e
  {
    hide *;
    EntryAtParts(geo, g, buf, a, b, e);
    InOrder(g.raw, a, e + 1);
    var pos, at := |Run(g.raw, a, e)|, |Run(g.raw, a, i)|;
    MeetsOne(geo.align, buf, pos, |g.raw[e]|, Id(g, e), g.payloads[e], at);
    if e < i {
      EntryIsMet(geo, g, buf, a, e + 1, b, i);
    }
  }

  /** An entry of the history is one that a reader finds. */
  lemma EntryIsFound(geo: Geometry, mem: seq<Byte>, g: History, off: nat, k: nat, e: nat)
    requires EntryThere(geo, g, off, k, e) && geo.Valid() && |mem| == geo.Size() && geo.sector > 0
    requires g.cur < |g.lo| && g.lo[g.cur] <= g.flushed && Ranges(geo, g) && LogOk(geo, g) && MemOk(geo, mem, g)
    ensures OnEntry(geo, mem, off)
  {
    hide *;
    EntryThereParts(geo, g, off, k, e);
    GeoIsPositive(geo);
    var pos := |Run(g.raw, g.lo[k], e)|;
    HeaderThere(geo, mem, g, off, k, e, pos);
    SectorStartIs(geo, k);
    SectorOfOffset(geo, k, pos);
    OnEntryIs(geo, mem, off, k);
    SectorIsContent(geo, mem, g, k);
    SectorEntries(geo, g, k);
    InOrder(g.raw, g.lo[k], g.lo[k]);
    RunEmpty(g.raw, g.lo[k]);
    EntryIsMet(geo, g, Content(geo, g, k), g.lo[k], g.lo[k], ReadEnd(g, k), e);
  }

  lemma BlankIsUnusable(geo: Geometry, mem: seq<Byte>, hint: Hint)
    requires |mem| == geo.Size() && hint.writeOffset < |mem| && mem[hint.writeOffset] == ERASED
    ensures !HintUsable(geo, mem, hint)
  {
    hide WordAt;
    if hint.writeOffset + HEADER_SIZE <= geo.Size() && WordAt(mem, hint.writeOffset) == HEADER_MAGIC {
      HeaderMagicBytes(mem, hint.writeOffset);
    }
  }

  /** In front of a skipped gap the flash is erased. */
  lemma GapIsBlank(geo: Geometry, mem: seq<Byte>, g: History, hint: Hint, k: nat)
    requires Ranges(geo, g) && MemOk(geo, mem, g) && |mem| == geo.Size() && k < geo.sectors == |g.lo| == |g.hi|
    requires k != g.cur
    requires Between(g.raw, g.lo[k], g.hi[k]) && |Run(g.raw, g.lo[k], g.hi[k])| < geo.sector
    requires hint.writeOffset == SectorStart(geo, k) + |Run(g.raw, g.lo[k], g.hi[k])|
    ensures !HintUsable(geo, mem, hint)
  {
    hide *;
    var d := |Run(g.raw, g.lo[k], g.hi[k])|;
    SectorStartIs(geo, k);
    ContentBehind(geo, g, k);
    ContentSize(geo, g, k);
    ReadInSector(geo, mem, g, k, d, 1);
    OneByte(mem, hint.writeOffset, Content(geo, g, k), d);
    BlankIsUnusable(geo, mem, hint);
  }

  /** A hint on the write offset itself, inside the current sector, where no entry arrived whole. */
  lemma HintAtEnd(geo: Geometry, s: State, g: History, c: Cursor, hint: Hint, pos: nat)
    requires geo.Valid() && |s.dev.mem| == geo.Size() && g.cur < |g.lo| && g.cur < geo.sectors && hint.lastId < WORD
    requires HintUsable(geo, s.dev.mem, hint) && g.flushed <= g.tornTo <= |g.raw| == |g.payloads|
    requires g.flushed == Whole(g) && Between(g.raw, g.lo[g.cur], g.flushed)
    requires pos == |Run(g.raw, g.lo[g.cur], g.flushed)|
    requires pos < geo.sector && hint.writeOffset == s.writeOffset == SectorStart(geo, g.cur) + pos && Inv(geo, s, g, c)
    ensures Sized(geo, s)
    ensures Recover(geo, s.dev.mem, hint) ==
            if StrayAhead(geo, s) then StrayRead else Recovered(hint.writeOffset, hint.lastId)
  {
    hide *;
    InvParts(geo, s, g, c);
    var mem, off := s.dev.mem, hint.writeOffset;
    FlashParts(geo, mem, s.writeOffset, s.lastErased, g);
    StrayLaw(geo, s, g, c);
    RecoverFromHint(geo, mem, hint);
    SectorStartIs(geo, g.cur);
    TwoSectors(geo);
    SectorIsContent(geo, mem, g, g.cur);
    ScanTail(geo, g, g.cur * geo.sector, off, hint.lastId);
    RingScanUnfolds(geo, mem, g.cur, pos, 0, off, hint.lastId);
    RoomOfTorn(geo, mem, g, hint, pos);
    FoundIs(geo, mem, g.cur, pos, off, hint.lastId, Scan(off, hint.lastId, true, Strays(g)));
  }

  /** Where something arrived there is room for a header; where nothing did, the hint is not usable. */
  lemma RoomOfTorn(geo: Geometry, mem: seq<Byte>, g: History, hint: Hint, pos: nat)
    requires Ranges(geo, g) && LogOk(geo, g) && MemOk(geo, mem, g) && |mem| == geo.Size() && g.cur < geo.sectors
    requires g.cur < |g.lo| && g.flushed <= g.tornTo <= |g.raw| == |g.payloads| && g.flushed == Whole(g)
    requires Between(g.raw, g.lo[g.cur], g.flushed) && pos == |Run(g.raw, g.lo[g.cur], g.flushed)| < geo.sector
    requires hint.writeOffset == SectorStart(geo, g.cur) + pos && HintUsable(geo, mem, hint)
    ensures pos + HEADER_SIZE <= geo.sector
  {
    hide *;
    CurrentBuffer(geo, g);
    SectorStartIs(geo, g.cur);
    ContentSize(geo, g, g.cur);
    if g.torn == 0 {
      NothingCutAway(g);
      BlankTail(geo, g, pos);
      ReadInSector(geo, mem, g, g.cur, pos, 1);
      OneByte(mem, hint.writeOffset, Content(geo, g, g.cur), pos);
      BlankIsUnusable(geo, mem, hint);
    } else {
      TornTakesRoom(geo, g);
    }
  }

  lemma NothingCutAway(g: History)
    requires g.flushed <= g.tornTo <= |g.raw| == |g.payloads| && g.torn == 0
    ensures CutBytes(g) == 0
  {
    hide Run, Whole;
  }

  lemma TornTakesRoom(geo: Geometry, g: History)
    requires Ranges(geo, g) && g.torn > 0 && g.cur < |g.lo| && Between(g.raw, g.lo[g.cur], g.flushed)
    ensures |Run(g.raw, g.lo[g.cur], g.flushed)| + HEADER_SIZE <= geo.sector
  {
    RunPositive(g.raw, g.flushed, g.tornTo);
    RunFirst(g.raw, g.flushed, g.tornTo);
    hide Run;
  }

  // ---------- Recovery ----------

  /** What recovery from the hint of the last flush returns. */
  function HintedRecovery(geo: Geometry, s: State, hint: Hint): Recovered
    requires Sized(geo, s) && geo.sector > 0 && HeadSector(geo, s) < geo.sectors && hint.lastId < WORD
    requires NO_HINT.lastId < WORD
  {
    hide Recover, HintUsable, OnEntry, HintResult, StrayAhead, HeadSector;
    if !HintUsable(geo, s.dev.mem, hint) then Recover(geo, s.dev.mem, NO_HINT)
    else if OnEntry(geo, s.dev.mem, hint.writeOffset) then HintResult(geo, s, hint)
    else if StrayAhead(geo, s) then StrayRead
    else Recovered(hint.writeOffset, hint.lastId)
  }

  lemma HintedIs(geo: Geometry, s: State, hint: Hint)
    requires Sized(geo, s) && geo.sector > 0 && HeadSector(geo, s) < geo.sectors && hint.lastId < WORD
    requires NO_HINT.lastId < WORD
    ensures geo.Valid() && |s.dev.mem| == geo.Size()
    ensures !HintUsable(geo, s.dev.mem, hint) ==> HintedRecovery(geo, s, hint) == Recover(geo, s.dev.mem, NO_HINT)
    ensures HintUsable(geo, s.dev.mem, hint) && OnEntry(geo, s.dev.mem, hint.writeOffset) ==>
              HintedRecovery(geo, s, hint) == HintResult(geo, s, hint)
    ensures HintUsable(geo, s.dev.mem, hint) && !OnEntry(geo, s.dev.mem, hint.writeOffset) ==>
              HintedRecovery(geo, s, hint) ==
              if StrayAhead(geo, s) then StrayRead else Recovered(hint.writeOffset, hint.lastId)
  {
    hide Recover, HintUsable, OnEntry, HintResult, StrayAhead, HeadSector;
  }

  lemma UnusableIsNone(geo: Geometry, mem: seq<Byte>, hint: Hint)
    requires geo.Valid() && |mem| == geo.Size() && hint.lastId < WORD && !HintUsable(geo, mem, hint)
    ensures NO_HINT.lastId < WORD && Recover(geo, mem, hint) == Recover(geo, mem, NO_HINT)
  {
    hide Linear, HeadSearch, SectorIds, WordAt;
  }

  lemma UsableIsInside(geo: Geometry, mem: seq<Byte>, hint: Hint)
    requires |mem| == geo.Size() && HintUsable(geo, mem, hint)
    ensures hint.writeOffset != 0 && hint.writeOffset < geo.Size()
  {
    hide WordAt;
  }

  /** The start of the sector behind a full one: an older entry stands there, or nothing. */
  lemma HintAtNext(geo: Geometry, mem: seq<Byte>, g: History, hint: Hint)
    requires Ranges(geo, g) && Ring(geo, g) && LogOk(geo, g) && MemOk(geo, mem, g) && geo.Valid() && |mem| == geo.Size()
    requires g.cur < geo.sectors == |g.lo| == |g.hi| && g.lo[g.cur] <= g.flushed <= g.tornTo <= |g.raw| == |g.payloads|
    requires HintUsable(geo, mem, hint) && hint.writeOffset == SectorStart(geo, g.cur) + geo.sector && geo.sector > 0
    ensures OnEntry(geo, mem, hint.writeOffset)
  {
    hide *;
    UsableIsInside(geo, mem, hint);
    SectorStartIs(geo, g.cur);
    SectorInside(geo, g.cur);
    NextInRing(geo, g.cur, hint.writeOffset);
    var k := g.cur + 1;
    SectorStartIs(geo, k);
    OlderIs(geo, g, k);
    RingParts(geo, g);
    var h := g.hi[k];
    if g.lapped {
      OlderContinues(geo, g, k);
      InOrder(g.raw, g.lo[k], g.hi[k]);
      InOrder(g.raw, g.lo[k], g.lo[k]);
      RunEmpty(g.raw, g.lo[k]);
      ReadEndIs(g, k);
      EntryThereIs(geo, g, hint.writeOffset, k, g.lo[k]);
      EntryIsFound(geo, mem, g, hint.writeOffset, k, g.lo[k]);
    } else {
      EmptySectorBytes(geo, mem, g, k);
      BlankIsUnusable(geo, mem, hint);
    }
  }

  lemma NextInRing(geo: Geometry, k: nat, off: nat)
    requires k < geo.sectors && off == k * geo.sector + geo.sector < geo.Size()
    ensures k + 1 < geo.sectors && off == (k + 1) * geo.sector
  {
    assert (k + 1) * geo.sector == off;
  }

  /** Recovery from a hint where a flush can leave one, from the state behind the flash. */
  lemma PlacedHint(geo: Geometry, s: State, g: History, c: Cursor, hint: Hint, k: nat, e: nat)
    requires geo.Valid() && |s.dev.mem| == geo.Size() && geo.sector > 0 && hint.lastId < WORD
    requires hint.writeOffset == s.writeOffset || Placed(geo, g, hint.writeOffset, k, e)
    requires Inv(geo, s, g, c)
    ensures Sized(geo, s) && HeadSector(geo, s) == g.cur < geo.sectors && NO_HINT.lastId < WORD
    ensures Recover(geo, s.dev.mem, hint) == HintedRecovery(geo, s, hint)
  {
    hide *;
    InvParts(geo, s, g, c);
    var mem, off := s.dev.mem, hint.writeOffset;
    FlashParts(geo, mem, s.writeOffset, s.lastErased, g);
    HeadInUseLaw(geo, s, g);
    HeadHoldsLaw(geo, s, g, c);
    NoHintIsUnusable(geo, mem);
    HintedIs(geo, s, hint);
    if !HintUsable(geo, mem, hint) {
      UnusableIsNone(geo, mem, hint);
    } else if OnEntry(geo, mem, off) {
      UsableIsInside(geo, mem, hint);
      HintOnEntry(geo, s, g, c, hint);
    } else {
      WriteIs(geo, s.writeOffset, s.lastErased, g);
      CurrentBuffer(geo, g);
      InOrder(g.raw, g.lo[g.cur], g.flushed);
      SectorStartIs(geo, g.cur);
      var pos := |Run(g.raw, g.lo[g.cur], g.flushed)|;
      if Placed(geo, g, off, k, e) {
        PlacedIsFound(geo, mem, g, hint, k, e);
        assert false;
      } else if pos == geo.sector {
        HintAtNext(geo, mem, g, hint);
        assert false;
      } else if g.flushed < Whole(g) {
        ReadEndIs(g, g.cur);
        EntryThereIs(geo, g, off, g.cur, g.flushed);
        EntryIsFound(geo, mem, g, off, g.cur, g.flushed);
        assert false;
      } else {
        HintAtEnd(geo, s, g, c, hint, pos);
      }
    }
  }

  /** A place of the history is an entry to a reader, or no header stands there. */
  lemma PlacedIsFound(geo: Geometry, mem: seq<Byte>, g: History, hint: Hint, k: nat, e: nat)
    requires Placed(geo, g, hint.writeOffset, k, e) && geo.Valid() && |mem| == geo.Size() && geo.sector > 0
    requires g.cur < |g.lo| && g.lo[g.cur] <= g.flushed <= g.tornTo <= |g.raw| == |g.payloads|
    requires g.cur < geo.sectors && g.flushed <= Whole(g) && g.cur < |g.hi| && g.hi[g.cur] == g.flushed
    requires Ranges(geo, g) && LogOk(geo, g) && MemOk(geo, mem, g) && HintUsable(geo, mem, hint)
    ensures OnEntry(geo, mem, hint.writeOffset)
  {
    hide *;
    PlacedParts(geo, g, hint.writeOffset, k, e);
    ReadEndIs(g, k);
    if e < g.hi[k] {
      EntryThereIs(geo, g, hint.writeOffset, k, e);
      EntryIsFound(geo, mem, g, hint.writeOffset, k, e);
    } else {
      GapIsBlank(geo, mem, g, hint, k);
    }
  }

  /**
   * After any run, one more flush, whatever comes of it: what recovery makes of the hint that it saved. A hint in front
   * of a skipped gap, or where no header arrived, is not usable; one on an entry leads as far as any such hint does;
   * one on the bytes of a cut entry stays there with the newest id of the batch, unless the cut strays.
   */
  lemma HintOfFlush(geo: Geometry, batch: seq<Byte>, lastId: nat, ops: seq<Op>)
    requires Startable(geo, batch, lastId, ops) && geo.Valid() && geo.sector > 0
    requires Reached(geo, batch, lastId, ops).s.batchLen > 0
    ensures var s := FlushOp(geo, Reached(geo, batch, lastId, ops).s).s;
            && |s.dev.mem| == geo.Size() && HeadSector(geo, s) < geo.sectors && s.hint.lastId < WORD
               && NO_HINT.lastId < WORD
            && Recover(geo, s.dev.mem, s.hint) == HintedRecovery(geo, s, s.hint)
  {
    hide *;
    StartableParts(geo, batch, lastId, ops);
    var g, c, picks := RunHistory(geo, batch, lastId, ops);
    var x := Reached(geo, batch, lastId, ops);
    GoodParts(geo, x, g, c, picks);
    var g', c', k, e := FlushPlaces(geo, x.s, g, c);
    var s := FlushOp(geo, x.s).s;
    InvParts(geo, s, g', c');
    LastIdIsWord(geo, s);
    PlacedHint(geo, s, g', c', s.hint, k, e);
  }

  lemma LastIdIsWord(geo: Geometry, s: State)
    requires Sized(geo, s)
    ensures s.lastId < WORD
  {
  }
}
