/**
 * Runs that reach the failing side of results stated as an exact condition. They hold for every geometry, and every
 * payload whose entry fits it; sectors of 4096 bytes and batches of 1024 are one case.
 */
module Examples {
  import opened Bytes
  import opened Entry
  import opened Layout
  import opened LoggerSpec
  import opened Invariant
  import opened FlushSteps
  import opened FlushPasses
  import opened Operations
  import opened FlushSuccess
  import opened Replay
  import opened RecoverySpec
  import opened Scanning
  import opened Runs
  import opened RunRecovery
  import opened HintRecovery
  import opened BootFlush
  import opened TornFlush
  import opened SmallRuns

  /** The device of the unit tests, with a batch of the size configured there. */
  const UNIT_TEST: Geometry := Geometry(4, 4096, 4, 1024)

  lemma UnitTestIs()
    ensures UNIT_TEST.Valid() && UNIT_TEST.align == 4 && UNIT_TEST.sector == 4096 && UNIT_TEST.batch == 1024
    ensures HEADER_SIZE == 12
  {
  }

  lemma PlanFrom(geo: Geometry, p: seq<Byte>, e: nat, k: nat)
    requires geo.Valid() && p != [] && OVERHEAD + |p| <= geo.batch && e == EntrySize(|p|, geo.align)
    requires 0 < e <= geo.batch
    requires k >= 1 && k * e <= geo.sector < k * e + e
    ensures Plan(geo, p, e, k)
  {
    hide EntrySize;
  }

  lemma MultiplesOfFour(x: nat, r: nat, m: nat)
    requires r % 4 == 0 && x <= r < x + 4 && x <= 4 * m < x + 4
    ensures r == 4 * m
  {
  }

  lemma SizeOf(length: nat, e: nat, m: nat)
    requires length < 1000 && e == 4 * m && OVERHEAD + length <= e < OVERHEAD + length + 4
    ensures EntrySize(length, 4) == e
  {
    hide EntrySize, AlignUp, BitClear, Pow2;
    PowerOfFour();
    EntrySizeBounds(length, 4);
    AlignUpIsLeastMultiple(OVERHEAD + length, 2, m);
    MultiplesOfFour(OVERHEAD + length, EntrySize(length, 4), m);
  }

  /** Payloads of 238 bytes fill such sectors to the last byte. */
  lemma UnitTestPlan(p: seq<Byte>)
    requires |p| == 238
    ensures Plan(UNIT_TEST, p, 256, 16) && 16 * 256 == UNIT_TEST.sector
  {
    UnitTestIs();
    OverheadIs();
    SizeOf(238, 256, 64);
    hide *;
    PlanFrom(UNIT_TEST, p, 256, 16);
  }

  /** Payloads of 239 bytes leave a gap at the end of each. */
  lemma UnitTestPlanWithGap(p: seq<Byte>)
    requires |p| == 239
    ensures Plan(UNIT_TEST, p, 260, 15) && 15 * 260 + HEADER_SIZE <= UNIT_TEST.sector
  {
    UnitTestIs();
    OverheadIs();
    SizeOf(239, 260, 65);
    hide *;
    PlanFrom(UNIT_TEST, p, 260, 15);
  }

  lemma OverheadIs()
    ensures OVERHEAD == 18
  {
  }

  lemma PowerOfFour()
    ensures Pow2(2) == 4
  {
    assert Pow2(1) == 2;
  }

  // ---------- The dead end ----------

  /** Where entries fill sectors to the last byte, rounds get to the end of the partition. */
  lemma DeadEndIsReached(geo: Geometry, batch: seq<Byte>, lastId: nat, p: seq<Byte>, e: nat, k: nat)
    requires Plan(geo, p, e, k) && k * e == geo.sector && |batch| == geo.batch && lastId < WORD
    ensures geo.sectors >= 1 && Startable(geo, batch, lastId, Rounds(p, Count(k, geo.sectors - 1, k)))
    ensures Reached(geo, batch, lastId, Rounds(p, Count(k, geo.sectors - 1, k))).s.writeOffset == geo.Size()
  {
    hide *;
    PlanParts(geo, p, e, k);
    TwoSectors(geo);
    var j := geo.sectors - 1;
    var g, c := Filled(geo, batch, lastId, p, e, k, j, k);
    TrailParts(geo, p, e, k, Reached(geo, batch, lastId, Rounds(p, Count(k, j, k))).s, g, c, j, k);
    RoomBehind(geo, p, e, k, j, k);
    LastEnd(geo, j);
  }

  lemma LastEnd(geo: Geometry, j: nat)
    requires j + 1 == geo.sectors
    ensures (j + 1) * geo.sector == geo.Size()
  {
  }

  // ---------- A hint that falls short ----------

  /** One entry flushed into the first sector. */
  lemma OneFlushed(geo: Geometry, batch: seq<Byte>, lastId: nat, p: seq<Byte>, e: nat, k: nat)
    returns (g: History, c: Cursor)
    requires Plan(geo, p, e, k) && |batch| == geo.batch && lastId < WORD
    ensures Startable(geo, batch, lastId, Rounds(p, 1)) && Sized(geo, Reached(geo, batch, lastId, Rounds(p, 1)).s)
    ensures var x := Reached(geo, batch, lastId, Rounds(p, 1));
            && Inv(geo, x.s, g, c) && !x.s.dev.failNext && x.s.batchLen == 0 && x.s.replayOffset == 0
            && x.s.writeOffset == e && g.payloads == [p] == x.written && g.flushed == |g.raw| && g.torn == 0
               && g.cur == 0
            && g.base == lastId && geo.sectors == |g.lo| && g.lo[0] == 0
  {
    hide *;
    PlanParts(geo, p, e, k);
    CountIs(k, 0, 1);
    CountIs(k, 0, 0);
    BehindIs(geo, e, 0, 1);
    OneMoreCopy(p, 0);
    TwoSectors(geo);
    g, c := Filled(geo, batch, lastId, p, e, k, 0, 1);
    StartableParts(geo, batch, lastId, Rounds(p, 1));
    TrailParts(geo, p, e, k, Reached(geo, batch, lastId, Rounds(p, 1)).s, g, c, 0, 1);
  }

  lemma RoomInFirst(geo: Geometry, off: nat)
    requires geo.Valid() && off < geo.sector
    ensures Room(geo, off) == geo.sector - off && off < geo.Size() && off / geo.sector == 0 && off % geo.sector == off
  {
    SectorInside(geo, 0);
    SectorOfOffset(geo, 0, off);
  }

  /** A write at the end of a run, by its state. */
  lemma WriteOfRun(geo: Geometry, batch: seq<Byte>, lastId: nat, ops: seq<Op>, p: seq<Byte>)
    requires Startable(geo, batch, lastId, ops) && |p| < WORD
    ensures Startable(geo, batch, lastId, ops + [OpWrite(p)]) && Sized(geo, Reached(geo, batch, lastId, ops).s)
    ensures Reached(geo, batch, lastId, ops + [OpWrite(p)]).s == WriteOp(geo, Reached(geo, batch, lastId, ops).s, p).s
  {
    hide *;
    StartableParts(geo, batch, lastId, ops);
    StepIs(geo, Reached(geo, batch, lastId, ops), p, 0);
    OneMore(geo, batch, lastId, ops, OpWrite(p));
  }

  /**
   * One entry flushed, then two more in one flush: the hint it saves points at the first of the two, and a boot from it
   * comes back to that offset, two entries short of the write offset.
   */
  lemma HintFallsShort(geo: Geometry, batch: seq<Byte>, lastId: nat, p: seq<Byte>, e: nat, k: nat)
    requires Plan(geo, p, e, k) && |batch| == geo.batch && lastId < WORD && 2 * e <= geo.batch && 3 * e <= geo.sector
    ensures var ops := Rounds(p, 1) + [OpWrite(p)] + [OpWrite(p)];
            && Startable(geo, batch, lastId, ops)
            && var r := FlushOp(geo, Reached(geo, batch, lastId, ops).s);
               && r.err == Ok && r.s.writeOffset == 3 * e && r.s.hint.lastId < WORD
               && geo.Valid() && |r.s.dev.mem| == geo.Size()
               && Recover(geo, r.s.dev.mem, r.s.hint) == Recovered(e, r.s.lastId)
  {
    hide *;
    PlanParts(geo, p, e, k);
    var ops := Rounds(p, 1);
    var g, c := OneFlushed(geo, batch, lastId, p, e, k);
    var s := Reached(geo, batch, lastId, ops).s;
    var g1 := WriteRound(geo, p, e, k, s, g, c);
    WriteOfRun(geo, batch, lastId, ops, p);
    var s1 := WriteOp(geo, s, p).s;
    InvParts(geo, s1, g1, c);
    var g2 := WriteRound(geo, p, e, k, s1, g1, c);
    WriteOfRun(geo, batch, lastId, ops + [OpWrite(p)], p);
    var s2 := WriteOp(geo, s1, p).s;
    InvParts(geo, s2, g2, c);
    RoomInFirst(geo, e);
    FlushInOneChunk(geo, s2, g2, c);
    var g', c', first := FlushedHistory(geo, s2, g2, c);
    var t := FlushOp(geo, s2).s;
    InvParts(geo, t, g', c');
    IdIsWord(g', g'.flushed - 1);
    HintedEntry(geo, t.dev.mem, g', first, t.hint.writeOffset);
    LengthOfRaw(geo, g', first);
    assert g'.payloads == [p, p, p];
    HintLaw(geo, t.dev.mem, t.writeOffset, t.lastErased, g', t.hint, first);
    OneEntryIs(geo, t.dev.mem, e, 3 * e);
  }

  // ---------- Entries lost at a boot ----------

  lemma OneFits(geo: Geometry, p: seq<Byte>, e: nat, k: nat)
    requires Plan(geo, p, e, k)
    ensures geo.align >= 1 && FitTogether(geo, 0, [p]) && forall i :: 0 <= i < |[p]| ==> |[p][i]| < WORD
  {
    PlanParts(geo, p, e, k);
    hide EntrySize, Plan;
    assert [p][1..] == [];
  }

  lemma InsideIsInUse(geo: Geometry, s: State)
    requires geo.Valid() && 0 < s.writeOffset < geo.sector
    ensures geo.sector > 0 && HeadInUse(geo, s) && s.writeOffset % geo.sector != 0
    ensures HeadSector(geo, s) == 0 && HeadEnd(geo, s) == geo.sector
  {
    SectorOfOffset(geo, 0, s.writeOffset);
  }

  /**
   * An entry written and flushed, a reboot without a hint, another entry written and flushed: every call succeeds, and
   * the first entry, which recovery had found, is gone from its sector.
   */
  lemma EntryLostAtBoot(geo: Geometry, batch: seq<Byte>, lastId: nat, p: seq<Byte>, e: nat, k: nat, buffer: seq<Byte>,
                        replayOffset: nat)
    requires Plan(geo, p, e, k) && |batch| == |buffer| == geo.batch && lastId < WORD && 2 * e <= geo.sector
    ensures Startable(geo, batch, lastId, Rounds(p, 1)) && geo.Valid() && |p| < WORD && e <= geo.Size()
    ensures var s := Reached(geo, batch, lastId, Rounds(p, 1)).s;
            && |s.dev.mem| == geo.Size() && Recover(geo, s.dev.mem, NO_HINT) == Recovered(e, s.lastId)
               && s.lastId < WORD
            && 0 < e && HeadLog(geo, s.dev.mem, e) != []
            && var r := FlushOp(geo, Refilled(geo, s, buffer, replayOffset, [p]));
               r.err == Ok && |r.s.dev.mem| == geo.Size() && HeadLog(geo, r.s.dev.mem, e) == []
  {
    hide *;
    PlanParts(geo, p, e, k);
    var ops := Rounds(p, 1);
    var g, c := OneFlushed(geo, batch, lastId, p, e, k);
    var s := Reached(geo, batch, lastId, ops).s;
    InvParts(geo, s, g, c);
    RoomInFirst(geo, e);
    InsideIsInUse(geo, s);
    HeadInUseLaw(geo, s, g);
    RecoveryOfFlushed(geo, s, g, c);
    HeadHoldsIs(geo, s);
    OneFits(geo, p, e, k);
    FirstFlushAfterBoot(geo, batch, lastId, ops, buffer, replayOffset, [p]);
    var h := RefilledIs(geo, s, buffer, replayOffset, [p]);
    var b := Refilled(geo, s, buffer, replayOffset, [p]);
    RefilledSize(geo, s, buffer, replayOffset, p, e, k);
    FirstFlushSucceedsIn(geo, b, h);
    FirstSkipsIs(geo, e, p);
    SizedBatch(geo, FlushOp(geo, b).s);
  }

  /** With everything flushed and nothing torn recovery is exact. */
  lemma RecoveryOfFlushed(geo: Geometry, s: State, g: History, c: Cursor)
    requires Inv(geo, s, g, c) && g.torn == 0 && g.flushed == |g.raw| && g.cur < |g.lo| && g.lo[g.cur] < g.flushed
    ensures geo.Valid() && |s.dev.mem| == geo.Size() && NO_HINT.lastId < WORD && s.lastId < WORD
    ensures Recover(geo, s.dev.mem, NO_HINT) == Recovered(s.writeOffset, s.lastId)
  {
    hide *;
    InvParts(geo, s, g, c);
    FlashParts(geo, s.dev.mem, s.writeOffset, s.lastErased, g);
    NoHintIsUnusable(geo, s.dev.mem);
    WholeRecovery(geo, s.dev.mem, s.writeOffset, s.lastErased, g, NO_HINT);
    NewestId(g, s.lastId);
  }

  lemma NewestId(g: History, lastId: nat)
    requires g.flushed >= 1 && g.flushed == |g.raw| && lastId == (g.base + |g.raw|) % WORD
    ensures Id(g, g.flushed - 1) == lastId && lastId < WORD
  {
  }

  lemma RefilledSize(geo: Geometry, s: State, buffer: seq<Byte>, replayOffset: nat, p: seq<Byte>, e: nat, k: nat)
    requires Plan(geo, p, e, k) && Sized(geo, s) && |buffer| == geo.batch && NO_HINT.lastId < WORD
    requires |s.dev.mem| == geo.Size() && geo.Valid() && Recover(geo, s.dev.mem, NO_HINT).Recovered?
    requires Recover(geo, s.dev.mem, NO_HINT).lastId < WORD && |p| < WORD
    ensures Refilled(geo, s, buffer, replayOffset, [p]).batchLen == e
  {
    hide *;
    PlanParts(geo, p, e, k);
    OneFits(geo, p, e, k);
    var r := Recover(geo, s.dev.mem, NO_HINT);
    var b0 := BootedWith(s.dev, buffer, r, replayOffset);
    BootedWithIs(s.dev, buffer, r, replayOffset);
    BootedHolds(geo, s.dev, buffer, r.writeOffset, replayOffset, r.lastId);
    RefilledUnfolds(geo, s, buffer, replayOffset, [p]);
    WriteAllUnfolds(geo, b0, [p]);
    FitUnfolds(geo, b0, [p]);
    AppendParts(geo, b0, p);
    assert [p][1..] == [];
    WriteAllUnfolds(geo, Append(geo, b0, p), []);
  }

  // ---------- A length field cut short ----------

  /** With nothing torn the rest of the sector behind the write offset is erased. */
  lemma BlankAhead(geo: Geometry, s: State, g: History, c: Cursor, k: nat)
    requires Inv(geo, s, g, c) && g.torn == 0 && Sized(geo, s) && geo.sector > 0
    requires s.writeOffset <= k < HeadEnd(geo, s)
    ensures k < |s.dev.mem| && s.dev.mem[k] == ERASED
  {
    hide *;
    InvParts(geo, s, g, c);
    FlashParts(geo, s.dev.mem, s.writeOffset, s.lastErased, g);
    HeadInUseLaw(geo, s, g);
    HeadEndIs(geo, s);
    WriteIs(geo, s.writeOffset, s.lastErased, g);
    NothingTorn(g);
    NothingCut(g);
    CurrentBuffer(geo, g);
    var d := k - g.cur * geo.sector;
    BlankTail(geo, g, d);
    ReadInSector(geo, s.dev.mem, g, g.cur, d, 1);
    SectorScannable(geo, Content(geo, g, g.cur));
    OneByte(s.dev.mem, k, Content(geo, g, g.cur), d);
  }

  lemma NothingCut(g: History)
    requires g.flushed <= g.tornTo <= |g.raw| == |g.payloads| && g.torn == 0
    ensures CutBytes(g) == 0
  {
    hide Run, Whole;
  }

  /** Inside a sector the logger remembers having erased it. */
  lemma InsideIsErased(geo: Geometry, s: State, g: History, c: Cursor)
    requires Inv(geo, s, g, c) && geo.sector > 0 && s.writeOffset % geo.sector != 0
    ensures s.lastErased == s.writeOffset / geo.sector
  {
    hide *;
    InvParts(geo, s, g, c);
    ErasedInside(geo, s.writeOffset, s.lastErased, g);
  }

  lemma ErasedInside(geo: Geometry, write: nat, lastErased: int, g: History)
    requires Ranges(geo, g) && WriteOk(geo, write, lastErased, g) && !g.moved && write % geo.sector != 0
    ensures lastErased == write / geo.sector
  {
    RunPositive(g.raw, g.lo[g.cur], g.hi[g.cur]);
    hide Run;
    WriteSector(geo, write, lastErased, g);
    SectorOfOffset(geo, geo.sectors, 0);
  }

  lemma SpliceBytes(mem: seq<Byte>, off: nat, src: seq<Byte>, k: nat)
    requires off + |src| <= |mem| && off + |src| <= k < |mem|
    ensures Splice(mem, off, src)[off..off + |src|] == src && Splice(mem, off, src)[k] == mem[k]
  {
  }

  lemma CutsIs(geo: Geometry, s: State)
    requires geo.Valid() && s.batchLen > 0 && s.writeOffset < geo.Size() && geo.sector > 0
    requires s.dev.failNext && s.dev.failAfter < NextChunk(geo, FlushStart(s))
    requires s.writeOffset / geo.sector == s.lastErased
    requires |s.dev.mem| == geo.Size()
    ensures CutsFirstChunk(geo, s) && ChunkStart(geo, s) == s.writeOffset && Opening(geo, s, s.writeOffset) == s.dev.mem
  {
    hide NextChunk, NextSectorStart;
  }

  lemma CutResultParts(geo: Geometry, s: State, r: FlushResult, at: nat, k: nat)
    requires CutResult(geo, s, r, at, k)
    ensures geo.Valid() && |s.dev.mem| == geo.Size() && at + k <= geo.Size() && k <= s.batchLen <= |s.batch|
    ensures r.s.dev.mem == Splice(Opening(geo, s, at), at, s.batch[..k])
    ensures r.s.batch == s.batch && r.s.batchLen == s.batchLen && r.s.writeOffset == at
  {
    hide Opening, Splice;
  }

  lemma LastByteDiffers(mem: seq<Byte>, off: nat, batch: seq<Byte>, raw: seq<Byte>, n: nat)
    requires 0 < n <= |raw| <= |batch| && off + n <= |mem| && batch[0..0 + |raw|] == raw
    requires mem[off + n - 1] == ERASED && raw[n - 1] != ERASED
    ensures mem[off..off + n] != batch[0..0 + n]
  {
    assert mem[off..off + n][n - 1] == mem[off + n - 1];
    assert batch[0..0 + n][n - 1] == batch[0..0 + |raw|][n - 1];
  }

  lemma CutAtNine(mem: seq<Byte>, off: nat, batch: seq<Byte>, length: nat)
    requires off + HEADER_SIZE <= |mem| && HEADER_SIZE <= |batch| && WordAt(batch, 8) == length && CutStrays(length, 9)
    requires mem[off..off + 9] == batch[..9] && mem[off + 9] == mem[off + 10] == mem[off + 11] == ERASED
    ensures CutInLength(mem, off, batch, 0)
  {
    hide WordAt;
    assert batch[0..0 + 9] == batch[..9];
    assert CutAt(mem, off, batch, 0, 9);
  }

  lemma NineIsShort(geo: Geometry, p: seq<Byte>, e: nat, k: nat)
    requires Plan(geo, p, e, k)
    ensures HEADER_SIZE == 12 && OVERHEAD == 18 && e >= OVERHEAD + |p| > 18
  {
    BatchIsSmall(geo);
    FitsNoWrap(|p|, geo.align, geo.batch);
    EntrySizeBounds(|p|, geo.align);
    hide EntrySize, AlignUp;
  }

  /** The batch starts with an entry. */
  lemma LengthInBatch(geo: Geometry, s: State, g: History, c: Cursor)
    requires Inv(geo, s, g, c) && Sized(geo, s) && g.flushed < |g.raw| == |g.payloads|
    ensures HEADER_SIZE <= |s.batch| && WordAt(s.batch, 8) == |g.payloads[g.flushed]| && OVERHEAD <= s.batchLen
  {
    hide *;
    InvParts(geo, s, g, c);
    RunEmpty(g.raw, g.flushed);
    BatchEntry(geo, s, g, g.flushed);
    EntryLengthAt(s.batch, 0, g.raw[g.flushed], Id(g, g.flushed), g.payloads[g.flushed], geo.align);
  }

  /** A flush of a batch that fits the room has all of it for its first chunk. */
  lemma WholeChunk(geo: Geometry, s: State, g: History, c: Cursor)
    requires Inv(geo, s, g, c) && geo.Valid() && s.batchLen <= Room(geo, s.writeOffset)
    ensures NextChunk(geo, FlushStart(s)) == s.batchLen
  {
    hide *;
    InvParts(geo, s, g, c);
    FlushBegins(geo, s, g, c);
    StartFields(s);
    var f := FlushStart(s);
    FlushInvParts(geo, f, g, c);
    var m := NextChunkLaw(geo, f, g, c);
    FittingLaw(g.raw, g.flushed, Room(geo, f.write), |g.raw|);
  }

  /** A fault is injected at the end of a run, and the batch is flushed. */
  lemma FaultAndFlush(geo: Geometry, batch: seq<Byte>, lastId: nat, ops: seq<Op>, after: nat)
    requires Startable(geo, batch, lastId, ops)
    ensures Startable(geo, batch, lastId, ops + [OpFault(after)])
    ensures Startable(geo, batch, lastId, ops + [OpFault(after)] + [OpFlush])
    ensures var s := Reached(geo, batch, lastId, ops).s;
            var s1 := s.(dev := s.dev.(failNext := true, failAfter := after));
            && Reached(geo, batch, lastId, ops + [OpFault(after)]).s == s1 && Sized(geo, s1)
            && Reached(geo, batch, lastId, ops + [OpFault(after)] + [OpFlush]).s == FlushOp(geo, s1).s
  {
    hide *;
    StartableParts(geo, batch, lastId, ops);
    ZeroIsWord();
    StepIs(geo, Reached(geo, batch, lastId, ops), [], after);
    OneMore(geo, batch, lastId, ops, OpFault(after));
    StartableParts(geo, batch, lastId, ops + [OpFault(after)]);
    StepIs(geo, Reached(geo, batch, lastId, ops + [OpFault(after)]), [], after);
    OneMore(geo, batch, lastId, ops + [OpFault(after)], OpFlush);
  }

  /** A flush with a fault pending inside its first chunk, which goes to the sector last erased. */
  lemma CutInFirst(geo: Geometry, s: State, g: History, c: Cursor, after: nat)
    returns (s1: State)
    requires Inv(geo, s, g, c) && Sized(geo, s) && geo.Valid() && |s.dev.mem| == geo.Size()
    requires 0 < s.writeOffset < geo.sector && after < s.batchLen <= geo.sector - s.writeOffset
    ensures s1 == s.(dev := s.dev.(failNext := true, failAfter := after)) && Sized(geo, s1) && Inv(geo, s1, g, c)
    ensures after <= |s.batch| && s.writeOffset + after <= |s.dev.mem|
    ensures var t := FlushOp(geo, s1).s;
            && t.dev.mem == Splice(s.dev.mem, s.writeOffset, s.batch[..after])
            && t.batch == s.batch && t.batchLen == s.batchLen && t.writeOffset == s.writeOffset
  {
    hide *;
    s1 := s.(dev := s.dev.(failNext := true, failAfter := after));
    FaultKeeps(geo, s, g, c, after);
    InvParts(geo, s1, g, c);
    RoomInFirst(geo, s.writeOffset);
    InsideIsInUse(geo, s1);
    InsideIsErased(geo, s1, g, c);
    WholeChunk(geo, s1, g, c);
    CutsIs(geo, s1);
    CutFlush(geo, s1, g, c);
    CutResultParts(geo, s1, FlushOp(geo, s1), s.writeOffset, after);
  }

  /**
   * A second flush cut after nine bytes, one byte into the length field: the length reads as four gigabytes, and
   * recovery goes out of its buffer.
   */
  lemma CutLengthStrays(geo: Geometry, batch: seq<Byte>, lastId: nat, p: seq<Byte>, e: nat, k: nat)
    requires Plan(geo, p, e, k) && |batch| == geo.batch && lastId < WORD && 2 * e <= geo.sector && CutStrays(|p|, 9)
    ensures var ops := Rounds(p, 1) + [OpWrite(p)] + [OpFault(9)] + [OpFlush];
            && geo.Valid() && Startable(geo, batch, lastId, ops)
            && |Reached(geo, batch, lastId, ops).s.dev.mem| == geo.Size() && NO_HINT.lastId < WORD
            && Recover(geo, Reached(geo, batch, lastId, ops).s.dev.mem, NO_HINT) == StrayRead
  {
    hide *;
    PlanParts(geo, p, e, k);
    NineIsShort(geo, p, e, k);
    var ops := Rounds(p, 1);
    var g, c := OneFlushed(geo, batch, lastId, p, e, k);
    var s := Reached(geo, batch, lastId, ops).s;
    InvParts(geo, s, g, c);
    RoomInFirst(geo, e);
    BlankCells(geo, s, g, c, e, p);
    var g1 := WriteRound(geo, p, e, k, s, g, c);
    WriteOfRun(geo, batch, lastId, ops, p);
    var s1 := WriteOp(geo, s, p).s;
    InvParts(geo, s1, g1, c);
    FaultAndFlush(geo, batch, lastId, ops + [OpWrite(p)], 9);
    var s2 := CutInFirst(geo, s1, g1, c, 9);
    InvParts(geo, s2, g1, c);
    AfterCut(geo, batch, lastId, ops + [OpWrite(p)] + [OpFault(9)] + [OpFlush], FlushOp(geo, s2).s, s2, g1, c, p, e);
  }

  /** The cells in question are erased as long as nothing was torn. */
  lemma BlankCells(geo: Geometry, s: State, g: History, c: Cursor, e: nat, p: seq<Byte>)
    requires Inv(geo, s, g, c) && g.torn == 0 && Sized(geo, s) && geo.Valid() && s.writeOffset == e
    requires 18 < OVERHEAD + |p| <= e && 2 * e <= geo.sector
    ensures e + OVERHEAD + |p| <= |s.dev.mem|
    ensures s.dev.mem[e + 9] == s.dev.mem[e + 10] == s.dev.mem[e + 11] == ERASED
    ensures s.dev.mem[e + OVERHEAD + |p| - 1] == ERASED
  {
    hide *;
    InsideIsInUse(geo, s);
    BlankAhead(geo, s, g, c, e + 9);
    BlankAhead(geo, s, g, c, e + 10);
    BlankAhead(geo, s, g, c, e + 11);
    BlankAhead(geo, s, g, c, e + OVERHEAD + |p| - 1);
  }

  lemma StraysFrom(geo: Geometry, s: State)
    requires Sized(geo, s) && ArrivedFrom(geo, s, 0) == 0 && OVERHEAD <= s.batchLen && geo.sector > 0
    requires s.writeOffset + OVERHEAD <= HeadEnd(geo, s) && CutInLength(s.dev.mem, s.writeOffset, s.batch, 0)
    ensures StrayAhead(geo, s)
  {
    hide *;
    StrayAheadIs(geo, s, 0);
  }

  lemma AfterCut(geo: Geometry, batch: seq<Byte>, lastId: nat, all: seq<Op>, t: State, s: State, g: History, c: Cursor,
                 p: seq<Byte>, e: nat)
    requires Startable(geo, batch, lastId, all) && Reached(geo, batch, lastId, all).s == t && geo.Valid()
    requires Inv(geo, s, g, c) && Sized(geo, s) && g.payloads == [p, p] && g.flushed == 1 && CutStrays(|p|, 9)
    requires e > 18 && OVERHEAD == 18 && HEADER_SIZE == 12 && 2 * e <= geo.sector && e >= OVERHEAD + |p|
    requires |s.dev.mem| == geo.Size() && s.batchLen == e && s.writeOffset == e
    requires 9 <= |s.batch| && e + 9 <= |s.dev.mem| && t.dev.mem == Splice(s.dev.mem, e, s.batch[..9])
    requires t.batch == s.batch && t.batchLen == e && t.writeOffset == e
    requires e + OVERHEAD + |p| <= |s.dev.mem|
    requires s.dev.mem[e + 9] == s.dev.mem[e + 10] == s.dev.mem[e + 11] == ERASED
    requires s.dev.mem[e + OVERHEAD + |p| - 1] == ERASED
    ensures |t.dev.mem| == geo.Size() && NO_HINT.lastId < WORD && Recover(geo, t.dev.mem, NO_HINT) == StrayRead
  {
    hide *;
    StartableParts(geo, batch, lastId, all);
    InvParts(geo, s, g, c);
    LengthInBatch(geo, s, g, c);
    var mem, src := s.dev.mem, s.batch[..9];
    SpliceBytes(mem, e, src, e + 9);
    SpliceBytes(mem, e, src, e + 10);
    SpliceBytes(mem, e, src, e + 11);
    SpliceBytes(mem, e, src, e + OVERHEAD + |p| - 1);
    CutAtNine(t.dev.mem, e, t.batch, |p|);
    var g', c', picks := RunHistory(geo, batch, lastId, all);
    GoodParts(geo, Reached(geo, batch, lastId, all), g', c', picks);
    InsideIsInUse(geo, t);
    ArrivesNot(geo, t, s, g, c, e, p);
    StraysFrom(geo, t);
    HeadHoldsIs(geo, t);
    NoHintIsUnusable(geo, t.dev.mem);
    TornRecovery(geo, batch, lastId, all);
  }

  /** What counts as arrived depends on batch, flash and write offset alone. */
  lemma ArrivesNot(geo: Geometry, t: State, s: State, g: History, c: Cursor, e: nat, p: seq<Byte>)
    requires Inv(geo, s, g, c) && Sized(geo, s) && Sized(geo, t) && geo.sector > 0
    requires g.flushed < |g.raw| == |g.payloads| && g.payloads[g.flushed] == p
    requires t.batch == s.batch && t.batchLen == s.batchLen && t.writeOffset == e && e + OVERHEAD + |p| <= |t.dev.mem|
    requires t.dev.mem[e + OVERHEAD + |p| - 1] == ERASED
    ensures ArrivedFrom(geo, t, 0) == 0
  {
    hide *;
    InvParts(geo, s, g, c);
    var i := g.flushed;
    RunEmpty(g.raw, i);
    BatchEntry(geo, s, g, i);
    LastTailByte(g.raw[i], Id(g, i), g.payloads[i], geo.align);
    EntryLengthAt(s.batch, 0, g.raw[i], Id(g, i), g.payloads[i], geo.align);
    SizedBatch(geo, t);
    ArrivedUnfolds(geo, t, 0, |p|);
    EntryIsPositive(p);
    LastByteDiffers(t.dev.mem, e, t.batch, g.raw[i], OVERHEAD + |p|);
  }
}
