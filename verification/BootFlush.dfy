/** The first flush of a booted logger: what becomes of the sector with the newest entries. */
module BootFlush {
  import opened Bytes
  import opened Entry
  import opened Layout
  import opened Flash
  import opened LoggerSpec
  import opened Invariant
  import opened FlushSteps
  import opened FlushPasses
  import opened Operations
  import opened RecoverySpec
  import opened Recovery
  import opened Scanning
  import opened Conservation
  import opened Runs
  import opened RunRecovery
  import opened Losses
  import opened AnyFlush
  import opened FreshSector

  // ---------- The first flush after a boot ----------

  /** A booted logger with a batch of whole entries, on any flash: the loop it starts. */
  predicate Rebooted(geo: Geometry, s: State, g: History) {
    && Sized(geo, s) && s.lastErased == -1 && s.batchLen > 0
    && LogOk(geo, g) && g.flushed <= |g.raw| && s.batch[..s.batchLen] == Run(g.raw, g.flushed, |g.raw|)
  }

  lemma RebootedLoop(geo: Geometry, s: State, g: History)
    requires Rebooted(geo, s, g)
    ensures Loaded(geo, FlushStart(s), g) && Sized(geo, s) && geo.Valid() && geo.sector > 0 && s.batchLen > 0
    ensures FlushStart(s).s == s && FlushStart(s).write == s.writeOffset && FlushStart(s).left == s.batchLen
    ensures s.lastErased == -1
  {
    hide LogOk, Run;
  }

  /** The sector of the newest entry, told from the offset behind it. */
  function SectorBefore(geo: Geometry, writeOffset: nat): nat
    requires geo.sector > 0 && writeOffset > 0
  {
    (writeOffset - 1) / geo.sector
  }

  lemma SectorBeforeIs(geo: Geometry, writeOffset: nat)
    requires geo.Valid() && 0 < writeOffset <= geo.Size()
    ensures var h := SectorBefore(geo, writeOffset);
            && h < geo.sectors
            && (writeOffset % geo.sector != 0 ==> writeOffset / geo.sector == h)
            && (writeOffset % geo.sector == 0 ==>
               writeOffset / geo.sector == h + 1 && writeOffset == (h + 1) * geo.sector)
  {
    OffsetInRing(geo, writeOffset - 1);
    var h, d := SectorBefore(geo, writeOffset), (writeOffset - 1) % geo.sector;
    assert writeOffset == h * geo.sector + d + 1;
    hide SectorBefore;
    if d + 1 < geo.sector {
      SectorOfOffset(geo, h, d + 1);
    } else {
      SectorInside(geo, h);
      SectorOfOffset(geo, h + 1, 0);
    }
  }

  /** The entries a reader finds in the sector of the newest entry. */
  function HeadLog(geo: Geometry, mem: seq<Byte>, writeOffset: nat): seq<Record>
    requires geo.Valid() && |mem| == geo.Size() && 0 < writeOffset <= geo.Size()
  {
    SmallSector(geo);
    SectorBeforeIs(geo, writeOffset);
    SectorLog(geo.align, Sector(geo, mem, SectorBefore(geo, writeOffset)), 0)
  }

  lemma BlankSectorLog(geo: Geometry, mem: seq<Byte>, writeOffset: nat)
    requires geo.Valid() && |mem| == geo.Size() && 0 < writeOffset <= geo.Size()
    requires FirstBlank(geo, mem, SectorBefore(geo, writeOffset))
    ensures HeadLog(geo, mem, writeOffset) == []
  {
    hide Validate, SectorLog;
    SmallSector(geo);
    SectorBeforeIs(geo, writeOffset);
    var h := SectorBefore(geo, writeOffset);
    SectorInside(geo, h);
    var buf := Sector(geo, mem, h);
    assert buf[0] == ERASED;
    BlankValidates(buf, 0);
    LogEnds(geo.align, buf, 0);
  }

  lemma SameHeadLog(geo: Geometry, s: State, s': State, q: nat, writeOffset: nat)
    requires Only(geo, s, s', q) && geo.Valid() && |s.dev.mem| == |s'.dev.mem| == geo.Size()
    requires 0 < writeOffset <= geo.Size()
    requires q != SectorBefore(geo, writeOffset)
    ensures HeadLog(geo, s'.dev.mem, writeOffset) == HeadLog(geo, s.dev.mem, writeOffset)
  {
    hide SectorLog, Sector;
    SectorBeforeIs(geo, writeOffset);
  }

  /** Does the first flush leave the sector of the newest entry alone? */
  predicate LeavesHead(geo: Geometry, s: State)
    requires geo.Valid()
  {
    s.writeOffset % geo.sector == 0 || NextChunk(geo, FlushStart(s)) == 0
  }

  lemma LeavesHeadIs(geo: Geometry, s: State)
    requires geo.Valid()
    ensures geo.sector > 0
    ensures LeavesHead(geo, s) <==> s.writeOffset % geo.sector == 0 || NextChunk(geo, FlushStart(s)) == 0
  {
    hide NextChunk;
  }

  /** Recovery left the offset on a sector boundary: the flush goes to the next sector. */
  lemma FlushFromBoundary(geo: Geometry, s: State, g: History)
    requires Rebooted(geo, s, g) && geo.Valid() && 0 < s.writeOffset <= geo.Size() && s.writeOffset % geo.sector == 0
    requires Sized(geo, s)
    ensures Only(geo, s, FlushOp(geo, s).s, SectorBefore(geo, s.writeOffset) + 1)
  {
    hide *;
    RebootedLoop(geo, s, g);
    FlushOpUnfolds(geo, s);
    SectorBeforeIs(geo, s.writeOffset);
    var f, h := FlushStart(s), SectorBefore(geo, s.writeOffset);
    if h + 1 < geo.sectors {
      LoopFromStart(geo, f, g, h + 1);
      EndSameMem(geo, f, s, h + 1);
    } else {
      var m := NextTakes(geo, f, g);
      LoopUnfolds(geo, f);
      PassShape(geo, f);
      PushedParts(geo, f);
      SectorInside(geo, h);
      EndOfRing(geo, f.write, h);
      RoomAtStart(geo, f.write);
      EndWriteFields(geo, Pushed(geo, f), f.left);
      SettleFails(WriteChunk(geo, Pushed(geo, f), f.left));
      EndMem(geo, FlushLoop(geo, f));
      SizedBatch(geo, s);
      OnlySame(geo, s, FlushOp(geo, s).s, h + 1);
    }
  }

  lemma EndSameMem(geo: Geometry, f: Flushing, s: State, q: nat)
    requires Sized(geo, f.s) && f.written + f.left <= geo.batch && f.err == Ok && Only(geo, s, FlushLoop(geo, f).s, q)
    ensures Only(geo, s, FlushEnd(geo, FlushLoop(geo, f)), q)
  {
    hide SameOutside, FlushLoop;
  }

  /** The first entry does not fit: the flush skips the rest of the sector. */
  lemma FlushPastGap(geo: Geometry, s: State, g: History) returns (q: nat)
    requires Rebooted(geo, s, g) && geo.Valid() && 0 < s.writeOffset <= geo.Size() && s.writeOffset % geo.sector != 0
    requires NextChunk(geo, FlushStart(s)) == 0 && Sized(geo, s)
    ensures q != SectorBefore(geo, s.writeOffset) && Only(geo, s, FlushOp(geo, s).s, q)
  {
    hide *;
    RebootedLoop(geo, s, g);
    FlushOpUnfolds(geo, s);
    SectorBeforeIs(geo, s.writeOffset);
    q := AfterGap(geo, FlushStart(s), g);
    EndSameMem(geo, FlushStart(s), s, q);
  }

  /** The first entry fits: its sector is erased, with what recovery found there. */
  lemma FlushOverHead(geo: Geometry, s: State, g: History)
    requires Rebooted(geo, s, g) && geo.Valid() && 0 < s.writeOffset <= geo.Size() && s.writeOffset % geo.sector != 0
    requires NextChunk(geo, FlushStart(s)) > 0 && Sized(geo, s)
    ensures FirstBlank(geo, FlushOp(geo, s).s.dev.mem, SectorBefore(geo, s.writeOffset))
  {
    hide *;
    RebootedLoop(geo, s, g);
    FlushOpUnfolds(geo, s);
    SectorBeforeIs(geo, s.writeOffset);
    var f, h := FlushStart(s), SectorBefore(geo, s.writeOffset);
    LoopUnfolds(geo, f);
    StartOfSector(geo, s.writeOffset);
    InsideSector(geo, s.writeOffset);
    var m := PassWrites(geo, f, g, h);
    var f' := FlushPass(geo, f);
    if f'.err == Ok && f'.left > 0 {
      LoopLeavesBlank(geo, f', g.(flushed := m), h);
    }
    EndMem(geo, FlushLoop(geo, f));
  }

  lemma InsideSector(geo: Geometry, off: nat)
    requires geo.Valid() && off % geo.sector != 0
    ensures off / geo.sector * geo.sector < off
  {
  }

  lemma EndMem(geo: Geometry, f: Flushing)
    requires Sized(geo, f.s) && f.written + f.left <= geo.batch
    ensures FlushEnd(geo, f).dev == f.s.dev
  {
  }

  /**
   * A booted logger remembers no erased sector. On any flash, its first flush, whatever comes of it, keeps the entries
   * of the sector with the newest entry if and only if recovery ended on a sector boundary or the first entry of the
   * batch does not fit behind it. Otherwise that sector loses all its entries.
   */
  lemma FirstFlushKeepsHeadIff(geo: Geometry, s: State, g: History)
    requires Rebooted(geo, s, g) && geo.Valid() && Sized(geo, s) && 0 < s.writeOffset <= geo.Size()
    requires |s.dev.mem| == geo.Size()
    ensures |FlushOp(geo, s).s.dev.mem| == geo.Size()
    ensures HeadLog(geo, FlushOp(geo, s).s.dev.mem, s.writeOffset) ==
            if LeavesHead(geo, s) then HeadLog(geo, s.dev.mem, s.writeOffset) else []
  {
    hide *;
    LeavesHeadIs(geo, s);
    var s', h := FlushOp(geo, s).s, SectorBefore(geo, s.writeOffset);
    SizedBatch(geo, s');
    if s.writeOffset % geo.sector == 0 {
      FlushFromBoundary(geo, s, g);
      SameHeadLog(geo, s, s', h + 1, s.writeOffset);
    } else if NextChunk(geo, FlushStart(s)) == 0 {
      var q := FlushPastGap(geo, s, g);
      SameHeadLog(geo, s, s', q, s.writeOffset);
    } else {
      FlushOverHead(geo, s, g);
      BlankSectorLog(geo, s'.dev.mem, s.writeOffset);
    }
  }

  // ---------- After any run and a reboot ----------

  /** Non-empty payloads whose entries fit the batch together, `used` bytes of which are taken. */
  predicate FitTogether(geo: Geometry, used: nat, payloads: seq<seq<Byte>>)
    requires geo.align >= 1
    decreases |payloads|
  {
    payloads == []
    || (&& payloads[0] != [] && OVERHEAD + |payloads[0]| <= geo.batch
        && used + EntrySize(|payloads[0]|, geo.align) <= geo.batch
        && FitTogether(geo, used + EntrySize(|payloads[0]|, geo.align), payloads[1..]))
  }

  lemma FitUnfolds(geo: Geometry, s: State, payloads: seq<seq<Byte>>)
    requires Sized(geo, s) && geo.Valid() && FitTogether(geo, s.batchLen, payloads) && payloads != []
    ensures |payloads[0]| > 0 && |payloads[0]| < WORD && EntryFits(geo, s, payloads[0])
    ensures FitTogether(geo, s.batchLen + EntrySize(|payloads[0]|, geo.align), payloads[1..])
    ensures WriteOp(geo, s, payloads[0]) == FlushResult(Append(geo, s, payloads[0]), Ok, DevOk)
  {
    hide FitTogether, EntrySize, Append, FlushOp;
    FitFirst(geo, s.batchLen, payloads);
    BatchIsSmall(geo);
    FitsNoWrap(|payloads[0]|, geo.align, geo.batch);
    EntrySizeAtLeast(|payloads[0]|, geo.align);
  }

  lemma EntrySizeAtLeast(length: nat, align: nat)
    requires NoWrap(length, align)
    ensures OVERHEAD + length <= EntrySize(length, align)
  {
    EntrySizeBounds(length, align);
  }

  lemma FitFirst(geo: Geometry, used: nat, payloads: seq<seq<Byte>>)
    requires geo.align >= 1 && FitTogether(geo, used, payloads) && payloads != []
    ensures payloads[0] != [] && OVERHEAD + |payloads[0]| <= geo.batch
    ensures used + EntrySize(|payloads[0]|, geo.align) <= geo.batch
    ensures FitTogether(geo, used + EntrySize(|payloads[0]|, geo.align), payloads[1..])
  {
    hide EntrySize;
  }

  /** A batch of whole entries, and the id in RAM behind them. */
  predicate Holds(geo: Geometry, s: State, g: History) {
    && Sized(geo, s) && LogOk(geo, g) && g.flushed <= |g.raw| && s.batch[..s.batchLen] == Run(g.raw, g.flushed, |g.raw|)
    && s.lastId == (g.base + |g.raw|) % WORD && g.base < WORD
  }

  lemma HoldsParts(geo: Geometry, s: State, g: History)
    ensures Holds(geo, s, g) <==>
            && Sized(geo, s) && LogOk(geo, g) && g.flushed <= |g.raw|
               && s.batch[..s.batchLen] == Run(g.raw, g.flushed, |g.raw|)
            && s.lastId == (g.base + |g.raw|) % WORD && g.base < WORD
    ensures Holds(geo, s, g) ==> |g.raw| == |g.payloads| && geo.Valid()
  {
    hide Run;
  }

  lemma AppendHolds(geo: Geometry, s: State, g: History, payload: seq<Byte>) returns (g': History)
    requires Holds(geo, s, g) && Sized(geo, s) && |payload| > 0 && EntryFits(geo, s, payload)
    ensures Holds(geo, Append(geo, s, payload), g') && g' == Extended(g, Appended(geo, s, payload), payload)
    ensures |Appended(geo, s, payload)| == EntrySize(|payload|, geo.align)
  {
    hide *;
    HoldsParts(geo, s, g);
    SizedBatch(geo, s);
    var r := Appended(geo, s, payload);
    g' := Extended(g, r, payload);
    AppendedIsEntry(geo, s, payload);
    AppendParts(geo, s, payload);
    NextId(g.base, |g.raw|, s.lastId);
    IdIs(g, |g.raw|);
    SmallEntry(geo, s, payload);
    ExtendedLog(geo, g, r, payload);
    ExtendedParts(g, r, payload);
    InOrder(g.raw, g.flushed, |g.raw|);
    RunOfExtended(g.raw, r, g.flushed);
    HoldsParts(geo, Append(geo, s, payload), g');
  }

  lemma WriteAllUnfolds(geo: Geometry, s: State, payloads: seq<seq<Byte>>)
    requires Sized(geo, s) && forall i :: 0 <= i < |payloads| ==> |payloads[i]| < WORD
    ensures payloads == [] ==> WriteAll(geo, s, payloads) == s
    ensures payloads != [] ==>
              |payloads[0]| < WORD && (forall i :: 0 <= i < |payloads[1..]| ==> |payloads[1..][i]| < WORD)
              && Sized(geo, WriteOp(geo, s, payloads[0]).s)
              && WriteAll(geo, s, payloads) == WriteAll(geo, WriteOp(geo, s, payloads[0]).s, payloads[1..])
  {
    hide WriteOp, Sized;
  }

  /** Nothing but the batch and the id in RAM differs. */
  predicate OnlyBatch(s: State, s': State) {
    s' == s.(batch := s'.batch, batchLen := s'.batchLen, lastId := s'.lastId) && s'.batchLen >= s.batchLen
  }

  /** Writing payloads that fit together. */
  lemma {:induction false} WriteAllHolds(geo: Geometry, s: State, g: History, payloads: seq<seq<Byte>>)
    returns (g': History)
    requires Holds(geo, s, g) && Sized(geo, s) && geo.Valid() && FitTogether(geo, s.batchLen, payloads)
    requires forall i :: 0 <= i < |payloads| ==> |payloads[i]| < WORD
    ensures Holds(geo, WriteAll(geo, s, payloads), g') && OnlyBatch(s, WriteAll(geo, s, payloads))
    ensures g'.flushed == g.flushed && g.raw <= g'.raw
    ensures payloads != [] ==> |g'.raw| > |g.raw| && |g'.raw[|g.raw|]| == EntrySize(|payloads[0]|, geo.align)
    decreases |payloads|
  {
    hide *;
    WriteAllUnfolds(geo, s, payloads);
    OnlyBatchReflexive(s);
    g' := g;
    if payloads != [] {
      FitUnfolds(geo, s, payloads);
      var g1 := AppendHolds(geo, s, g, payloads[0]);
      ExtendedParts(g, Appended(geo, s, payloads[0]), payloads[0]);
      AppendParts(geo, s, payloads[0]);
      var s1 := Append(geo, s, payloads[0]);
      g' := WriteAllHolds(geo, s1, g1, payloads[1..]);
      OnlyBatchTrans(s, s1, WriteAll(geo, s, payloads));
      assert g'.raw[|g.raw|] == g1.raw[|g.raw|];
    }
  }

  lemma OnlyBatchReflexive(s: State)
    ensures OnlyBatch(s, s)
  {
  }

  lemma OnlyBatchTrans(s: State, s1: State, s2: State)
    requires s1 == s.(batch := s1.batch, batchLen := s1.batchLen, lastId := s1.lastId) && s1.batchLen >= s.batchLen
    requires OnlyBatch(s1, s2)
    ensures OnlyBatch(s, s2)
  {
  }

  /** A chunk is taken if and only if the first entry fits the room. */
  lemma FirstEntryDecides(geo: Geometry, f: Flushing, g: History)
    requires Loaded(geo, f, g) && geo.Valid() && g.flushed < |g.raw| && |g.raw[g.flushed]| > 0
    ensures NextChunk(geo, f) == 0 <==> |g.raw[g.flushed]| > Room(geo, f.write)
  {
    hide *;
    LoadedParts(geo, f, g);
    var m := NextTakes(geo, f, g);
    var a := g.flushed;
    InOrder(g.raw, a, a + 1);
    InOrder(g.raw, a, m);
    RunFirst(g.raw, a, a + 1);
    InOrder(g.raw, a + 1, a + 1);
    RunEmpty(g.raw, a + 1);
    RunEmpty(g.raw, a);
    FittingLaw(g.raw, a, Room(geo, f.write), a + 1);
    if m > a {
      RunAdds(g.raw, a, a + 1, m);
    }
  }

  /** The history of a batch that is still empty. */
  function NoEntries(lastId: nat): History {
    History(lastId, [], [], 0, [], [], 0, false, false, 0, 0)
  }

  lemma BootedHolds(geo: Geometry, dev: Device, batch: seq<Byte>, writeOffset: nat, replayOffset: nat, lastId: nat)
    requires geo.Valid() && |dev.mem| == geo.Size() && |batch| == geo.batch && lastId < WORD
    ensures Holds(geo, Booted(dev, batch, writeOffset, replayOffset, lastId), NoEntries(lastId))
    ensures NoEntries(lastId).raw == [] && NoEntries(lastId).flushed == 0
    ensures var s := Booted(dev, batch, writeOffset, replayOffset, lastId);
            Sized(geo, s) && s.batchLen == 0 && s.lastErased == -1 && s.dev == dev && s.writeOffset == writeOffset
  {
    RunEmpty([], 0);
    hide Run;
    assert batch[..0] == [];
  }

  lemma HoldsRebooted(geo: Geometry, s: State, g: History)
    requires Holds(geo, s, g) && s.lastErased == -1 && g.flushed < |g.raw|
    ensures Rebooted(geo, s, g) && |g.raw[g.flushed]| > 0
  {
    HoldsParts(geo, s, g);
    EntryIs(geo, g, g.flushed);
    EntryReaches(g.raw[g.flushed], Id(g, g.flushed), g.payloads[g.flushed], geo.align);
    EntryIsPositive(g.payloads[g.flushed]);
    RunFirst(g.raw, g.flushed, |g.raw|);
    hide Run, LogOk, IsEntry;
  }

  /** What a boot finds on the flash of a reachable logger. */
  lemma BootFinds(geo: Geometry, s: State, g: History, c: Cursor)
    requires Inv(geo, s, g, c) && Sized(geo, s) && geo.Valid() && |s.dev.mem| == geo.Size() && HeadHolds(geo, s)
    requires Recover(geo, s.dev.mem, NO_HINT).Recovered?
    ensures var r := Recover(geo, s.dev.mem, NO_HINT);
            0 < r.writeOffset <= geo.Size() && r.lastId < WORD && HeadLog(geo, s.dev.mem, r.writeOffset) != []
  {
    hide *;
    InvParts(geo, s, g, c);
    FlashParts(geo, s.dev.mem, s.writeOffset, s.lastErased, g);
    HeadInUseLaw(geo, s, g);
    HeadHoldsLaw(geo, s, g, c);
    NoHintIsUnusable(geo, s.dev.mem);
    RecoveryLaw(geo, s.dev.mem, s.writeOffset, s.lastErased, g, NO_HINT);
    ExpectedIs(s.writeOffset, g);
    IdIsWord(g, Whole(g) - 1);
    WriteIs(geo, s.writeOffset, s.lastErased, g);
    WholeInSector(geo, g);
    CurrentBuffer(geo, g);
    BetweenWhole(g);
    RunAdds(g.raw, g.lo[g.cur], g.flushed, Whole(g));
    EntriesNotEmpty(geo, g);
    RunPositive(g.raw, g.lo[g.cur], Whole(g));
    SectorInside(geo, g.cur);
    var off := Recover(geo, s.dev.mem, NO_HINT).writeOffset;
    SectorBeforeIs(geo, off);
    HeadLogOf(geo, s.dev.mem, off, g.cur, off - g.cur * geo.sector);
    SectorReads(geo, s.dev.mem, g, g.cur);
    ReadEndIs(g, g.cur);
    RecordsCount(g, g.lo[g.cur], Whole(g));
  }

  lemma HeadLogOf(geo: Geometry, mem: seq<Byte>, off: nat, k: nat, d: nat)
    requires geo.Valid() && |mem| == geo.Size() && k < geo.sectors && off == k * geo.sector + d && 0 < d <= geo.sector
    ensures 0 < off <= geo.Size() && Scannable(geo.align, Sector(geo, mem, k))
    ensures HeadLog(geo, mem, off) == SectorLog(geo.align, Sector(geo, mem, k), 0)
  {
    hide SectorLog;
    SmallSector(geo);
    SectorInside(geo, k);
    SectorOfOffset(geo, k, d - 1);
  }

  /** A logger booted on `dev` with what recovery returned. */
  function BootedWith(dev: Device, buffer: seq<Byte>, r: Recovered, replayOffset: nat): State
    requires r.Recovered?
  {
    Booted(dev, buffer, r.writeOffset, replayOffset, r.lastId)
  }

  /** A logger booted without a hint on the flash of `s`, with `payloads` written and not yet flushed. */
  function Refilled(geo: Geometry, s: State, buffer: seq<Byte>, replayOffset: nat, payloads: seq<seq<Byte>>): (r: State)
    requires Sized(geo, s) && |buffer| == geo.batch && Recover(geo, s.dev.mem, NO_HINT).Recovered?
    requires Recover(geo, s.dev.mem, NO_HINT).lastId < WORD && forall i :: 0 <= i < |payloads| ==> |payloads[i]| < WORD
    ensures Sized(geo, r)
  {
    hide Recover;
    WriteAll(geo, BootedWith(s.dev, buffer, Recover(geo, s.dev.mem, NO_HINT), replayOffset), payloads)
  }

  /** The first entry does not fit between the recovered offset and the end of its sector, or there is no such room. */
  predicate FirstSkips(geo: Geometry, writeOffset: nat, payload: seq<Byte>)
    requires geo.Valid()
  {
    writeOffset % geo.sector == 0 || writeOffset % geo.sector + EntrySize(|payload|, geo.align) > geo.sector
  }

  lemma RefilledIs(geo: Geometry, s: State, buffer: seq<Byte>, replayOffset: nat, payloads: seq<seq<Byte>>)
    returns (g: History)
    requires Sized(geo, s) && geo.Valid() && |s.dev.mem| == geo.Size() && |buffer| == geo.batch
    requires Recover(geo, s.dev.mem, NO_HINT).Recovered?
    requires Recover(geo, s.dev.mem, NO_HINT).lastId < WORD && forall i :: 0 <= i < |payloads| ==> |payloads[i]| < WORD
    requires payloads != [] && FitTogether(geo, 0, payloads)
    ensures var b := Refilled(geo, s, buffer, replayOffset, payloads);
            && Rebooted(geo, b, g) && Sized(geo, b) && b.dev == s.dev
            && b.writeOffset == Recover(geo, s.dev.mem, NO_HINT).writeOffset
            && (LeavesHead(geo, b) <==> FirstSkips(geo, b.writeOffset, payloads[0]))
  {
    hide *;
    NoHintIsUnusable(geo, s.dev.mem);
    var r := Recover(geo, s.dev.mem, NO_HINT);
    BootedWithIs(s.dev, buffer, r, replayOffset);
    BootedHolds(geo, s.dev, buffer, r.writeOffset, replayOffset, r.lastId);
    var b0 := BootedWith(s.dev, buffer, r, replayOffset);
    g := WriteAllHolds(geo, b0, NoEntries(r.lastId), payloads);
    var b := Refilled(geo, s, buffer, replayOffset, payloads);
    RefilledUnfolds(geo, s, buffer, replayOffset, payloads);
    OnlyBatchParts(b0, b);
    HoldsRebooted(geo, b, g);
    RebootedLoop(geo, b, g);
    FirstEntryDecides(geo, FlushStart(b), g);
    LeavesHeadIs(geo, b);
    RoomInside(geo, b.writeOffset);
    FirstSkipsIs(geo, b.writeOffset, payloads[0]);
  }

  lemma FirstSkipsIs(geo: Geometry, writeOffset: nat, payload: seq<Byte>)
    requires geo.Valid()
    ensures geo.sector > 0 && geo.align >= 1
    ensures FirstSkips(geo, writeOffset, payload) <==>
            writeOffset % geo.sector == 0 || writeOffset % geo.sector + EntrySize(|payload|, geo.align) > geo.sector
  {
    hide EntrySize;
  }

  lemma BootedWithIs(dev: Device, buffer: seq<Byte>, r: Recovered, replayOffset: nat)
    requires r.Recovered?
    ensures BootedWith(dev, buffer, r, replayOffset) == Booted(dev, buffer, r.writeOffset, replayOffset, r.lastId)
  {
  }

  lemma RefilledUnfolds(geo: Geometry, s: State, buffer: seq<Byte>, replayOffset: nat, payloads: seq<seq<Byte>>)
    requires Sized(geo, s) && |buffer| == geo.batch && Recover(geo, s.dev.mem, NO_HINT).Recovered?
    requires Recover(geo, s.dev.mem, NO_HINT).lastId < WORD && forall i :: 0 <= i < |payloads| ==> |payloads[i]| < WORD
    ensures var b0 := BootedWith(s.dev, buffer, Recover(geo, s.dev.mem, NO_HINT), replayOffset);
            Sized(geo, b0) && Refilled(geo, s, buffer, replayOffset, payloads) == WriteAll(geo, b0, payloads)
  {
    hide Recover, WriteAll;
  }

  lemma OnlyBatchParts(s: State, s': State)
    requires OnlyBatch(s, s')
    ensures s'.dev == s.dev && s'.writeOffset == s.writeOffset && s'.lastErased == s.lastErased
  {
  }

  /**
   * After any run, torn writes included, whose recovery ends behind offset zero: a logger boots on the flash without a
   * hint, takes any payloads that fit its batch together, and flushes them. Whether that flush succeeds or is cut, the
   * entries of the sector recovery ended in are still there if the recovered offset was a sector boundary or the first
   * new entry did not fit behind it; otherwise that sector has lost all of them. There are some whenever the run left a
   * whole entry in the current sector.
   */
  lemma FirstFlushAfterBoot(geo: Geometry, batch: seq<Byte>, lastId: nat, ops: seq<Op>, buffer: seq<Byte>,
                            replayOffset: nat, payloads: seq<seq<Byte>>)
    requires Startable(geo, batch, lastId, ops) && geo.Valid()
    requires |buffer| == geo.batch && payloads != [] && FitTogether(geo, 0, payloads)
    requires forall i :: 0 <= i < |payloads| ==> |payloads[i]| < WORD
    requires Recover(geo, Reached(geo, batch, lastId, ops).s.dev.mem, NO_HINT).Recovered?
    ensures var s := Reached(geo, batch, lastId, ops).s;
            var r := Recover(geo, s.dev.mem, NO_HINT);
            && r.lastId < WORD && r.writeOffset <= geo.Size()
            && (HeadHolds(geo, s) ==> r.writeOffset > 0 && HeadLog(geo, s.dev.mem, r.writeOffset) != [])
            && var mem' := FlushOp(geo, Refilled(geo, s, buffer, replayOffset, payloads)).s.dev.mem;
               && |mem'| == geo.Size()
               && (r.writeOffset > 0 ==>
                   HeadLog(geo, mem', r.writeOffset) ==
                   if FirstSkips(geo, r.writeOffset, payloads[0]) then HeadLog(geo, s.dev.mem, r.writeOffset) else [])
  {
    hide *;
    StartableParts(geo, batch, lastId, ops);
    var g, c, picks := RunHistory(geo, batch, lastId, ops);
    var x := Reached(geo, batch, lastId, ops);
    GoodParts(geo, x, g, c, picks);
    NoHintIsUnusable(geo, x.s.dev.mem);
    if HeadHolds(geo, x.s) {
      BootFinds(geo, x.s, g, c);
    } else {
      FreshInside(geo, x.s, g, c);
    }
    var h := RefilledIs(geo, x.s, buffer, replayOffset, payloads);
    var b := Refilled(geo, x.s, buffer, replayOffset, payloads);
    SizedBatch(geo, FlushOp(geo, b).s);
    if b.writeOffset > 0 {
      FirstFlushKeepsHeadIff(geo, b, h);
    }
  }

  // ---------- That flush does succeed ----------

  /** On a healthy device a booted logger whose whole batch fits the room succeeds. */
  lemma FirstFlushSucceedsIn(geo: Geometry, s: State, g: History)
    requires Rebooted(geo, s, g) && Sized(geo, s) && geo.Valid() && s.writeOffset < geo.Size() && !s.dev.failNext
    requires s.batchLen <= Room(geo, s.writeOffset)
    ensures FlushOp(geo, s).err == Ok
  {
    hide *;
    RebootedLoop(geo, s, g);
    FlushOpUnfolds(geo, s);
    var f := FlushStart(s);
    LoadedParts(geo, f, g);
    LoopUnfolds(geo, f);
    var m := NextTakes(geo, f, g);
    PassShape(geo, f);
    PushedParts(geo, f);
    var f1, q := Pushed(geo, f), f.write / geo.sector;
    OffsetInRing(geo, f.write);
    RoomEnds(geo, f.write);
    StartOfSector(geo, f.write);
    ChunkIs(geo, f1, f.left, q);
    PreparedParts(geo, f1, q);
    var src := f.s.batch[f.written..f.written + f.left];
    PreparedIsReady(geo, f1, q, src);
    var f2 := Prepared(geo, f1, q);
    ProgramReady(f2.s.dev, f.write, src);
    NoFault(f2.s.dev, |src|);
    AnsweredFields(f2, Program(f2.s.dev, f.write, src), f.left);
    SettleFails(WriteChunk(geo, f1, f.left));
  }
}
