/** Runs of rounds that fill the ring, with a gap at the end of every sector: what a drain or a boot makes of them. */
module LapExamples {
  import opened Bytes
  import opened Entry
  import opened Layout
  import opened LoggerSpec
  import opened Invariant
  import opened FlushPasses
  import opened Operations
  import opened Replay
  import opened RecoverySpec
  import opened Recovery
  import opened Scanning
  import opened Conservation
  import opened Drain
  import opened Runs
  import opened RunRecovery
  import opened Losses
  import opened Backlog
  import opened TornFlush
  import opened ChainScan
  import opened SearchPatterns
  import opened FreshSector
  import opened FreshHeads
  import opened SmallRuns
  import opened Examples

  // ---------- Sectors that rounds have filled ----------

  lemma CountUp(k: nat, j: nat)
    ensures Count(k, j + 1, 0) == Count(k, j, 0) + k == Count(k, j, k)
  {
    assert (j + 1) * k == j * k + k;
  }

  /** Sector `m` holds the `k` entries of its rounds. */
  predicate Full(k: nat, g: History, m: nat) {
    m < |g.lo| == |g.hi| && g.lo[m] == Count(k, m, 0) && g.hi[m] == Count(k, m + 1, 0)
  }

  lemma FullIs(k: nat, g: History, m: nat)
    ensures Full(k, g, m) <==> m < |g.lo| == |g.hi| && g.lo[m] == Count(k, m, 0) && g.hi[m] == Count(k, m + 1, 0)
  {
  }

  /** Where it ends, as a reader of the flash sees it. */
  lemma EndOfFull(geo: Geometry, p: seq<Byte>, e: nat, k: nat, s: State, g: History, c: Cursor, n: nat, m: nat)
    requires Plan(geo, p, e, k) && Inv(geo, s, g, c) && Sized(geo, s) && g.payloads == Copies(p, n)
    requires m < geo.sectors && m != g.cur && Full(k, g, m)
    ensures geo.Valid() && |s.dev.mem| == geo.Size() && SectorEnd(geo, s.dev.mem, m) == k * e
    ensures Between(g.raw, g.lo[m], g.hi[m]) && |Run(g.raw, g.lo[m], g.hi[m])| == k * e
  {
    hide *;
    PlanParts(geo, p, e, k);
    InvParts(geo, s, g, c);
    FullIs(k, g, m);
    CountUp(k, m);
    EqualEntries(geo, g, p, e, n);
    EndOfSector(geo, s, g, c, m);
    RunOfEquals(g.raw, g.lo[m], g.hi[m], e);
  }

  // ---------- A backlog lost behind a gap ----------

  lemma AllTaken(p: seq<Byte>, n: nat)
    ensures TakesAll(Copies(p, n), |p|)
  {
  }

  lemma AtZero(size: nat)
    requires size > 0
    ensures 0 / size == 0 && 0 % size == 0
  {
  }

  lemma BehindIsPositive(geo: Geometry, e: nat, j: nat, i: nat)
    requires (e > 0 && i > 0) || (geo.sector > 0 && j > 0)
    ensures Behind(geo, e, j, i) > 0
  {
    if i > 0 && e > 0 {
      MulLe(1, i, e);
    } else {
      MulLe(1, j, geo.sector);
    }
  }

  lemma NoBytesNoEntries(x: nat, e: nat)
    requires e > 0 && x * e == 0
    ensures x == 0
  {
    if x > 0 {
      MulLe(1, x, e);
    }
  }

  /** A cursor at offset zero is in front of the first entry of the first sector. */
  lemma CursorAtZero(geo: Geometry, p: seq<Byte>, e: nat, k: nat, s: State, g: History, c: Cursor, n: nat)
    requires Plan(geo, p, e, k) && Inv(geo, s, g, c) && g.payloads == Copies(p, n)
    requires s.replayOffset == 0 != s.writeOffset
    ensures Ranges(geo, g) && c.sector == 0 < geo.sectors == |g.lo| && c.entry == g.lo[0]
  {
    hide *;
    PlanParts(geo, p, e, k);
    InvParts(geo, s, g, c);
    AtZero(geo.sector);
    CursorOffset(geo, s, g, c);
    CursorParts(geo, s.replayOffset, g, c);
    EqualEntries(geo, g, p, e, n);
    RunOfEquals(g.raw, g.lo[c.sector], c.entry, e);
    NoBytesNoEntries(c.entry - g.lo[c.sector], e);
  }

  /**
   * More rounds than fit the first sector, whose entries leave a gap at its end: a drain that accepts everything
   * delivers the entries of the first sector, and the cursor goes to the write offset. All entries behind them are in
   * the flash, and lost to replay.
   */
  lemma BacklogLostBehindGap(geo: Geometry, batch: seq<Byte>, lastId: nat, p: seq<Byte>, e: nat, k: nat, j: nat, i: nat,
                             answers: Callback)
    requires Plan(geo, p, e, k) && k * e < geo.sector && |batch| == geo.batch && lastId < WORD && AcceptsAll(answers)
    requires 1 <= j < geo.sectors && 1 <= i <= k
    ensures var ops := Rounds(p, Count(k, j, i));
            && Startable(geo, batch, lastId, ops) && Sized(geo, Reached(geo, batch, lastId, ops).s)
            && var x := Reached(geo, batch, lastId, ops);
               var r := IterateFrom(geo, x.s, |p|, answers, 0);
               && x.written == Copies(p, Count(k, j, i)) && x.s.batchLen == 0
               && r.accepted == Copies(p, k) && r.s.replayOffset == r.s.writeOffset
  {
    hide *;
    PlanParts(geo, p, e, k);
    var n := Count(k, j, i);
    var g, c := Filled(geo, batch, lastId, p, e, k, j, i);
    StartableParts(geo, batch, lastId, Rounds(p, n));
    var s := Reached(geo, batch, lastId, Rounds(p, n)).s;
    TrailParts(geo, p, e, k, s, g, c, j, i);
    InvParts(geo, s, g, c);
    BehindIsPositive(geo, e, j, i);
    CursorAtZero(geo, p, e, k, s, g, c, n);
    AllTaken(p, n);
    var a, b := DrainOf(geo, s, g, c, |p|, answers);
    FirstIsFull(geo, k, g, j);
    EndOfFull(geo, p, e, k, s, g, c, n, 0);
    StopUnfolds(geo, g, 0);
    FullIs(k, g, 0);
    FirstCounts(k);
    PayloadsOfRecords(g, a, b);
    PrefixOfCopies(p, n, k);
  }

  lemma FirstCounts(k: nat)
    ensures Count(k, 0, 0) == 0 && Count(k, 1, 0) == k
  {
  }

  lemma PrefixOfCopies(p: seq<Byte>, n: nat, k: nat)
    requires k <= n
    ensures Copies(p, n)[0..k] == Copies(p, k)
  {
  }

  lemma FirstIsFull(geo: Geometry, k: nat, g: History, j: nat)
    requires Ranges(geo, g) && Ring(geo, g) && 1 <= j == g.cur < geo.sectors == |g.lo|
    requires forall m :: 0 <= m <= j ==> g.lo[m] == Count(k, m, 0)
    ensures Full(k, g, 0)
  {
    hide *;
    RingParts(geo, g);
    var h := g.hi[0];
    FullIs(k, g, 0);
    assert g.lo[0 + 1] == Count(k, 0 + 1, 0);
  }

  // ---------- Around the ring ----------

  /** The first sector has been entered again and every other one is full. */
  predicate Around(geo: Geometry, p: seq<Byte>, k: nat, g: History) {
    && g.cur == 0 < geo.sectors == |g.lo| && g.payloads == Copies(p, Count(k, geo.sectors, 1))
    && g.lo[0] == Count(k, geo.sectors, 0) && g.lapped && forall m :: 1 <= m < geo.sectors ==> Full(k, g, m)
  }

  lemma AroundParts(geo: Geometry, p: seq<Byte>, k: nat, g: History)
    ensures Around(geo, p, k, g) <==>
              && g.cur == 0 < geo.sectors == |g.lo| && g.payloads == Copies(p, Count(k, geo.sectors, 1))
              && g.lo[0] == Count(k, geo.sectors, 0) && g.lapped
              && forall m :: 1 <= m < geo.sectors ==> Full(k, g, m)
  {
    hide Full, Count, Copies;
  }

  lemma StartsApart(geo: Geometry, g: History)
    requires Ranges(geo, g) && Ring(geo, g) && g.cur == 0 && 1 < geo.sectors == |g.lo| && g.lo[1] > 0
    ensures g.lapped
  {
    hide Run;
  }

  lemma AroundFrom(geo: Geometry, p: seq<Byte>, k: nat, g: History)
    requires Ranges(geo, g) && Ring(geo, g) && geo.Valid() && k >= 1 && g.cur == 0 < geo.sectors == |g.lo|
    requires g.payloads == Copies(p, Count(k, geo.sectors, 1)) && g.lo[0] == Count(k, geo.sectors, 0)
    requires forall m :: 1 <= m < geo.sectors ==> g.lo[m] == Count(k, m, 0)
    ensures Around(geo, p, k, g)
  {
    hide *;
    TwoSectors(geo);
    RingParts(geo, g);
    FirstCounts(k);
    StartsApart(geo, g);
    forall m | 1 <= m < geo.sectors
      ensures Full(k, g, m)
    {
      var h := g.hi[m];
      if m + 1 < geo.sectors {
        assert g.hi[m] == g.lo[m + 1];
      }
      FullIs(k, g, m);
    }
    AroundParts(geo, p, k, g);
  }

  /** One entry in the batch, and the batch is what is not flushed: the entry is the last one. */
  lemma OneInBatch(geo: Geometry, p: seq<Byte>, e: nat, k: nat, s: State, g: History, c: Cursor, n: nat)
    requires Plan(geo, p, e, k) && Inv(geo, s, g, c) && Sized(geo, s) && g.payloads == Copies(p, n + 1)
    requires s.batchLen == e
    ensures g.flushed == n
  {
    hide *;
    PlanParts(geo, p, e, k);
    InvParts(geo, s, g, c);
    EqualEntries(geo, g, p, e, n + 1);
    InOrder(g.raw, g.flushed, |g.raw|);
    RunOfEquals(g.raw, g.flushed, |g.raw|, e);
    OneTimes(e);
    TimesUnique(|g.raw| - g.flushed, 1, e);
  }

  lemma OneTimes(e: nat)
    ensures 1 * e == e
  {
  }

  /** The end of the last full sector, in front of its gap. */
  lemma LastGap(geo: Geometry, p: seq<Byte>, e: nat, k: nat, j: nat)
    requires Plan(geo, p, e, k) && k * e < geo.sector && j + 1 == geo.sectors && j >= 1
    ensures geo.sector > 0 && Behind(geo, e, j, k) < geo.Size() && Room(geo, Behind(geo, e, j, k)) < e
    ensures Wrapped(geo, NextSectorStart(geo, Behind(geo, e, j, k))) == 0
    ensures Behind(geo, e, j, k) % geo.sector != 0 && Behind(geo, e, j, k) / geo.sector == j
  {
    PlanParts(geo, p, e, k);
    RoomBehind(geo, p, e, k, j, k);
    MulLe(1, k, e);
    hide EntrySize, Plan, Behind;
    assert (j + 1) * geo.sector == geo.Size();
  }

  lemma CutsBehindGap(geo: Geometry, s: State)
    requires geo.Valid() && s.batchLen > 0 && s.writeOffset < geo.Size() && geo.sector > 0
    requires s.dev.failNext && s.dev.failAfter < s.batchLen && NextChunk(geo, FlushStart(s)) == 0
    ensures CutsFirstChunk(geo, s) && ChunkStart(geo, s) == Wrapped(geo, NextSectorStart(geo, s.writeOffset))
  {
    hide NextChunk, NextSectorStart;
  }

  /** A chunk for the start of the first sector that is cut before its first byte leaves that sector erased. */
  lemma CutAtZero(geo: Geometry, s: State, r: FlushResult)
    requires CutResult(geo, s, r, 0, 0) && s.lastErased != 0 && geo.sector > 0
    ensures |r.s.dev.mem| > 0 && r.s.dev.mem[0] == ERASED && r.s.writeOffset == 0 && r.s.batchLen == s.batchLen
  {
    SectorInside(geo, 0);
    AtZero(geo.sector);
  }

  /** The flush that would start the next lap fails before its first byte arrives. */
  lemma LapCut(geo: Geometry, p: seq<Byte>, e: nat, k: nat, s: State, g: History, c: Cursor)
    returns (g': History, c': Cursor)
    requires Plan(geo, p, e, k) && k * e < geo.sector && geo.sectors >= 1 && Sized(geo, s)
    requires s.writeOffset == Behind(geo, e, geo.sectors - 1, k) && s.batchLen == e && s.dev.failNext
    requires s.dev.failAfter == 0
    requires g.payloads == Copies(p, Count(k, geo.sectors, 1)) && |g.lo| == geo.sectors
    requires forall m :: 0 <= m < geo.sectors ==> g.lo[m] == Count(k, m, 0)
    requires Inv(geo, s, g, c)
    ensures var t := FlushOp(geo, s).s;
            && Inv(geo, t, g', c') && Around(geo, p, k, g') && g'.base == g.base
            && t.writeOffset == 0 && |t.dev.mem| > 0 && t.dev.mem[0] == ERASED
  {
    hide *;
    PlanParts(geo, p, e, k);
    TwoSectors(geo);
    InvParts(geo, s, g, c);
    var j, n := geo.sectors - 1, Count(k, geo.sectors, 0);
    CountIs(k, geo.sectors, 0);
    CountIs(k, geo.sectors, 1);
    LastGap(geo, p, e, k, j);
    EqualEntries(geo, g, p, e, n + 1);
    TooLong(geo, s, g, c, e);
    InsideIsErased(geo, s, g, c);
    CutsBehindGap(geo, s);
    CutFlush(geo, s, g, c);
    CutAtZero(geo, s, FlushOp(geo, s));
    var first;
    g', c', first := FlushKeeps(geo, s, g, c);
    FlushEffectParts(geo, FlushOp(geo, s), g, g', first);
    SameHistoryParts(g, g');
    var t := FlushOp(geo, s).s;
    InvParts(geo, t, g', c');
    StartsKept(geo, s.lastErased, t.lastErased, g, g');
    HeadOfZero(geo, t);
    HeadInUseLaw(geo, t, g');
    OneInBatch(geo, p, e, k, t, g', c', n);
    EmptyHead(geo, t.writeOffset, t.lastErased, g');
    AroundFrom(geo, p, k, g');
  }

  lemma HeadOfZero(geo: Geometry, s: State)
    requires s.writeOffset == 0 && geo.sector > 0 && geo.sectors > 0
    ensures !HeadInUse(geo, s) && HeadSector(geo, s) == 0
  {
    MulLe(1, geo.sectors, geo.sector);
    AtZero(geo.sector);
  }

  lemma EmptyHead(geo: Geometry, write: nat, lastErased: int, g: History)
    requires Ranges(geo, g) && WriteOk(geo, write, lastErased, g) && !g.moved && g.cur < |g.lo| == |g.hi|
    requires g.lo[g.cur] >= g.hi[g.cur]
    ensures g.lo[g.cur] == g.flushed
  {
    hide Run;
  }

  // ---------- A lap forgotten ----------

  /** Rounds that fill every sector, and one more whose flush is cut before its first byte. */
  function LapOps(geo: Geometry, p: seq<Byte>, k: nat): seq<Op>
    requires geo.sectors >= 1
  {
    Rounds(p, Count(k, geo.sectors - 1, k)) + [OpWrite(p)] + [OpFault(0)] + [OpFlush]
  }

  lemma LapOpsIs(geo: Geometry, p: seq<Byte>, k: nat)
    requires geo.sectors >= 1
    ensures LapOps(geo, p, k) == Rounds(p, Count(k, geo.sectors - 1, k)) + [OpWrite(p)] + [OpFault(0)] + [OpFlush]
  {
    hide Rounds, Count;
  }

  /** The ring full, the batch empty, and one more entry written. */
  lemma WrittenOnFull(geo: Geometry, batch: seq<Byte>, lastId: nat, p: seq<Byte>, e: nat, k: nat)
    returns (g: History, c: Cursor)
    requires Plan(geo, p, e, k) && k * e < geo.sector && |batch| == geo.batch && lastId < WORD && geo.sectors >= 1
    ensures var ops := Rounds(p, Count(k, geo.sectors - 1, k)) + [OpWrite(p)];
            && Startable(geo, batch, lastId, ops) && Sized(geo, Reached(geo, batch, lastId, ops).s)
            && var x := Reached(geo, batch, lastId, ops);
               && Inv(geo, x.s, g, c) && g.base == lastId && x.written == g.payloads && x.delivered == []
               && x.s.writeOffset == Behind(geo, e, geo.sectors - 1, k) && x.s.batchLen == e && x.s.replayOffset == 0
               && !x.s.dev.failNext && g.payloads == Copies(p, Count(k, geo.sectors, 1)) && |g.lo| == geo.sectors
               && forall m :: 0 <= m < geo.sectors ==> g.lo[m] == Count(k, m, 0)
  {
    hide *;
    PlanParts(geo, p, e, k);
    TwoSectors(geo);
    var j := geo.sectors - 1;
    var n := Count(k, j, k);
    var g0, c0 := Filled(geo, batch, lastId, p, e, k, j, k);
    var s := Reached(geo, batch, lastId, Rounds(p, n)).s;
    StartableParts(geo, batch, lastId, Rounds(p, n));
    RoundOfRun(geo, batch, lastId, Rounds(p, n), p);
    TrailParts(geo, p, e, k, s, g0, c0, j, k);
    g := WriteRound(geo, p, e, k, s, g0, c0);
    c := c0;
    CountUp(k, j);
    CountIs(k, geo.sectors, 0);
    CountIs(k, geo.sectors, 1);
    OneMoreCopy(p, n);
  }

  /** The state that the cut leaves. */
  lemma LapRun(geo: Geometry, batch: seq<Byte>, lastId: nat, p: seq<Byte>, e: nat, k: nat)
    returns (g: History, c: Cursor)
    requires Plan(geo, p, e, k) && k * e < geo.sector && |batch| == geo.batch && lastId < WORD && geo.sectors >= 1
    ensures Startable(geo, batch, lastId, LapOps(geo, p, k)) && geo.Valid()
    ensures var s := Reached(geo, batch, lastId, LapOps(geo, p, k)).s;
            && Sized(geo, s) && |s.dev.mem| == geo.Size() > 0 && s.dev.mem[0] == ERASED && s.writeOffset == 0
            && Inv(geo, s, g, c) && Around(geo, p, k, g) && g.base == lastId
  {
    hide *;
    PlanParts(geo, p, e, k);
    LapOpsIs(geo, p, k);
    var ops := Rounds(p, Count(k, geo.sectors - 1, k)) + [OpWrite(p)];
    var g1, c1 := WrittenOnFull(geo, batch, lastId, p, e, k);
    var s := Reached(geo, batch, lastId, ops).s;
    FaultAndFlush(geo, batch, lastId, ops, 0);
    var s1 := s.(dev := s.dev.(failNext := true, failAfter := 0));
    FaultKeeps(geo, s, g1, c1, 0);
    g, c := LapCut(geo, p, e, k, s1, g1, c1);
    StartableParts(geo, batch, lastId, LapOps(geo, p, k));
  }

  /** An erased first byte of the current sector: no entry stands there, and none cut inside its header. */
  lemma NothingInFirst(geo: Geometry, s: State, g: History, c: Cursor)
    requires Inv(geo, s, g, c) && Sized(geo, s) && geo.Valid() && |s.dev.mem| == geo.Size() > 0
    requires s.writeOffset == 0 && s.dev.mem[0] == ERASED && g.cur == 0 < geo.sectors
    ensures geo.sector > 0 && HeadSector(geo, s) == 0 && !HeadHolds(geo, s) && !StrayAhead(geo, s)
    ensures SectorId(geo, s.dev.mem, 0) == None
  {
    hide *;
    InvParts(geo, s, g, c);
    FlashParts(geo, s.dev.mem, s.writeOffset, s.lastErased, g);
    HeadOfZero(geo, s);
    SectorIdOfBlank(geo, s.dev.mem, 0);
    HeadedIs(geo, s.dev.mem, g);
    HeadHoldsLaw(geo, s, g, c);
    StrayLaw(geo, s, g, c);
    if HeadHolds(geo, s) {
      WholeIsHeaded(geo, s.dev.mem, g);
      assert false;
    }
    HeadInUseLaw(geo, s, g);
    if StrayAhead(geo, s) {
      StrayIsHeaded(geo, s.dev.mem, g);
      assert false;
    }
  }

  /** The id `base` with the entries of `m` sectors added. */
  function IdBehind(base: nat, k: nat, m: nat): nat {
    (base + Count(k, m, 0)) % WORD
  }

  lemma IdBehindIs(base: nat, k: nat, m: nat)
    ensures IdBehind(base, k, m) == (base + Count(k, m, 0)) % WORD
  {
  }

  /** A full sector that is not the current one, as recovery finds its end. */
  lemma RecoveredEnd(geo: Geometry, p: seq<Byte>, e: nat, k: nat, s: State, g: History, c: Cursor, m: nat)
    requires Plan(geo, p, e, k) && Inv(geo, s, g, c) && Sized(geo, s) && Around(geo, p, k, g) && 1 <= m < geo.sectors
    ensures geo.Valid() && |s.dev.mem| == geo.Size() && SectorEnd(geo, s.dev.mem, m) == k * e
    ensures EndOf(geo, s.dev.mem, m) == Recovered(Behind(geo, e, m, k), IdBehind(g.base, k, m + 1))
    ensures SectorId(geo, s.dev.mem, m) == Some(IdBehind(g.base + 1, k, m))
  {
    hide *;
    InvParts(geo, s, g, c);
    AroundParts(geo, p, k, g);
    FlashParts(geo, s.dev.mem, s.writeOffset, s.lastErased, g);
    EndOfFull(geo, p, e, k, s, g, c, Count(k, geo.sectors, 1), m);
    OlderIs(geo, g, m);
    OlderReads(geo, s, g, c, m);
    FullIs(k, g, m);
    EndOfIs(geo, s.dev.mem, m);
    SectorStartIs(geo, m);
    IdIs(g, g.hi[m] - 1);
    IdIs(g, g.lo[m]);
    BehindIs(geo, e, m, k);
    IdBehindIs(g.base, k, m + 1);
    IdBehindIs(g.base + 1, k, m);
    SectorIdLaw(geo, s.dev.mem, g, m);
  }

  /** With the first sector without a header and one sector behind it, the search stays at the first. */
  lemma HeadOfPair(ids: seq<Option<nat>>)
    requires |ids| == 2 && Words(ids) && ids[0] == None
    ensures FoundHead(ids, BaseId(ids)) == Head(0, 0)
  {
    hide LeadingFrom, Next;
  }

  /**
   * Two sectors, and the flush that would start the next lap is cut after the erase: the second sector is still full of
   * entries, but a boot without a hint starts over with offset 0 and id 0.
   */
  lemma LapIsForgotten(geo: Geometry, batch: seq<Byte>, lastId: nat, p: seq<Byte>, e: nat, k: nat)
    requires Plan(geo, p, e, k) && k * e < geo.sector && |batch| == geo.batch && lastId < WORD && geo.sectors == 2
    ensures Startable(geo, batch, lastId, LapOps(geo, p, k)) && geo.Valid() && NO_HINT.lastId < WORD
    ensures var mem := Reached(geo, batch, lastId, LapOps(geo, p, k)).s.dev.mem;
            && |mem| == geo.Size() && Recover(geo, mem, NO_HINT) == Recovered(0, 0)
            && EndOf(geo, mem, 1) == Recovered(Behind(geo, e, 1, k), IdBehind(lastId, k, 2))
  {
    hide *;
    var g, c := LapRun(geo, batch, lastId, p, e, k);
    var ops := LapOps(geo, p, k);
    var s := Reached(geo, batch, lastId, ops).s;
    AroundParts(geo, p, k, g);
    NothingInFirst(geo, s, g, c);
    RecoveredEnd(geo, p, e, k, s, g, c, 1);
    IdsAreWords(geo, s.dev.mem);
    SectorIdsAt(geo, s.dev.mem, 0);
    HeadAfterRun(geo, batch, lastId, ops);
    HeadOfPair(SectorIds(geo, s.dev.mem));
    FreshRecovery(geo, batch, lastId, ops);
    RestartIs(geo, s.dev.mem, 0, false, Head(0, 0));
    SectorStartIs(geo, 0);
    NoHintIsUnusable(geo, s.dev.mem);
  }

  /** Four sectors, the first without a header: the next two tell where the search ends. */
  lemma HeadOfFour(ids: seq<Option<nat>>)
    requires |ids| == 4 && Words(ids) && ids[0] == None && ids[1].Some? && ids[2].Some?
    requires ids[1].value < 0x8000_0000 <= ids[2].value
    ensures FoundHead(ids, BaseId(ids)) == Head(1, ids[1].value)
  {
    assert LeadingFrom(ids, 0, 2) == 1;
    assert LeadingFrom(ids, 0, 1) == 1;
    assert LeastProbe(3) == 1;
  }

  /**
   * Four sectors, with the same cut, room for a header at the end of each, and ids that pass 2^31 between the second
   * sector and the third: a boot without a hint takes the end of the second sector for the newest entry, and goes on
   * from there with an offset and an id that were used two sectors ago.
   */
  lemma LapStopsMidway(geo: Geometry, batch: seq<Byte>, lastId: nat, p: seq<Byte>, e: nat, k: nat)
    requires Plan(geo, p, e, k) && k * e + HEADER_SIZE <= geo.sector && |batch| == geo.batch && geo.sectors == 4
    requires lastId + 1 + k < 0x8000_0000 <= lastId + 1 + 2 * k
    ensures Startable(geo, batch, lastId, LapOps(geo, p, k)) && geo.Valid() && NO_HINT.lastId < WORD
    ensures var mem := Reached(geo, batch, lastId, LapOps(geo, p, k)).s.dev.mem;
            && |mem| == geo.Size()
            && Recover(geo, mem, NO_HINT) == Recovered(Behind(geo, e, 1, k), IdBehind(lastId, k, 2))
            && EndOf(geo, mem, 3) == Recovered(Behind(geo, e, 3, k), IdBehind(lastId, k, 4))
  {
    hide *;
    MidwayIds(geo, p, e, k, lastId);
    var g, c := LapRun(geo, batch, lastId, p, e, k);
    var ops := LapOps(geo, p, k);
    var s := Reached(geo, batch, lastId, ops).s;
    var mem := s.dev.mem;
    AroundParts(geo, p, k, g);
    NothingInFirst(geo, s, g, c);
    RecoveredEnd(geo, p, e, k, s, g, c, 1);
    RecoveredEnd(geo, p, e, k, s, g, c, 2);
    RecoveredEnd(geo, p, e, k, s, g, c, 3);
    IdsAreWords(geo, mem);
    SectorIdsAt(geo, mem, 0);
    SectorIdsAt(geo, mem, 1);
    SectorIdsAt(geo, mem, 2);
    HeadAfterRun(geo, batch, lastId, ops);
    HeadOfFour(SectorIds(geo, mem));
    FreshRecovery(geo, batch, lastId, ops);
    RestartIs(geo, mem, 0, false, HeadSearch(SectorIds(geo, mem)));
    StopSectorUnfolds(geo, mem, 1, 0);
    GapIs(geo, k * e);
    NoHintIsUnusable(geo, mem);
  }

  lemma FewEntries(geo: Geometry, p: seq<Byte>, e: nat, k: nat)
    requires Plan(geo, p, e, k)
    ensures k < 0x8000_0000 && HEADER_SIZE > 0
  {
    PlanParts(geo, p, e, k);
    SmallSector(geo);
    MulLe(1, e, k);
    hide EntrySize, Plan;
  }

  lemma MidwayIds(geo: Geometry, p: seq<Byte>, e: nat, k: nat, lastId: nat)
    requires Plan(geo, p, e, k) && lastId + 1 + k < 0x8000_0000
    ensures lastId < WORD && HEADER_SIZE > 0
    ensures IdBehind(lastId + 1, k, 1) == lastId + 1 + k && IdBehind(lastId + 1, k, 2) == lastId + 1 + 2 * k
  {
    FewEntries(geo, p, e, k);
    SmallId(lastId, k, 1);
    SmallId(lastId, k, 2);
    hide *;
  }

  lemma SmallId(lastId: nat, k: nat, m: nat)
    requires lastId + 1 + k < 0x8000_0000 && m <= 2
    ensures lastId < WORD && IdBehind(lastId + 1, k, m) == lastId + 1 + m * k
  {
    hide IdBehind, Count;
    IdBehindIs(lastId + 1, k, m);
    CountIs(k, m, 0);
    MulLe(m, 2, k);
  }

  // ---------- A backlog lapped ----------

  /** The flush that starts the next lap, with the cursor still at offset zero: it stays there. */
  lemma LapFlush(geo: Geometry, p: seq<Byte>, e: nat, k: nat, s: State, g: History, c: Cursor)
    returns (g': History, c': Cursor)
    requires Plan(geo, p, e, k) && k * e < geo.sector && geo.sectors >= 1 && Sized(geo, s) && !s.dev.failNext
    requires s.writeOffset == Behind(geo, e, geo.sectors - 1, k) && s.batchLen == e && s.replayOffset == 0
    requires g.payloads == Copies(p, Count(k, geo.sectors, 1)) && |g.lo| == geo.sectors
    requires forall m :: 0 <= m < geo.sectors ==> g.lo[m] == Count(k, m, 0)
    requires Inv(geo, s, g, c)
    ensures var r := FlushOp(geo, s);
            && r.err == Ok && r.s.batchLen == 0 && r.s.replayOffset == 0 && r.s.writeOffset == e
               && Inv(geo, r.s, g', c')
    ensures Around(geo, p, k, g') && c'.entry == g'.lo[0] && g'.torn == 0 && g'.flushed == |g'.payloads|
  {
    hide *;
    PlanParts(geo, p, e, k);
    TwoSectors(geo);
    InvParts(geo, s, g, c);
    var j, n := geo.sectors - 1, Count(k, geo.sectors, 1);
    CountIs(k, geo.sectors, 0);
    CountIs(k, geo.sectors, 1);
    LastGap(geo, p, e, k, j);
    EqualEntries(geo, g, p, e, n);
    TooLong(geo, s, g, c, e);
    FlushBehindGap(geo, s, g, c);
    var first;
    g', c', first := FlushedHistory(geo, s, g, c);
    var t := FlushOp(geo, s).s;
    InvParts(geo, t, g', c');
    StartsKept(geo, s.lastErased, t.lastErased, g, g');
    EqualEntries(geo, g', p, e, n);
    WhereFlushed(geo, t.writeOffset, t.lastErased, g');
    InOrder(g'.raw, g'.lo[g'.cur], g'.flushed);
    RunOfEquals(g'.raw, g'.lo[g'.cur], g'.flushed, e);
    OneTimes(e);
    MulLe(1, g'.flushed - g'.lo[g'.cur], e);
    InFirstSector(g'.cur, (g'.flushed - g'.lo[g'.cur]) * e, e, geo.sector);
    TimesUnique(g'.flushed - g'.lo[g'.cur], 1, e);
    AroundFrom(geo, p, k, g');
    CursorAtZero(geo, p, e, k, t, g', c', n);
  }

  lemma InFirstSector(a: nat, u: nat, v: nat, size: nat)
    requires a * size + u == v && 0 < u <= size && 0 < v <= size
    ensures a == 0 && u == v
  {
    OffsetUnique(a, u, 0, v, size);
  }

  /** The run of rounds one entry longer than a lap. */
  lemma LappedRun(geo: Geometry, batch: seq<Byte>, lastId: nat, p: seq<Byte>, e: nat, k: nat)
    returns (g: History, c: Cursor)
    requires Plan(geo, p, e, k) && k * e < geo.sector && |batch| == geo.batch && lastId < WORD && geo.sectors >= 1
    ensures Startable(geo, batch, lastId, Rounds(p, Count(k, geo.sectors, 1)))
    ensures var x := Reached(geo, batch, lastId, Rounds(p, Count(k, geo.sectors, 1)));
            && Sized(geo, x.s) && x.written == g.payloads && x.delivered == [] && x.s.batchLen == 0
            && x.s.replayOffset == 0 && x.s.writeOffset == e
            && Inv(geo, x.s, g, c) && Around(geo, p, k, g) && c.entry == g.lo[0] && g.torn == 0
            && g.flushed == |g.payloads|
  {
    hide *;
    PlanParts(geo, p, e, k);
    var j := geo.sectors - 1;
    var ops := Rounds(p, Count(k, j, k));
    var g1, c1 := WrittenOnFull(geo, batch, lastId, p, e, k);
    CountUp(k, j);
    CountIs(k, geo.sectors, 0);
    CountIs(k, geo.sectors, 1);
    RoundsUnfold(p, Count(k, j, k));
    SmallRunsParts(geo, batch, lastId, p, e, k);
    RoundOfRun(geo, batch, lastId, ops, p);
    g, c := LapFlush(geo, p, e, k, Reached(geo, batch, lastId, ops + [OpWrite(p)]).s, g1, c1);
    var x := Reached(geo, batch, lastId, ops + [OpWrite(p)] + [OpFlush]);
    StartableParts(geo, batch, lastId, ops + [OpWrite(p)] + [OpFlush]);
    AroundParts(geo, p, k, g);
  }

  lemma SmallRunsParts(geo: Geometry, batch: seq<Byte>, lastId: nat, p: seq<Byte>, e: nat, k: nat)
    requires Plan(geo, p, e, k) && |batch| == geo.batch && lastId < WORD && geo.sectors >= 1
    ensures Startable(geo, batch, lastId, Rounds(p, Count(k, geo.sectors - 1, k)))
  {
    hide *;
    PlanParts(geo, p, e, k);
    var g, c := Filled(geo, batch, lastId, p, e, k, geo.sectors - 1, k);
  }

  lemma {:induction false} PicksAbove(picks: seq<nat>, mark: nat, i: nat)
    requires i < |picks| && picks[0] >= mark && forall a, b :: 0 <= a < b < |picks| ==> picks[a] < picks[b]
    ensures picks[i] >= mark + i
  {
    if i > 0 {
      PicksAbove(picks, mark, i - 1);
    }
  }

  lemma PicksLeft(delivered: seq<seq<Byte>>, written: seq<seq<Byte>>, picks: seq<nat>, mark: nat, from: nat)
    requires Picked(delivered, written, picks, mark) && from <= mark && forall i :: 0 <= i < |picks| ==>
             picks[i] >= from
    ensures |delivered| + from <= |written|
  {
    if |picks| > 0 {
      PicksAbove(picks, from, |picks| - 1);
    }
  }

  lemma NonePicked(written: seq<seq<Byte>>, mark: nat)
    requires mark <= |written|
    ensures Picked([], written, [], mark)
  {
  }

  lemma RunOfBoth(geo: Geometry, batch: seq<Byte>, lastId: nat, ops: seq<Op>, more: seq<Op>)
    requires Startable(geo, batch, lastId, ops) && Startable(geo, batch, lastId, more)
    ensures Startable(geo, batch, lastId, ops + more) && Sized(geo, Reached(geo, batch, lastId, ops).s)
    ensures forall i :: 0 <= i < |more| ==> Allowed(more[i])
    ensures Reached(geo, batch, lastId, ops + more) == Execute(geo, Reached(geo, batch, lastId, ops), more)
  {
    FreshSized(geo, batch, lastId, ops);
    hide Execute, Allowed, Fresh, Sized;
    ExecuteBoth(geo, Fresh(geo, batch, lastId), ops, more);
  }

  /** With nothing delivered yet and the cursor in front of some entry, no run goes on to deliver an earlier one. */
  lemma NothingBefore(geo: Geometry, batch: seq<Byte>, lastId: nat, ops: seq<Op>, g: History, c: Cursor, more: seq<Op>)
    requires Startable(geo, batch, lastId, ops) && Startable(geo, batch, lastId, more)
    requires Inv(geo, Reached(geo, batch, lastId, ops).s, g, c)
    requires g.payloads == Reached(geo, batch, lastId, ops).written
    requires Reached(geo, batch, lastId, ops).delivered == [] && c.entry <= |g.payloads|
    ensures Startable(geo, batch, lastId, ops + more)
    ensures var y := Reached(geo, batch, lastId, ops + more); |y.delivered| + c.entry <= |y.written|
  {
    hide *;
    RunOfBoth(geo, batch, lastId, ops, more);
    var x := Reached(geo, batch, lastId, ops);
    var g0, c0, picks0 := RunHistory(geo, batch, lastId, ops);
    GoodParts(geo, x, g0, c0, picks0);
    MarkUp(geo, x.s, g, c, c.entry);
    var c1 := c.(mark := c.entry);
    NonePicked(x.written, c.entry);
    GoodParts(geo, x, g, c1, []);
    var g', c', picks := RunKeeps(geo, x, g, c1, [], more);
    var y := Reached(geo, batch, lastId, ops + more);
    GoodParts(geo, y, g', c', picks);
    NewPicks([], picks, c.entry);
    PicksLeft(y.delivered, y.written, picks, c'.mark, c.entry);
  }

  /**
   * A lap of rounds and one more, with a gap at the end of every sector and nothing replayed. The cursor is then at the
   * start of the first sector, in front of the newest entry: whatever calls follow, the entries of the whole lap are
   * never delivered, although those of all other sectors stand in the flash.
   */
  lemma LapSkipsBacklog(geo: Geometry, batch: seq<Byte>, lastId: nat, p: seq<Byte>, e: nat, k: nat, more: seq<Op>)
    requires Plan(geo, p, e, k) && k * e < geo.sector && |batch| == geo.batch && lastId < WORD && geo.sectors >= 1
    requires Startable(geo, batch, lastId, more)
    ensures var ops := Rounds(p, Count(k, geo.sectors, 1));
            && Startable(geo, batch, lastId, ops) && Startable(geo, batch, lastId, ops + more)
            && Sized(geo, Reached(geo, batch, lastId, ops).s)
            && var x, y := Reached(geo, batch, lastId, ops), Reached(geo, batch, lastId, ops + more);
               && After(geo, HeadSector(geo, x.s)) < geo.sectors
               && |FlashLog(geo, x.s)| == Count(k, geo.sectors - 1, 1)
                  && x.written == Copies(p, Count(k, geo.sectors, 1))
               && |y.delivered| + Count(k, geo.sectors, 0) <= |y.written|
  {
    hide *;
    PlanParts(geo, p, e, k);
    TwoSectors(geo);
    var ops := Rounds(p, Count(k, geo.sectors, 1));
    var g, c := LappedRun(geo, batch, lastId, p, e, k);
    var s := Reached(geo, batch, lastId, ops).s;
    AroundParts(geo, p, k, g);
    InvParts(geo, s, g, c);
    LogsOf(geo, s, g, c);
    NothingTorn(g);
    OldestInHistory(geo, g);
    AfterFirst(geo, g);
    FullIs(k, g, 1);
    RecordsCount(g, Oldest(geo, g), Whole(g));
    CountIs(k, 1, 0);
    CountIs(k, geo.sectors, 0);
    CountIs(k, geo.sectors, 1);
    CountUp(k, geo.sectors - 1);
    CountIs(k, geo.sectors - 1, 0);
    CountIs(k, geo.sectors - 1, 1);
    NothingBefore(geo, batch, lastId, ops, g, c, more);
  }

  lemma AfterFirst(geo: Geometry, g: History)
    requires g.cur == 0 && geo.sectors > 1
    ensures After(geo, g.cur) == 1
  {
  }
}
