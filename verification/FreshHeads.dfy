/** Where the head search ends, and with it recovery, when no entry stands wholly in the current sector. */
module FreshHeads {
  import opened Bytes
  import opened Entry
  import opened Layout
  import opened LoggerSpec
  import opened Invariant
  import opened Operations
  import opened RecoverySpec
  import opened Recovery
  import opened Scanning
  import opened Conservation
  import opened Runs
  import opened RunRecovery
  import opened Losses
  import opened Backlog
  import opened ChainScan
  import opened SearchPatterns
  import opened FreshSector

  lemma NextIs(ids: seq<Option<nat>>, base: nat, k: nat)
    requires Words(ids) && base < WORD && k < |ids|
    ensures Next(ids, base, k) <==> ids[k].Some? && IsNext(ids[k].value, base)
  {
  }

  // ---------- The current sector is not the first ----------

  /** The search then ends at the current sector if what stands in its header is next, and one before it otherwise. */
  lemma HeadOfLater(geo: Geometry, mem: seq<Byte>, g: History)
    requires Ranges(geo, g) && LogOk(geo, g) && Ring(geo, g) && MemOk(geo, mem, g) && geo.Valid() && |mem| == geo.Size()
    requires 0 < g.cur < geo.sectors == |g.lo| == |g.hi|
    ensures Words(SectorIds(geo, mem)) && |SectorIds(geo, mem)| == geo.sectors
    ensures var ids := SectorIds(geo, mem);
            && ids[0].Some? && ids[0].value < WORD
            && HeadSearch(ids) == HeadAt(ids, if Next(ids, ids[0].value, g.cur) then g.cur else g.cur - 1)
  {
    hide *;
    var ids := SectorIds(geo, mem);
    var base := Id(g, g.lo[0]);
    IdsAreWords(geo, mem);
    IdIsWord(g, g.lo[0]);
    SectorIdsAt(geo, mem, 0);
    SectorIdLaw(geo, mem, g, 0);
    NextIs(ids, base, g.cur);
    var c := if Next(ids, base, g.cur) then g.cur else g.cur - 1;
    forall k: nat | k < |ids|
      ensures k <= c ==> ids[k].Some? && IsNext(ids[k].value, base)
      ensures k > c && ids[k].Some? ==> !IsNext(ids[k].value, base)
    {
      SectorIdsAt(geo, mem, k);
      if k != g.cur {
        SectorIdLaw(geo, mem, g, k);
        if k < g.cur || g.lapped {
          Window(geo, g, k);
          WindowOrder(g, k);
        }
      }
    }
    RotatedFrom(ids, base, c);
    HeadAtIs(ids, c);
  }

  lemma HeadAtIs(ids: seq<Option<nat>>, k: nat)
    requires k < |ids|
    ensures ids[k].Some? ==> HeadAt(ids, k) == Head(k, ids[k].value)
  {
  }

  // ---------- The current sector is the first ----------

  /** On a later lap the ids behind the first sector turn at most once against any base. */
  lemma LapTurnsOnce(geo: Geometry, mem: seq<Byte>, g: History, base: nat)
    requires Ranges(geo, g) && LogOk(geo, g) && Ring(geo, g) && MemOk(geo, mem, g) && geo.Valid() && |mem| == geo.Size()
    requires 0 == g.cur < geo.sectors == |g.lo| == |g.hi| && base < WORD
    ensures Words(SectorIds(geo, mem)) && |SectorIds(geo, mem)| == geo.sectors && OneTurn(SectorIds(geo, mem), base)
  {
    hide *;
    var ids := SectorIds(geo, mem);
    IdsAreWords(geo, mem);
    forall i: nat, j: nat, k: nat | 1 <= i < j < k < |ids| && Next(ids, base, i) != Next(ids, base, j)
      ensures Next(ids, base, k) == Next(ids, base, j)
    {
      IdOfLap(geo, mem, g, base, i);
      IdOfLap(geo, mem, g, base, j);
      IdOfLap(geo, mem, g, base, k);
      if g.lapped {
        LapOrderOf(geo, g, i, j);
        LapOrderOf(geo, g, j, k);
        Window(geo, g, i);
        WindowIs(g, i);
        LapOrderOf(geo, g, i, k);
        IdIs(g, g.lo[i]);
        IdIs(g, g.lo[j]);
        IdIs(g, g.lo[k]);
        ArcTurnsOnce(g.base + 1 + g.lo[i], base, g.lo[j] - g.lo[i], g.lo[k] - g.lo[i]);
      }
    }
    OneTurnFrom(ids, base);
  }

  lemma OneTurnFrom(ids: seq<Option<nat>>, base: nat)
    requires Words(ids) && base < WORD
    requires forall i: nat, j: nat, k: nat | 1 <= i < j < k < |ids| && Next(ids, base, i) != Next(ids, base, j) ::
               Next(ids, base, k) == Next(ids, base, j)
    ensures OneTurn(ids, base)
  {
  }

  lemma IdOfLap(geo: Geometry, mem: seq<Byte>, g: History, base: nat, k: nat)
    requires Ranges(geo, g) && LogOk(geo, g) && Ring(geo, g) && MemOk(geo, mem, g) && geo.Valid() && |mem| == geo.Size()
    requires 0 == g.cur < k < geo.sectors == |g.lo| == |g.hi| && base < WORD
    ensures Words(SectorIds(geo, mem)) && |SectorIds(geo, mem)| == geo.sectors && Id(g, g.lo[k]) < WORD
    ensures Next(SectorIds(geo, mem), base, k) <==> g.lapped && IsNext(Id(g, g.lo[k]), base)
  {
    hide *;
    IdsAreWords(geo, mem);
    IdIsWord(g, g.lo[k]);
    SectorIdsAt(geo, mem, k);
    SectorIdLaw(geo, mem, g, k);
    NextIs(SectorIds(geo, mem), base, k);
  }

  /** Sectors of the older lap, in order. */
  lemma LapOrderOf(geo: Geometry, g: History, i: nat, j: nat)
    requires Ranges(geo, g) && Ring(geo, g) && geo.Valid() && g.cur < geo.sectors && g.lapped
    requires g.cur < i < j < geo.sectors == |g.lo| == |g.hi|
    ensures g.lo[i] < g.lo[j] <= g.lo[g.cur]
  {
    hide *;
    RingParts(geo, g);
    var h := g.hi[i];
    SegmentSpan(geo, g, i, j, j - i + 1);
    Window(geo, g, j);
    WindowIs(g, j);
    SectorRange(geo, g, i);
  }

  /** The head search where the first sector is the current one. */
  lemma HeadOfFirst(geo: Geometry, mem: seq<Byte>, g: History)
    requires Ranges(geo, g) && LogOk(geo, g) && Ring(geo, g) && MemOk(geo, mem, g) && geo.Valid() && |mem| == geo.Size()
    requires 0 == g.cur < geo.sectors == |g.lo| == |g.hi|
    ensures Words(SectorIds(geo, mem)) && |SectorIds(geo, mem)| == geo.sectors
    ensures HeadSearch(SectorIds(geo, mem)) == FoundHead(SectorIds(geo, mem), BaseId(SectorIds(geo, mem)))
  {
    hide *;
    TwoSectors(geo);
    IdsAreWords(geo, mem);
    var ids := SectorIds(geo, mem);
    LapTurnsOnce(geo, mem, g, BaseId(ids));
    HeadOfTurn(ids, BaseId(ids));
  }

  /**
   * Where the head search ends after any run, told from the ids the sectors start with. With the current sector behind
   * the first one: there, if the id it starts with is at or after that of the first sector, and one before otherwise.
   * With the current sector the first one, whatever its header reads (zero without one): if the sectors behind it
   * start with `m > 0` ids in a row that are at or after that base, at the last of these, provided the first sector has
   * a header or one of the probes going down from the last sector is among them; otherwise at the last sector if that
   * in the middle is at or after the base, and at the first one if not.
   */
  lemma HeadAfterRun(geo: Geometry, batch: seq<Byte>, lastId: nat, ops: seq<Op>)
    requires Startable(geo, batch, lastId, ops) && geo.Valid()
    ensures var s := Reached(geo, batch, lastId, ops).s;
            && |s.dev.mem| == geo.Size() && Words(SectorIds(geo, s.dev.mem))
            && var ids, q := SectorIds(geo, s.dev.mem), HeadSector(geo, s);
               && |ids| == geo.sectors > 0 && q < geo.sectors && (q > 0 ==> ids[0].Some? && ids[0].value < WORD)
               && HeadSearch(ids) ==
                  if q == 0 then FoundHead(ids, BaseId(ids))
                  else HeadAt(ids, if Next(ids, ids[0].value, q) then q else q - 1)
  {
    hide *;
    StartableParts(geo, batch, lastId, ops);
    var g, c, picks := RunHistory(geo, batch, lastId, ops);
    var x := Reached(geo, batch, lastId, ops);
    GoodParts(geo, x, g, c, picks);
    InvParts(geo, x.s, g, c);
    FlashParts(geo, x.s.dev.mem, x.s.writeOffset, x.s.lastErased, g);
    HeadInUseLaw(geo, x.s, g);
    TwoSectors(geo);
    if g.cur == 0 {
      HeadOfFirst(geo, x.s.dev.mem, g);
    } else {
      HeadOfLater(geo, x.s.dev.mem, g);
    }
  }

  // ---------- When the newest entry is found ----------

  /** From sector `k` up to the last but one, no sector has room for a header behind its entries. */
  predicate GaplessFrom(geo: Geometry, mem: seq<Byte>, k: nat)
    requires geo.Valid() && |mem| == geo.Size()
  {
    forall i :: k <= i < geo.sectors - 1 ==> !Gap(geo, SectorEnd(geo, mem, i))
  }

  lemma {:induction false} StopsAtLast(geo: Geometry, mem: seq<Byte>, k: nat)
    requires geo.Valid() && |mem| == geo.Size() && 0 < k < geo.sectors
    ensures k <= StopSector(geo, mem, k, 0) < geo.sectors
    ensures StopSector(geo, mem, k, 0) == geo.sectors - 1 <==> GaplessFrom(geo, mem, k)
    decreases geo.sectors - k
  {
    hide SectorEnd, Gap;
    StopSectorUnfolds(geo, mem, k, 0);
    if k + 1 < geo.sectors {
      StopsAtLast(geo, mem, k + 1);
      hide StopSector;
      assert GaplessFrom(geo, mem, k) <==> !Gap(geo, SectorEnd(geo, mem, k)) && GaplessFrom(geo, mem, k + 1);
    }
  }

  /** Ends of different sectors that hold entries are different offsets. */
  lemma EndsDiffer(geo: Geometry, mem: seq<Byte>, j: nat, k: nat)
    requires geo.Valid() && |mem| == geo.Size() && j < k < geo.sectors
    requires SectorEnd(geo, mem, j) <= geo.sector && SectorEnd(geo, mem, k) > 0
    ensures EndOf(geo, mem, j) != EndOf(geo, mem, k)
  {
    hide SectorEnd, LastIdOf;
    SectorsApart(geo, j, k);
  }

  lemma EndIsBehindZero(geo: Geometry, mem: seq<Byte>, k: nat, id: nat)
    requires geo.Valid() && |mem| == geo.Size() && k < geo.sectors && SectorEnd(geo, mem, k) > 0
    ensures EndOf(geo, mem, k) != Recovered(SectorStart(geo, 0), id) && EndOf(geo, mem, k) != StrayRead
  {
    hide SectorEnd, LastIdOf;
  }

  /** On a later lap with nothing in the first sector, every other sector holds entries. */
  lemma LapIsFull(geo: Geometry, s: State, g: History, c: Cursor, k: nat)
    requires Inv(geo, s, g, c) && Sized(geo, s) && !HeadHolds(geo, s) && g.cur == 0 < k < geo.sectors
    requires After(geo, g.cur) < geo.sectors && RingLog(geo, s.dev.mem, After(geo, g.cur), geo.sectors) != []
    ensures geo.Valid() && |s.dev.mem| == geo.Size() && 0 < SectorEnd(geo, s.dev.mem, k) <= geo.sector
  {
    hide *;
    InvParts(geo, s, g, c);
    FlashParts(geo, s.dev.mem, s.writeOffset, s.lastErased, g);
    HeadHoldsLaw(geo, s, g, c);
    FlashIsHistory(geo, s.dev.mem, s.writeOffset, s.lastErased, g);
    if !g.lapped {
      FirstLapIsEmpty(geo, g);
      RecordsSplit(g, g.flushed, g.flushed, g.flushed);
    }
    OlderIs(geo, g, k);
    OlderReads(geo, s, g, c, k);
    OlderContinues(geo, g, k);
    EntriesEndIs(g, k);
    EntriesNotEmpty(geo, g);
    RunPositive(g.raw, g.lo[k], g.hi[k]);
  }

  lemma FirstLapIsEmpty(geo: Geometry, g: History)
    requires Ranges(geo, g) && Ring(geo, g) && g.cur == 0 && g.lo[g.cur] == g.flushed && !g.lapped
    ensures After(geo, g.cur) < geo.sectors == |g.lo| && g.lo[After(geo, g.cur)] == g.flushed
  {
    hide Run;
    var z := g.hi[1];
  }

  /**
   * Recovery on a later lap with no whole entry in the first sector, which is the current one. It gets to the end of
   * the last sector, and so to the newest entry, if and only if the head search does not end at the first sector and no
   * sector from where it ends up to the last but one has room for a header behind its entries.
   */
  lemma LapRecoveredIff(geo: Geometry, batch: seq<Byte>, lastId: nat, ops: seq<Op>)
    requires Startable(geo, batch, lastId, ops) && geo.Valid() && !HeadHolds(geo, Reached(geo, batch, lastId, ops).s)
    requires HeadSector(geo, Reached(geo, batch, lastId, ops).s) == 0 && After(geo, 0) < geo.sectors
    requires FlashLog(geo, Reached(geo, batch, lastId, ops).s) != []
    ensures var mem := Reached(geo, batch, lastId, ops).s.dev.mem;
            && |mem| == geo.Size() && |SectorIds(geo, mem)| == geo.sectors > 1 && Words(SectorIds(geo, mem))
            && var h := HeadSearch(SectorIds(geo, mem)).sector;
               Recover(geo, mem, NO_HINT) == EndOf(geo, mem, geo.sectors - 1) <==> h > 0 && GaplessFrom(geo, mem, h)
  {
    hide *;
    StartableParts(geo, batch, lastId, ops);
    var g, c, picks := RunHistory(geo, batch, lastId, ops);
    var s := Reached(geo, batch, lastId, ops).s;
    GoodParts(geo, Reached(geo, batch, lastId, ops), g, c, picks);
    InvParts(geo, s, g, c);
    HeadInUseLaw(geo, s, g);
    FlashLogIs(geo, s);
    FreshLaw(geo, s, g, c);
    TwoSectors(geo);
    IdsAreWords(geo, s.dev.mem);
    var head := HeadSearch(SectorIds(geo, s.dev.mem));
    RestartIs(geo, s.dev.mem, 0, StrayAhead(geo, s), head);
    var last := geo.sectors - 1;
    LapIsFull(geo, s, g, c, last);
    if head.sector == 0 {
      EndIsBehindZero(geo, s.dev.mem, last, head.id);
    } else {
      StopsAtLast(geo, s.dev.mem, head.sector);
      var j := StopSector(geo, s.dev.mem, head.sector, 0);
      if j < last {
        LapIsFull(geo, s, g, c, j);
        EndsDiffer(geo, s.dev.mem, j, last);
      }
    }
  }

  // ---------- Every run ----------

  /** What a boot without a hint returns, whatever the run. */
  function RecoveredAfter(geo: Geometry, s: State): Recovered
    requires Sized(geo, s) && HeadSector(geo, s) < geo.sectors && After(geo, HeadSector(geo, s)) < geo.sectors
    requires HeadHolds(geo, s) ==> FlashLog(geo, s) != []
  {
    if !HeadHolds(geo, s) then Restart(geo, s.dev.mem, HeadSector(geo, s), StrayAhead(geo, s))
    else if StrayAhead(geo, s) then StrayRead
    else Recovered(s.writeOffset + ArrivedFrom(geo, s, 0), FlashLog(geo, s)[|FlashLog(geo, s)| - 1].id)
  }

  lemma RecoveredAfterIs(geo: Geometry, s: State)
    requires Sized(geo, s) && HeadSector(geo, s) < geo.sectors && After(geo, HeadSector(geo, s)) < geo.sectors
    requires HeadHolds(geo, s) ==> FlashLog(geo, s) != []
    ensures geo.Valid() && |s.dev.mem| == geo.Size()
    ensures !HeadHolds(geo, s) ==>
              RecoveredAfter(geo, s) == Restart(geo, s.dev.mem, HeadSector(geo, s), StrayAhead(geo, s))
    ensures HeadHolds(geo, s) ==>
              RecoveredAfter(geo, s) ==
              if StrayAhead(geo, s) then StrayRead
              else Recovered(s.writeOffset + ArrivedFrom(geo, s, 0), FlashLog(geo, s)[|FlashLog(geo, s)| - 1].id)
  {
    hide HeadHolds, StrayAhead, ArrivedFrom, FlashLog, Restart, HeadSector;
  }

  /** Recovery without a hint after every run, with no condition on what reached the flash. */
  lemma RecoveryAfterRun(geo: Geometry, batch: seq<Byte>, lastId: nat, ops: seq<Op>)
    requires Startable(geo, batch, lastId, ops) && geo.Valid()
    ensures var s := Reached(geo, batch, lastId, ops).s;
            && |s.dev.mem| == geo.Size() && HeadSector(geo, s) < geo.sectors
               && After(geo, HeadSector(geo, s)) < geo.sectors
            && (HeadHolds(geo, s) ==> FlashLog(geo, s) != [])
            && Recover(geo, s.dev.mem, NO_HINT) == RecoveredAfter(geo, s)
  {
    hide *;
    StartableParts(geo, batch, lastId, ops);
    var g, c, picks := RunHistory(geo, batch, lastId, ops);
    var s := Reached(geo, batch, lastId, ops).s;
    GoodParts(geo, Reached(geo, batch, lastId, ops), g, c, picks);
    InvParts(geo, s, g, c);
    HeadInUseLaw(geo, s, g);
    AfterInRing(geo, g.cur);
    FlashLogIs(geo, s);
    if HeadHolds(geo, s) {
      TornRecovery(geo, batch, lastId, ops);
    } else {
      FreshRecovery(geo, batch, lastId, ops);
    }
    RecoveredAfterIs(geo, s);
  }
}
