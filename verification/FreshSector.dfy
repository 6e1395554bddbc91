/** Recovery where the current sector holds no whole entry: a flush that erased it was cut before one arrived. */
module FreshSector {
  import opened Bytes
  import opened Entry
  import opened Layout
  import opened LoggerSpec
  import opened Invariant
  import opened Operations
  import opened RecoverySpec
  import opened Recovery
  import opened Scanning
  import opened Conservation
  import opened Runs
  import opened RunRecovery
  import opened Backlog
  import opened ChainScan

  // ---------- Against the history ----------

  /** What arrived of the first entry, if it is eight bytes or more, gives the sector its header. */
  lemma CutIsHeaded(geo: Geometry, mem: seq<Byte>, g: History)
    requires Ranges(geo, g) && LogOk(geo, g) && MemOk(geo, mem, g) && geo.Valid() && |mem| == geo.Size()
    requires g.cur < geo.sectors && g.cur < |g.lo| && g.lo[g.cur] <= g.flushed <= g.tornTo <= |g.raw| == |g.payloads|
    requires g.lo[g.cur] == Whole(g) && CutBytes(g) >= 8
    ensures Headed(geo, mem, g)
  {
    hide *;
    HeadedIs(geo, mem, g);
    EightIsSome();
    CutTail(geo, g);
    var e := g.lo[g.cur];
    RunEmpty(g.raw, e);
    SectorIsContent(geo, mem, g, g.cur);
    var data := Content(geo, g, g.cur)[0..];
    CutHeader(Id(g, e), g.payloads[e], CutBytes(g), data);
    WholeSector(geo, mem, g.cur, data);
    WordInSlice(mem, g.cur * geo.sector, |data|, 0);
    WordInSlice(mem, g.cur * geo.sector, |data|, 4);
    HeaderHasEight(mem, g.cur * geo.sector);
    SectorIdOfHeader(geo, mem, g.cur, g.cur * geo.sector, Id(g, e));
  }

  lemma EightIsSome()
    ensures 8 > 0 && OVERHEAD >= 18 && HEADER_SIZE == 12
  {
  }

  lemma WholeSector(geo: Geometry, mem: seq<Byte>, k: nat, data: seq<Byte>)
    requires geo.Valid() && |mem| == geo.Size() && k < geo.sectors && data == Sector(geo, mem, k)[0..]
    ensures |data| == geo.sector && k * geo.sector + |data| <= |mem|
    ensures mem[k * geo.sector..k * geo.sector + |data|] == data
  {
    SectorInside(geo, k);
  }

  lemma CutHeader(id: nat, payload: seq<Byte>, t: nat, data: seq<Byte>)
    requires id < WORD && |payload| < WORD && t >= 8 && CutShort(id, payload, t, data)
    ensures |data| >= OVERHEAD && WordAt(data, 0) == HEADER_MAGIC && WordAt(data, 4) == id
  {
    hide WordAt, Unpadded, Header, Word;
    var u := Unpadded(id, payload);
    UnpaddedStarts(id, payload);
    SameWordAs(data, 0, u[0..4]);
    SameWordAs(u, 0, u[0..4]);
    SameWordAs(data, 4, u[4..8]);
    SameWordAs(u, 4, u[4..8]);
  }

  lemma UnpaddedStarts(id: nat, payload: seq<Byte>)
    requires id < WORD && |payload| < WORD
    ensures WordAt(Unpadded(id, payload), 0) == HEADER_MAGIC && WordAt(Unpadded(id, payload), 4) == id
  {
    hide WordAt, Header, Tail;
    var u := Unpadded(id, payload);
    var rest := u[HEADER_SIZE..];
    HeaderFields(id, |payload|, rest);
    assert u[..HEADER_SIZE] == Header(id, |payload|);
    assert u == Header(id, |payload|) + rest;
  }

  /** A cut that strays has brought the header along, so the search finds the current sector. */
  lemma StrayIsHeaded(geo: Geometry, mem: seq<Byte>, g: History)
    requires Ranges(geo, g) && LogOk(geo, g) && MemOk(geo, mem, g) && geo.Valid() && |mem| == geo.Size()
    requires g.cur < geo.sectors && g.cur < |g.lo| && g.lo[g.cur] <= g.flushed <= g.tornTo <= |g.raw| == |g.payloads|
    requires g.lo[g.cur] == Whole(g) && Strays(g)
    ensures Headed(geo, mem, g)
  {
    hide *;
    StraysIs(g);
    StrayNeedsNine(|g.payloads[Whole(g)]|, CutBytes(g));
    CutIsHeaded(geo, mem, g);
  }

  lemma StrayNeedsNine(length: nat, t: nat)
    requires CutStrays(length, t)
    ensures t >= 8
  {
  }

  /** The head the search returns is a sector with the id it starts with, or the first sector with the base. */
  lemma {:induction false} SearchIsThere(ids: seq<Option<nat>>, base: nat, low: int, high: int, head: Head)
    requires Words(ids) && base < WORD && 0 <= low && high < |ids| && head.id < WORD && head.sector < |ids|
    requires head == Head(0, base) || ids[head.sector] == Some(head.id)
    ensures var r := SearchFrom(ids, base, low, high, head);
            r == Head(0, base) || ids[r.sector] == Some(r.id)
    decreases high - low + 1
  {
    hide IsNext;
    if low <= high {
      var mid := low + (high - low) / 2;
      if ids[mid].Some? && IsNext(ids[mid].value, base) {
        SearchIsThere(ids, base, mid + 1, high, Head(mid, ids[mid].value));
      } else {
        SearchIsThere(ids, base, low, mid - 1, head);
      }
    }
  }

  lemma HeadIsThere(ids: seq<Option<nat>>)
    requires |ids| > 0 && Words(ids)
    ensures var r := HeadSearch(ids);
            ids[r.sector] == Some(r.id) || (r.sector == 0 && ids[0] == None && r.id == 0)
  {
    hide SearchFrom;
    SearchIsThere(ids, BaseId(ids), 0, |ids| - 1, Head(0, BaseId(ids)));
  }

  /** A head that is not the current sector is an older one, with its first id. */
  lemma HeadIsOlder(geo: Geometry, mem: seq<Byte>, g: History)
    requires Ranges(geo, g) && LogOk(geo, g) && Ring(geo, g) && MemOk(geo, mem, g) && geo.Valid() && |mem| == geo.Size()
    requires g.cur < geo.sectors == |g.lo| == |g.hi|
    ensures |SectorIds(geo, mem)| == geo.sectors && Words(SectorIds(geo, mem))
    ensures var h := HeadSearch(SectorIds(geo, mem));
            h.sector < geo.sectors && (h.sector != g.cur ==> Older(geo, g, h.sector) && h.id == Id(g, g.lo[h.sector]))
  {
    hide *;
    TwoSectors(geo);
    IdsAreWords(geo, mem);
    var ids := SectorIds(geo, mem);
    HeadIsThere(ids);
    var h := HeadSearch(ids);
    SectorIdsAt(geo, mem, h.sector);
    if h.sector != g.cur {
      SectorIdLaw(geo, mem, g, h.sector);
      OlderIs(geo, g, h.sector);
    }
  }

  lemma OlderIs(geo: Geometry, g: History, k: nat)
    ensures Older(geo, g, k) <==> k < geo.sectors && k != g.cur && (k < g.cur || g.lapped)
  {
  }

  /** The scan of a current sector without a whole entry leaves everything as it was. */
  lemma ScanFresh(geo: Geometry, mem: seq<Byte>, g: History, base: nat, processed: nat, writeOffset: nat, highest: nat)
    requires geo.Valid() && |mem| == geo.Size() && highest < WORD && g.cur < geo.sectors && processed < geo.sectors
    requires base == SectorStart(geo, g.cur) && g.cur < |g.lo| && g.flushed <= g.tornTo <= |g.raw| == |g.payloads|
    requires g.lo[g.cur] == g.flushed == Whole(g)
    requires Ranges(geo, g) && LogOk(geo, g) && MemOk(geo, mem, g)
    ensures ScanRing(geo, mem, g.cur, 0, processed, writeOffset, highest) == Scan(writeOffset, highest, true, Strays(g))
  {
    hide *;
    SectorStartIs(geo, g.cur);
    SectorHasHeader(geo);
    SectorIsContent(geo, mem, g, g.cur);
    RunEmpty(g.raw, g.lo[g.cur]);
    ScanTail(geo, g, base, writeOffset, highest);
    RingScanUnfolds(geo, mem, g.cur, 0, processed, writeOffset, highest);
  }

  /** Recovery that starts in the current sector. */
  lemma RecoverAtFresh(geo: Geometry, mem: seq<Byte>, g: History, base: nat)
    requires geo.Valid() && |mem| == geo.Size() && g.cur < geo.sectors && base == SectorStart(geo, g.cur)
    requires g.cur < |g.lo| && g.flushed <= g.tornTo <= |g.raw| == |g.payloads| && g.lo[g.cur] == g.flushed == Whole(g)
    requires HeadSearch(SectorIds(geo, mem)).sector == g.cur
    requires Ranges(geo, g) && LogOk(geo, g) && MemOk(geo, mem, g)
    ensures NO_HINT.lastId < WORD
    ensures Recover(geo, mem, NO_HINT) ==
            if Strays(g) then StrayRead else Recovered(base, HeadSearch(SectorIds(geo, mem)).id)
  {
    hide *;
    NoHintIsUnusable(geo, mem);
    SectorStartIs(geo, g.cur);
    SectorHasHeader(geo);
    EightIsSome();
    TwoSectors(geo);
    var head := HeadSearch(SectorIds(geo, mem));
    RecoverUnfolds(geo, mem, NO_HINT, head, base);
    LinearUnfolds(geo, mem, g.cur, 0, head.id);
    ScanFresh(geo, mem, g, base, 0, base, head.id);
  }

  /** Recovery that starts in an older sector: it ends in the first one with a gap, or in the one before the current. */
  lemma RecoverAtOlder(geo: Geometry, mem: seq<Byte>, g: History, j: nat, off: nat)
    requires geo.Valid() && |mem| == geo.Size() && g.cur < geo.sectors == |g.lo| == |g.hi|
    requires g.flushed <= g.tornTo <= |g.raw| == |g.payloads| && g.lo[g.cur] == g.flushed == Whole(g)
    requires Ranges(geo, g) && Ring(geo, g) && LogOk(geo, g) && MemOk(geo, mem, g)
    requires var h := HeadSearch(SectorIds(geo, mem)); h.sector != g.cur && Older(geo, g, h.sector)
    requires j == StopAt(geo, g, HeadSearch(SectorIds(geo, mem)).sector) < |g.lo| && Between(g.raw, g.lo[j], g.hi[j])
    requires off == SectorStart(geo, j) + EntriesEnd(g, j)
    ensures NO_HINT.lastId < WORD && g.hi[j] >= 1
    ensures Recover(geo, mem, NO_HINT) == Recovered(off, Id(g, g.hi[j] - 1))
  {
    hide *;
    NoHintIsUnusable(geo, mem);
    HeadIsOlder(geo, mem, g);
    var head := HeadSearch(SectorIds(geo, mem));
    var k, base := head.sector, SectorStart(geo, head.sector);
    if Strays(g) {
      StrayIsHeaded(geo, mem, g);
      HeadIsCurrent(geo, mem, g);
      assert false;
    }
    OlderContinues(geo, g, k);
    SectorStartIs(geo, k);
    SectorHasHeader(geo);
    EightIsSome();
    RecoverUnfolds(geo, mem, NO_HINT, head, base);
    LinearUnfolds(geo, mem, k, 0, head.id);
    NextIsNext(g, g.lo[k]);
    InOrder(g.raw, g.lo[k], g.hi[k]);
    InOrder(g.raw, g.lo[k], g.lo[k]);
    RunEmpty(g.raw, g.lo[k]);
    ChainLaw(geo, mem, g, k, g.lo[k], 0, 0, base + 0, head.id);
    ChainEndIs(geo, mem, g, k, Distance(geo, g, k), j);
    IdIsWord(g, g.hi[j] - 1);
    if !Gap(geo, EntriesEnd(g, j)) {
      ScanFresh(geo, mem, g, SectorStart(geo, g.cur), Distance(geo, g, k), off, Id(g, g.hi[j] - 1));
    }
  }

  // ---------- As properties of the flash ----------

  /** Sectors of the ring from `k` to `q`. */
  function Way(geo: Geometry, k: nat, q: nat): nat
    requires k < geo.sectors && q < geo.sectors
  {
    if k <= q then q - k else geo.sectors - k + q
  }

  lemma WayShrinks(geo: Geometry, k: nat, q: nat)
    requires geo.Valid() && k < geo.sectors && q < geo.sectors && k != q
    ensures After(geo, k) < geo.sectors && Way(geo, k, q) == Way(geo, After(geo, k), q) + 1
  {
  }

  /** From sector `k` on, the first sector with room for a header behind its entries, or the one before `q`. */
  function StopSector(geo: Geometry, mem: seq<Byte>, k: nat, q: nat): (j: nat)
    requires geo.Valid() && |mem| == geo.Size() && k < geo.sectors && q < geo.sectors && k != q
    ensures j < geo.sectors
    decreases Way(geo, k, q)
  {
    hide SectorEnd;
    WayShrinks(geo, k, q);
    if Gap(geo, SectorEnd(geo, mem, k)) || After(geo, k) == q then k else StopSector(geo, mem, After(geo, k), q)
  }

  /** The id of the last entry of a sector. */
  function LastIdOf(geo: Geometry, mem: seq<Byte>, k: nat): nat
    requires geo.Valid() && |mem| == geo.Size() && k < geo.sectors
  {
    SmallSector(geo);
    var log := SectorLog(geo.align, Sector(geo, mem, k), 0);
    if log == [] then 0 else log[|log| - 1].id
  }

  /** The end of the entries of sector `k`, and the id of the last of them. */
  function EndOf(geo: Geometry, mem: seq<Byte>, k: nat): Recovered
    requires geo.Valid() && |mem| == geo.Size() && k < geo.sectors
  {
    Recovered(SectorStart(geo, k) + SectorEnd(geo, mem, k), LastIdOf(geo, mem, k))
  }

  lemma EndOfIs(geo: Geometry, mem: seq<Byte>, k: nat)
    requires geo.Valid() && |mem| == geo.Size() && k < geo.sectors
    ensures EndOf(geo, mem, k) == Recovered(SectorStart(geo, k) + SectorEnd(geo, mem, k), LastIdOf(geo, mem, k))
  {
    hide SectorEnd, LastIdOf, SectorStart;
  }

  lemma LastIdIs(geo: Geometry, mem: seq<Byte>, k: nat, log: seq<Record>)
    requires geo.Valid() && |mem| == geo.Size() && k < geo.sectors && log != []
    requires Scannable(geo.align, Sector(geo, mem, k))
    requires log == SectorLog(geo.align, Sector(geo, mem, k), 0)
    ensures LastIdOf(geo, mem, k) == log[|log| - 1].id
  {
    hide SectorLog, Sector;
  }

  /** An older sector, as a reader of the flash finds it. */
  lemma OlderReads(geo: Geometry, s: State, g: History, c: Cursor, k: nat)
    requires Inv(geo, s, g, c) && Ranges(geo, g) && Ring(geo, g) && Older(geo, g, k)
    ensures geo.Valid() && |s.dev.mem| == geo.Size() && k < geo.sectors == |g.lo| == |g.hi|
    ensures Between(g.raw, g.lo[k], g.hi[k]) && g.hi[k] >= 1
    ensures SectorEnd(geo, s.dev.mem, k) == EntriesEnd(g, k) && LastIdOf(geo, s.dev.mem, k) == Id(g, g.hi[k] - 1)
  {
    hide *;
    InvParts(geo, s, g, c);
    FlashParts(geo, s.dev.mem, s.writeOffset, s.lastErased, g);
    OlderContinues(geo, g, k);
    OlderIs(geo, g, k);
    EndOfSector(geo, s, g, c, k);
    EntriesEndIs(g, k);
    SectorReads(geo, s.dev.mem, g, k);
    ReadEndIs(g, k);
    LastRecord(g, g.lo[k], g.hi[k]);
    LastIdIs(geo, s.dev.mem, k, Records(g, g.lo[k], g.hi[k]));
  }

  lemma EntriesEndIs(g: History, k: nat)
    requires k < |g.lo| == |g.hi| && Between(g.raw, g.lo[k], g.hi[k])
    ensures EntriesEnd(g, k) == |Run(g.raw, g.lo[k], g.hi[k])|
  {
  }

  lemma StopSectorUnfolds(geo: Geometry, mem: seq<Byte>, k: nat, q: nat)
    requires geo.Valid() && |mem| == geo.Size() && k < geo.sectors && q < geo.sectors && k != q
    ensures After(geo, k) < geo.sectors
    ensures Gap(geo, SectorEnd(geo, mem, k)) || After(geo, k) == q ==> StopSector(geo, mem, k, q) == k
    ensures !(Gap(geo, SectorEnd(geo, mem, k)) || After(geo, k) == q) ==>
              StopSector(geo, mem, k, q) == StopSector(geo, mem, After(geo, k), q)
  {
    hide SectorEnd, Gap;
    WayShrinks(geo, k, q);
  }

  lemma {:induction false} StopIs(geo: Geometry, s: State, g: History, c: Cursor, k: nat)
    requires Inv(geo, s, g, c) && Ranges(geo, g) && Ring(geo, g) && Older(geo, g, k) && g.cur < geo.sectors
    ensures geo.Valid() && |s.dev.mem| == geo.Size() && k < geo.sectors && k != g.cur
    ensures StopSector(geo, s.dev.mem, k, g.cur) == StopAt(geo, g, k)
    decreases Distance(geo, g, k)
  {
    hide *;
    OlderReads(geo, s, g, c, k);
    OlderIs(geo, g, k);
    OlderContinues(geo, g, k);
    StopAtUnfolds(geo, g, k);
    StopSectorUnfolds(geo, s.dev.mem, k, g.cur);
    if !(Gap(geo, EntriesEnd(g, k)) || After(geo, k) == g.cur) {
      StopIs(geo, s, g, c, After(geo, k));
    }
  }

  /** What recovery returns where sector `q` is the current one and no entry stands wholly in it. */
  function Restart(geo: Geometry, mem: seq<Byte>, q: nat, stray: bool): Recovered
    requires geo.Valid() && |mem| == geo.Size() && q < geo.sectors
  {
    hide EndOf, StopSector;
    var head := HeadSearch(SectorIds(geo, mem));
    if head.sector != q then EndOf(geo, mem, StopSector(geo, mem, head.sector, q))
    else if stray then StrayRead
    else Recovered(SectorStart(geo, q), head.id)
  }

  lemma RestartIs(geo: Geometry, mem: seq<Byte>, q: nat, stray: bool, head: Head)
    requires geo.Valid() && |mem| == geo.Size() && q < geo.sectors && Words(SectorIds(geo, mem))
    requires |SectorIds(geo, mem)| == geo.sectors && head == HeadSearch(SectorIds(geo, mem))
    ensures head.sector < geo.sectors
    ensures head.sector != q ==>
              Restart(geo, mem, q, stray) == EndOf(geo, mem, StopSector(geo, mem, head.sector, q))
    ensures head.sector == q ==>
              Restart(geo, mem, q, stray) == if stray then StrayRead else Recovered(SectorStart(geo, q), head.id)
  {
    hide EndOf, StopSector, SectorIds, HeadSearch;
  }

  lemma StopIsOlder(geo: Geometry, g: History, k: nat)
    requires Ranges(geo, g) && Ring(geo, g) && Older(geo, g, k)
    ensures Older(geo, g, StopAt(geo, g, k))
  {
    hide Run, Ranges, Ring;
  }

  /** Recovery with no whole entry in the current sector, from the state behind the flash. */
  lemma FreshLaw(geo: Geometry, s: State, g: History, c: Cursor)
    requires Inv(geo, s, g, c) && Sized(geo, s) && !HeadHolds(geo, s)
    ensures geo.Valid() && |s.dev.mem| == geo.Size() && g.cur < geo.sectors && NO_HINT.lastId < WORD
    ensures Recover(geo, s.dev.mem, NO_HINT) == Restart(geo, s.dev.mem, g.cur, StrayAhead(geo, s))
  {
    hide *;
    InvParts(geo, s, g, c);
    var mem := s.dev.mem;
    FlashParts(geo, mem, s.writeOffset, s.lastErased, g);
    HeadHoldsLaw(geo, s, g, c);
    StrayLaw(geo, s, g, c);
    HeadIsOlder(geo, mem, g);
    var head := HeadSearch(SectorIds(geo, mem));
    RestartIs(geo, mem, g.cur, StrayAhead(geo, s), head);
    if head.sector == g.cur {
      RecoverAtFresh(geo, mem, g, SectorStart(geo, g.cur));
    } else {
      StopIs(geo, s, g, c, head.sector);
      StopIsOlder(geo, g, head.sector);
      var j := StopAt(geo, g, head.sector);
      OlderReads(geo, s, g, c, j);
      EndOfIs(geo, mem, j);
      RecoverAtOlder(geo, mem, g, j, SectorStart(geo, j) + EntriesEnd(g, j));
    }
  }

  lemma EndInside(geo: Geometry, k: nat, end: nat)
    requires k < geo.sectors && end <= geo.sector
    ensures SectorStart(geo, k) + end <= geo.Size()
  {
    SectorInside(geo, k);
  }

  lemma HeadIdIsWord(ids: seq<Option<nat>>)
    requires |ids| > 0 && Words(ids)
    ensures HeadSearch(ids).id < WORD && HeadSearch(ids).sector < |ids|
  {
    hide SearchFrom;
  }

  /** What recovery returns then is an offset of the partition and an id. */
  lemma FreshInside(geo: Geometry, s: State, g: History, c: Cursor)
    requires Inv(geo, s, g, c) && Sized(geo, s) && !HeadHolds(geo, s) && geo.Valid() && |s.dev.mem| == geo.Size()
    requires NO_HINT.lastId < WORD && Recover(geo, s.dev.mem, NO_HINT).Recovered?
    ensures Recover(geo, s.dev.mem, NO_HINT).writeOffset <= geo.Size() && Recover(geo, s.dev.mem, NO_HINT).lastId < WORD
  {
    hide *;
    InvParts(geo, s, g, c);
    var mem := s.dev.mem;
    FreshLaw(geo, s, g, c);
    HeadIsOlder(geo, mem, g);
    FlashParts(geo, mem, s.writeOffset, s.lastErased, g);
    var head := HeadSearch(SectorIds(geo, mem));
    RestartIs(geo, mem, g.cur, StrayAhead(geo, s), head);
    if head.sector == g.cur {
      HeadIdIsWord(SectorIds(geo, mem));
      EndInside(geo, g.cur, 0);
    } else {
      StopIs(geo, s, g, c, head.sector);
      StopIsOlder(geo, g, head.sector);
      var j := StopAt(geo, g, head.sector);
      OlderReads(geo, s, g, c, j);
      OlderContinues(geo, g, j);
      EntriesEndIs(g, j);
      EndOfIs(geo, mem, j);
      EndInside(geo, j, EntriesEnd(g, j));
      IdIsWord(g, g.hi[j] - 1);
    }
  }

  // ---------- After any run ----------

  /**
   * Recovery after any run that left no whole entry in the current sector: it starts at the sector the head search
   * finds. If that is the current sector, it stays at its start with the id the search met there; otherwise it ends
   * with the entries of the first sector on the way that has room for a header behind them, or of the sector before
   * the current one.
   */
  lemma FreshRecovery(geo: Geometry, batch: seq<Byte>, lastId: nat, ops: seq<Op>)
    requires Startable(geo, batch, lastId, ops) && geo.Valid() && !HeadHolds(geo, Reached(geo, batch, lastId, ops).s)
    ensures var s := Reached(geo, batch, lastId, ops).s;
            && |s.dev.mem| == geo.Size() && HeadSector(geo, s) < geo.sectors
            && Recover(geo, s.dev.mem, NO_HINT) == Restart(geo, s.dev.mem, HeadSector(geo, s), StrayAhead(geo, s))
  {
    hide *;
    StartableParts(geo, batch, lastId, ops);
    var g, c, picks := RunHistory(geo, batch, lastId, ops);
    var x := Reached(geo, batch, lastId, ops);
    GoodParts(geo, x, g, c, picks);
    InvParts(geo, x.s, g, c);
    HeadInUseLaw(geo, x.s, g);
    FreshLaw(geo, x.s, g, c);
  }
}
