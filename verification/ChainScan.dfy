/** The linear scan from an entry of any sector on: sector by sector, up to the first gap or into the current sector. */
module ChainScan {
  import opened Bytes
  import opened Entry
  import opened Layout
  import opened Invariant
  import opened RecoverySpec
  import opened Scanning
  import opened Conservation

  /** Sector `k` is not the current one and holds entries of this lap or the last. */
  predicate Older(geo: Geometry, g: History, k: nat) {
    k < geo.sectors && k != g.cur && (k < g.cur || g.lapped)
  }

  /** Such a sector holds entries, and the next sector of the ring goes on where it ends. */
  lemma OlderContinues(geo: Geometry, g: History, k: nat)
    requires Ranges(geo, g) && Ring(geo, g) && Older(geo, g, k)
    ensures geo.sectors == |g.lo| == |g.hi| && g.cur < geo.sectors && After(geo, k) < geo.sectors
    ensures g.lo[k] < g.hi[k] == g.lo[After(geo, k)] && Between(g.raw, g.lo[k], g.hi[k])
    ensures Distance(geo, g, k) == Distance(geo, g, After(geo, k)) + 1 <= geo.sectors - 1
    ensures After(geo, k) != g.cur ==> Older(geo, g, After(geo, k))
    ensures |Run(g.raw, g.lo[k], g.hi[k])| <= geo.sector
  {
    hide Run;
    var h := g.hi[k];
    RingContinues(geo, g, k);
  }

  /** Where the entries of sector `k` end. */
  function EntriesEnd(g: History, k: nat): nat
    requires k < |g.lo| == |g.hi| && Between(g.raw, g.lo[k], g.hi[k])
  {
    |Run(g.raw, g.lo[k], g.hi[k])|
  }

  function SectorStart(geo: Geometry, k: nat): nat {
    k * geo.sector
  }

  lemma SectorStartIs(geo: Geometry, k: nat)
    ensures SectorStart(geo, k) == k * geo.sector
  {
  }

  /** Room for a header behind the last entry of the sector. */
  predicate Gap(geo: Geometry, end: nat) {
    end + HEADER_SIZE <= geo.sector
  }

  lemma GapIs(geo: Geometry, end: nat)
    ensures Gap(geo, end) <==> end + HEADER_SIZE <= geo.sector
  {
  }

  /** Entry `e` of sector `k` stands at `pos`, and the entries of the sector end at `end`. */
  predicate Stands(geo: Geometry, g: History, k: nat, e: nat, pos: nat, end: nat) {
    && k < geo.sectors == |g.lo| == |g.hi| && k != g.cur && g.lo[k] <= e < g.hi[k]
    && Between(g.raw, g.lo[k], g.hi[k]) && Between(g.raw, g.lo[k], e)
    && pos == |Run(g.raw, g.lo[k], e)| && end == |Run(g.raw, g.lo[k], g.hi[k])|
  }

  lemma StandsParts(geo: Geometry, g: History, k: nat, e: nat, pos: nat, end: nat)
    requires Stands(geo, g, k, e, pos, end)
    ensures k < geo.sectors == |g.lo| == |g.hi| && k != g.cur && g.lo[k] <= e < g.hi[k] && g.hi[k] >= 1
    ensures Between(g.raw, g.lo[k], g.hi[k]) && Between(g.raw, g.lo[k], e)
    ensures pos == |Run(g.raw, g.lo[k], e)| && end == |Run(g.raw, g.lo[k], g.hi[k])|
  {
    hide Run;
  }

  lemma InvalidIsNotStray()
    ensures InvalidEntry != Stray && InvalidEntry != Ok
  {
  }

  /** The scan behind the last entry of a sector that is not the current one. */
  lemma ScanBehindOld(geo: Geometry, g: History, k: nat, e: nat, pos: nat, end: nat, base: nat, highest: nat)
    requires Ranges(geo, g) && LogOk(geo, g) && geo.Valid() && highest < WORD && Stands(geo, g, k, e, pos, end)
    ensures k < geo.sectors && Scannable(geo.align, Content(geo, g, k))
    ensures ScanSector(geo.align, Content(geo, g, k), base, end, base + end, highest) ==
            Scan(base + end, highest, Gap(geo, end), false)
  {
    hide *;
    StandsParts(geo, g, k, e, pos, end);
    GapIs(geo, end);
    var buf := Content(geo, g, k);
    SectorScannable(geo, buf);
    OldEntries(geo, g, k);
    InvalidIsNotStray();
    if end + HEADER_SIZE <= geo.sector {
      BlankValidates(buf, end);
      ScanNoEntry(geo.align, buf, base, end, base + end, highest);
    } else {
      ScanNoRoom(geo.align, buf, base, end, base + end, highest);
    }
  }

  /** The scan of such a sector from an entry that is next in serial order: through all the entries behind it. */
  lemma ScanOld(geo: Geometry, mem: seq<Byte>, g: History, k: nat, e: nat, pos: nat, end: nat, base: nat,
                writeOffset: nat, highest: nat)
    requires geo.Valid() && |mem| == geo.Size() && Stands(geo, g, k, e, pos, end) && base == SectorStart(geo, k)
    requires Ranges(geo, g) && LogOk(geo, g) && MemOk(geo, mem, g) && highest < WORD && IsNext(Id(g, e), highest)
    ensures k < |g.hi| && k < geo.sectors && g.hi[k] >= 1 && Scannable(geo.align, Sector(geo, mem, k))
    ensures ScanSector(geo.align, Sector(geo, mem, k), base, pos, writeOffset, highest) ==
            Scan(base + end, Id(g, g.hi[k] - 1), Gap(geo, end), false)
  {
    hide *;
    StandsParts(geo, g, k, e, pos, end);
    var buf, a, b := Content(geo, g, k), g.lo[k], g.hi[k];
    SectorScannable(geo, buf);
    SectorIsContent(geo, mem, g, k);
    OldEntries(geo, g, k);
    IdIsWord(g, b - 1);
    ScanEntries(geo, g, buf, base, a, e, b, writeOffset, highest);
    ScanBehindOld(geo, g, k, e, pos, end, base, Id(g, b - 1));
  }

  lemma StandsFrom(geo: Geometry, g: History, k: nat, e: nat)
    requires Ranges(geo, g) && Ring(geo, g) && Older(geo, g, k) && k < |g.lo| == |g.hi| && g.lo[k] <= e < g.hi[k]
    ensures Between(g.raw, g.lo[k], e) && Between(g.raw, g.lo[k], g.hi[k])
    ensures Stands(geo, g, k, e, |Run(g.raw, g.lo[k], e)|, EntriesEnd(g, k))
  {
    hide Run, Ring;
  }

  // ---------- From sector to sector ----------

  /** The sector a scan from sector `k` stops at: the first with a gap, or the last one before the current sector. */
  function StopAt(geo: Geometry, g: History, k: nat): (j: nat)
    requires Ranges(geo, g) && Ring(geo, g) && Older(geo, g, k)
    ensures Older(geo, g, j)
    decreases Distance(geo, g, k)
  {
    OlderContinues(geo, g, k);
    hide Run, Ranges, Ring;
    if Gap(geo, EntriesEnd(g, k)) || After(geo, k) == g.cur then k else StopAt(geo, g, After(geo, k))
  }

  /** What the scan has found when it stops there, or leaves that sector for the current one. */
  function ChainEnd(geo: Geometry, mem: seq<Byte>, g: History, k: nat, processed: nat): Scan
    requires geo.Valid() && |mem| == geo.Size() && Ranges(geo, g) && Ring(geo, g) && Older(geo, g, k)
  {
    var j := StopAt(geo, g, k);
    OlderContinues(geo, g, j);
    hide Run, Ranges, Ring, StopAt;
    var off, id := SectorStart(geo, j) + EntriesEnd(g, j), Id(g, g.hi[j] - 1);
    if Gap(geo, EntriesEnd(g, j)) then Scan(off, id, true, false) else ScanRing(geo, mem, g.cur, 0, processed, off, id)
  }

  lemma StopAtUnfolds(geo: Geometry, g: History, k: nat)
    requires Ranges(geo, g) && Ring(geo, g) && Older(geo, g, k)
    ensures k < |g.lo| == |g.hi| && Between(g.raw, g.lo[k], g.hi[k])
    ensures Gap(geo, EntriesEnd(g, k)) || After(geo, k) == g.cur ==> StopAt(geo, g, k) == k
    ensures !(Gap(geo, EntriesEnd(g, k)) || After(geo, k) == g.cur) ==>
              Older(geo, g, After(geo, k)) && StopAt(geo, g, k) == StopAt(geo, g, After(geo, k))
  {
    OlderContinues(geo, g, k);
    hide Run, Ranges, Ring;
  }

  lemma ChainEndIs(geo: Geometry, mem: seq<Byte>, g: History, k: nat, processed: nat, j: nat)
    requires geo.Valid() && |mem| == geo.Size() && Ranges(geo, g) && Ring(geo, g) && Older(geo, g, k)
    requires j == StopAt(geo, g, k)
    ensures j < |g.lo| == |g.hi| && g.cur < geo.sectors && g.hi[j] >= 1 && Between(g.raw, g.lo[j], g.hi[j])
    ensures Gap(geo, EntriesEnd(g, j)) ==>
              ChainEnd(geo, mem, g, k, processed) ==
              Scan(SectorStart(geo, j) + EntriesEnd(g, j), Id(g, g.hi[j] - 1), true, false)
    ensures !Gap(geo, EntriesEnd(g, j)) ==>
              ChainEnd(geo, mem, g, k, processed) ==
              ScanRing(geo, mem, g.cur, 0, processed, SectorStart(geo, j) + EntriesEnd(g, j), Id(g, g.hi[j] - 1))
  {
    hide Run, Ranges, Ring, StopAt, ScanRing, Gap, Older, SectorStart, EntriesEnd, Id;
    OlderContinues(geo, g, j);
  }

  /** The scan from an entry that is next in serial order, any number of sectors away from the current one. */
  lemma {:induction false} ChainLaw(geo: Geometry, mem: seq<Byte>, g: History, k: nat, e: nat, pos: nat, processed: nat,
                                    writeOffset: nat, highest: nat)
    requires geo.Valid() && |mem| == geo.Size() && highest < WORD && IsNext(Id(g, e), highest)
    requires g.cur < geo.sectors && k < geo.sectors && processed + Distance(geo, g, k) < geo.sectors
    requires Ranges(geo, g) && Ring(geo, g) && LogOk(geo, g) && MemOk(geo, mem, g) && Older(geo, g, k)
    requires k < |g.lo| == |g.hi| && g.lo[k] <= e < g.hi[k] && Between(g.raw, g.lo[k], e)
    requires pos == |Run(g.raw, g.lo[k], e)|
    ensures ScanRing(geo, mem, k, pos, processed, writeOffset, highest) ==
            ChainEnd(geo, mem, g, k, processed + Distance(geo, g, k))
    decreases Distance(geo, g, k)
  {
    hide *;
    OlderContinues(geo, g, k);
    StandsFrom(geo, g, k, e);
    var base, end, q := SectorStart(geo, k), EntriesEnd(g, k), After(geo, k);
    ScanOld(geo, mem, g, k, e, pos, end, base, writeOffset, highest);
    SectorStartIs(geo, k);
    RingScanUnfolds(geo, mem, k, pos, processed, writeOffset, highest);
    AfterIsModular(geo, k);
    IdIsWord(g, g.hi[k] - 1);
    StopAtUnfolds(geo, g, k);
    var all := processed + Distance(geo, g, k);
    if Gap(geo, end) || q == g.cur {
      DistanceZero(geo, g, q);
      ChainEndIs(geo, mem, g, k, all, k);
    } else {
      OlderContinues(geo, g, q);
      NextIsNext(g, g.hi[k] - 1);
      InOrder(g.raw, g.lo[q], g.hi[q]);
      InOrder(g.raw, g.lo[q], g.lo[q]);
      RunEmpty(g.raw, g.lo[q]);
      ChainLaw(geo, mem, g, q, g.lo[q], 0, processed + 1, base + end, Id(g, g.hi[k] - 1));
      ChainEndIs(geo, mem, g, k, all, StopAt(geo, g, k));
      ChainEndIs(geo, mem, g, q, all, StopAt(geo, g, k));
    }
  }
}
