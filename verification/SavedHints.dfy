/** Recovery from any hint that points at an entry, saved by the last flush or long before. */
module SavedHints {
  import opened Bytes
  import opened Entry
  import opened Layout
  import opened LoggerSpec
  import opened Invariant
  import opened Operations
  import opened Replay
  import opened RecoverySpec
  import opened Recovery
  import opened Scanning
  import opened HintRecovery
  import opened Conservation
  import opened Runs
  import opened RunRecovery
  import opened Backlog
  import opened ChainScan
  import opened FreshSector

  // ---------- Entries as a reader meets them ----------

  /** A reader of the buffer from `pos` on comes to `at` and finds an entry there. */
  predicate Meets(align: nat, buf: seq<Byte>, pos: nat, at: nat)
    requires Scannable(align, buf)
    decreases |buf| - pos
  {
    && pos + HEADER_SIZE <= |buf| && Validate(buf[pos..], |buf| - pos) == Ok
    && (|| pos == at
        || (ValidEntryAdvances(buf[pos..], |buf| - pos, align);
            Meets(align, buf, pos + EntrySize(WordAt(buf[pos..], 8), align), at)))
  }

  lemma MeetsNothing(align: nat, buf: seq<Byte>, pos: nat, at: nat)
    requires Scannable(align, buf)
    requires pos + HEADER_SIZE <= |buf| ==> Validate(buf[pos..], |buf| - pos) != Ok
    ensures !Meets(align, buf, pos, at)
  {
    hide Validate;
  }

  lemma MeetsOne(align: nat, buf: seq<Byte>, pos: nat, n: nat, id: nat, payload: seq<Byte>, at: nat)
    requires Scannable(align, buf) && pos + n <= |buf| && IsEntry(buf[pos..pos + n], id, payload, align)
    ensures Meets(align, buf, pos, at) <==> pos == at || Meets(align, buf, pos + n, at)
  {
    hide WordAt, Validate, Unpadded, EntrySize;
    var raw, rest := buf[pos..pos + n], buf[pos + n..];
    assert buf[pos..] == raw + rest;
    EntryFields(raw, id, payload, align, rest);
    EntryValidates(raw, id, payload, align, rest, |buf| - pos);
  }

  /** On back-to-back entries with nothing behind them, these are the starts of the entries. */
  lemma {:induction false} MeetsEntries(geo: Geometry, g: History, buf: seq<Byte>, a: nat, e: nat, b: nat, at: nat)
    returns (i: nat)
    requires geo.align >= 1 && EntriesAt(geo, g, buf, a, b) && a <= e <= b <= |g.raw| == |g.payloads|
    requires Scannable(geo.align, buf) && Between(g.raw, a, e) && Between(g.raw, a, b)
    requires |Run(g.raw, a, b)| + HEADER_SIZE <= |buf| ==>
               Validate(buf[|Run(g.raw, a, b)|..], |buf| - |Run(g.raw, a, b)|) != Ok
    requires Meets(geo.align, buf, |Run(g.raw, a, e)|, at)
    ensures e <= i < b && Between(g.raw, a, i) && at == |Run(g.raw, a, i)|
    decreases b - e
  {
    hide *;
    if e == b {
      MeetsNothing(geo.align, buf, |Run(g.raw, a, b)|, at);
      i := e;
      assert false;
    } else {
      EntryAtParts(geo, g, buf, a, b, e);
      InOrder(g.raw, a, e + 1);
      var pos := |Run(g.raw, a, e)|;
      MeetsOne(geo.align, buf, pos, |g.raw[e]|, Id(g, e), g.payloads[e], at);
      if pos == at {
        i := e;
      } else {
        i := MeetsEntries(geo, g, buf, a, e + 1, b, at);
      }
    }
  }

  /** Behind the entries of a sector nothing validates. */
  lemma EndInvalid(geo: Geometry, g: History, k: nat, at: nat)
    requires Ranges(geo, g) && LogOk(geo, g) && geo.Valid() && k < geo.sectors == |g.lo| == |g.hi|
    requires g.flushed <= g.tornTo <= |g.raw| == |g.payloads| && g.lo[g.cur] <= g.flushed
    requires g.lo[k] <= ReadEnd(g, k) <= |g.raw| && Between(g.raw, g.lo[k], ReadEnd(g, k))
    requires at == |Run(g.raw, g.lo[k], ReadEnd(g, k))|
    ensures Scannable(geo.align, Content(geo, g, k))
    ensures at + HEADER_SIZE <= |Content(geo, g, k)| ==>
              Validate(Content(geo, g, k)[at..], |Content(geo, g, k)| - at) != Ok
  {
    hide *;
    ReadEndIs(g, k);
    var buf := Content(geo, g, k);
    SectorScannable(geo, buf);
    InvalidIsNotStray();
    if k == g.cur {
      CurrentBuffer(geo, g);
      CutBytesLaw(g);
      IdIsWord(g, Whole(g));
      SmallSectorBound(geo);
      if CutBytes(g) > 0 {
        CutTail(geo, g);
        CutValidates(Id(g, Whole(g)), g.payloads[Whole(g)], CutBytes(g), buf, at);
      } else if at + HEADER_SIZE <= geo.sector {
        HeaderPositive(at, geo.sector);
        BlankTail(geo, g, at);
        BlankValidates(buf, at);
      }
    } else {
      OldEntries(geo, g, k);
      if at + HEADER_SIZE <= geo.sector {
        BlankValidates(buf, at);
      }
    }
  }

  /** Entries of any sector. */
  lemma SectorEntries(geo: Geometry, g: History, k: nat)
    requires Ranges(geo, g) && LogOk(geo, g) && geo.align >= 1 && k < geo.sectors == |g.lo| == |g.hi|
    requires g.flushed <= g.tornTo <= |g.raw| == |g.payloads| && g.lo[g.cur] <= g.flushed
    ensures g.lo[k] <= ReadEnd(g, k) <= |g.raw| && Between(g.raw, g.lo[k], ReadEnd(g, k))
    ensures EntriesAt(geo, g, Content(geo, g, k), g.lo[k], ReadEnd(g, k))
  {
    hide *;
    ReadEndIs(g, k);
    WholeReaches(g);
    InOrder(g.raw, g.lo[k], ReadEnd(g, k));
    if k == g.cur {
      CurrentBuffer(geo, g);
      CurrentEntries(geo, g);
    } else {
      OldEntries(geo, g, k);
    }
  }

  /** A reader of sector `k` finds an entry at `at`. */
  predicate MeetsIn(geo: Geometry, mem: seq<Byte>, k: nat, at: nat)
    requires geo.Valid() && |mem| == geo.Size() && k < geo.sectors
  {
    SmallSector(geo);
    Meets(geo.align, Sector(geo, mem, k), 0, at)
  }

  /** An entry starts at this offset, as a reader of its sector finds it. */
  predicate OnEntry(geo: Geometry, mem: seq<Byte>, off: nat)
    requires geo.Valid() && |mem| == geo.Size() && geo.sector > 0
  {
    hide MeetsIn;
    off / geo.sector < geo.sectors && MeetsIn(geo, mem, off / geo.sector, off % geo.sector)
  }

  lemma OnEntryIs(geo: Geometry, mem: seq<Byte>, off: nat, k: nat)
    requires geo.Valid() && |mem| == geo.Size() && geo.sector > 0 && k == off / geo.sector
    ensures k < geo.sectors ==> Scannable(geo.align, Sector(geo, mem, k))
    ensures OnEntry(geo, mem, off) <==> k < geo.sectors && Meets(geo.align, Sector(geo, mem, k), 0, off % geo.sector)
  {
    SmallSector(geo);
    hide Meets, Sector;
  }

  lemma GeoIsPositive(geo: Geometry)
    requires geo.Valid()
    ensures geo.sector > 0 && geo.align >= 1
  {
  }

  /** Entry `e` of the history starts at offset `off`, in sector `k`. */
  predicate EntryThere(geo: Geometry, g: History, off: nat, k: nat, e: nat) {
    && k < geo.sectors == |g.lo| == |g.hi| && g.flushed <= g.tornTo <= |g.raw| == |g.payloads|
    && g.lo[k] <= e < ReadEnd(g, k) <= |g.raw| && Between(g.raw, g.lo[k], e)
    && off == SectorStart(geo, k) + |Run(g.raw, g.lo[k], e)|
  }

  lemma EntryThereIs(geo: Geometry, g: History, off: nat, k: nat, e: nat)
    requires k < geo.sectors == |g.lo| == |g.hi| && g.flushed <= g.tornTo <= |g.raw| == |g.payloads|
    requires Between(g.raw, g.lo[k], e)
    ensures EntryThere(geo, g, off, k, e) <==>
              g.lo[k] <= e < ReadEnd(g, k) <= |g.raw| && off == SectorStart(geo, k) + |Run(g.raw, g.lo[k], e)|
  {
    hide Run, ReadEnd, SectorStart;
  }

  lemma EntryThereParts(geo: Geometry, g: History, off: nat, k: nat, e: nat)
    requires EntryThere(geo, g, off, k, e)
    ensures k < geo.sectors == |g.lo| == |g.hi| && g.flushed <= g.tornTo <= |g.raw| == |g.payloads|
    ensures g.lo[k] <= e < ReadEnd(g, k) <= |g.raw| && Between(g.raw, g.lo[k], e)
    ensures off == SectorStart(geo, k) + |Run(g.raw, g.lo[k], e)|
  {
    hide Run, ReadEnd, SectorStart;
  }

  /** Offsets on which a reader finds an entry, against the history. */
  lemma OnEntryLaw(geo: Geometry, mem: seq<Byte>, g: History, off: nat) returns (k: nat, e: nat)
    requires Ranges(geo, g) && LogOk(geo, g) && MemOk(geo, mem, g) && geo.Valid() && |mem| == geo.Size()
    requires g.flushed <= g.tornTo <= |g.raw| == |g.payloads| && g.lo[g.cur] <= g.flushed
    requires geo.sector > 0 && geo.sectors == |g.lo| == |g.hi| && OnEntry(geo, mem, off)
    ensures EntryThere(geo, g, off, k, e) && k == off / geo.sector && off % geo.sector == |Run(g.raw, g.lo[k], e)|
  {
    hide *;
    GeoIsPositive(geo);
    k := off / geo.sector;
    OnEntryIs(geo, mem, off, k);
    SectorIsContent(geo, mem, g, k);
    SectorEntries(geo, g, k);
    var a, b, buf := g.lo[k], ReadEnd(g, k), Content(geo, g, k);
    EndInvalid(geo, g, k, |Run(g.raw, a, b)|);
    InOrder(g.raw, a, b);
    InOrder(g.raw, a, a);
    RunEmpty(g.raw, a);
    e := MeetsEntries(geo, g, buf, a, a, b, off % geo.sector);
    EntryThereIs(geo, g, off, k, e);
    OffsetSplits(geo, off, k);
  }

  lemma OffsetSplits(geo: Geometry, off: nat, k: nat)
    requires geo.Valid() && k == off / geo.sector
    ensures off == SectorStart(geo, k) + off % geo.sector
  {
  }

  // ---------- The scan ----------

  /** Coming from an older sector, the scan goes through the current one to its last whole entry. */
  lemma ScanCurrent(geo: Geometry, mem: seq<Byte>, g: History, base: nat, processed: nat, writeOffset: nat, end: nat)
    requires geo.Valid() && |mem| == geo.Size() && g.cur < geo.sectors == |g.lo| == |g.hi| && processed < geo.sectors
    requires EndsAt(g, end) && g.flushed <= g.tornTo <= |g.raw| == |g.payloads|
    requires 1 <= g.lo[g.cur] && base == SectorStart(geo, g.cur)
    requires Ranges(geo, g) && Ring(geo, g) && LogOk(geo, g) && MemOk(geo, mem, g)
    ensures Whole(g) >= 1
    ensures var r := ScanRing(geo, mem, g.cur, 0, processed, writeOffset, Id(g, g.lo[g.cur] - 1));
            r.writeOffset == base + end && r.highest == Id(g, Whole(g) - 1) && (r.stray <==> Strays(g))
  {
    hide *;
    EndsAtParts(g, end);
    var a := g.lo[g.cur];
    SectorStartIs(geo, g.cur);
    InOrder(g.raw, a, a);
    RunEmpty(g.raw, a);
    IdIsWord(g, a - 1);
    IdIsWord(g, Whole(g) - 1);
    NextIsNext(g, a - 1);
    AfterIsModular(geo, g.cur);
    ScanInCurrent(geo, mem, g, a, 0, end, base, writeOffset, Id(g, a - 1));
    RingScanUnfolds(geo, mem, g.cur, 0, processed, writeOffset, Id(g, a - 1));
    if end + HEADER_SIZE > geo.sector {
      NoStrayAtEnd(geo, g, end);
      ScanBehindCurrent(geo, mem, g, processed + 1, base + end);
    }
  }

  // ---------- Recovery from an entry ----------

  /** An entry that is older than the id it is compared with ends the scan at once. */
  lemma StaysAtOlder(geo: Geometry, mem: seq<Byte>, g: History, off: nat, k: nat, e: nat, pos: nat, lastId: nat)
    requires geo.Valid() && |mem| == geo.Size() && lastId < WORD && EntryThere(geo, g, off, k, e)
    requires k < |g.lo| && Between(g.raw, g.lo[k], e) && pos == |Run(g.raw, g.lo[k], e)| && k < geo.sectors
    requires g.cur < |g.lo| && g.lo[g.cur] <= g.flushed && !IsNext(Id(g, e), lastId)
    requires Ranges(geo, g) && LogOk(geo, g) && MemOk(geo, mem, g)
    ensures ScanRing(geo, mem, k, pos, 0, off, lastId) == Scan(off, lastId, true, false)
  {
    hide *;
    EntryThereParts(geo, g, off, k, e);
    GeoIsPositive(geo);
    TwoSectors(geo);
    SectorScannable(geo, Content(geo, g, k));
    SectorIsContent(geo, mem, g, k);
    SectorEntries(geo, g, k);
    EntryAtParts(geo, g, Content(geo, g, k), g.lo[k], ReadEnd(g, k), e);
    ScanOneEntry(geo.align, Content(geo, g, k), k * geo.sector, pos, |g.raw[e]|, Id(g, e), g.payloads[e], off, lastId);
    RingScanUnfolds(geo, mem, k, pos, 0, off, lastId);
  }

  /** What a scan that gets through the current sector finds. */
  function NewestIn(geo: Geometry, s: State): Recovered
    requires Sized(geo, s) && HeadSector(geo, s) < geo.sectors
  {
    if StrayAhead(geo, s) then StrayRead
    else Recovered(s.writeOffset + ArrivedFrom(geo, s, 0), LastIdOf(geo, s.dev.mem, HeadSector(geo, s)))
  }

  lemma NewestInIs(geo: Geometry, s: State)
    requires Sized(geo, s) && HeadSector(geo, s) < geo.sectors
    ensures NewestIn(geo, s) ==
            if StrayAhead(geo, s) then StrayRead
            else Recovered(s.writeOffset + ArrivedFrom(geo, s, 0), LastIdOf(geo, s.dev.mem, HeadSector(geo, s)))
  {
    hide StrayAhead, ArrivedFrom, LastIdOf, HeadSector;
  }

  /** What recovery returns from an entry of sector `k` that is next in serial order. */
  function FromEntry(geo: Geometry, s: State, k: nat): Recovered
    requires Sized(geo, s) && HeadSector(geo, s) < geo.sectors && k < geo.sectors
  {
    hide HeadSector, StopSector, NewestIn, EndOf, SectorEnd, HeadHolds, StrayAhead;
    var q := HeadSector(geo, s);
    if k == q then NewestIn(geo, s)
    else
      var j := StopSector(geo, s.dev.mem, k, q);
      if Gap(geo, SectorEnd(geo, s.dev.mem, j)) || !(HeadHolds(geo, s) || StrayAhead(geo, s)) then
        EndOf(geo, s.dev.mem, j)
      else NewestIn(geo, s)
  }

  lemma FromEntryIs(geo: Geometry, s: State, k: nat, q: nat)
    requires Sized(geo, s) && q == HeadSector(geo, s) < geo.sectors && k < geo.sectors
    ensures geo.Valid() && |s.dev.mem| == geo.Size()
    ensures k == q ==> FromEntry(geo, s, k) == NewestIn(geo, s)
    ensures k != q ==>
              var j := StopSector(geo, s.dev.mem, k, q);
              FromEntry(geo, s, k) ==
              if Gap(geo, SectorEnd(geo, s.dev.mem, j)) || !(HeadHolds(geo, s) || StrayAhead(geo, s))
              then EndOf(geo, s.dev.mem, j) else NewestIn(geo, s)
  {
    hide HeadSector, StopSector, NewestIn, EndOf, SectorEnd, HeadHolds, StrayAhead, Gap;
  }

  /** `NewestIn` against the history. */
  lemma NewestInLaw(geo: Geometry, s: State, g: History, c: Cursor, end: nat)
    requires g.cur < |g.lo| && g.flushed <= g.tornTo <= |g.raw| == |g.payloads|
    requires Between(g.raw, g.lo[g.cur], Whole(g)) && Inv(geo, s, g, c)
    requires end == SectorStart(geo, g.cur) + |Run(g.raw, g.lo[g.cur], Whole(g))| && g.lo[g.cur] < Whole(g)
    ensures Sized(geo, s) && HeadSector(geo, s) == g.cur < geo.sectors && HeadHolds(geo, s) && Whole(g) >= 1
    ensures NewestIn(geo, s) == if Strays(g) then StrayRead else Recovered(end, Id(g, Whole(g) - 1))
  {
    hide *;
    InvParts(geo, s, g, c);
    FlashParts(geo, s.dev.mem, s.writeOffset, s.lastErased, g);
    HeadInUseLaw(geo, s, g);
    HeadHoldsLaw(geo, s, g, c);
    StrayLaw(geo, s, g, c);
    WriteIs(geo, s.writeOffset, s.lastErased, g);
    SectorStartIs(geo, g.cur);
    BetweenWhole(g);
    InOrder(g.raw, g.flushed, g.flushed);
    ArrivedLaw(geo, s, g, c, g.flushed);
    RunEmpty(g.raw, g.flushed);
    RunAdds(g.raw, g.lo[g.cur], g.flushed, Whole(g));
    SectorReads(geo, s.dev.mem, g, g.cur);
    ReadEndIs(g, g.cur);
    LastRecord(g, g.lo[g.cur], Whole(g));
    LastIdIs(geo, s.dev.mem, g.cur, Records(g, g.lo[g.cur], Whole(g)));
    NewestInIs(geo, s);
  }

  lemma FoundIs(geo: Geometry, mem: seq<Byte>, k: nat, pos: nat, off: nat, lastId: nat, r: Scan)
    requires geo.Valid() && |mem| == geo.Size() && k < geo.sectors && pos < geo.sector && lastId < WORD
    requires off == SectorStart(geo, k) + pos && r == ScanRing(geo, mem, k, pos, 0, off, lastId)
    ensures off < geo.Size()
    ensures Linear(geo, mem, off, lastId) == if r.stray then StrayRead else Recovered(r.writeOffset, r.highest)
  {
    hide ScanRing, Linear;
    LinearUnfolds(geo, mem, k, pos, lastId);
  }

  /** Linear recovery from an entry of the current sector that is next. */
  lemma FromCurrent(geo: Geometry, s: State, g: History, c: Cursor, off: nat, e: nat, pos: nat, lastId: nat)
    requires g.cur < |g.lo| && Between(g.raw, g.lo[g.cur], e) && pos == |Run(g.raw, g.lo[g.cur], e)| < geo.sector
    requires EntryThere(geo, g, off, g.cur, e) && lastId < WORD && IsNext(Id(g, e), lastId) && Inv(geo, s, g, c)
    ensures Sized(geo, s) && HeadSector(geo, s) == g.cur < geo.sectors
    ensures geo.Valid() && |s.dev.mem| == geo.Size() && off < geo.Size()
    ensures Linear(geo, s.dev.mem, off, lastId) == NewestIn(geo, s)
  {
    hide *;
    EntryThereParts(geo, g, off, g.cur, e);
    InvParts(geo, s, g, c);
    var mem := s.dev.mem;
    FlashParts(geo, mem, s.writeOffset, s.lastErased, g);
    ReadEndIs(g, g.cur);
    WholeReaches(g);
    InOrder(g.raw, g.lo[g.cur], Whole(g));
    SectorStartIs(geo, g.cur);
    ScanFromEntry(geo, mem, g, e, off, lastId);
    ScanEndIs(geo, g);
    FoundIs(geo, mem, g.cur, pos, off, lastId, ScanEnd(geo, g));
    NewestInLaw(geo, s, g, c, SectorStart(geo, g.cur) + |Run(g.raw, g.lo[g.cur], Whole(g))|);
  }

  /** What the scan of the current sector makes of an older one's end. */
  lemma IntoCurrent(geo: Geometry, s: State, g: History, c: Cursor, j: nat, processed: nat, off: nat)
    requires Inv(geo, s, g, c) && Ranges(geo, g) && Ring(geo, g) && Older(geo, g, j) && After(geo, j) == g.cur
    requires geo.Valid() && |s.dev.mem| == geo.Size() && processed < geo.sectors && g.cur < geo.sectors
    requires j < |g.lo| == |g.hi| && Between(g.raw, g.lo[j], g.hi[j]) && off == SectorStart(geo, j) + EntriesEnd(g, j)
    requires g.hi[j] >= 1
    ensures Sized(geo, s) && HeadSector(geo, s) == g.cur
    ensures var r := ScanRing(geo, s.dev.mem, g.cur, 0, processed, off, Id(g, g.hi[j] - 1));
            (if r.stray then StrayRead else Recovered(r.writeOffset, r.highest)) ==
            if HeadHolds(geo, s) || StrayAhead(geo, s) then NewestIn(geo, s) else EndOf(geo, s.dev.mem, j)
  {
    hide *;
    InvParts(geo, s, g, c);
    var mem := s.dev.mem;
    FlashParts(geo, mem, s.writeOffset, s.lastErased, g);
    OlderContinues(geo, g, j);
    HeadInUseLaw(geo, s, g);
    HeadHoldsLaw(geo, s, g, c);
    StrayLaw(geo, s, g, c);
    InOrder(g.raw, g.lo[g.cur], Whole(g));
    IdIsWord(g, g.hi[j] - 1);
    if HeadHolds(geo, s) {
      EndsAtFrom(g);
      ScanCurrent(geo, mem, g, SectorStart(geo, g.cur), processed, off, |Run(g.raw, g.lo[g.cur], Whole(g))|);
      NewestInLaw(geo, s, g, c, SectorStart(geo, g.cur) + |Run(g.raw, g.lo[g.cur], Whole(g))|);
    } else {
      ScanFresh(geo, mem, g, SectorStart(geo, g.cur), processed, off, Id(g, g.hi[j] - 1));
      NewestInIs(geo, s);
      OlderReads(geo, s, g, c, j);
      EndOfIs(geo, mem, j);
    }
  }

  /** Linear recovery from an entry of an older sector that is next. */
  lemma FromOlder(geo: Geometry, s: State, g: History, c: Cursor, off: nat, k: nat, e: nat, pos: nat, lastId: nat)
    requires k < |g.lo| && Between(g.raw, g.lo[k], e) && pos == |Run(g.raw, g.lo[k], e)| < geo.sector && k != g.cur
    requires EntryThere(geo, g, off, k, e) && lastId < WORD && IsNext(Id(g, e), lastId) && Inv(geo, s, g, c)
    ensures Sized(geo, s) && HeadSector(geo, s) == g.cur < geo.sectors && k < geo.sectors
    ensures geo.Valid() && |s.dev.mem| == geo.Size() && off < geo.Size()
    ensures Linear(geo, s.dev.mem, off, lastId) == FromEntry(geo, s, k)
  {
    hide *;
    EntryThereParts(geo, g, off, k, e);
    InvParts(geo, s, g, c);
    var mem := s.dev.mem;
    FlashParts(geo, mem, s.writeOffset, s.lastErased, g);
    HeadInUseLaw(geo, s, g);
    ReadEndIs(g, k);
    OldIsOlder(geo, g, k);
    OlderContinues(geo, g, k);
    FromEntryIs(geo, s, k, g.cur);
    StopIs(geo, s, g, c, k);
    StopIsOlder(geo, g, k);
    var j := StopAt(geo, g, k);
    OlderReads(geo, s, g, c, j);
    OlderContinues(geo, g, j);
    EndOfIs(geo, mem, j);
    ChainLaw(geo, mem, g, k, e, pos, 0, off, lastId);
    ChainEndIs(geo, mem, g, k, Distance(geo, g, k), j);
    FoundIs(geo, mem, k, pos, off, lastId, ChainEnd(geo, mem, g, k, Distance(geo, g, k)));
    if !Gap(geo, EntriesEnd(g, j)) {
      StopsBeforeCurrent(geo, g, k);
      IntoCurrent(geo, s, g, c, j, Distance(geo, g, k), SectorStart(geo, j) + EntriesEnd(g, j));
    }
  }

  /** A sector with entries that is not the current one is an older one. */
  lemma OldIsOlder(geo: Geometry, g: History, k: nat)
    requires Ranges(geo, g) && Ring(geo, g) && k < geo.sectors == |g.lo| == |g.hi| && k != g.cur && g.lo[k] < g.hi[k]
    ensures Older(geo, g, k)
  {
    hide Run;
  }

  /** Where the chain stops without a gap, the current sector comes next. */
  lemma {:induction false} StopsBeforeCurrent(geo: Geometry, g: History, k: nat)
    requires Ranges(geo, g) && Ring(geo, g) && Older(geo, g, k)
    ensures var j := StopAt(geo, g, k);
            && j < |g.lo| == |g.hi| && Between(g.raw, g.lo[j], g.hi[j])
            && (Gap(geo, EntriesEnd(g, j)) || After(geo, j) == g.cur)
    decreases Distance(geo, g, k)
  {
    hide *;
    OlderContinues(geo, g, k);
    StopAtUnfolds(geo, g, k);
    if !(Gap(geo, EntriesEnd(g, k)) || After(geo, k) == g.cur) {
      StopsBeforeCurrent(geo, g, After(geo, k));
    }
  }

  // ---------- The law ----------

  /** The header of an entry in the flash. */
  lemma HeaderThere(geo: Geometry, mem: seq<Byte>, g: History, off: nat, k: nat, e: nat, pos: nat)
    requires k < |g.lo| && Between(g.raw, g.lo[k], e) && pos == |Run(g.raw, g.lo[k], e)|
    requires EntryThere(geo, g, off, k, e)
    requires g.cur < |g.lo| && g.lo[g.cur] <= g.flushed && geo.Valid() && |mem| == geo.Size()
    requires Ranges(geo, g) && LogOk(geo, g) && MemOk(geo, mem, g)
    ensures pos < geo.sector && off + HEADER_SIZE <= |mem| && off + 8 <= |mem|
    ensures WordAt(mem, off) == HEADER_MAGIC && WordAt(mem, off + 4) == Id(g, e)
  {
    hide *;
    EntryThereParts(geo, g, off, k, e);
    GeoIsPositive(geo);
    SectorEntries(geo, g, k);
    var buf := Content(geo, g, k);
    EntryAtParts(geo, g, buf, g.lo[k], ReadEnd(g, k), e);
    var n := |g.raw[e]|;
    SectorScannable(geo, buf);
    ContentSize(geo, g, k);
    EntryReaches(buf[pos..pos + n], Id(g, e), g.payloads[e], geo.align);
    OverheadIsPositive();
    SectorStartIs(geo, k);
    ReadInSector(geo, mem, g, k, pos, n);
    EntryWords(mem, off, buf[pos..pos + n], Id(g, e), g.payloads[e], geo.align);
    HeaderHasEight(mem, off);
  }

  lemma ContentSize(geo: Geometry, g: History, k: nat)
    requires Ranges(geo, g) && k < geo.sectors
    ensures |Content(geo, g, k)| == geo.sector
  {
    hide Run;
  }

  /** The id in a header at `off`. */
  function IdAt(mem: seq<Byte>, off: nat): (id: nat)
    ensures id < WORD
  {
    if off + 8 <= |mem| then WordAt(mem, off + 4) else 0
  }

  lemma IdAtIs(mem: seq<Byte>, off: nat)
    requires off + 8 <= |mem|
    ensures IdAt(mem, off) == WordAt(mem, off + 4)
  {
    hide WordAt;
  }

  /** What recovery from a hint on an entry returns. */
  function HintResult(geo: Geometry, s: State, hint: Hint): Recovered
    requires Sized(geo, s) && geo.sector > 0 && HeadSector(geo, s) < geo.sectors && hint.lastId < WORD
  {
    hide FromEntry, HeadSector, IdAt, IsNext;
    var k := hint.writeOffset / geo.sector;
    if k < geo.sectors && IsNext(IdAt(s.dev.mem, hint.writeOffset), hint.lastId) then FromEntry(geo, s, k)
    else Recovered(hint.writeOffset, hint.lastId)
  }

  lemma HintResultIs(geo: Geometry, s: State, hint: Hint, k: nat)
    requires Sized(geo, s) && geo.sector > 0 && HeadSector(geo, s) < geo.sectors && hint.lastId < WORD
    requires k == hint.writeOffset / geo.sector < geo.sectors
    ensures HintResult(geo, s, hint) ==
            if IsNext(IdAt(s.dev.mem, hint.writeOffset), hint.lastId) then FromEntry(geo, s, k)
            else Recovered(hint.writeOffset, hint.lastId)
  {
    hide FromEntry, HeadSector, IdAt, IsNext;
  }

  /** Recovery from a hint that stands on an entry, from the state behind the flash. */
  lemma HintOnEntry(geo: Geometry, s: State, g: History, c: Cursor, hint: Hint)
    requires geo.Valid() && |s.dev.mem| == geo.Size() && geo.sector > 0 && hint.lastId < WORD
    requires OnEntry(geo, s.dev.mem, hint.writeOffset) && hint.writeOffset != 0 && Inv(geo, s, g, c)
    ensures Sized(geo, s) && HeadSector(geo, s) == g.cur < geo.sectors
    ensures Recover(geo, s.dev.mem, hint) == HintResult(geo, s, hint)
  {
    hide *;
    InvParts(geo, s, g, c);
    var mem, off := s.dev.mem, hint.writeOffset;
    FlashParts(geo, mem, s.writeOffset, s.lastErased, g);
    HeadInUseLaw(geo, s, g);
    var k, e := OnEntryLaw(geo, mem, g, off);
    EntryThereParts(geo, g, off, k, e);
    var pos := |Run(g.raw, g.lo[k], e)|;
    HeaderThere(geo, mem, g, off, k, e, pos);
    IdAtIs(mem, off);
    IdIsWord(g, e);
    HintUsableIs(geo, mem, hint);
    RecoverFromHint(geo, mem, hint);
    HintResultIs(geo, s, hint, k);
    if !IsNext(Id(g, e), hint.lastId) {
      StaysAtOlder(geo, mem, g, off, k, e, pos, hint.lastId);
      FoundIs(geo, mem, k, pos, off, hint.lastId, Scan(off, hint.lastId, true, false));
    } else if k == g.cur {
      FromCurrent(geo, s, g, c, off, e, pos, hint.lastId);
      FromEntryIs(geo, s, k, g.cur);
    } else {
      FromOlder(geo, s, g, c, off, k, e, pos, hint.lastId);
    }
  }

  /**
   * Recovery after any run from any hint that stands on an entry, whenever it was saved and whatever became of the
   * flash since: if the id there is not at or after the one of the hint, it stays where it is; otherwise it goes on,
   * through sectors that leave no room for a header, to the first gap or to the last whole entry.
   */
  lemma HintAfterRun(geo: Geometry, batch: seq<Byte>, lastId: nat, ops: seq<Op>, hint: Hint)
    requires Startable(geo, batch, lastId, ops) && geo.Valid() && geo.sector > 0 && hint.lastId < WORD
    requires |Reached(geo, batch, lastId, ops).s.dev.mem| == geo.Size()
    requires hint.writeOffset != 0 && OnEntry(geo, Reached(geo, batch, lastId, ops).s.dev.mem, hint.writeOffset)
    ensures HeadSector(geo, Reached(geo, batch, lastId, ops).s) < geo.sectors
    ensures Recover(geo, Reached(geo, batch, lastId, ops).s.dev.mem, hint) ==
            HintResult(geo, Reached(geo, batch, lastId, ops).s, hint)
  {
    hide *;
    StartableParts(geo, batch, lastId, ops);
    var g, c, picks := RunHistory(geo, batch, lastId, ops);
    var x := Reached(geo, batch, lastId, ops);
    GoodParts(geo, x, g, c, picks);
    HintOnEntry(geo, x.s, g, c, hint);
  }

  // ---------- When it is exact ----------

  /** No sector from `k` on up to `q` has room for a header behind its entries. */
  predicate GaplessWay(geo: Geometry, mem: seq<Byte>, k: nat, q: nat)
    requires geo.Valid() && |mem| == geo.Size() && k < geo.sectors && q < geo.sectors
    decreases Way(geo, k, q)
  {
    hide SectorEnd, Gap;
    k == q || (!Gap(geo, SectorEnd(geo, mem, k)) && (WayShrinks(geo, k, q); GaplessWay(geo, mem, After(geo, k), q)))
  }

  lemma {:induction false} GaplessLaw(geo: Geometry, mem: seq<Byte>, k: nat, q: nat)
    requires geo.Valid() && |mem| == geo.Size() && k < geo.sectors && q < geo.sectors && k != q
    ensures GaplessWay(geo, mem, k, q) <==> !Gap(geo, SectorEnd(geo, mem, StopSector(geo, mem, k, q)))
    decreases Way(geo, k, q)
  {
    hide SectorEnd, Gap;
    WayShrinks(geo, k, q);
    StopSectorUnfolds(geo, mem, k, q);
    if !Gap(geo, SectorEnd(geo, mem, k)) && After(geo, k) != q {
      GaplessLaw(geo, mem, After(geo, k), q);
    }
  }

  lemma GaplessHere(geo: Geometry, mem: seq<Byte>, q: nat)
    requires geo.Valid() && |mem| == geo.Size() && q < geo.sectors
    ensures GaplessWay(geo, mem, q, q)
  {
  }

  /** Offsets in different sectors, neither at the start of its sector. */
  lemma OffsetsDiffer(geo: Geometry, j: nat, k: nat, x: nat, y: nat)
    requires j != k && 0 < x <= geo.sector && 0 < y <= geo.sector
    ensures SectorStart(geo, j) + x != SectorStart(geo, k) + y
  {
    if j < k {
      SectorsApart(geo, j, k);
    } else {
      SectorsApart(geo, k, j);
    }
  }

  /** The end of an older sector is not the end of the current one. */
  lemma OlderEndDiffers(geo: Geometry, s: State, g: History, c: Cursor, j: nat)
    requires Inv(geo, s, g, c) && Sized(geo, s) && HeadHolds(geo, s) && !StrayAhead(geo, s)
    requires Ranges(geo, g) && Ring(geo, g) && Older(geo, g, j) && HeadSector(geo, s) < geo.sectors
    ensures geo.Valid() && |s.dev.mem| == geo.Size() && j < geo.sectors
    ensures EndOf(geo, s.dev.mem, j) != NewestIn(geo, s)
  {
    hide *;
    InvParts(geo, s, g, c);
    FlashParts(geo, s.dev.mem, s.writeOffset, s.lastErased, g);
    HeadHoldsLaw(geo, s, g, c);
    StrayLaw(geo, s, g, c);
    WholeInSector(geo, g);
    OlderReads(geo, s, g, c, j);
    OlderContinues(geo, g, j);
    EntriesEndIs(g, j);
    EntriesNotEmpty(geo, g);
    RunPositive(g.raw, g.lo[j], g.hi[j]);
    RunPositive(g.raw, g.lo[g.cur], Whole(g));
    OlderIs(geo, g, j);
    EndOfIs(geo, s.dev.mem, j);
    var end := |Run(g.raw, g.lo[g.cur], Whole(g))|;
    NewestInLaw(geo, s, g, c, SectorStart(geo, g.cur) + end);
    OffsetsDiffer(geo, j, g.cur, EntriesEnd(g, j), end);
  }

  /** From sector `k` the scan gets into the current sector. */
  predicate LeadsOn(geo: Geometry, s: State, k: nat)
    requires Sized(geo, s) && HeadSector(geo, s) < geo.sectors && k < geo.sectors
  {
    hide GaplessWay, HeadSector;
    GaplessWay(geo, s.dev.mem, k, HeadSector(geo, s))
  }

  /** The hint, in sector `k`, leads to the last whole entry. */
  predicate Exact(geo: Geometry, s: State, hint: Hint, k: nat)
    requires Sized(geo, s) && HeadSector(geo, s) < geo.sectors && k < geo.sectors && hint.lastId < WORD
  {
    hide LeadsOn, HeadSector, IdAt, NewestIn, IsNext;
    if IsNext(IdAt(s.dev.mem, hint.writeOffset), hint.lastId) then LeadsOn(geo, s, k)
    else NewestIn(geo, s) == Recovered(hint.writeOffset, hint.lastId)
  }

  lemma ExactIs(geo: Geometry, s: State, hint: Hint, k: nat, q: nat)
    requires Sized(geo, s) && q == HeadSector(geo, s) < geo.sectors && hint.lastId < WORD && k < geo.sectors
    ensures geo.Valid() && |s.dev.mem| == geo.Size()
    ensures Exact(geo, s, hint, k) <==>
            if IsNext(IdAt(s.dev.mem, hint.writeOffset), hint.lastId) then GaplessWay(geo, s.dev.mem, k, q)
            else NewestIn(geo, s) == Recovered(hint.writeOffset, hint.lastId)
  {
    hide GaplessWay, HeadSector, IdAt, NewestIn, IsNext;
  }

  /**
   * With a whole entry in the current sector and no stray cut, a hint on an entry leads to the last whole entry if and
   * only if the id there is at or after the one of the hint, as it is for a hint saved with a chunk of a single entry,
   * and no sector from there up to the current one leaves room for a header behind its entries. The one other case is
   * a hint that by chance names that end itself.
   */
  lemma HintExactIff(geo: Geometry, batch: seq<Byte>, lastId: nat, ops: seq<Op>, hint: Hint, k: nat)
    requires Startable(geo, batch, lastId, ops) && geo.Valid() && geo.sector > 0 && hint.lastId < WORD
    requires |Reached(geo, batch, lastId, ops).s.dev.mem| == geo.Size() && k == hint.writeOffset / geo.sector
    requires HeadHolds(geo, Reached(geo, batch, lastId, ops).s) && !StrayAhead(geo, Reached(geo, batch, lastId, ops).s)
    requires hint.writeOffset != 0 && OnEntry(geo, Reached(geo, batch, lastId, ops).s.dev.mem, hint.writeOffset)
    ensures HeadSector(geo, Reached(geo, batch, lastId, ops).s) < geo.sectors && k < geo.sectors
    ensures Recover(geo, Reached(geo, batch, lastId, ops).s.dev.mem, hint) ==
            NewestIn(geo, Reached(geo, batch, lastId, ops).s)
            <==> Exact(geo, Reached(geo, batch, lastId, ops).s, hint, k)
  {
    hide *;
    StartableParts(geo, batch, lastId, ops);
    var g, c, picks := RunHistory(geo, batch, lastId, ops);
    var s := Reached(geo, batch, lastId, ops).s;
    GoodParts(geo, Reached(geo, batch, lastId, ops), g, c, picks);
    InvParts(geo, s, g, c);
    var mem, q := s.dev.mem, g.cur;
    FlashParts(geo, mem, s.writeOffset, s.lastErased, g);
    HintOnEntry(geo, s, g, c, hint);
    var _, e := OnEntryLaw(geo, mem, g, hint.writeOffset);
    EntryThereParts(geo, g, hint.writeOffset, k, e);
    HintResultIs(geo, s, hint, k);
    ExactIs(geo, s, hint, k, q);
    FromEntryIs(geo, s, k, q);
    if k == q {
      GaplessHere(geo, mem, q);
    } else {
      ReadEndIs(g, k);
      OldIsOlder(geo, g, k);
      GaplessLaw(geo, mem, k, q);
      StopIs(geo, s, g, c, k);
      StopIsOlder(geo, g, k);
      OlderEndDiffers(geo, s, g, c, StopAt(geo, g, k));
    }
  }
}
