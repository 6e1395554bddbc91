/** Recovery on flash images that no run produced: an erased partition, and arbitrary bytes. */
module AnyFlash {
  import opened Bytes
  import opened Crc
  import opened Entry
  import opened Layout
  import opened LoggerSpec
  import opened RecoverySpec
  import opened Scanning

  // ---------- Erased flash ----------

  lemma BlankWord(n: nat, i: nat)
    requires i + 4 <= n
    ensures WordAt(Blank(n), i) == WORD - 1
  {
    assert Value(ERASED) == 255;
  }

  lemma {:induction false} SearchOfNothing(ids: seq<Option<nat>>, base: nat, low: int, high: int, head: Head)
    requires Words(ids) && base < WORD && 0 <= low && high < |ids| && head.id < WORD && head.sector < |ids|
    requires forall k :: 0 <= k < |ids| ==> ids[k] == None
    ensures SearchFrom(ids, base, low, high, head) == head
    decreases high - low + 1
  {
    if low <= high {
      SearchOfNothing(ids, base, low, low + (high - low) / 2 - 1, head);
    }
  }

  lemma NoIds(geo: Geometry)
    requires geo.Valid()
    ensures forall k :: 0 <= k < geo.sectors ==> SectorIds(geo, Blank(geo.Size()))[k] == None
  {
    hide WordAt;
    forall k | 0 <= k < geo.sectors
      ensures SectorId(geo, Blank(geo.Size()), k) == None
    {
      SectorInside(geo, k);
      BlankWord(geo.Size(), k * geo.sector);
    }
  }

  lemma NothingToScan(geo: Geometry)
    requires geo.Valid()
    ensures Linear(geo, Blank(geo.Size()), 0, 0) == Recovered(0, 0)
  {
    hide WordAt, Validate;
    SmallSector(geo);
    SectorInside(geo, 0);
    var buf := Sector(geo, Blank(geo.Size()), 0);
    assert buf[0..] == buf && buf[0] == ERASED;
    BlankIsNoEntry(buf[0..], |buf| - 0);
  }

  /** A boot on erased flash starts at offset 0 with id 0, whatever hint was saved. */
  lemma ErasedFlashIsEmpty(geo: Geometry, hint: Hint)
    requires geo.Valid() && hint.lastId < WORD
    ensures |Blank(geo.Size())| == geo.Size()
    ensures Recover(geo, Blank(geo.Size()), hint) == Recovered(0, 0)
  {
    hide WordAt, Linear, SearchFrom, SectorIds;
    var ids := SectorIds(geo, Blank(geo.Size()));
    NoIds(geo);
    SearchOfNothing(ids, BaseId(ids), 0, |ids| - 1, Head(0, BaseId(ids)));
    NothingToScan(geo);
    if hint.writeOffset + HEADER_SIZE <= geo.Size() {
      BlankWord(geo.Size(), hint.writeOffset);
    }
  }

  // ---------- Arbitrary bytes ----------

  lemma Quotient(x: nat, p: nat)
    requires p >= 1 && x % p == 0
    ensures x == x / p * p
  {
  }

  lemma MultipleOf(x: nat, p: nat, q: nat)
    requires p >= 1 && x == q * p
    ensures x % p == 0
  {
    DivUnique(x, p, q, 0);
  }

  lemma MulAssoc(a: nat, b: nat, c: nat)
    ensures a * b * c == a * (b * c)
  {
  }

  /** Rounding up to a power of two never skips over one of its multiples. */
  lemma AlignedInside(x: nat, k: nat, bound: nat)
    requires x <= bound && bound % Pow2(k) == 0
    ensures AlignUp(x, Pow2(k)) <= bound && AlignUp(x, Pow2(k)) % Pow2(k) == 0
  {
    hide *;
    Quotient(bound, Pow2(k));
    AlignUpIsLeastMultiple(x, k, bound / Pow2(k));
  }

  lemma SumIsMultiple(x: nat, y: nat, p: nat)
    requires p >= 1 && x % p == 0 && y % p == 0
    ensures (x + y) % p == 0
  {
    var i, j := x / p, y / p;
    Quotient(x, p);
    Quotient(y, p);
    MultipleOf(x + y, p, i + j);
  }

  lemma DifferenceIsMultiple(x: nat, y: nat, p: nat)
    requires p >= 1 && x % p == 0 && y % p == 0 && y <= x
    ensures (x - y) % p == 0
  {
    var i, j := x / p, y / p;
    Quotient(x, p);
    Quotient(y, p);
    if i < j {
      MulLe(i + 1, j, p);
      assert false;
    }
    MultipleOf(x - y, p, i - j);
  }

  lemma SizeOfValid(data: seq<Byte>, k: nat)
    requires |data| < 0xFF00_0000 && Pow2(k) <= 255 && |data| % Pow2(k) == 0
    requires Validate(data, |data|) == Ok
    ensures EntrySize(WordAt(data, 8), Pow2(k)) <= |data| && EntrySize(WordAt(data, 8), Pow2(k)) % Pow2(k) == 0
  {
    hide *;
    ValidTail(data);
    TailSize(data, Pow2(k));
    AlignedInside((HEADER_SIZE + WordAt(data, 8)) % WORD + TAIL_SIZE, k, |data|);
  }

  lemma ValidTail(data: seq<Byte>)
    requires Validate(data, |data|) == Ok
    ensures |data| >= OVERHEAD && (HEADER_SIZE + WordAt(data, 8)) % WORD + TAIL_SIZE <= |data|
    ensures 8 + 4 <= |data| && WORD > 0
  {
    hide WordAt, HalfAt, Crc16;
  }

  /** The entry size is the aligned end of the tail, also where the tail offset has wrapped. */
  lemma TailSize(data: seq<Byte>, p: nat)
    requires |data| >= OVERHEAD && 1 <= p <= 255
    requires (HEADER_SIZE + WordAt(data, 8)) % WORD + TAIL_SIZE <= |data| < 0xFF00_0000
    ensures EntrySize(WordAt(data, 8), p) == AlignUp((HEADER_SIZE + WordAt(data, 8)) % WORD + TAIL_SIZE, p)
  {
    hide WordAt, BitClear, AlignUp;
    AlignUpIs((HEADER_SIZE + WordAt(data, 8)) % WORD + TAIL_SIZE, p);
  }

  lemma AlignUpIs(x: nat, align: nat)
    requires align >= 1
    ensures AlignUp(x, align) == BitClear(x + (align - 1), align - 1)
  {
    hide BitClear;
  }

  /** What a scan of one sector may leave behind. */
  predicate Inside(r: Scan, base: nat, size: nat, writeOffset: nat, p: nat)
    requires p >= 1
  {
    r.writeOffset == writeOffset || (r.writeOffset <= base + size && r.writeOffset % p == 0)
  }

  lemma {:induction false} SectorScanInside(k: nat, buf: seq<Byte>, base: nat, pos: nat, writeOffset: nat, highest: nat)
    requires Scannable(Pow2(k), buf) && highest < WORD && pos <= |buf|
    requires |buf| % Pow2(k) == 0 && base % Pow2(k) == 0 && pos % Pow2(k) == 0
    ensures Inside(ScanSector(Pow2(k), buf, base, pos, writeOffset, highest), base, |buf|, writeOffset, Pow2(k))
    decreases |buf| - pos
  {
    hide WordAt, Validate, EntrySize, Pow2, IsNext;
    if pos + HEADER_SIZE <= |buf| && Validate(buf[pos..], |buf| - pos) == Ok && IsNext(WordAt(buf[pos..], 4), highest) {
      var data := buf[pos..];
      var size := EntrySize(WordAt(data, 8), Pow2(k));
      DifferenceIsMultiple(|buf|, pos, Pow2(k));
      SizeOfValid(data, k);
      ValidEntryAdvances(data, |buf| - pos, Pow2(k));
      SumIsMultiple(pos, size, Pow2(k));
      SumIsMultiple(base, pos + size, Pow2(k));
      SectorScanInside(k, buf, base, pos + size, base + pos + size, WordAt(data, 4));
    }
  }

  lemma SectorStartAligned(geo: Geometry, s: nat, p: nat)
    requires p >= 1 && geo.sector % p == 0
    ensures s * geo.sector % p == 0
  {
    Quotient(geo.sector, p);
    MulAssoc(s, geo.sector / p, p);
    MultipleOf(s * geo.sector, p, s * (geo.sector / p));
  }

  lemma {:induction false} RingScanInside(geo: Geometry, k: nat, mem: seq<Byte>, sector: nat, pos: nat, processed: nat,
                                           writeOffset: nat, highest: nat)
    requires geo.Valid() && |mem| == geo.Size() && sector < geo.sectors && highest < WORD
    requires geo.align == Pow2(k) && geo.sector % geo.align == 0 && pos <= geo.sector && pos % geo.align == 0
    requires writeOffset <= geo.Size() && writeOffset % geo.align == 0
    ensures var r := ScanRing(geo, mem, sector, pos, processed, writeOffset, highest);
            r.writeOffset <= geo.Size() && r.writeOffset % geo.align == 0
    decreases geo.sectors - processed
  {
    hide ScanSector, Pow2;
    if processed < geo.sectors {
      SmallSector(geo);
      SectorInside(geo, sector);
      SectorStartAligned(geo, sector, geo.align);
      var buf := Sector(geo, mem, sector);
      SectorScanInside(k, buf, sector * geo.sector, pos, writeOffset, highest);
      var r := ScanSector(geo.align, buf, sector * geo.sector, pos, writeOffset, highest);
      if !r.done {
        RingScanInside(geo, k, mem, (sector + 1) % geo.sectors, 0, processed + 1, r.writeOffset, r.highest);
      }
    }
  }

  lemma RemainderAligned(x: nat, size: nat, p: nat)
    requires p >= 1 && size > 0 && size % p == 0 && x % p == 0
    ensures x % size % p == 0
  {
    var q := x / size;
    assert x == q * size + x % size;
    Quotient(size, p);
    MulAssoc(q, size / p, p);
    MultipleOf(q * size, p, q * (size / p));
    DifferenceIsMultiple(x, q * size, p);
  }

  lemma LinearIs(geo: Geometry, mem: seq<Byte>, off: nat, id: nat)
    requires geo.Valid() && |mem| == geo.Size() && off < geo.Size() && id < WORD
    ensures geo.sector > 0 && off / geo.sector < geo.sectors && off % geo.sector <= geo.sector && geo.align >= 1
    ensures var r := ScanRing(geo, mem, off / geo.sector, off % geo.sector, 0, off, id);
            Linear(geo, mem, off, id) == if r.stray then StrayRead else Recovered(r.writeOffset, r.highest)
  {
    hide ScanRing;
    OffsetInRing(geo, off);
  }

  lemma LinearInside(geo: Geometry, k: nat, mem: seq<Byte>, off: nat, id: nat)
    requires geo.Valid() && |mem| == geo.Size() && off < geo.Size() && id < WORD
    requires geo.align == Pow2(k) && geo.sector % geo.align == 0 && off % geo.align == 0
    ensures Linear(geo, mem, off, id).Recovered? ==>
              Linear(geo, mem, off, id).writeOffset <= geo.Size()
                  && Linear(geo, mem, off, id).writeOffset % geo.align == 0
  {
    hide *;
    LinearIs(geo, mem, off, id);
    RemainderAligned(off, geo.sector, geo.align);
    RingScanInside(geo, k, mem, off / geo.sector, off % geo.sector, 0, off, id);
  }

  /**
   * Recovery on any flash image and from any hint on an aligned offset: it ends after at most one lap, and the
   * write offset it returns is aligned and not beyond the partition.
   */
  lemma RecoveryStaysInside(geo: Geometry, k: nat, mem: seq<Byte>, hint: Hint)
    requires geo.Valid() && |mem| == geo.Size() && hint.lastId < WORD
    requires geo.align == Pow2(k) && geo.sector % geo.align == 0 && hint.writeOffset % geo.align == 0
    ensures Recover(geo, mem, hint).Recovered? ==>
              Recover(geo, mem, hint).writeOffset <= geo.Size() && Recover(geo, mem, hint).writeOffset % geo.align == 0
  {
    hide Linear, Pow2, HeadSearch, SectorIds, WordAt;
    if HintUsable(geo, mem, hint) {
      LinearInside(geo, k, mem, hint.writeOffset, hint.lastId);
    } else {
      var head := HeadSearch(SectorIds(geo, mem));
      SectorInside(geo, head.sector);
      SectorStartAligned(geo, head.sector, geo.align);
      LinearInside(geo, k, mem, head.sector * geo.sector, head.id);
    }
  }

  // ---------- At most one lap ----------

  /** A flash that never stops a scan: every sector, scanned from its start, ends at its own end with the same id. */
  ghost predicate Endless(geo: Geometry, mem: seq<Byte>, id: nat, ends: seq<nat>)
    requires geo.Valid() && |mem| == geo.Size() && id < WORD && |ends| == geo.sectors
  {
    forall k: nat, off: nat :: k < geo.sectors ==> GoesOn(geo, mem, id, k, off, ends[k])
  }

  predicate GoesOn(geo: Geometry, mem: seq<Byte>, id: nat, k: nat, off: nat, end: nat)
    requires geo.Valid() && |mem| == geo.Size() && id < WORD && k < geo.sectors
  {
    SmallSector(geo);
    ScanSector(geo.align, Sector(geo, mem, k), k * geo.sector, 0, off, id) == Scan(end, id, false, false)
  }

  /** The sector `d` steps on in the ring. */
  function Onward(n: nat, k: nat, d: nat): (r: nat)
    requires k < n
    ensures r < n
    decreases d
  {
    if d == 0 then k else Onward(n, if k + 1 == n then 0 else k + 1, d - 1)
  }

  lemma {:induction false} OnwardIs(n: nat, k: nat, d: nat)
    requires k < n && d < n
    ensures Onward(n, k, d) == if k + d < n then k + d else k + d - n
    decreases d
  {
    if d > 0 {
      OnwardIs(n, if k + 1 == n then 0 else k + 1, d - 1);
    }
  }

  lemma NextInRing(n: nat, k: nat)
    requires k < n
    ensures (k + 1) % n == if k + 1 == n then 0 else k + 1
  {
  }

  lemma GoesOnIs(geo: Geometry, mem: seq<Byte>, id: nat, ends: seq<nat>, k: nat, off: nat)
    requires geo.Valid() && |mem| == geo.Size() && id < WORD && |ends| == geo.sectors && Endless(geo, mem, id, ends)
    requires k < geo.sectors
    ensures Scannable(geo.align, Sector(geo, mem, k))
    ensures ScanSector(geo.align, Sector(geo, mem, k), k * geo.sector, 0, off, id) == Scan(ends[k], id, false, false)
  {
    hide ScanSector, Sector;
    SmallSector(geo);
    assert GoesOn(geo, mem, id, k, off, ends[k]);
  }

  lemma {:induction false} ScanEndless(geo: Geometry, mem: seq<Byte>, id: nat, ends: seq<nat>, k: nat, processed: nat,
                                       off: nat)
    requires geo.Valid() && |mem| == geo.Size() && id < WORD && |ends| == geo.sectors && Endless(geo, mem, id, ends)
    requires k < geo.sectors && processed < geo.sectors
    ensures ScanRing(geo, mem, k, 0, processed, off, id) ==
            Scan(ends[Onward(geo.sectors, k, geo.sectors - processed - 1)], id, false, false)
    decreases geo.sectors - processed
  {
    hide ScanSector, ScanRing, Sector, Endless, GoesOn;
    RingScanUnfolds(geo, mem, k, 0, processed, off, id);
    GoesOnIs(geo, mem, id, ends, k, off);
    NextInRing(geo.sectors, k);
    var next := if k + 1 == geo.sectors then 0 else k + 1;
    if processed + 1 < geo.sectors {
      ScanEndless(geo, mem, id, ends, next, processed + 1, ends[k]);
    } else {
      LapIsOver(geo, mem, next, ends[k], id);
    }
  }

  lemma LapIsOver(geo: Geometry, mem: seq<Byte>, sector: nat, off: nat, id: nat)
    requires geo.Valid() && |mem| == geo.Size() && sector < geo.sectors && id < WORD
    ensures ScanRing(geo, mem, sector, 0, geo.sectors, off, id) == Scan(off, id, false, false)
  {
  }

  lemma LinearAtStart(geo: Geometry, mem: seq<Byte>, k: nat, off: nat, id: nat, end: nat)
    requires geo.Valid() && |mem| == geo.Size() && k < geo.sectors && id < WORD && off < geo.Size()
    requires off / geo.sector == k && off % geo.sector == 0
    requires ScanRing(geo, mem, k, 0, 0, off, id) == Scan(end, id, false, false)
    ensures Linear(geo, mem, off, id) == Recovered(end, id)
  {
    hide ScanRing;
  }

  lemma StartOfSectorAt(geo: Geometry, k: nat, off: nat)
    requires geo.Valid() && k < geo.sectors && off == k * geo.sector
    ensures off < geo.Size() && geo.sector > 0 && off / geo.sector == k && off % geo.sector == 0
  {
    SectorInside(geo, k);
    SectorOfOffset(geo, k, 0);
  }

  /** Even there a scan ends after one lap: at the end of the sector before the one it started in. */
  lemma OneLap(geo: Geometry, mem: seq<Byte>, id: nat, ends: seq<nat>, k: nat, off: nat, last: nat)
    requires geo.Valid() && |mem| == geo.Size() && id < WORD && |ends| == geo.sectors && Endless(geo, mem, id, ends)
    requires k < geo.sectors && off == k * geo.sector && last == if k == 0 then geo.sectors - 1 else k - 1
    ensures off < geo.Size() && Linear(geo, mem, off, id) == Recovered(ends[last], id)
  {
    hide *;
    StartOfSectorAt(geo, k, off);
    ScanEndless(geo, mem, id, ends, k, 0, off);
    OnwardIs(geo.sectors, k, geo.sectors - 1);
    LinearAtStart(geo, mem, k, off, id, ends[last]);
  }
}
