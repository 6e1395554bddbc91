/** Recovery as functions of the flash image and the saved hint. */
module RecoverySpec {
  import opened Bytes
  import opened Entry
  import opened Layout
  import opened LoggerSpec

  datatype Option<+T> = None | Some(value: T)

  // ---------- Binary search for the head sector ----------

  /** The id in the header that starts sector `k`; `None` for anything without the magic. */
  function SectorId(geo: Geometry, mem: seq<Byte>, k: nat): (r: Option<nat>)
    requires geo.Valid() && |mem| == geo.Size() && k < geo.sectors
    ensures r.Some? ==> r.value < WORD
  {
    SectorInside(geo, k);
    if WordAt(mem, k * geo.sector) == HEADER_MAGIC then Some(WordAt(mem, k * geo.sector + 4)) else None
  }

  function SectorIds(geo: Geometry, mem: seq<Byte>): (ids: seq<Option<nat>>)
    requires geo.Valid() && |mem| == geo.Size()
    ensures |ids| == geo.sectors && Words(ids)
  {
    seq(geo.sectors, k requires 0 <= k < geo.sectors => SectorId(geo, mem, k))
  }

  predicate Words(ids: seq<Option<nat>>) {
    forall k :: 0 <= k < |ids| ==> ids[k].Some? ==> ids[k].value < WORD
  }

  datatype Head = Head(sector: nat, id: nat)

  /** The search loop: `low` and `high` bound the sectors left, `head` is the best so far. */
  function SearchFrom(ids: seq<Option<nat>>, base: nat, low: int, high: int, head: Head): (r: Head)
    requires Words(ids) && base < WORD && 0 <= low && high < |ids| && head.id < WORD && head.sector < |ids|
    ensures r.id < WORD && r.sector < |ids|
    decreases high - low + 1
  {
    if low > high then head
    else
      var mid := low + (high - low) / 2;
      if ids[mid].Some? && IsNext(ids[mid].value, base)
      then SearchFrom(ids, base, mid + 1, high, Head(mid, ids[mid].value))
      else SearchFrom(ids, base, low, mid - 1, head)
  }

  /** The id of the first sector, zero if it has none. */
  function BaseId(ids: seq<Option<nat>>): (r: nat)
    requires |ids| > 0 && Words(ids)
    ensures r < WORD
  {
    if ids[0].Some? then ids[0].value else 0
  }

  function HeadSearch(ids: seq<Option<nat>>): (r: Head)
    requires |ids| > 0 && Words(ids)
    ensures r.id < WORD && r.sector < |ids|
  {
    SearchFrom(ids, BaseId(ids), 0, |ids| - 1, Head(0, BaseId(ids)))
  }

  // ---------- Linear scan ----------

  /** Where a scan stands: offset behind the newest entry, its id, whether the scan is over or left its buffer. */
  datatype Scan = Scan(writeOffset: nat, highest: nat, done: bool, stray: bool)

  predicate Scannable(align: nat, buf: seq<Byte>) {
    1 <= align <= 255 && |buf| < 0xFF00_0000
  }

  /** The scan of one sector buffer whose first byte lies at `base` in the partition. */
  function ScanSector(align: nat, buf: seq<Byte>, base: nat, pos: nat, writeOffset: nat, highest: nat): (r: Scan)
    requires Scannable(align, buf) && highest < WORD
    ensures r.highest < WORD
    decreases |buf| - pos
  {
    if pos + HEADER_SIZE > |buf| then Scan(writeOffset, highest, false, false)
    else
      var err := Validate(buf[pos..], |buf| - pos);
      if err == Stray then Scan(writeOffset, highest, true, true)
      else if err != Ok then Scan(writeOffset, highest, true, false)
      else if !IsNext(WordAt(buf[pos..], 4), highest) then Scan(writeOffset, highest, true, false)
      else
        ValidEntryAdvances(buf[pos..], |buf| - pos, align);
        var size := EntrySize(WordAt(buf[pos..], 8), align);
        ScanSector(align, buf, base, pos + size, base + pos + size, WordAt(buf[pos..], 4))
  }

  /** The scan over the sectors, around the ring, at most one lap. */
  function ScanRing(geo: Geometry, mem: seq<Byte>, sector: nat, pos: nat, processed: nat, writeOffset: nat,
                    highest: nat): (r: Scan)
    requires geo.Valid() && |mem| == geo.Size() && sector < geo.sectors && highest < WORD
    ensures r.highest < WORD
    decreases geo.sectors - processed
  {
    if processed >= geo.sectors then Scan(writeOffset, highest, false, false)
    else
      SmallSector(geo);
      var r := ScanSector(geo.align, Sector(geo, mem, sector), sector * geo.sector, pos, writeOffset, highest);
      if r.done then r
      else ScanRing(geo, mem, (sector + 1) % geo.sectors, 0, processed + 1, r.writeOffset, r.highest)
  }

  lemma SmallSector(geo: Geometry)
    requires geo.Valid()
    ensures geo.sector < 0x8000_0000 && 1 <= geo.align <= 255
  {
    MulLe(2, geo.sectors, geo.sector);
  }

  // ---------- Recovery ----------

  datatype Recovered = Recovered(writeOffset: nat, lastId: nat) | StrayRead

  /** Linear recovery from given parameters. */
  function Linear(geo: Geometry, mem: seq<Byte>, writeOffset: nat, lastId: nat): Recovered
    requires geo.Valid() && |mem| == geo.Size() && writeOffset < geo.Size() && lastId < WORD
  {
    OffsetInRing(geo, writeOffset);
    var r := ScanRing(geo, mem, writeOffset / geo.sector, writeOffset % geo.sector, 0, writeOffset, lastId);
    if r.stray then StrayRead else Recovered(r.writeOffset, r.highest)
  }

  lemma OffsetInRing(geo: Geometry, off: nat)
    requires geo.Valid() && off < geo.Size()
    ensures off / geo.sector < geo.sectors
  {
    var k := off / geo.sector;
    if k >= geo.sectors {
      MulLe(geo.sectors, k, geo.sector);
    }
  }

  /** True iff the hint is not the default and a header magic stands at its offset. */
  predicate HintUsable(geo: Geometry, mem: seq<Byte>, hint: Hint)
    requires |mem| == geo.Size()
  {
    hint.writeOffset != 0 && hint.writeOffset + HEADER_SIZE <= geo.Size()
        && WordAt(mem, hint.writeOffset) == HEADER_MAGIC
  }

  /** Recovery of write offset and last id at boot: from the hint if usable, else from the head sector. */
  function Recover(geo: Geometry, mem: seq<Byte>, hint: Hint): Recovered
    requires geo.Valid() && |mem| == geo.Size() && hint.lastId < WORD
  {
    if HintUsable(geo, mem, hint) then Linear(geo, mem, hint.writeOffset, hint.lastId)
    else
      var head := HeadSearch(SectorIds(geo, mem));
      SectorInside(geo, head.sector);
      Linear(geo, mem, head.sector * geo.sector, head.id)
  }
}
