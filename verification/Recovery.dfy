/** What recovery finds on the flash of any reachable logger, whole or cut by a failed write. */
module Recovery {
  import opened Bytes
  import opened Entry
  import opened Layout
  import opened Invariant
  import opened Replay
  import opened RecoverySpec

  // ---------- Head search ----------

  /** Sectors up to `c` start with ids at or after the base, those behind with older ids or none. */
  predicate Rotated(ids: seq<Option<nat>>, base: nat, c: nat)
    requires Words(ids) && base < WORD
  {
    && c < |ids|
    && (forall k :: 0 <= k <= c ==> ids[k].Some? && IsNext(ids[k].value, base))
    && (forall k :: c < k < |ids| ==> ids[k].Some? ==> !IsNext(ids[k].value, base))
  }

  lemma {:induction false} SearchFindsHead(ids: seq<Option<nat>>, base: nat, c: nat, low: int, high: int, head: Head)
    requires Words(ids) && base < WORD && Rotated(ids, base, c)
    requires 0 <= low <= c + 1 && c <= high < |ids| && head.id < WORD && head.sector < |ids|
    requires low > 0 ==> head == Head(low - 1, ids[low - 1].value)
    ensures SearchFrom(ids, base, low, high, head) == Head(c, ids[c].value)
    decreases high - low + 1
  {
    if low <= high {
      var mid := low + (high - low) / 2;
      if ids[mid].Some? && IsNext(ids[mid].value, base) {
        SearchFindsHead(ids, base, c, mid + 1, high, Head(mid, ids[mid].value));
      } else {
        SearchFindsHead(ids, base, c, low, mid - 1, head);
      }
    }
  }

  /**
   * The binary search on any rotated array of sector-first ids returns the last sector of the current lap.
   * The order is the serial order of RFC 1982 section 3.2, with equality counting as next.
   */
  lemma HeadFound(ids: seq<Option<nat>>, c: nat)
    requires |ids| > 0 && Words(ids) && Rotated(ids, BaseId(ids), c)
    ensures HeadSearch(ids) == Head(c, ids[c].value)
  {
    SearchFindsHead(ids, BaseId(ids), c, 0, |ids| - 1, Head(0, BaseId(ids)));
  }

  // ---------- Ids of a window of the history ----------

  /** Inside a window of 2^31 entries the serial order of ids is the order of the history. */
  lemma SerialOrder(g: History, i: nat, j: nat)
    requires i < j + 0x8000_0000 && j < i + 0x8000_0000
    ensures IsNext(Id(g, i), Id(g, j)) <==> i >= j
  {
    var a, b := g.base + 1 + i, g.base + 1 + j;
    ModDifference(a, b);
    if i >= j {
      assert (a - b) % WORD == a - b;
    } else {
      assert (a - b) % WORD == a - b + WORD;
    }
  }

  lemma ModDifference(a: int, b: int)
    ensures (a % WORD - b % WORD) % WORD == (a - b) % WORD
  {
  }

  // ---------- How many entries a lap can hold ----------

  lemma {:induction false} RunCount(raw: seq<seq<Byte>>, a: nat, b: nat)
    requires Between(raw, a, b) && forall i :: 0 <= i < |raw| ==> |raw[i]| > OVERHEAD
    ensures (OVERHEAD + 1) * (b - a) <= |Run(raw, a, b)|
  {
    FlatCount(raw[a..b], OVERHEAD + 1);
  }

  lemma SectorRange(geo: Geometry, g: History, k: nat)
    requires Ranges(geo, g) && k < geo.sectors
    ensures k < |g.lo| == |g.hi| && g.lo[k] <= g.hi[k] && 19 * (g.hi[k] - g.lo[k]) <= geo.sector
  {
    RunCount(g.raw, g.lo[k], g.hi[k]);
    hide Run;
  }

  /** The bytes of `m` sectors. */
  function SectorBytes(geo: Geometry, m: nat): nat {
    m * geo.sector
  }

  lemma SpanStep(geo: Geometry, x: int, y: int, m: nat)
    requires 19 * x <= SectorBytes(geo, m) && 19 * y <= geo.sector
    ensures 19 * (x + y) <= SectorBytes(geo, m + 1)
  {
    assert (m + 1) * geo.sector == m * geo.sector + geo.sector;
  }

  /** The history range of consecutive sectors is bounded by their bytes. */
  lemma {:induction false} SegmentSpan(geo: Geometry, g: History, i: nat, j: nat, m: nat)
    requires Ranges(geo, g) && i <= j < geo.sectors == |g.lo| == |g.hi| && m == j - i + 1
    requires forall k :: i <= k < j ==> g.hi[k] == g.lo[k + 1]
    ensures g.lo[i] <= g.lo[j] <= g.hi[j] && 19 * (g.hi[j] - g.lo[i]) <= SectorBytes(geo, m)
    ensures i < j ==> g.hi[i] <= g.lo[j]
    decreases j - i
  {
    hide *;
    SectorRange(geo, g, j);
    if i < j {
      SegmentSpan(geo, g, i, j - 1, m - 1);
      SpanStep(geo, g.hi[j - 1] - g.lo[i], g.hi[j] - g.lo[j], m - 1);
      SectorRange(geo, g, i);
    } else {
      NoSectorBytes(geo);
      SpanStep(geo, 0, g.hi[j] - g.lo[j], 0);
    }
  }

  lemma NoSectorBytes(geo: Geometry)
    ensures SectorBytes(geo, 0) == 0
  {
  }

  /** A sector's first entry, seen from the first entry of the partition and from the newest. */
  predicate InWindow(g: History, k: nat)
    requires k < |g.lo| && g.cur < |g.lo|
  {
    && g.lo[0] <= g.lo[g.cur] <= g.flushed < g.lo[0] + 0x1000_0000
    && g.flushed < g.lo[k] + 0x1000_0000
    && (k <= g.cur ==> g.lo[0] <= g.lo[k] <= g.flushed)
    && (k > g.cur && g.lapped ==> g.lo[k] < g.lo[0])
    && (k != g.cur && (k < g.cur || g.lapped) ==> g.lo[k] < g.lo[g.cur])
  }

  lemma RingParts(geo: Geometry, g: History)
    requires Ranges(geo, g) && Ring(geo, g)
    ensures geo.sectors == |g.lo| == |g.hi| && g.cur < geo.sectors && g.hi[g.cur] == g.flushed
    ensures forall k {:trigger g.hi[k]} :: 0 <= k < g.cur ==> g.lo[k] < g.hi[k] && g.hi[k] == g.lo[k + 1]
    ensures g.lapped ==> forall k {:trigger g.hi[k]} :: g.cur < k < geo.sectors ==> g.lo[k] < g.hi[k]
    ensures g.lapped ==> forall k :: g.cur < k < geo.sectors - 1 ==> g.hi[k] == g.lo[k + 1]
    ensures g.lapped && g.cur < geo.sectors - 1 ==> g.hi[geo.sectors - 1] == g.lo[0]
    ensures !g.lapped ==> forall k {:trigger g.hi[k]} :: g.cur < k < geo.sectors ==> g.lo[k] == g.hi[k]
  {
    hide Run;
  }

  lemma SpanOfPartition(geo: Geometry, x: int, m: nat)
    requires geo.Valid() && m <= geo.sectors && 19 * x <= SectorBytes(geo, m)
    ensures x < 0x1000_0000
  {
    MulLe(m, geo.sectors, geo.sector);
  }

  lemma TwoSpans(geo: Geometry, x: int, y: int, m: nat, n: nat)
    requires geo.Valid() && m + n <= geo.sectors && 19 * x <= SectorBytes(geo, m) && 19 * y <= SectorBytes(geo, n)
    ensures x + y < 0x1000_0000
  {
    assert m * geo.sector + n * geo.sector == (m + n) * geo.sector;
    SpanOfPartition(geo, x + y, m + n);
  }

  lemma WindowOfLap(geo: Geometry, g: History, k: nat)
    requires Ranges(geo, g) && Ring(geo, g) && geo.Valid() && k <= g.cur < geo.sectors == |g.lo| == |g.hi|
    ensures g.lo[0] <= g.lo[k] <= g.lo[g.cur] <= g.flushed < g.lo[0] + 0x1000_0000
    ensures k < g.cur ==> g.lo[k] < g.lo[g.cur]
  {
    hide *;
    RingParts(geo, g);
    SegmentSpan(geo, g, 0, g.cur, g.cur + 1);
    SpanOfPartition(geo, g.flushed - g.lo[0], g.cur + 1);
    SegmentSpan(geo, g, 0, k, k + 1);
    SegmentSpan(geo, g, k, g.cur, g.cur - k + 1);
  }

  lemma WindowOfOldLap(geo: Geometry, g: History, k: nat)
    requires Ranges(geo, g) && Ring(geo, g) && geo.Valid() && g.cur < k < geo.sectors == |g.lo| == |g.hi|
    requires g.lapped
    ensures g.lo[k] < g.lo[0] <= g.lo[g.cur] <= g.flushed < g.lo[k] + 0x1000_0000
  {
    hide *;
    RingParts(geo, g);
    SegmentSpan(geo, g, 0, g.cur, g.cur + 1);
    var last, m, n := geo.sectors - 1, geo.sectors - k, g.cur + 1;
    SegmentSpan(geo, g, k, last, m);
    assert g.hi[last] == g.lo[0];
    var x, y := g.flushed - g.lo[0], g.lo[0] - g.lo[k];
    TwoSpans(geo, x, y, n, m);
  }

  lemma Window(geo: Geometry, g: History, k: nat)
    requires Ranges(geo, g) && Ring(geo, g) && geo.Valid() && k < geo.sectors == |g.lo| == |g.hi| && g.cur < |g.lo|
    requires k <= g.cur || g.lapped
    ensures InWindow(g, k)
  {
    hide Ranges, Ring;
    if k <= g.cur {
      WindowOfLap(geo, g, k);
    } else {
      WindowOfOldLap(geo, g, k);
    }
  }

  // ---------- What the sectors start with ----------

  lemma WordInSlice(mem: seq<Byte>, off: nat, n: nat, i: nat)
    requires off + n <= |mem| && i + 4 <= n
    ensures WordAt(mem, off + i) == WordAt(mem[off..off + n], i)
  {
  }

  /** The header fields of an entry somewhere in the flash. */
  lemma EntryWords(mem: seq<Byte>, off: nat, raw: seq<Byte>, id: nat, payload: seq<Byte>, align: nat)
    requires IsEntry(raw, id, payload, align) && off + |raw| <= |mem| && mem[off..off + |raw|] == raw
    ensures off + HEADER_SIZE <= |mem| && WordAt(mem, off) == HEADER_MAGIC && WordAt(mem, off + 4) == id
  {
    hide WordAt, EntrySize, Unpadded;
    EntryFields(raw, id, payload, align, []);
    assert raw + [] == raw;
    WordInSlice(mem, off, |raw|, 0);
    WordInSlice(mem, off, |raw|, 4);
  }

  lemma SectorIdOfHeader(geo: Geometry, mem: seq<Byte>, k: nat, off: nat, id: nat)
    requires geo.Valid() && |mem| == geo.Size() && k < geo.sectors && off == k * geo.sector && off + 8 <= |mem|
    requires WordAt(mem, off) == HEADER_MAGIC && WordAt(mem, off + 4) == id
    ensures SectorId(geo, mem, k) == Some(id)
  {
    hide WordAt;
  }

  lemma EntryIs(geo: Geometry, g: History, e: nat)
    requires LogOk(geo, g) && e < |g.raw|
    ensures |g.raw| == |g.payloads| && geo.align >= 1 && IsEntry(g.raw[e], Id(g, e), g.payloads[e], geo.align)
    ensures |g.raw[e]| <= geo.batch
  {
    hide IsEntry;
  }

  lemma SectorIdOfBlank(geo: Geometry, mem: seq<Byte>, k: nat)
    requires geo.Valid() && |mem| == geo.Size() && k < geo.sectors
    requires k * geo.sector < |mem| && mem[k * geo.sector] == ERASED
    ensures SectorId(geo, mem, k) == None
  {
    hide WordAt;
    SectorInside(geo, k);
    if WordAt(mem, k * geo.sector) == HEADER_MAGIC {
      HeaderMagicBytes(mem, k * geo.sector);
    }
  }

  /** The bytes of the first entry of sector `k`. */
  lemma FirstEntryBytes(geo: Geometry, mem: seq<Byte>, g: History, k: nat)
    requires Ranges(geo, g) && MemOk(geo, mem, g) && k < geo.sectors && g.lo[k] < g.hi[k]
    ensures g.lo[k] < |g.raw| && k * geo.sector + |g.raw[g.lo[k]]| <= |mem|
    ensures mem[k * geo.sector..k * geo.sector + |g.raw[g.lo[k]]|] == g.raw[g.lo[k]]
  {
    ContentAt(geo, g, k, g.lo[k]);
    RunEmpty(g.raw, g.lo[k]);
    hide Run, Content, MemOk;
    ReadInSector(geo, mem, g, k, 0, |g.raw[g.lo[k]]|);
  }

  lemma EmptySectorBytes(geo: Geometry, mem: seq<Byte>, g: History, k: nat)
    requires Ranges(geo, g) && MemOk(geo, mem, g) && k < geo.sectors && k != g.cur && g.lo[k] == g.hi[k]
    ensures k * geo.sector < |mem| && mem[k * geo.sector] == ERASED
  {
    RunEmpty(g.raw, g.lo[k]);
    ContentBehind(geo, g, k);
    hide Run, Content, MemOk;
    ReadInSector(geo, mem, g, k, 0, 1);
    assert mem[k * geo.sector] == mem[k * geo.sector..k * geo.sector + 1][0];
  }

  /** The current sector starts with the header of the entry that belongs there, written whole or cut behind its id. */
  predicate Headed(geo: Geometry, mem: seq<Byte>, g: History)
    requires geo.Valid() && |mem| == geo.Size() && g.cur < geo.sectors && g.cur < |g.lo|
  {
    SectorId(geo, mem, g.cur) == Some(Id(g, g.lo[g.cur]))
  }

  /** Sector ids on the flash of a reachable logger; the current sector may be empty. */
  lemma SectorIdLaw(geo: Geometry, mem: seq<Byte>, g: History, k: nat)
    requires Ranges(geo, g) && LogOk(geo, g) && Ring(geo, g) && MemOk(geo, mem, g)
    requires geo.Valid() && |mem| == geo.Size() && k < geo.sectors == |g.lo| == |g.hi|
    requires k == g.cur ==> g.lo[k] < g.hi[k]
    ensures k <= g.cur || g.lapped ==> SectorId(geo, mem, k) == Some(Id(g, g.lo[k]))
    ensures k > g.cur && !g.lapped ==> SectorId(geo, mem, k) == None
  {
    hide *;
    RingParts(geo, g);
    var h := g.hi[k];
    if k <= g.cur || g.lapped {
      var e := g.lo[k];
      FirstEntryBytes(geo, mem, g, k);
      EntryIs(geo, g, e);
      EntryWords(mem, k * geo.sector, g.raw[e], Id(g, e), g.payloads[e], geo.align);
      HeaderHasEight(mem, k * geo.sector);
      SectorIdOfHeader(geo, mem, k, k * geo.sector, Id(g, e));
    } else {
      EmptySectorBytes(geo, mem, g, k);
      SectorIdOfBlank(geo, mem, k);
    }
  }

  lemma HeadedIs(geo: Geometry, mem: seq<Byte>, g: History)
    requires geo.Valid() && |mem| == geo.Size() && g.cur < geo.sectors && g.cur < |g.lo|
    ensures Headed(geo, mem, g) <==> SectorId(geo, mem, g.cur) == Some(Id(g, g.lo[g.cur]))
  {
  }

  lemma HeaderHasEight(mem: seq<Byte>, off: nat)
    requires off + HEADER_SIZE <= |mem|
    ensures off + 8 <= |mem|
  {
  }

  lemma WindowOrder(g: History, k: nat)
    requires k < |g.lo| && g.cur < |g.lo| && InWindow(g, k) && (k > g.cur ==> g.lapped)
    ensures IsNext(Id(g, g.lo[k]), Id(g, g.lo[0])) <==> k <= g.cur
  {
    hide Id, IsNext;
    SerialOrder(g, g.lo[k], g.lo[0]);
  }

  lemma SectorIdsAt(geo: Geometry, mem: seq<Byte>, k: nat)
    requires geo.Valid() && |mem| == geo.Size() && k < geo.sectors
    ensures |SectorIds(geo, mem)| == geo.sectors && SectorIds(geo, mem)[k] == SectorId(geo, mem, k)
  {
    hide SectorId;
  }

  /** Sector `k` in the order of the search: at or after the base up to the current sector, older or empty behind it. */
  lemma SectorRotated(geo: Geometry, mem: seq<Byte>, g: History, k: nat)
    requires Ranges(geo, g) && LogOk(geo, g) && Ring(geo, g) && MemOk(geo, mem, g)
    requires geo.Valid() && |mem| == geo.Size() && k < geo.sectors == |g.lo| == |g.hi| && g.cur < |g.lo|
    requires Headed(geo, mem, g)
    ensures k <= g.cur ==> SectorId(geo, mem, k) == Some(Id(g, g.lo[k])) && IsNext(Id(g, g.lo[k]), Id(g, g.lo[0]))
    ensures k > g.cur && SectorId(geo, mem, k).Some? ==> !IsNext(SectorId(geo, mem, k).value, Id(g, g.lo[0]))
  {
    hide *;
    HeadedIs(geo, mem, g);
    if k != g.cur {
      SectorIdLaw(geo, mem, g, k);
    }
    if k <= g.cur || g.lapped {
      Window(geo, g, k);
      WindowOrder(g, k);
    }
  }

  lemma RotatedFrom(ids: seq<Option<nat>>, base: nat, c: nat)
    requires Words(ids) && base < WORD && c < |ids| && ids[0] == Some(base)
    requires forall k: nat | k < |ids| :: k <= c ==> ids[k].Some? && IsNext(ids[k].value, base)
    requires forall k: nat | k < |ids| :: k > c && ids[k].Some? ==> !IsNext(ids[k].value, base)
    ensures HeadSearch(ids) == Head(c, ids[c].value)
  {
    hide IsNext, HeadSearch;
    HeadFound(ids, c);
  }

  lemma IdsAreWords(geo: Geometry, mem: seq<Byte>)
    requires geo.Valid() && |mem| == geo.Size()
    ensures Words(SectorIds(geo, mem)) && |SectorIds(geo, mem)| == geo.sectors
  {
  }

  /** The binary search on the flash of a reachable logger finds the current sector once it has its first header. */
  lemma HeadIsCurrent(geo: Geometry, mem: seq<Byte>, g: History)
    requires Ranges(geo, g) && LogOk(geo, g) && Ring(geo, g) && MemOk(geo, mem, g)
    requires geo.Valid() && |mem| == geo.Size() && g.cur < geo.sectors == |g.lo| == |g.hi| && Headed(geo, mem, g)
    ensures HeadSearch(SectorIds(geo, mem)) == Head(g.cur, Id(g, g.lo[g.cur]))
  {
    hide *;
    var ids := SectorIds(geo, mem);
    var base := Id(g, g.lo[0]);
    IdsAreWords(geo, mem);
    forall k: nat | k < |ids|
      ensures k <= g.cur ==> ids[k] == Some(Id(g, g.lo[k])) && IsNext(Id(g, g.lo[k]), base)
      ensures k > g.cur && ids[k].Some? ==> !IsNext(ids[k].value, base)
    {
      SectorIdsAt(geo, mem, k);
      SectorRotated(geo, mem, g, k);
    }
    RotatedFrom(ids, base, g.cur);
  }
}
