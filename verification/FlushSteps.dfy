/** Every step of the flush loop keeps the flash in shape. */
module FlushSteps {
  import opened Bytes
  import opened Entry
  import opened Layout
  import opened Flash
  import opened LoggerSpec
  import opened Invariant

  // ---------- Entering a sector ----------

  /** The history once sector `q` has been erased for new entries. */
  function Entered(g: History, q: nat): History
    requires q < |g.lo| == |g.hi|
  {
    g.(lo := g.lo[q := g.flushed], hi := g.hi[q := g.flushed], cur := q, lapped := g.lapped || q < g.cur,
       moved := false, torn := 0, tornTo := g.flushed)
  }

  /** The write offset stands at the start of sector `q`, which is not the one last erased. */
  predicate Entering(geo: Geometry, write: nat, lastErased: int, g: History, q: nat)
    requires Ranges(geo, g)
  {
    WriteOk(geo, write, lastErased, g) && q == write / geo.sector && q != lastErased && q < geo.sectors
  }

  /** The current sector is new, or full, or its gap was skipped. */
  predicate EntersFrom(geo: Geometry, g: History, q: nat)
    requires Ranges(geo, g)
  {
    && g.torn == 0 && q < geo.sectors
    && (|| (q == g.cur == 0 && g.flushed == 0 && !g.lapped)
        || (q == g.cur + 1 && g.lo[g.cur] < g.hi[g.cur])
        || (q == 0 && g.cur == geo.sectors - 1 && g.lo[g.cur] < g.hi[g.cur] && Used(geo, g) < geo.sector))
  }

  lemma EnteringWhere(geo: Geometry, write: nat, lastErased: int, g: History, q: nat)
    requires Ranges(geo, g) && Entering(geo, write, lastErased, g, q)
    ensures write == q * geo.sector && EntersFrom(geo, g, q)
  {
    RunPositive(g.raw, g.lo[g.cur], g.hi[g.cur]);
    hide Run;
    WriteSector(geo, write, lastErased, g);
    if write == geo.Size() && !g.moved {
      EndOfPartition(geo, g.cur, Used(geo, g));
    }
  }

  lemma EndOfPartition(geo: Geometry, k: nat, d: nat)
    requires geo.Valid() && k < geo.sectors && d <= geo.sector && k * geo.sector + d == geo.Size()
    ensures k == geo.sectors - 1 && d == geo.sector
  {
    if k + 1 < geo.sectors {
      SectorInside(geo, k + 1);
    } else {
      SectorInside(geo, k);
    }
  }

  lemma EnteredRanges(geo: Geometry, g: History, q: nat)
    requires Ranges(geo, g) && q < geo.sectors
    ensures Ranges(geo, Entered(g, q))
  {
    RunEmpty(g.raw, g.flushed);
    hide Run;
  }

  /** The ring conditions on the bounds alone; `full` tells whether the last sector is full to the last byte. */
  predicate Bounds(n: nat, lo: seq<nat>, hi: seq<nat>, cur: nat, lapped: bool, full: bool) {
    && |lo| == |hi| == n && cur < n
    && (forall k {:trigger hi[k]} :: 0 <= k < cur ==> lo[k] < hi[k] && hi[k] == lo[k + 1])
    && (lapped ==>
          && (forall k {:trigger hi[k]} :: cur < k < n ==> lo[k] < hi[k])
          && (forall k :: cur < k < n - 1 ==> hi[k] == lo[k + 1])
          && (cur < n - 1 ==> hi[n - 1] == lo[0] && !full))
    && (!lapped ==> lo[0] == 0 && forall k :: cur < k < n ==> lo[k] == hi[k] == 0)
  }

  lemma RingIsBounds(geo: Geometry, g: History)
    requires Ranges(geo, g) && |Run(g.raw, g.lo[geo.sectors - 1], g.hi[geo.sectors - 1])| <= geo.sector
    ensures Ring(geo, g) <==>
            Bounds(geo.sectors, g.lo, g.hi, g.cur, g.lapped,
                   |Run(g.raw, g.lo[geo.sectors - 1], g.hi[geo.sectors - 1])| == geo.sector)
  {
    hide Run;
  }

  lemma BoundsEntered(n: nat, lo: seq<nat>, hi: seq<nat>, cur: nat, lapped: bool, full: bool, full': bool, q: nat,
                      at: nat)
    requires Bounds(n, lo, hi, cur, lapped, full) && q < n && hi[cur] == at && n >= 2
    requires q == cur + 1 && lo[cur] < hi[cur] && (q < n - 1 ==> full' == full)
    ensures Bounds(n, lo[q := at], hi[q := at], q, lapped, full')
  {
  }

  lemma BoundsWrapped(n: nat, lo: seq<nat>, hi: seq<nat>, cur: nat, lapped: bool, full: bool, at: nat)
    requires Bounds(n, lo, hi, cur, lapped, full) && n >= 2 && cur == n - 1 && hi[cur] == at
    requires lo[cur] < hi[cur] && !full
    ensures Bounds(n, lo[0 := at], hi[0 := at], 0, true, full)
  {
    var lo', hi' := lo[0 := at], hi[0 := at];
    forall k | 0 < k < n
      ensures lo'[k] < hi'[k] && (k < n - 1 ==> hi'[k] == lo'[k + 1])
    {
      assert hi'[k] == hi[k] && lo'[k] == lo[k];
    }
  }

  lemma BoundsFirst(n: nat, lo: seq<nat>, hi: seq<nat>, full: bool)
    requires Bounds(n, lo, hi, 0, false, full)
    ensures Bounds(n, lo[0 := 0], hi[0 := 0], 0, false, full)
  {
  }

  lemma LastSectorRun(geo: Geometry, g: History)
    requires Ranges(geo, g)
    ensures geo.sectors >= 2 && geo.sectors == |g.lo| == |g.hi| && g.cur < geo.sectors && g.hi[g.cur] == g.flushed
    ensures Between(g.raw, g.lo[geo.sectors - 1], g.hi[geo.sectors - 1])
    ensures |Run(g.raw, g.lo[geo.sectors - 1], g.hi[geo.sectors - 1])| <= geo.sector
  {
    hide Run;
  }

  lemma EntersFromIs(geo: Geometry, g: History, q: nat)
    requires Ranges(geo, g) && EntersFrom(geo, g, q)
    ensures q < geo.sectors && geo.sectors == |g.lo| == |g.hi|
    ensures || (q == g.cur == 0 && g.flushed == 0 && !g.lapped)
            || (q == g.cur + 1 && g.lo[g.cur] < g.hi[g.cur])
            || (q == 0 && g.cur == geo.sectors - 1 && g.lo[g.cur] < g.hi[g.cur]
                && Between(g.raw, g.lo[g.cur], g.hi[g.cur]) && |Run(g.raw, g.lo[g.cur], g.hi[g.cur])| < geo.sector)
    ensures var g' := Entered(g, q);
            g'.raw == g.raw && g'.lo == g.lo[q := g.flushed] && g'.hi == g.hi[q := g.flushed] && g'.cur == q
            && (g'.lapped <==> g.lapped || q < g.cur)
  {
    hide Run;
  }

  lemma EnteredRing(geo: Geometry, g: History, q: nat)
    requires Ranges(geo, g) && Ring(geo, g) && EntersFrom(geo, g, q) && Ranges(geo, Entered(g, q))
    ensures Ring(geo, Entered(g, q))
  {
    hide *;
    EntersFromIs(geo, g, q);
    var g', n := Entered(g, q), geo.sectors;
    LastSectorRun(geo, g);
    LastSectorRun(geo, g');
    RingIsBounds(geo, g);
    RingIsBounds(geo, g');
    var full := |Run(g.raw, g.lo[n - 1], g.hi[n - 1])| == geo.sector;
    var full' := |Run(g'.raw, g'.lo[n - 1], g'.hi[n - 1])| == geo.sector;
    if q == g.cur + 1 {
      BoundsEntered(n, g.lo, g.hi, g.cur, g.lapped, full, full', q, g.flushed);
    } else if q == g.cur {
      BoundsFirst(n, g.lo, g.hi, full);
    } else {
      BoundsWrapped(n, g.lo, g.hi, g.cur, g.lapped, full, g.flushed);
    }
  }

  lemma EnteredContent(geo: Geometry, g: History, q: nat)
    requires Ranges(geo, g) && EntersFrom(geo, g, q) && Ranges(geo, Entered(g, q))
    ensures Content(geo, Entered(g, q), q) == Blank(geo.sector)
    ensures forall k: nat | k < geo.sectors && k != q :: Content(geo, Entered(g, q), k) == Content(geo, g, k)
  {
    RunEmpty(g.raw, g.flushed);
    hide Run;
  }

  lemma EnteredMem(geo: Geometry, mem: seq<Byte>, g: History, q: nat)
    requires Ranges(geo, g) && MemOk(geo, mem, g) && EntersFrom(geo, g, q) && Ranges(geo, Entered(g, q))
    ensures q * geo.sector + geo.sector <= |mem|
    ensures MemOk(geo, Splice(mem, q * geo.sector, Blank(geo.sector)), Entered(g, q))
  {
    EnteredContent(geo, g, q);
    SpliceSectors(geo, mem, q, 0, Blank(geo.sector));
    assert Splice(Sector(geo, mem, q), 0, Blank(geo.sector)) == Blank(geo.sector);
    hide Content, Ranges, Sector;
  }

  /** Erasing the sector at the write offset. */
  lemma EraseKeeps(geo: Geometry, mem: seq<Byte>, write: nat, lastErased: int, g: History, q: nat)
    requires FlashOk(geo, mem, write, lastErased, g) && Entering(geo, write, lastErased, g, q)
    ensures write + geo.sector <= |mem|
    ensures FlashOk(geo, Splice(mem, write, Blank(geo.sector)), write, q, Entered(g, q))
  {
    EnteringWhere(geo, write, lastErased, g, q);
    EnteredRanges(geo, g, q);
    EnteredRing(geo, g, q);
    EnteredMem(geo, mem, g, q);
    SameLog(geo, g, Entered(g, q));
    RunEmpty(g.raw, g.flushed);
    hide Run, Ring, MemOk, LogOk, Content;
  }

  lemma SameLog(geo: Geometry, g: History, g': History)
    requires LogOk(geo, g) && g'.base == g.base && g'.raw == g.raw && g'.payloads == g.payloads
    ensures LogOk(geo, g')
  {
    hide IsEntry;
    forall i | 0 <= i < |g.raw|
      ensures Id(g', i) == Id(g, i)
    {
    }
  }

  /** A cursor that is clear of the writer stays valid when its sector is erased. */
  lemma EraseKeepsReplay(geo: Geometry, write: nat, replay: nat, lastErased: int, g: History, c: Cursor, q: nat)
    returns (c': Cursor)
    requires Ranges(geo, g) && Ring(geo, g) && Entering(geo, write, lastErased, g, q) && ReplayOk(geo, replay, g, c)
    requires Clear(geo, write, replay) && Ranges(geo, Entered(g, q))
    ensures ReplayOk(geo, replay, Entered(g, q), c')
    ensures c'.mark == c.mark
  {
    hide *;
    EnteringWhere(geo, write, lastErased, g, q);
    WriteOfEntering(geo, write, lastErased, g, q);
    if replay == write && (c.sector == q || c.sector == g.cur) {
      c' := Cursor(q, g.flushed, c.mark);
      CursorAtEntered(geo, replay, g, c, q);
    } else {
      c' := c;
      CursorElsewhere(geo, write, replay, lastErased, g, c, q);
    }
  }

  lemma WriteOfEntering(geo: Geometry, write: nat, lastErased: int, g: History, q: nat)
    requires Ranges(geo, g) && Entering(geo, write, lastErased, g, q)
    ensures WriteOk(geo, write, lastErased, g) && q < geo.sectors && geo.sector > 0 && write / geo.sector == q
  {
    hide Run, WriteOk;
  }

  /** The cursor of a drained log moves along with the writer. */
  lemma CursorAtEntered(geo: Geometry, replay: nat, g: History, c: Cursor, q: nat)
    requires Ranges(geo, g) && ReplayOk(geo, replay, g, c) && q < geo.sectors && Ranges(geo, Entered(g, q))
    requires replay == q * geo.sector
    ensures ReplayOk(geo, replay, Entered(g, q), Cursor(q, g.flushed, c.mark))
  {
    RunEmpty(g.raw, g.flushed);
    hide Run;
  }

  lemma CursorElsewhere(geo: Geometry, write: nat, replay: nat, lastErased: int, g: History, c: Cursor, q: nat)
    requires Ranges(geo, g) && EntersFrom(geo, g, q) && WriteOk(geo, write, lastErased, g)
    requires ReplayOk(geo, replay, g, c)
    requires Clear(geo, write, replay) && Ranges(geo, Entered(g, q)) && write == q * geo.sector
    requires write / geo.sector == q
    requires !(replay == write && (c.sector == q || c.sector == g.cur))
    ensures ReplayOk(geo, replay, Entered(g, q), c)
  {
    ReplaySector(geo, replay, g, c);
    hide Run;
  }

  // ---------- Chunks ----------

  /** How many leading byte strings fit `ceiling` together. */
  function FitCount(xs: seq<seq<Byte>>, ceiling: nat): (m: nat)
    ensures m <= |xs|
  {
    if xs == [] || |xs[0]| > ceiling then 0 else 1 + FitCount(xs[1..], ceiling - |xs[0]|)
  }

  /** The longest prefix that fits: it fits, and no longer one does. */
  lemma {:induction false} FitCountIsLongest(xs: seq<seq<Byte>>, ceiling: nat, p: nat)
    requires p <= |xs|
    ensures |Flat(xs[..FitCount(xs, ceiling)])| <= ceiling
    ensures |Flat(xs[..p])| <= ceiling ==> p <= FitCount(xs, ceiling)
  {
    if xs != [] && |xs[0]| <= ceiling {
      var m := FitCount(xs, ceiling);
      FitCountIsLongest(xs[1..], ceiling - |xs[0]|, if p == 0 then 0 else p - 1);
      assert xs[..m][1..] == xs[1..][..m - 1];
      if p > 0 {
        assert xs[..p][1..] == xs[1..][..p - 1];
      }
    } else if p > 0 {
      assert xs[..p][0] == xs[0];
    }
  }

  lemma WordAtDrop(buf: seq<Byte>, off: nat, i: nat)
    requires off + i + 4 <= |buf|
    ensures WordAt(buf, off + i) == WordAt(buf[off..], i)
  {
  }

  /** What the chunk helper reads at the next entry of a batch. */
  lemma HeaderInBuffer(buf: seq<Byte>, off: nat, raw: seq<Byte>, rest: seq<Byte>, id: nat, payload: seq<Byte>,
                       align: nat)
    requires IsEntry(raw, id, payload, align) && off <= |buf| && buf[off..] == raw + rest
    ensures off + HEADER_SIZE <= |buf|
    ensures WordAt(buf, off) == HEADER_MAGIC
    ensures EntrySize(WordAt(buf, off + 8), align) == |raw| > 0
  {
    hide WordAt, EntrySize, Unpadded;
    EntryFields(raw, id, payload, align, rest);
    WordAtDrop(buf, off, 0);
    WordAtDrop(buf, off, 8);
  }

  /** The bytes of a batch behind its first entries. */
  lemma RestOfBuffer(raw: seq<seq<Byte>>, buf: seq<Byte>, start: nat, a: nat, b: nat)
    requires a <= b < |raw| && start + |Run(raw, a, |raw|)| <= |buf|
    requires buf[start..start + |Run(raw, a, |raw|)|] == Run(raw, a, |raw|)
    ensures |Run(raw, a, b + 1)| == |Run(raw, a, b)| + |raw[b]|
    ensures |Run(raw, a, b)| + |raw[b]| <= |Run(raw, a, |raw|)|
    ensures var rest := Run(raw, b + 1, |raw|) + buf[start + |Run(raw, a, |raw|)|..];
            buf[start + |Run(raw, a, b)|..] == raw[b] + rest
  {
    var n := |raw|;
    RunSplit(raw, a, b, n);
    RunFirst(raw, b, n);
    RunSplit(raw, a, b, b + 1);
    RunFirst(raw, b, b + 1);
    RunEmpty(raw, b + 1);
    hide Run;
    var tail := buf[start + |Run(raw, a, n)|..];
    assert buf[start..] == Run(raw, a, n) + tail;
    assert buf[start + |Run(raw, a, b)|..] == buf[start..][|Run(raw, a, b)|..];
  }

  lemma {:induction false} ChunkFromLaw(geo: Geometry, g: History, buf: seq<Byte>, start: nat, a: nat, b: nat,
                                        ceiling: nat)
    requires LogOk(geo, g) && a <= b <= |g.raw|
    requires start + |Run(g.raw, a, |g.raw|)| <= |buf|
    requires buf[start..start + |Run(g.raw, a, |g.raw|)|] == Run(g.raw, a, |g.raw|)
    requires |Run(g.raw, a, b)| <= ceiling
    ensures var m := b + FitCount(g.raw[b..], ceiling - |Run(g.raw, a, b)|);
            ChunkFrom(buf, start, |Run(g.raw, a, |g.raw|)|, ceiling, geo.align, |Run(g.raw, a, b)|) ==
                |Run(g.raw, a, m)|
    decreases |g.raw| - b
  {
    hide WordAt, IsEntry, EntrySize, Run;
    var n := |g.raw|;
    var taken := |Run(g.raw, a, b)|;
    if b < n {
      assert g.raw[b..][0] == g.raw[b] && g.raw[b..][1..] == g.raw[b + 1..];
      RestOfBuffer(g.raw, buf, start, a, b);
      var rest := Run(g.raw, b + 1, n) + buf[start + |Run(g.raw, a, n)|..];
      HeaderInBuffer(buf, start + taken, g.raw[b], rest, Id(g, b), g.payloads[b], geo.align);
      if taken + |g.raw[b]| <= ceiling {
        ChunkFromLaw(geo, g, buf, start, a, b + 1, ceiling);
      }
    } else {
      assert g.raw[b..] == [];
    }
  }

  /** The entry behind the longest run of whole entries from `a` that fits the ceiling. */
  function Fitting(raw: seq<seq<Byte>>, a: nat, ceiling: nat): (m: nat)
    requires a <= |raw|
    ensures a <= m <= |raw|
  {
    a + FitCount(raw[a..], ceiling)
  }

  lemma FittingLaw(raw: seq<seq<Byte>>, a: nat, ceiling: nat, p: nat)
    requires a <= p <= |raw|
    ensures |Run(raw, a, Fitting(raw, a, ceiling))| <= ceiling
    ensures |Run(raw, a, p)| <= ceiling ==> p <= Fitting(raw, a, ceiling)
  {
    var xs := raw[a..];
    assert forall q | a <= q <= |raw| :: xs[..q - a] == raw[a..q];
    hide Flat, FitCount;
    FitCountIsLongest(xs, ceiling, p - a);
  }

  /** The chunk helper on a batch of whole entries returns the longest run of them that fits the ceiling. */
  lemma ChunkLaw(geo: Geometry, g: History, buf: seq<Byte>, start: nat, size: nat, ceiling: nat)
    requires LogOk(geo, g) && g.flushed <= |g.raw|
    requires start + size <= |buf| && buf[start..start + size] == Run(g.raw, g.flushed, |g.raw|)
    ensures ChunkFrom(buf, start, size, ceiling, geo.align, 0) ==
            |Run(g.raw, g.flushed, Fitting(g.raw, g.flushed, ceiling))|
  {
    hide ChunkFrom, FitCount, LogOk;
    RunEmpty(g.raw, g.flushed);
    hide Run, Flat;
    assert size == |buf[start..start + size]| == |Run(g.raw, g.flushed, |g.raw|)|;
    ChunkFromLaw(geo, g, buf, start, g.flushed, g.flushed, ceiling);
  }

  // ---------- Writing a chunk ----------

  /** The history once the entries up to `m` are in the flash. */
  function Written(g: History, m: nat): History
    requires g.cur < |g.hi|
  {
    g.(flushed := m, hi := g.hi[g.cur := m], torn := 0, tornTo := m)
  }

  /** The history once `n` bytes of a chunk up to entry `m` have arrived. */
  function Torn(g: History, n: nat, m: nat): History {
    g.(torn := if n > g.torn then n else g.torn, tornTo := m)
  }

  /** The entries up to `m` fit the current sector behind what it holds. */
  predicate Fits(geo: Geometry, g: History, m: nat)
    requires Ranges(geo, g)
  {
    !g.moved && g.flushed < m <= |g.raw| && (g.torn > 0 ==> g.tornTo <= m)
        && Used(geo, g) + |Run(g.raw, g.flushed, m)| <= geo.sector
  }

  /** Bytes left by a torn write are the first bytes of any later chunk. */
  lemma TornIsPrefix(geo: Geometry, g: History, m: nat)
    requires Ranges(geo, g) && Fits(geo, g, m)
    ensures g.torn <= |Run(g.raw, g.flushed, m)|
    ensures Run(g.raw, g.flushed, g.tornTo)[..g.torn] == Run(g.raw, g.flushed, m)[..g.torn]
  {
    if g.torn > 0 {
      RunSplit(g.raw, g.flushed, g.tornTo, m);
    }
  }

  lemma SpliceBehind(whole: seq<Byte>, torn: seq<Byte>, size: nat, src: seq<Byte>, n: nat)
    requires |torn| <= |src| && torn == src[..|torn|] && n <= |src| && |whole| + |src| <= size
    ensures var k := if n > |torn| then n else |torn|;
            Splice(whole + torn + Blank(size - |whole| - |torn|), |whole|, src[..n])
            == whole + src[..k] + Blank(size - |whole| - k)
  {
  }

  /** The cells a chunk goes to are erased, or hold its own bytes from a torn attempt. */
  lemma ReadyForChunk(geo: Geometry, mem: seq<Byte>, write: nat, g: History, m: nat)
    requires Ranges(geo, g) && MemOk(geo, mem, g) && Fits(geo, g, m) && write == g.cur * geo.sector + Used(geo, g)
    ensures write + |Run(g.raw, g.flushed, m)| <= |mem|
    ensures Ready(mem, write, Run(g.raw, g.flushed, m))
  {
    hide *;
    ChunkCells(geo, mem, g, m);
    TornIsPrefix(geo, g, m);
    var src := Run(g.raw, g.flushed, m);
    forall j | 0 <= j < |src|
      ensures mem[write + j] == ERASED || mem[write + j] == src[j]
    {
      CellOfChunk(Run(g.raw, g.lo[g.cur], g.flushed), Run(g.raw, g.flushed, g.tornTo)[..g.torn], geo.sector, src, j);
      assert mem[g.cur * geo.sector..g.cur * geo.sector + geo.sector][|Run(g.raw, g.lo[g.cur], g.flushed)| + j] ==
          mem[write + j];
    }
    ReadyIs(mem, write, src);
  }

  lemma ReadyIs(mem: seq<Byte>, off: nat, src: seq<Byte>)
    requires off + |src| <= |mem|
    requires forall j :: 0 <= j < |src| ==> mem[off + j] == ERASED || mem[off + j] == src[j]
    ensures Ready(mem, off, src)
  {
  }

  /** The current sector as it stands in front of a chunk. */
  lemma ChunkCells(geo: Geometry, mem: seq<Byte>, g: History, m: nat)
    requires Ranges(geo, g) && MemOk(geo, mem, g) && Fits(geo, g, m)
    ensures g.cur < geo.sectors == |g.lo| == |g.hi| && |mem| == geo.Size() && Between(g.raw, g.flushed, m)
    ensures g.hi[g.cur] == g.flushed
    ensures Between(g.raw, g.lo[g.cur], g.flushed) && Between(g.raw, g.flushed, g.tornTo)
    ensures Used(geo, g) == |Run(g.raw, g.lo[g.cur], g.flushed)| && g.torn <= |Run(g.raw, g.flushed, g.tornTo)|
    ensures Used(geo, g) + |Run(g.raw, g.flushed, m)| <= geo.sector && Used(geo, g) + g.torn <= geo.sector
    ensures g.cur * geo.sector + geo.sector <= |mem|
    ensures mem[g.cur * geo.sector..g.cur * geo.sector + geo.sector] ==
            Run(g.raw, g.lo[g.cur], g.flushed) + Run(g.raw, g.flushed, g.tornTo)[..g.torn]
                + Blank(geo.sector - Used(geo, g) - g.torn)
  {
    TornIsPrefix(geo, g, m);
    SectorInside(geo, g.cur);
    hide Run;
    assert Sector(geo, mem, g.cur) == Content(geo, g, g.cur);
  }

  lemma CellOfChunk(whole: seq<Byte>, torn: seq<Byte>, size: nat, src: seq<Byte>, j: nat)
    requires |torn| <= |src| && torn == src[..|torn|] && |whole| + |src| <= size && j < |src|
    ensures var cell := (whole + torn + Blank(size - |whole| - |torn|))[|whole| + j];
            cell == ERASED || cell == src[j]
  {
  }

  /** `n` bytes of the chunk up to `m` arrive in the current sector. */
  lemma ArrivedSectors(geo: Geometry, mem: seq<Byte>, write: nat, g: History, m: nat, n: nat)
    requires Ranges(geo, g) && MemOk(geo, mem, g) && Fits(geo, g, m) && write == g.cur * geo.sector + Used(geo, g)
    requires n <= |Run(g.raw, g.flushed, m)|
    ensures write + n <= |mem|
    ensures var mem' := Splice(mem, write, Run(g.raw, g.flushed, m)[..n]);
            var k := if n > g.torn then n else g.torn;
            k <= |Run(g.raw, g.flushed, m)|
            && Sector(geo, mem', g.cur) ==
               Run(g.raw, g.lo[g.cur], g.flushed) + Run(g.raw, g.flushed, m)[..k] + Blank(geo.sector - Used(geo, g) - k)
            && forall j: nat | j < geo.sectors && j != g.cur :: Sector(geo, mem', j) == Content(geo, g, j)
  {
    TornIsPrefix(geo, g, m);
    hide Run;
    var src := Run(g.raw, g.flushed, m);
    SpliceSectors(geo, mem, g.cur, Used(geo, g), src[..n]);
    SpliceBehind(Run(g.raw, g.lo[g.cur], g.flushed), Run(g.raw, g.flushed, g.tornTo)[..g.torn], geo.sector, src, n);
    assert Sector(geo, mem, g.cur) == Content(geo, g, g.cur);
  }

  lemma WrittenRanges(geo: Geometry, g: History, m: nat)
    requires Ranges(geo, g) && Fits(geo, g, m)
    ensures Ranges(geo, Written(g, m))
    ensures Run(g.raw, g.lo[g.cur], m) == Run(g.raw, g.lo[g.cur], g.flushed) + Run(g.raw, g.flushed, m)
  {
    RunSplit(g.raw, g.lo[g.cur], g.flushed, m);
    RunEmpty(g.raw, m);
    hide Run;
  }

  lemma WrittenRing(geo: Geometry, g: History, m: nat)
    requires Ranges(geo, g) && Ring(geo, g) && Fits(geo, g, m) && Ranges(geo, Written(g, m))
    ensures Ring(geo, Written(g, m))
  {
    hide Run;
  }

  lemma WrittenContent(geo: Geometry, g: History, m: nat)
    requires Ranges(geo, g) && Fits(geo, g, m) && Ranges(geo, Written(g, m))
    ensures var src := Run(g.raw, g.flushed, m);
            Content(geo, Written(g, m), g.cur) ==
            Run(g.raw, g.lo[g.cur], g.flushed) + src[..|src|] + Blank(geo.sector - Used(geo, g) - |src|)
    ensures forall k: nat | k < geo.sectors && k != g.cur :: Content(geo, Written(g, m), k) == Content(geo, g, k)
  {
    WrittenRanges(geo, g, m);
    RunEmpty(g.raw, m);
    hide Run;
  }

  lemma TornRanges(geo: Geometry, g: History, m: nat, n: nat)
    requires Ranges(geo, g) && Fits(geo, g, m) && n <= |Run(g.raw, g.flushed, m)|
    ensures Ranges(geo, Torn(g, n, m))
  {
    TornIsPrefix(geo, g, m);
    hide Run;
  }

  lemma TornContent(geo: Geometry, g: History, m: nat, n: nat)
    requires Ranges(geo, g) && Fits(geo, g, m) && n <= |Run(g.raw, g.flushed, m)| && Ranges(geo, Torn(g, n, m))
    ensures var k := Torn(g, n, m).torn;
            Content(geo, Torn(g, n, m), g.cur) ==
            Run(g.raw, g.lo[g.cur], g.flushed) + Run(g.raw, g.flushed, m)[..k] + Blank(geo.sector - Used(geo, g) - k)
    ensures forall k: nat | k < geo.sectors && k != g.cur :: Content(geo, Torn(g, n, m), k) == Content(geo, g, k)
  {
    hide Run;
  }

  lemma MemOfSectors(geo: Geometry, mem: seq<Byte>, g: History, g': History)
    requires Ranges(geo, g) && Ranges(geo, g') && g'.cur == g.cur && |mem| == geo.Size()
    requires Sector(geo, mem, g.cur) == Content(geo, g', g.cur)
    requires forall k: nat | k < geo.sectors && k != g.cur :: Sector(geo, mem, k) == Content(geo, g, k)
    requires forall k: nat | k < geo.sectors && k != g.cur :: Content(geo, g', k) == Content(geo, g, k)
    ensures MemOk(geo, mem, g')
  {
    hide Sector, Content, Ranges;
  }

  lemma WrittenMem(geo: Geometry, mem: seq<Byte>, write: nat, g: History, m: nat)
    requires Ranges(geo, g) && MemOk(geo, mem, g) && Fits(geo, g, m) && write == g.cur * geo.sector + Used(geo, g)
    requires Ranges(geo, Written(g, m))
    ensures write + |Run(g.raw, g.flushed, m)| <= |mem|
    ensures MemOk(geo, Splice(mem, write, Run(g.raw, g.flushed, m)), Written(g, m))
  {
    var src := Run(g.raw, g.flushed, m);
    WrittenContent(geo, g, m);
    ArrivedSectors(geo, mem, write, g, m, |src|);
    TornIsPrefix(geo, g, m);
    hide Run, Sector, Content, Ranges;
    assert src[..|src|] == src;
    MemOfSectors(geo, Splice(mem, write, src), g, Written(g, m));
  }

  lemma WrittenOffset(geo: Geometry, write: nat, g: History, m: nat)
    requires Ranges(geo, g) && WriteOk(geo, write, g.cur, g) && Fits(geo, g, m) && Ranges(geo, Written(g, m))
    ensures WriteOk(geo, write + |Run(g.raw, g.flushed, m)|, g.cur, Written(g, m))
  {
    WrittenRanges(geo, g, m);
    hide Run;
  }

  /** A chunk that arrives whole. */
  lemma WriteKeeps(geo: Geometry, mem: seq<Byte>, write: nat, g: History, m: nat)
    requires FlashOk(geo, mem, write, g.cur, g) && Fits(geo, g, m)
    ensures write + |Run(g.raw, g.flushed, m)| <= |mem|
    ensures FlashOk(geo, Splice(mem, write, Run(g.raw, g.flushed, m)), write + |Run(g.raw, g.flushed, m)|, g.cur,
                    Written(g, m))
  {
    WrittenRanges(geo, g, m);
    WrittenRing(geo, g, m);
    WrittenMem(geo, mem, write, g, m);
    WrittenOffset(geo, write, g, m);
    SameLog(geo, g, Written(g, m));
    hide Run, Ring, MemOk, LogOk, Ranges, WriteOk;
  }

  lemma TornMem(geo: Geometry, mem: seq<Byte>, write: nat, g: History, m: nat, n: nat)
    requires Ranges(geo, g) && MemOk(geo, mem, g) && Fits(geo, g, m) && write == g.cur * geo.sector + Used(geo, g)
    requires n <= |Run(g.raw, g.flushed, m)| && Ranges(geo, Torn(g, n, m))
    ensures write + n <= |mem|
    ensures MemOk(geo, Splice(mem, write, Run(g.raw, g.flushed, m)[..n]), Torn(g, n, m))
  {
    TornContent(geo, g, m, n);
    ArrivedSectors(geo, mem, write, g, m, n);
    hide Run, Sector, Content, Ranges;
    MemOfSectors(geo, Splice(mem, write, Run(g.raw, g.flushed, m)[..n]), g, Torn(g, n, m));
  }

  lemma TornRing(geo: Geometry, write: nat, g: History, m: nat, n: nat)
    requires Ranges(geo, g) && Ring(geo, g) && WriteOk(geo, write, g.cur, g) && Fits(geo, g, m)
    requires Ranges(geo, Torn(g, n, m))
    ensures Ring(geo, Torn(g, n, m)) && WriteOk(geo, write, g.cur, Torn(g, n, m))
  {
    hide Run;
  }

  /** A chunk of which only `n` bytes arrive. */
  lemma TornKeeps(geo: Geometry, mem: seq<Byte>, write: nat, g: History, m: nat, n: nat)
    requires FlashOk(geo, mem, write, g.cur, g) && Fits(geo, g, m) && n <= |Run(g.raw, g.flushed, m)|
    ensures write + n <= |mem|
    ensures FlashOk(geo, Splice(mem, write, Run(g.raw, g.flushed, m)[..n]), write, g.cur, Torn(g, n, m))
  {
    TornRanges(geo, g, m, n);
    TornRing(geo, write, g, m, n);
    TornMem(geo, mem, write, g, m, n);
    SameLog(geo, g, Torn(g, n, m));
    hide Run, Ring, MemOk, LogOk, Ranges, WriteOk;
  }

  lemma WriteKeepsReplay(geo: Geometry, replay: nat, g: History, c: Cursor, m: nat)
    requires Ranges(geo, g) && ReplayOk(geo, replay, g, c) && Fits(geo, g, m) && Ranges(geo, Written(g, m))
    ensures ReplayOk(geo, replay, Written(g, m), c)
  {
    hide Run;
  }

  lemma TornKeepsReplay(geo: Geometry, replay: nat, g: History, c: Cursor, m: nat, n: nat)
    requires Ranges(geo, g) && ReplayOk(geo, replay, g, c) && Ranges(geo, Torn(g, n, m))
    ensures ReplayOk(geo, replay, Torn(g, n, m), c)
  {
    hide Run;
  }

  // ---------- One pass of the loop ----------

  /** The device either takes a chunk whole or is cut by an injected fault; it never refuses a bit. */
  lemma ProgramChunk(geo: Geometry, dev: Device, write: nat, g: History, m: nat)
    requires FlashOk(geo, dev.mem, write, g.cur, g) && Fits(geo, g, m)
    ensures var src := Run(g.raw, g.flushed, m);
            var r := Program(dev, write, src);
            var n := Arriving(dev, |src|);
            if n < |src| then r.1 == DevFail && FlashOk(geo, r.0.mem, write, g.cur, Torn(g, n, m))
            else r.1 == DevOk && FlashOk(geo, r.0.mem, write + |src|, g.cur, Written(g, m))
  {
    var src := Run(g.raw, g.flushed, m);
    var n := Arriving(dev, |src|);
    ReadyForChunk(geo, dev.mem, write, g, m);
    ProgramReady(dev, write, src);
    if n < |src| {
      TornKeeps(geo, dev.mem, write, g, m, n);
    } else {
      assert src[..|src|] == src;
      WriteKeeps(geo, dev.mem, write, g, m);
    }
    hide FlashOk, Program, Ready, Run;
  }

  /** The history, written entries aside, does not change. */
  predicate SameHistory(g: History, g': History) {
    g'.base == g.base && g'.raw == g.raw && g'.payloads == g.payloads && g'.flushed >= g.flushed
  }

  // ---------- Which bounds change ----------

  /** No sector was entered: only the end of the current one may have grown, and bytes torn before are still there. */
  predicate Stays(g: History, g': History) {
    && g.cur < |g.lo| == |g.hi| && g'.cur == g.cur && g'.lapped == g.lapped && g.flushed <= g'.flushed
    && g'.lo == g.lo && g'.hi == g.hi[g.cur := g'.flushed]
    && (g.torn > 0 ==>
       g.tornTo <= g'.flushed || (g'.flushed == g.flushed && g.torn <= g'.torn && g.tornTo <= g'.tornTo))
  }

  /**
   * Sector `q`, the one behind the current sector in the ring or the very first one, was erased and entered once the
   * current sector had taken what it could. Every other sector is as it was.
   */
  predicate Enters(geo: Geometry, g: History, g': History, q: nat) {
    && g.cur < |g.lo| == |g.hi| == |g'.lo| && q < |g.lo| && g'.cur == q
    && (q == After(geo, g.cur) || (q == g.cur == 0 && g.flushed == 0 && g.torn == 0 && !g.lapped))
    && g.flushed <= g'.lo[q] <= g'.flushed
    && g'.lo == g.lo[q := g'.lo[q]] && g'.hi == g.hi[g.cur := g'.lo[q]][q := g'.flushed]
    && (g.torn > 0 ==> g.tornTo <= g'.lo[q])
  }

  /** What becomes of the bounds, told from the sector last erased before and after. */
  predicate KeepsBounds(geo: Geometry, before: int, after: int, g: History, g': History) {
    if after == before || after == geo.sectors then Stays(g, g') else after >= 0 && Enters(geo, g, g', after)
  }

  lemma StaysReflexive(geo: Geometry, g: History)
    requires Ranges(geo, g)
    ensures Stays(g, g) && Stays(g, g.(moved := true))
  {
    hide Run;
  }

  lemma StaysThenBounds(geo: Geometry, before: int, after: int, g: History, g1: History, g2: History)
    requires Ranges(geo, g) && Stays(g, g1) && KeepsBounds(geo, before, after, g1, g2)
    ensures KeepsBounds(geo, before, after, g, g2)
  {
    RunEmpty(g.raw, g.flushed);
    hide Run;
  }

  lemma EntersThenStays(geo: Geometry, g: History, g': History, q: nat)
    requires Ranges(geo, g) && EntersFrom(geo, g, q) && q < |g.lo| == |g.hi| && Stays(Entered(g, q), g')
    ensures Enters(geo, g, g', q)
  {
    hide Run;
  }

  lemma BoundsOfStays(geo: Geometry, before: int, after: int, g: History, g': History)
    requires Stays(g, g') && (after == before || after == geo.sectors)
    ensures KeepsBounds(geo, before, after, g, g')
  {
  }

  lemma BoundsOfEnters(geo: Geometry, before: int, q: nat, g: History, g': History)
    requires Enters(geo, g, g', q) && q != before && q < geo.sectors
    ensures KeepsBounds(geo, before, q, g, g')
  {
  }

  lemma ChunkOfBatch(raw: seq<seq<Byte>>, batch: seq<Byte>, at: nat, left: nat, a: nat, m: nat)
    requires a <= m <= |raw| && at + left <= |batch| && batch[at..at + left] == Run(raw, a, |raw|)
    ensures var n := |Run(raw, a, m)|;
            n <= left && batch[at..at + n] == Run(raw, a, m) && batch[at + n..at + left] == Run(raw, m, |raw|)
  {
    RunSplit(raw, a, m, |raw|);
    hide Run;
    SliceSplits(batch, at, left, Run(raw, a, m), Run(raw, m, |raw|));
  }

  lemma SliceSplits(s: seq<Byte>, at: nat, size: nat, x: seq<Byte>, y: seq<Byte>)
    requires at + size <= |s| && s[at..at + size] == x + y
    ensures |x| <= size && s[at..at + |x|] == x && s[at + |x|..at + size] == y
  {
    var t := s[at..at + size];
    forall i | 0 <= i < |x|
      ensures s[at..at + |x|][i] == x[i]
    {
      assert t[i] == s[at + i];
    }
    forall i | 0 <= i < |y|
      ensures s[at + |x|..at + size][i] == y[i]
    {
      assert t[|x| + i] == s[at + (|x| + i)];
    }
  }

  /** The loop state once the device has answered. */
  function Answered(f: Flushing, r: (Device, DevErr), chunk: nat): Flushing
    requires chunk <= f.left
  {
    if r.1 != DevOk then f.(s := f.s.(dev := r.0), err := WriteFail, devErr := r.1)
    else f.(s := f.s.(dev := r.0), devErr := DevOk,
            write := f.write + chunk, written := f.written + chunk, left := f.left - chunk)
  }

  lemma ChunkCut(geo: Geometry, f: Flushing, g: History, c: Cursor, m: nat, n: nat, dev: Device)
    requires FlushInv(geo, f, g, c) && |dev.mem| == |f.s.dev.mem|
    requires FlashOk(geo, dev.mem, f.write, g.cur, Torn(g, n, m)) && f.s.lastErased == g.cur
    ensures FlushInv(geo, f.(s := f.s.(dev := dev), err := WriteFail, devErr := DevFail), Torn(g, n, m), c)
  {
    hide Run, Ring, MemOk, WriteOk, LogOk;
    TornKeepsReplay(geo, f.replay, g, c, m, n);
    hide Ranges, ReplayOk, FlashOk;
  }

  lemma ChunkWhole(geo: Geometry, f: Flushing, g: History, c: Cursor, m: nat, dev: Device)
    requires FlushInv(geo, f, g, c) && |dev.mem| == |f.s.dev.mem| && Fits(geo, g, m)
    requires FlashOk(geo, dev.mem, f.write + |Run(g.raw, g.flushed, m)|, g.cur, Written(g, m))
    requires f.s.lastErased == g.cur
    ensures var n := |Run(g.raw, g.flushed, m)|;
            n <= f.left
            && FlushInv(geo, f.(s := f.s.(dev := dev), devErr := DevOk, write := f.write + n, written := f.written + n,
                                left := f.left - n), Written(g, m), c)
  {
    hide Run, Ring, MemOk, WriteOk, LogOk;
    ChunkOfBatch(g.raw, f.s.batch, f.written, f.left, g.flushed, m);
    WriteKeepsReplay(geo, f.replay, g, c, m);
    hide Ranges, ReplayOk, FlashOk;
  }

  /** What the loop invariant says, without its parts unfolded. */
  lemma FlushInvParts(geo: Geometry, f: Flushing, g: History, c: Cursor)
    requires FlushInv(geo, f, g, c)
    ensures FlashOk(geo, f.s.dev.mem, f.write, f.s.lastErased, g) && Ranges(geo, g) && Ring(geo, g) && LogOk(geo, g)
    ensures WriteOk(geo, f.write, f.s.lastErased, g) && ReplayOk(geo, f.replay, g, c)
    ensures g.cur < |g.hi| == |g.lo| && g.flushed <= |g.raw|
    ensures Sized(geo, f.s) && f.written + f.left <= geo.batch == |f.s.batch|
    ensures f.s.batch[f.written..f.written + f.left] == Run(g.raw, g.flushed, |g.raw|)
    ensures |f.s.dev.mem| == geo.Size() && geo.Valid() && geo.sector > 0 && geo.align >= 1
    ensures f.left == |Run(g.raw, g.flushed, |g.raw|)|
  {
    hide Ring, MemOk, LogOk, ReplayOk, WriteOk, Run;
  }

  lemma StepOutcome(g: History, n: nat, m: nat)
    requires !g.moved && g.cur < |g.hi| && g.flushed <= m
    ensures SameHistory(g, Torn(g, n, m)) && SameHistory(g, Written(g, m))
    ensures !Torn(g, n, m).moved && Torn(g, n, m).cur == g.cur && Torn(g, n, m).flushed == g.flushed
    ensures !Written(g, m).moved && Written(g, m).cur == g.cur
  {
  }

  lemma StepStays(geo: Geometry, g: History, n: nat, m: nat)
    requires Ranges(geo, g) && Fits(geo, g, m)
    ensures g.cur < |g.hi| && Stays(g, Torn(g, n, m)) && Stays(g, Written(g, m))
  {
    hide Run;
  }

  lemma AnsweredParts(f: Flushing, r: (Device, DevErr), chunk: nat)
    requires chunk <= f.left
    ensures r.1 == DevOk ==>
              Answered(f, r, chunk) == f.(s := f.s.(dev := r.0), devErr := DevOk, write := f.write + chunk,
                                          written := f.written + chunk, left := f.left - chunk)
    ensures r.1 == DevFail ==>
              Answered(f, r, chunk) == f.(s := f.s.(dev := r.0), err := WriteFail, devErr := DevFail)
  {
  }

  lemma FitsParts(geo: Geometry, g: History, m: nat)
    requires Ranges(geo, g) && Fits(geo, g, m)
    ensures !g.moved && g.flushed < m <= |g.raw|
  {
  }

  /** A chunk written in the sector the loop is in: all of it, or cut by an injected fault. */
  lemma ChunkInSector(geo: Geometry, f: Flushing, g: History, c: Cursor, m: nat, chunk: nat, r: (Device, DevErr))
    returns (g': History)
    requires FlushInv(geo, f, g, c) && f.err == Ok && f.s.lastErased == g.cur && Fits(geo, g, m)
    requires chunk == |Run(g.raw, g.flushed, m)| <= f.left && r == Program(f.s.dev, f.write, Run(g.raw, g.flushed, m))
    ensures FlushInv(geo, Answered(f, r, chunk), g', c)
    ensures SameHistory(g, g') && !g'.moved && g'.cur == g.cur && Stays(g, g')
    ensures if r.1 == DevOk then g' == Written(g, m) else r.1 == DevFail && g'.flushed == g.flushed
  {
    hide *;
    FlushInvParts(geo, f, g, c);
    FitsParts(geo, g, m);
    ProgramChunk(geo, f.s.dev, f.write, g, m);
    AnsweredParts(f, r, chunk);
    var n := Arriving(f.s.dev, chunk);
    StepOutcome(g, n, m);
    StepStays(geo, g, n, m);
    if n < chunk {
      g' := Torn(g, n, m);
      ChunkCut(geo, f, g, c, m, n, r.0);
    } else {
      g' := Written(g, m);
      ChunkWhole(geo, f, g, c, m, r.0);
    }
  }
}
