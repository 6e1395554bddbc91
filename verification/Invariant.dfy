/**
 * What every reachable logger looks like. The whole history of written entries is one sequence `log`;
 * sector `k` of the flash holds `log[lo[k]..hi[k]]`, the batch holds `log[flushed..]`.
 */
module Invariant {
  import opened Bytes
  import opened Entry
  import opened Layout
  import opened LoggerSpec

  /**
   * The history behind the flash. `cur` is the sector last entered; `lapped` says that the sectors behind
   * it hold the previous lap; `moved` that the write offset has skipped the gap at the end of `cur`. `torn`
   * bytes of the batch, not beyond entry `tornTo`, sit at the write offset after a failed write.
   */
  datatype History = History(
    base: nat, raw: seq<seq<Byte>>, payloads: seq<seq<Byte>>, flushed: nat, lo: seq<nat>, hi: seq<nat>,
    cur: nat, lapped: bool, moved: bool, torn: nat, tornTo: nat)

  /**
   * The replay cursor stands in sector `sector` in front of entry `entry` of the history; every entry
   * accepted so far lies below `mark`.
   */
  datatype Cursor = Cursor(sector: nat, entry: nat, mark: nat)

  /** The id of entry `i` of the history. */
  function Id(g: History, i: nat): (id: nat)
    ensures id < WORD
  {
    (g.base + 1 + i) % WORD
  }

  /** Ids are consecutive modulo 2^32 and every entry fits a batch. */
  predicate LogOk(geo: Geometry, g: History) {
    && geo.align >= 1
    && |g.raw| == |g.payloads|
    && forall i :: 0 <= i < |g.raw| ==> IsEntry(g.raw[i], Id(g, i), g.payloads[i], geo.align) && |g.raw[i]| <= geo.batch
  }

  predicate Between(raw: seq<seq<Byte>>, a: nat, b: nat) {
    a <= b <= |raw|
  }

  /** The bytes of entries `a..b` of the history. */
  function Run(raw: seq<seq<Byte>>, a: nat, b: nat): seq<Byte>
    requires Between(raw, a, b)
  {
    Flat(raw[a..b])
  }

  predicate Ranges(geo: Geometry, g: History) {
    && geo.Valid()
    && |g.raw| == |g.payloads| && (forall i :: 0 <= i < |g.raw| ==> |g.raw[i]| > OVERHEAD)
    && |g.lo| == |g.hi| == geo.sectors && g.cur < geo.sectors && g.flushed <= |g.raw|
    && g.hi[g.cur] == g.flushed
    && (forall k :: 0 <= k < geo.sectors ==>
          g.lo[k] <= g.hi[k] <= g.flushed && |Run(g.raw, g.lo[k], g.hi[k])| <= geo.sector)
    && g.flushed <= g.tornTo <= |g.raw|
    && g.torn <= |Run(g.raw, g.flushed, g.tornTo)|
    && (g.torn > 0 ==> Used(geo, g) + |Run(g.raw, g.flushed, g.tornTo)| <= geo.sector)
  }

  /** Bytes taken by whole entries in the current sector. */
  function Used(geo: Geometry, g: History): nat
    requires g.cur < |g.lo| == |g.hi| && Between(g.raw, g.lo[g.cur], g.hi[g.cur])
  {
    |Run(g.raw, g.lo[g.cur], g.hi[g.cur])|
  }

  /** Sectors follow one another in the history, lap by lap. */
  predicate Ring(geo: Geometry, g: History)
    requires Ranges(geo, g)
  {
    && (forall k {:trigger g.hi[k]} :: 0 <= k < g.cur ==> g.lo[k] < g.hi[k] && g.hi[k] == g.lo[k + 1])
    && (g.lapped ==>
          && (forall k {:trigger g.hi[k]} :: g.cur < k < geo.sectors ==> g.lo[k] < g.hi[k])
          && (forall k :: g.cur < k < geo.sectors - 1 ==> g.hi[k] == g.lo[k + 1])
          && (g.cur < geo.sectors - 1 ==>
                g.hi[geo.sectors - 1] == g.lo[0]
                && |Run(g.raw, g.lo[geo.sectors - 1], g.hi[geo.sectors - 1])| < geo.sector))
    && (!g.lapped ==> g.lo[0] == 0 && forall k :: g.cur < k < geo.sectors ==> g.lo[k] == g.hi[k] == 0)
  }

  /** What sector `k` holds: whole entries, in the current sector the torn bytes, then erased flash. */
  function Content(geo: Geometry, g: History, k: nat): (s: seq<Byte>)
    requires Ranges(geo, g) && k < geo.sectors
    ensures |s| == geo.sector
  {
    var whole := Run(g.raw, g.lo[k], g.hi[k]);
    var torn := if k == g.cur then Run(g.raw, g.flushed, g.tornTo)[..g.torn] else [];
    whole + torn + Blank(geo.sector - |whole| - |torn|)
  }

  predicate MemOk(geo: Geometry, mem: seq<Byte>, g: History)
    requires Ranges(geo, g)
  {
    && |mem| == geo.Size()
    && forall k: nat :: k < geo.sectors ==> Sector(geo, mem, k) == Content(geo, g, k)
  }

  predicate WriteOk(geo: Geometry, write: nat, lastErased: int, g: History)
    requires Ranges(geo, g)
  {
    if g.moved then
      && write == Wrapped(geo, g.cur * geo.sector + geo.sector)
      && lastErased == g.cur
      && g.lo[g.cur] < g.hi[g.cur] && Used(geo, g) < geo.sector && g.torn == 0
    else
      && write == g.cur * geo.sector + Used(geo, g)
      && (|| lastErased == g.cur
          || (lastErased == -1 && g.cur == 0 && g.flushed == 0 && g.torn == 0 && !g.lapped)
          || (lastErased == geo.sectors && write == geo.Size()))
  }

  predicate ReplayOk(geo: Geometry, replay: nat, g: History, c: Cursor)
    requires Ranges(geo, g)
  {
    && c.sector < geo.sectors && g.lo[c.sector] <= c.entry <= g.hi[c.sector]
    && replay == c.sector * geo.sector + |Run(g.raw, g.lo[c.sector], c.entry)|
    && c.mark <= c.entry
    && (c.sector != g.cur ==> |Run(g.raw, g.lo[c.sector], c.entry)| < geo.sector)
    && (!g.lapped ==> c.sector <= g.cur)
  }

  /** The flash and the write offset against the history. */
  predicate FlashOk(geo: Geometry, mem: seq<Byte>, write: nat, lastErased: int, g: History) {
    && Ranges(geo, g) && LogOk(geo, g) && Ring(geo, g) && MemOk(geo, mem, g) && WriteOk(geo, write, lastErased, g)
  }

  /** The invariant between two calls. */
  predicate Inv(geo: Geometry, s: State, g: History, c: Cursor) {
    && Sized(geo, s)
    && FlashOk(geo, s.dev.mem, s.writeOffset, s.lastErased, g) && ReplayOk(geo, s.replayOffset, g, c)
    && !g.moved && g.base < WORD
    && s.batch[..s.batchLen] == Run(g.raw, g.flushed, |g.raw|)
    && s.lastId == (g.base + |g.raw|) % WORD
  }

  /** The invariant between two passes of the flush loop. */
  predicate FlushInv(geo: Geometry, f: Flushing, g: History, c: Cursor) {
    && Sized(geo, f.s) && f.written + f.left <= geo.batch
    && FlashOk(geo, f.s.dev.mem, f.write, f.s.lastErased, g) && ReplayOk(geo, f.replay, g, c)
    && f.s.batch[f.written..f.written + f.left] == Run(g.raw, g.flushed, |g.raw|)
  }

  // ---------- Runs of entries ----------

  lemma RunSplit(raw: seq<seq<Byte>>, a: nat, b: nat, c: nat)
    requires Between(raw, a, c) && a <= b <= c
    ensures Run(raw, a, c) == Run(raw, a, b) + Run(raw, b, c)
  {
    assert raw[a..c] == raw[a..b] + raw[b..c];
    FlatConcat(raw[a..b], raw[b..c]);
  }

  lemma RunEmpty(raw: seq<seq<Byte>>, a: nat)
    requires Between(raw, a, a)
    ensures Run(raw, a, a) == []
  {
  }

  lemma RunFirst(raw: seq<seq<Byte>>, a: nat, c: nat)
    requires Between(raw, a, c) && a < c
    ensures Run(raw, a, c) == raw[a] + Run(raw, a + 1, c)
  {
    FlatOne(raw[a]);
    assert raw[a..a + 1] == [raw[a]];
    RunSplit(raw, a, a + 1, c);
  }

  lemma RunPositive(raw: seq<seq<Byte>>, a: nat, b: nat)
    requires Between(raw, a, b) && forall i :: 0 <= i < |raw| ==> |raw[i]| > OVERHEAD
    ensures |Run(raw, a, b)| == 0 <==> a == b
  {
    if a == b {
      RunEmpty(raw, a);
    } else {
      RunFirst(raw, a, b);
    }
  }

  // ---------- The replay cursor in front of the writer ----------

  /** The replay cursor is not ahead in the sector of the write offset. */
  predicate Clear(geo: Geometry, write: nat, replay: nat)
    requires geo.sector > 0
  {
    !(write / geo.sector == replay / geo.sector && replay > write)
  }

  /** Where the write offset stands: inside `cur`, at the end of the partition, or at the start of the next sector. */
  lemma WriteSector(geo: Geometry, write: nat, lastErased: int, g: History)
    requires Ranges(geo, g) && WriteOk(geo, write, lastErased, g)
    ensures !g.moved && Used(geo, g) < geo.sector ==> write / geo.sector == g.cur && write % geo.sector == Used(geo, g)
    ensures !g.moved && Used(geo, g) == geo.sector ==>
              write == (g.cur + 1) * geo.sector && write / geo.sector == g.cur + 1 && write % geo.sector == 0
    ensures g.moved ==>
              var q := if g.cur + 1 == geo.sectors then 0 else g.cur + 1;
              write == q * geo.sector && write / geo.sector == q && write % geo.sector == 0
  {
    hide Run;
    SectorInside(geo, g.cur);
    if g.cur + 1 < geo.sectors {
      SectorInside(geo, g.cur + 1);
    }
    SectorOfOffset(geo, g.cur + 1, 0);
    SectorOfOffset(geo, 0, 0);
    if Used(geo, g) < geo.sector {
      SectorOfOffset(geo, g.cur, Used(geo, g));
    }
  }

  /** Where the replay cursor stands. */
  lemma ReplaySector(geo: Geometry, replay: nat, g: History, c: Cursor)
    requires Ranges(geo, g) && ReplayOk(geo, replay, g, c)
    ensures |Run(g.raw, g.lo[c.sector], c.entry)| < geo.sector ==> replay / geo.sector == c.sector
    ensures c.sector == g.cur ==> replay <= g.cur * geo.sector + Used(geo, g)
    ensures replay == c.sector * geo.sector <==> c.entry == g.lo[c.sector]
    ensures |Run(g.raw, g.lo[c.sector], c.entry)| <= geo.sector
  {
    RunSplit(g.raw, g.lo[c.sector], c.entry, g.hi[c.sector]);
    RunPositive(g.raw, g.lo[c.sector], c.entry);
    hide Run;
    var d := |Run(g.raw, g.lo[c.sector], c.entry)|;
    if d < geo.sector {
      SectorOfOffset(geo, c.sector, d);
    }
  }

  /** The sector after `k` in the ring. */
  function After(geo: Geometry, k: nat): nat {
    if k + 1 == geo.sectors then 0 else k + 1
  }

  /** A cursor that would be pushed stands in the sector entered next, in front of the oldest entries. */
  lemma PushedFrom(geo: Geometry, write: nat, replay: nat, lastErased: int, g: History, c: Cursor)
    requires Ranges(geo, g) && WriteOk(geo, write, lastErased, g) && ReplayOk(geo, replay, g, c)
    requires !Clear(geo, write, replay)
    ensures c.sector != g.cur && replay / geo.sector == c.sector
    ensures c.sector == After(geo, g.cur)
  {
    hide Run;
    WriteSector(geo, write, lastErased, g);
    ReplaySector(geo, replay, g, c);
    if c.sector == g.cur {
      OffsetBeyondFirst(geo, replay, g.cur);
    }
  }

  lemma OffsetBeyondFirst(geo: Geometry, off: nat, k: nat)
    requires geo.sector > 0 && k >= 1 && off >= k * geo.sector
    ensures off / geo.sector >= 1
  {
    MulLe(1, k, geo.sector);
  }

  /** The first offset of the sector after `k` in the ring. */
  lemma PushTarget(geo: Geometry, k: nat, replay: nat)
    requires geo.Valid() && k < geo.sectors && replay / geo.sector == k
    ensures Wrapped(geo, NextSectorStart(geo, replay)) == After(geo, k) * geo.sector
  {
    if k + 1 < geo.sectors {
      SectorInside(geo, k + 1);
    }
  }

  /** The writer then stands at the start of that sector. */
  lemma PushedAt(geo: Geometry, write: nat, replay: nat, lastErased: int, g: History, c: Cursor)
    requires Ranges(geo, g) && WriteOk(geo, write, lastErased, g) && ReplayOk(geo, replay, g, c)
    requires !Clear(geo, write, replay)
    ensures write == c.sector * geo.sector < replay < write + geo.sector
  {
    hide Run, ReplayOk;
    PushedFrom(geo, write, replay, lastErased, g, c);
    WriteSector(geo, write, lastErased, g);
    ReplaySector(geo, replay, g, c);
    assert replay == c.sector * geo.sector + replay % geo.sector;
    hide WriteOk, Ranges;
  }

  lemma StartOfAfter(geo: Geometry, k: nat, replay: nat)
    requires geo.Valid() && k < geo.sectors && k * geo.sector < replay < k * geo.sector + geo.sector
    ensures After(geo, k) * geo.sector != replay
  {
    SectorInside(geo, k);
  }

  lemma PushSplits(geo: Geometry, write: nat, replay: nat)
    requires geo.sector > 0
    ensures Clear(geo, write, replay) ==> PushReplay(geo, write, replay) == replay
    ensures !Clear(geo, write, replay) ==>
              PushReplay(geo, write, replay) == Wrapped(geo, NextSectorStart(geo, replay)) && write < replay
    ensures replay <= write || write / geo.sector != replay / geo.sector ==> Clear(geo, write, replay)
  {
    hide Wrapped, NextSectorStart;
  }

  lemma CursorAtStart(geo: Geometry, g: History, k: nat, mark: nat)
    requires Ranges(geo, g) && k < geo.sectors && mark <= g.lo[k] && (!g.lapped ==> k <= g.cur)
    ensures ReplayOk(geo, k * geo.sector, g, Cursor(k, g.lo[k], mark))
  {
    RunEmpty(g.raw, g.lo[k]);
    hide Run;
  }

  lemma CursorBounds(geo: Geometry, replay: nat, g: History, c: Cursor)
    requires Ranges(geo, g) && ReplayOk(geo, replay, g, c)
    ensures c.sector < geo.sectors == |g.lo| == |g.hi| && c.mark <= c.entry <= g.hi[c.sector]
    ensures !g.lapped ==> c.sector <= g.cur
    ensures g.cur < geo.sectors && geo.Valid() && geo.sector > 0
  {
    hide Run;
  }

  lemma StartDivides(geo: Geometry, k: nat)
    requires geo.Valid() && k < geo.sectors
    ensures k * geo.sector / geo.sector == k
  {
    SectorOfOffset(geo, k, 0);
  }

  lemma OldestKeptIs(geo: Geometry, g: History, q: nat)
    requires q == After(geo, After(geo, g.cur)) < |g.lo|
    ensures OldestKept(geo, g) == g.lo[q]
  {
  }

  lemma MustLeaveFrom(geo: Geometry, write: nat, replay: nat, g: History, k: nat)
    requires k == After(geo, g.cur) && write == k * geo.sector < replay < write + geo.sector
    ensures MustLeave(geo, write, replay, g)
  {
  }

  /**
   * The tail-bite rule. The cursor moves if and only if the writer stands at the start of the next sector of the ring
   * and the cursor lies ahead in that sector; it leaves the sector about to be erased for the oldest one kept.
   */
  lemma PushKeeps(geo: Geometry, write: nat, replay: nat, lastErased: int, g: History, c: Cursor) returns (c': Cursor)
    requires Ranges(geo, g) && Ring(geo, g) && WriteOk(geo, write, lastErased, g) && ReplayOk(geo, replay, g, c)
    ensures ReplayOk(geo, PushReplay(geo, write, replay), g, c')
    ensures Clear(geo, write, PushReplay(geo, write, replay))
    ensures c'.mark == c.mark
    ensures PushReplay(geo, write, replay) != replay <==> MustLeave(geo, write, replay, g)
    ensures PushReplay(geo, write, replay) == replay ==> c' == c
    ensures PushReplay(geo, write, replay) != replay ==>
              c.sector == After(geo, g.cur) && c' == Cursor(After(geo, c.sector), OldestKept(geo, g), c.mark)
  {
    hide *;
    CursorBounds(geo, replay, g, c);
    PushSplits(geo, write, replay);
    if Clear(geo, write, replay) {
      c' := c;
      MustLeaveIs(geo, write, replay, g);
    } else {
      PushedFrom(geo, write, replay, lastErased, g, c);
      PushedAt(geo, write, replay, lastErased, g, c);
      var k, q := c.sector, After(geo, c.sector);
      RingAfter(geo, g, c);
      c' := Cursor(q, g.lo[q], c.mark);
      CursorAtStart(geo, g, q, c.mark);
      PushTarget(geo, k, replay);
      StartOfAfter(geo, k, replay);
      StartDivides(geo, k);
      StartDivides(geo, q);
      PushSplits(geo, write, q * geo.sector);
      OldestKeptIs(geo, g, q);
      MustLeaveFrom(geo, write, replay, g, k);
    }
  }

  /** The writer stands at the start of the next sector of the ring, and the offset lies ahead in that sector. */
  predicate MustLeave(geo: Geometry, write: nat, replay: nat, g: History) {
    write == After(geo, g.cur) * geo.sector < replay < write + geo.sector
  }

  lemma MustLeaveIs(geo: Geometry, write: nat, replay: nat, g: History)
    requires geo.Valid() && g.cur < geo.sectors && Clear(geo, write, replay)
    ensures !MustLeave(geo, write, replay, g)
  {
    var q := After(geo, g.cur);
    if MustLeave(geo, write, replay, g) {
      SectorOfOffset(geo, q, 0);
      SectorOfOffset(geo, q, replay - write);
    }
  }

  /** The oldest entry kept once the next sector of the ring is erased. */
  function OldestKept(geo: Geometry, g: History): nat {
    var q := After(geo, After(geo, g.cur));
    if q < |g.lo| then g.lo[q] else 0
  }

  /** The sector behind the one entered next continues its history. */
  lemma RingAfter(geo: Geometry, g: History, c: Cursor)
    requires Ranges(geo, g) && Ring(geo, g) && c.sector == After(geo, g.cur) != g.cur
    requires !g.lapped ==> c.sector <= g.cur
    ensures After(geo, c.sector) < geo.sectors && g.lo[After(geo, c.sector)] == g.hi[c.sector]
    ensures !g.lapped ==> After(geo, c.sector) <= g.cur
    ensures After(geo, c.sector) != c.sector
  {
    hide Run;
    var h := g.hi[c.sector];
  }
}
