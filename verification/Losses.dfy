/** What flash and batch hold after a step or a run, and exactly what is lost. */
module Losses {
  import opened Bytes
  import opened Entry
  import opened Layout
  import opened LoggerSpec
  import opened Invariant
  import opened FlushSteps
  import opened Operations
  import opened Replay
  import opened RecoverySpec
  import opened Scanning
  import opened Conservation
  import opened Runs
  import opened RunRecovery

  // ---------- The batch read back ----------

  lemma BatchEntries(geo: Geometry, s: State, g: History, c: Cursor)
    requires Inv(geo, s, g, c) && Sized(geo, s)
    ensures g.flushed <= |g.raw| == |g.payloads| && geo.align >= 1 && s.batchLen <= |s.batch|
    ensures EntriesAt(geo, g, s.batch[..s.batchLen], g.flushed, |g.raw|)
  {
    hide *;
    InvParts(geo, s, g, c);
    forall i: nat | g.flushed <= i < |g.raw|
      ensures Between(g.raw, g.flushed, i) && EntryAt(geo, g, s.batch[..s.batchLen], |Run(g.raw, g.flushed, i)|, i)
    {
      BatchEntry(geo, s, g, i);
      InOrder(g.raw, g.flushed, i);
      SliceOfSlice(s.batch, 0, s.batchLen, |Run(g.raw, g.flushed, i)|, |g.raw[i]|);
      EntryAtFromWhole(geo, g, s.batch[..s.batchLen], |Run(g.raw, g.flushed, i)|, i);
    }
    EntriesFrom(geo, g, s.batch[..s.batchLen], g.flushed, |g.raw|);
  }

  lemma EntryAtFromWhole(geo: Geometry, g: History, buf: seq<Byte>, at: nat, i: nat)
    requires geo.align >= 1 && i < |g.raw| == |g.payloads| && at + |g.raw[i]| <= |buf|
    requires buf[at..at + |g.raw[i]|] == g.raw[i] && IsEntry(g.raw[i], Id(g, i), g.payloads[i], geo.align)
    ensures EntryAt(geo, g, buf, at, i)
  {
    hide IsEntry;
  }

  lemma EntriesFrom(geo: Geometry, g: History, buf: seq<Byte>, a: nat, b: nat)
    requires geo.align >= 1 && a <= b <= |g.raw|
    requires forall i: nat | a <= i < b :: Between(g.raw, a, i) && EntryAt(geo, g, buf, |Run(g.raw, a, i)|, i)
    ensures EntriesAt(geo, g, buf, a, b)
  {
    hide EntryAt, Run;
  }

  /** The batch read back: everything from `g.flushed` on. */
  lemma BatchReads(geo: Geometry, s: State, g: History, c: Cursor)
    requires Inv(geo, s, g, c) && Sized(geo, s)
    ensures s.batchLen <= |s.batch| && Scannable(geo.align, s.batch[..s.batchLen]) && g.flushed <= |g.payloads|
    ensures SectorLog(geo.align, s.batch[..s.batchLen], 0) == Records(g, g.flushed, |g.payloads|)
  {
    hide *;
    InvParts(geo, s, g, c);
    BatchEntries(geo, s, g, c);
    var buf := s.batch[..s.batchLen];
    BatchScannable(geo, s);
    HeaderIsPositive();
    LogEnds(geo.align, buf, |buf|);
    InOrder(g.raw, g.flushed, g.flushed);
    InOrder(g.raw, g.flushed, |g.raw|);
    RunEmpty(g.raw, g.flushed);
    LogEntries(geo, g, buf, g.flushed, g.flushed, |g.raw|);
  }

  lemma BatchScannable(geo: Geometry, s: State)
    requires Sized(geo, s)
    ensures s.batchLen <= |s.batch| && Scannable(geo.align, s.batch[..s.batchLen])
  {
    SmallSector(geo);
  }

  /** `log` is the stretch `a..b` of `written`, under consecutive ids. */
  predicate IsStretch(log: seq<Record>, written: seq<seq<Byte>>, lastId: nat, a: nat, b: nat) {
    && a <= b <= |written| && |log| == b - a
    && forall i :: 0 <= i < |log| ==> log[i] == Record((lastId + 1 + a + i) % WORD, written[a + i])
  }

  lemma RecordsAreStretch(g: History, a: nat, b: nat)
    requires a <= b <= |g.payloads|
    ensures IsStretch(Records(g, a, b), g.payloads, g.base, a, b)
  {
    forall i | 0 <= i < b - a
      ensures Records(g, a, b)[i] == Record((g.base + 1 + a + i) % WORD, g.payloads[a + i])
    {
      assert Id(g, a + i) == (g.base + 1 + (a + i)) % WORD;
    }
  }

  // ---------- What a step erases ----------

  /** The entries in the sector that was erased between `s` and `s'`; none if none was. */
  function Erased(geo: Geometry, s: State, s': State): seq<Record>
    requires geo.Valid() && |s.dev.mem| == geo.Size()
  {
    if s'.lastErased == s.lastErased || s'.lastErased < 0 || s'.lastErased >= geo.sectors then []
    else
      SmallSector(geo);
      SectorLog(geo.align, Sector(geo, s.dev.mem, s'.lastErased), 0)
  }

  /** The oldest entry in the flash. */
  function Oldest(geo: Geometry, g: History): nat
    requires Ranges(geo, g)
  {
    g.lo[After(geo, g.cur)]
  }

  lemma OldestStays(geo: Geometry, g: History, g': History)
    requires Ranges(geo, g) && Ranges(geo, g') && Stays(g, g')
    ensures Oldest(geo, g') == Oldest(geo, g)
  {
    hide Run;
  }

  /** Entering the sector behind the current one drops exactly what that sector held. */
  lemma OldestEnters(geo: Geometry, g: History, g': History, q: nat)
    requires Ranges(geo, g) && Ring(geo, g) && Ranges(geo, g') && Enters(geo, g, g', q)
    requires g.flushed <= g.tornTo <= |g.raw| == |g.payloads|
    ensures q < geo.sectors == |g.lo| && g.lo[q] <= ReadEnd(g, q)
    ensures q == After(geo, g.cur) != g.cur ==> Oldest(geo, g) == g.lo[q] && Oldest(geo, g') == g.hi[q] == ReadEnd(g, q)
    ensures !(q == After(geo, g.cur) != g.cur) ==>
              q == g.cur == g.lo[q] == g.flushed == 0 && g.torn == 0 && Oldest(geo, g) == Oldest(geo, g') == 0
  {
    hide Run, Whole;
    var h := g.hi[q];
    if q != g.cur {
      RingContinues(geo, g, q);
    } else {
      var z := g.hi[1];
    }
  }

  lemma BoundsCases(geo: Geometry, before: int, after: int, g: History, g': History)
    requires KeepsBounds(geo, before, after, g, g')
    ensures after == before || after == geo.sectors ==> Stays(g, g')
    ensures !(after == before || after == geo.sectors) ==> after >= 0 && Enters(geo, g, g', after)
  {
    hide Stays, Enters;
  }

  lemma ErasedIs(geo: Geometry, s: State, s': State)
    requires geo.Valid() && |s.dev.mem| == geo.Size()
    ensures s'.lastErased == s.lastErased || s'.lastErased >= geo.sectors ==> Erased(geo, s, s') == []
    ensures s'.lastErased != s.lastErased && 0 <= s'.lastErased < geo.sectors ==>
              && Scannable(geo.align, Sector(geo, s.dev.mem, s'.lastErased))
              && Erased(geo, s, s') == SectorLog(geo.align, Sector(geo, s.dev.mem, s'.lastErased), 0)
  {
    SmallSector(geo);
    hide SectorLog, Sector;
  }

  lemma OldestInHistory(geo: Geometry, g: History)
    requires Ranges(geo, g)
    ensures After(geo, g.cur) < |g.lo| && Oldest(geo, g) == g.lo[After(geo, g.cur)]
    ensures Oldest(geo, g) <= g.flushed && forall k :: 0 <= k < |g.hi| ==> g.hi[k] <= g.flushed
  {
    hide Run;
  }

  /** What a step erases is what the oldest entry moves by. */
  lemma OldestMoves(geo: Geometry, s: State, g: History, c: Cursor, s': State, g': History)
    requires Inv(geo, s, g, c) && Ranges(geo, g') && KeepsBounds(geo, s.lastErased, s'.lastErased, g, g')
    ensures geo.Valid() && |s.dev.mem| == geo.Size() && Ranges(geo, g)
    ensures Oldest(geo, g) <= Oldest(geo, g') <= g.flushed <= |g.payloads|
    ensures Erased(geo, s, s') == Records(g, Oldest(geo, g), Oldest(geo, g'))
  {
    hide *;
    InvParts(geo, s, g, c);
    FlashParts(geo, s.dev.mem, s.writeOffset, s.lastErased, g);
    BoundsCases(geo, s.lastErased, s'.lastErased, g, g');
    ErasedIs(geo, s, s');
    OldestInHistory(geo, g);
    FlashIsHistory(geo, s.dev.mem, s.writeOffset, s.lastErased, g);
    RecordsSplit(g, Oldest(geo, g), Oldest(geo, g), Oldest(geo, g));
    if s'.lastErased == s.lastErased || s'.lastErased == geo.sectors {
      OldestStays(geo, g, g');
    } else {
      var q: nat := s'.lastErased;
      OldestEnters(geo, g, g', q);
      SectorReads(geo, s.dev.mem, g, q);
      if !(q == After(geo, g.cur) != g.cur) {
        ReadEndIs(g, q);
        NothingTorn(g);
      }
    }
  }

  // ---------- One flush ----------

  lemma {:induction false} WholeFromGrows(g: History, g': History, i: nat)
    requires g.flushed <= i <= g.tornTo <= |g.raw| == |g.payloads| && g'.raw == g.raw && g'.payloads == g.payloads
    requires g'.flushed == g.flushed && g.torn <= g'.torn && g.tornTo <= g'.tornTo <= |g.raw|
    ensures WholeFrom(g, i) <= WholeFrom(g', i)
    decreases g.tornTo - i
  {
    hide Run;
    if i < g.tornTo && |Run(g.raw, g.flushed, i)| + OVERHEAD + |g.payloads[i]| <= g.torn {
      WholeFromGrows(g, g', i + 1);
    }
  }

  /** No step takes a wholly written entry out of the newest sector. */
  lemma WholeGrows(geo: Geometry, before: int, after: int, g: History, g': History)
    requires KeepsBounds(geo, before, after, g, g') && g'.raw == g.raw && g'.payloads == g.payloads
    requires g.flushed <= g.tornTo <= |g.raw| == |g.payloads| && g'.flushed <= g'.tornTo <= |g'.raw| == |g'.payloads|
    ensures Whole(g) <= Whole(g')
  {
    if g.torn == 0 {
      NothingTorn(g);
    }
    hide Run, Enters;
    if g.torn > 0 && Stays(g, g') && g'.flushed == g.flushed && g.torn <= g'.torn && g.tornTo <= g'.tornTo {
      WholeFromGrows(g, g', g.flushed);
    } else {
      EntersReach(geo, before, after, g, g');
    }
  }

  lemma EntersReach(geo: Geometry, before: int, after: int, g: History, g': History)
    requires KeepsBounds(geo, before, after, g, g')
    ensures g.flushed <= g'.flushed
    ensures g.torn > 0 && !(Stays(g, g') && g'.flushed == g.flushed && g.torn <= g'.torn && g.tornTo <= g'.tornTo) ==>
              g.tornTo <= g'.flushed
  {
  }

  lemma SameRecords(g: History, g': History, a: nat, b: nat)
    requires g'.base == g.base && g'.payloads == g.payloads && a <= b <= |g.payloads|
    ensures Records(g', a, b) == Records(g, a, b)
  {
    assert forall i: nat :: Id(g', i) == Id(g, i);
  }

  /** The flash read back in ring order, oldest entry first. */
  function FlashLog(geo: Geometry, s: State): seq<Record>
    requires Sized(geo, s) && After(geo, HeadSector(geo, s)) < geo.sectors
  {
    RingLog(geo, s.dev.mem, After(geo, HeadSector(geo, s)), geo.sectors)
  }

  /** The batch read back. */
  function BatchLog(geo: Geometry, s: State): seq<Record>
    requires Sized(geo, s)
  {
    SmallSector(geo);
    SectorLog(geo.align, s.batch[..s.batchLen], 0)
  }

  /** Both logs of a reachable state. */
  lemma LogsOf(geo: Geometry, s: State, g: History, c: Cursor)
    requires Inv(geo, s, g, c)
    ensures Sized(geo, s) && Ranges(geo, g) && HeadSector(geo, s) == g.cur && After(geo, g.cur) < geo.sectors
    ensures g.flushed <= g.tornTo <= |g.raw| == |g.payloads|
    ensures Oldest(geo, g) <= Whole(g) <= |g.payloads| && g.flushed <= Whole(g)
    ensures FlashLog(geo, s) == Records(g, Oldest(geo, g), Whole(g))
    ensures BatchLog(geo, s) == Records(g, g.flushed, |g.payloads|)
  {
    hide *;
    InvParts(geo, s, g, c);
    HeadInUseLaw(geo, s, g);
    FlashIsHistory(geo, s.dev.mem, s.writeOffset, s.lastErased, g);
    OldestInHistory(geo, g);
    BatchReads(geo, s, g, c);
    FlashLogIs(geo, s);
  }

  lemma FlashLogIs(geo: Geometry, s: State)
    requires Sized(geo, s) && After(geo, HeadSector(geo, s)) < geo.sectors
    ensures FlashLog(geo, s) == RingLog(geo, s.dev.mem, After(geo, HeadSector(geo, s)), geo.sectors)
    ensures s.batchLen <= |s.batch| && Scannable(geo.align, s.batch[..s.batchLen])
    ensures BatchLog(geo, s) == SectorLog(geo.align, s.batch[..s.batchLen], 0)
  {
    SmallSector(geo);
    hide RingLog, SectorLog, HeadSector;
  }

  /**
   * What a flush does to flash and batch, as far as a reader can tell. `before` ends with the first `d` entries of the
   * batch, brought there by a torn write; they are none if no entry of the batch stands in the flash. The flush drops
   * the entries of the one sector it erases, and no other, and adds the entries of the batch up to `d'`. It takes `k`
   * of those out of the batch; OK takes all.
   */
  predicate Moved(before: seq<Record>, after: seq<Record>, erased: seq<Record>, batch: seq<Record>, batch': seq<Record>,
                  d: nat, d': nat, k: nat)
  {
    && d <= d' <= |batch| && k <= d' && d <= |before|
    && erased <= before && before[|before| - d..] == batch[..d]
    && after == before[|erased|..] + batch[d..d']
    && batch' == batch[k..]
  }

  lemma RecordsAre(g: History, a: nat, b: nat)
    requires a <= b <= |g.payloads|
    ensures Records(g, a, b) == Records(g, 0, |g.payloads|)[a..b]
  {
    hide Id;
  }

  lemma SliceTwice(all: seq<Record>, a: nat, x: nat, y: nat, b: nat)
    requires a <= x <= y <= b <= |all|
    ensures all[a..b][x - a..y - a] == all[x..y]
  {
    var s := all[a..b];
    forall i | 0 <= i < y - x
      ensures s[x - a..y - a][i] == all[x..y][i]
    {
      assert s[x - a + i] == all[x + i];
    }
  }

  lemma SliceJoins(all: seq<Record>, x: nat, y: nat, z: nat)
    requires x <= y <= z <= |all|
    ensures all[x..z] == all[x..y] + all[y..z]
  {
  }

  lemma PrefixOf(all: seq<Record>, a: nat, x: nat, b: nat)
    requires a <= x <= b <= |all|
    ensures all[a..x] <= all[a..b] && all[a..b][x - a..] == all[x..b]
  {
    SliceJoins(all, a, x, b);
  }

  lemma MovedSlices(all: seq<Record>, a: nat, a': nat, f: nat, w: nat, w': nat, f': nat)
    requires a <= a' <= w <= w' <= |all| && a <= f <= w && f <= f' <= w'
    ensures Moved(all[a..w], all[a'..w'], all[a..a'], all[f..|all|], all[f'..|all|], w - f, w' - f, f' - f)
  {
    var n := |all|;
    PrefixOf(all, a, a', w);
    PrefixOf(all, a, f, w);
    SliceTwice(all, f, f, w, n);
    SliceTwice(all, f, w, w', n);
    SliceJoins(all, a', w, w');
    PrefixOf(all, f, f', n);
    MovedIs(all[a..w], all[a'..w'], all[a..a'], all[f..n], all[f'..n], w - f, w' - f, f' - f);
  }

  lemma MovedIs(before: seq<Record>, after: seq<Record>, erased: seq<Record>, batch: seq<Record>, batch': seq<Record>,
                d: nat, d': nat, k: nat)
    requires d <= d' <= |batch| && k <= d' && d <= |before| && erased <= before
    requires before[|before| - d..] == batch[0..d] && after == before[|erased|..] + batch[d..d'] && batch' == batch[k..]
    ensures Moved(before, after, erased, batch, batch', d, d', k)
  {
    assert batch[0..d] == batch[..d];
  }

  lemma MovedFrom(g: History, a: nat, a': nat, f: nat, w: nat, w': nat, f': nat)
    requires a <= a' <= w <= w' <= |g.payloads| && a <= f <= w && f <= f' <= w'
    ensures Moved(Records(g, a, w), Records(g, a', w'), Records(g, a, a'), Records(g, f, |g.payloads|),
                  Records(g, f', |g.payloads|), w - f, w' - f, f' - f)
  {
    hide Records, Moved;
    var n := |g.payloads|;
    RecordsAre(g, a, w);
    RecordsAre(g, a', w');
    RecordsAre(g, a, a');
    RecordsAre(g, f, n);
    RecordsAre(g, f', n);
    MovedSlices(Records(g, 0, n), a, a', f, w, w', f');
  }

  /**
   * One flush of any reachable logger, whatever error ends it: nothing leaves the flash but the entries of the sector
   * erased, nothing leaves the batch that is not in the flash, and everything keeps its id and its place.
   */
  lemma FlushConserves(geo: Geometry, s: State, g: History, c: Cursor) returns (d: nat, d': nat, k: nat)
    requires Inv(geo, s, g, c)
    ensures Sized(geo, s) && geo.sector > 0 && After(geo, HeadSector(geo, s)) < geo.sectors
    ensures var r := FlushOp(geo, s);
            && After(geo, HeadSector(geo, r.s)) < geo.sectors
            && Moved(FlashLog(geo, s), FlashLog(geo, r.s), Erased(geo, s, r.s), BatchLog(geo, s), BatchLog(geo, r.s),
                     d, d', k)
            && (r.err == Ok ==> k == d' == |BatchLog(geo, s)|)
            && (d == 0 <==> ArrivedFrom(geo, s, 0) == 0)
  {
    hide *;
    InvParts(geo, s, g, c);
    LogsOf(geo, s, g, c);
    OldestInHistory(geo, g);
    var g' := g;
    var c' := c;
    var r := FlushOp(geo, s);
    if s.batchLen == 0 {
      EmptyFlush(geo, s);
      SameBounds(geo, s, g, c);
      NotOk();
    } else {
      var first;
      g', c', first := FlushKeeps(geo, s, g, c);
      FlushEffectParts(geo, r, g, g', first);
      SameHistoryParts(g, g');
      OkTakesAll(geo, r, g, g', first);
    }
    InvParts(geo, r.s, g', c');
    LogsOf(geo, r.s, g', c');
    OldestMoves(geo, s, g, c, r.s, g');
    WholeGrows(geo, s.lastErased, r.s.lastErased, g, g');
    EntersReach(geo, s.lastErased, r.s.lastErased, g, g');
    SameRecords(g, g', Oldest(geo, g'), Whole(g'));
    SameRecords(g, g', g'.flushed, |g.payloads|);
    MovedFrom(g, Oldest(geo, g), Oldest(geo, g'), g.flushed, Whole(g), Whole(g'), g'.flushed);
    d, d', k := Whole(g) - g.flushed, Whole(g') - g.flushed, g'.flushed - g.flushed;
    ArrivedCount(geo, s, g, c);
    RecordsSplit(g, g.flushed, |g.payloads|, |g.payloads|);
  }

  lemma NotOk()
    ensures InvalidArg != Ok
  {
  }

  lemma OkTakesAll(geo: Geometry, r: FlushResult, g: History, g': History, first: nat)
    requires FlushEffect(geo, r, g, g', first)
    ensures r.err == Ok ==> g'.flushed == |g'.raw|
  {
  }

  lemma ArrivedCount(geo: Geometry, s: State, g: History, c: Cursor)
    requires Inv(geo, s, g, c) && Sized(geo, s)
    ensures g.flushed <= g.tornTo <= |g.raw| == |g.payloads|
    ensures Whole(g) == g.flushed <==> ArrivedFrom(geo, s, 0) == 0
  {
    hide *;
    InvParts(geo, s, g, c);
    FlashParts(geo, s.dev.mem, s.writeOffset, s.lastErased, g);
    BetweenWhole(g);
    InOrder(g.raw, g.flushed, Whole(g));
    InOrder(g.raw, g.flushed, g.flushed);
    ArrivedLaw(geo, s, g, c, g.flushed);
    RunEmpty(g.raw, g.flushed);
    EntriesNotEmpty(geo, g);
    RunPositive(g.raw, g.flushed, Whole(g));
  }

  // ---------- Whole runs ----------

  /** All the entries a run erases, counted step by step. */
  function ErasedIn(geo: Geometry, x: System, ops: seq<Op>): nat
    requires Sized(geo, x.s) && forall i :: 0 <= i < |ops| ==> Allowed(ops[i])
    decreases |ops|
  {
    hide Step, Allowed, SectorLog;
    if ops == [] then 0 else |Erased(geo, x.s, Step(geo, x, ops[0]).s)| + ErasedIn(geo, Step(geo, x, ops[0]), ops[1..])
  }

  lemma RunUnfolds(geo: Geometry, x: System, ops: seq<Op>)
    requires Sized(geo, x.s) && forall i :: 0 <= i < |ops| ==> Allowed(ops[i])
    ensures ops == [] ==> Execute(geo, x, ops) == x && ErasedIn(geo, x, ops) == 0
    ensures ops != [] ==>
              && Allowed(ops[0]) && (forall i :: 0 <= i < |ops[1..]| ==> Allowed(ops[1..][i]))
              && var x1 := Step(geo, x, ops[0]);
                 && Sized(geo, x1.s) && geo.Valid() && |x.s.dev.mem| == geo.Size()
                 && Execute(geo, x, ops) == Execute(geo, x1, ops[1..])
                 && ErasedIn(geo, x, ops) == |Erased(geo, x.s, x1.s)| + ErasedIn(geo, x1, ops[1..])
  {
    hide Step, Allowed, Erased;
  }

  lemma RecordsCount(g: History, a: nat, b: nat)
    requires a <= b <= |g.payloads|
    ensures |Records(g, a, b)| == b - a
  {
    hide Id;
  }

  lemma {:induction false} OldestOfRun(geo: Geometry, x: System, g: History, c: Cursor, picks: seq<nat>, ops: seq<Op>)
    returns (g': History, c': Cursor, picks': seq<nat>)
    requires Good(geo, x, g, c, picks) && Sized(geo, x.s) && forall i :: 0 <= i < |ops| ==> Allowed(ops[i])
    ensures Good(geo, Execute(geo, x, ops), g', c', picks') && g'.base == g.base
    ensures Ranges(geo, g) && Ranges(geo, g') && Oldest(geo, g') == Oldest(geo, g) + ErasedIn(geo, x, ops)
    decreases |ops|
  {
    hide *;
    GoodParts(geo, x, g, c, picks);
    InvParts(geo, x.s, g, c);
    RunUnfolds(geo, x, ops);
    g', c', picks' := g, c, picks;
    if ops != [] {
      var x1 := Step(geo, x, ops[0]);
      var g1, c1, picks1 := StepKeeps(geo, x, g, c, picks, ops[0]);
      GoodParts(geo, x1, g1, c1, picks1);
      InvParts(geo, x1.s, g1, c1);
      OldestMoves(geo, x.s, g, c, x1.s, g1);
      RecordsCount(g, Oldest(geo, g), Oldest(geo, g1));
      g', c', picks' := OldestOfRun(geo, x1, g1, c1, picks1, ops[1..]);
    }
  }

  lemma NothingIsOldest(geo: Geometry, lastId: nat)
    requires geo.Valid() && Ranges(geo, Nothing(geo, lastId))
    ensures Oldest(geo, Nothing(geo, lastId)) == 0
  {
    hide Run;
  }

  /** Until the ring has lapped, the sector behind the head is empty and nothing has been lost. */
  lemma FirstLap(geo: Geometry, g: History)
    requires Ranges(geo, g) && Ring(geo, g) && g.cur + 1 < geo.sectors && g.lo[g.cur + 1] == g.hi[g.cur + 1]
    ensures Oldest(geo, g) == 0
  {
    hide Run;
    var h := g.hi[g.cur + 1];
  }

  /**
   * Conservation: after any run the flash, read back in ring order, and the batch hold stretches of what was written,
   * each under its own id, and the batch starts no later than the flash ends. The flash starts with entry `a`, and `a`
   * is exactly the number of entries in the sectors the run has erased. So a run loses what it erases and nothing else.
   */
  lemma OnlyOldestLost(geo: Geometry, batch: seq<Byte>, lastId: nat, ops: seq<Op>) returns (a: nat, f: nat, w: nat)
    requires Startable(geo, batch, lastId, ops)
    ensures var x := Reached(geo, batch, lastId, ops);
            && geo.sector > 0 && After(geo, HeadSector(geo, x.s)) < geo.sectors
            && IsStretch(FlashLog(geo, x.s), x.written, lastId, a, w)
            && IsStretch(BatchLog(geo, x.s), x.written, lastId, f, |x.written|)
            && f <= w && (f == w <==> ArrivedFrom(geo, x.s, 0) == 0)
    ensures forall i :: 0 <= i < |ops| ==> Allowed(ops[i])
    ensures geo.Valid() && Sized(geo, Fresh(geo, batch, lastId).s) && a == ErasedIn(geo, Fresh(geo, batch, lastId), ops)
  {
    FreshSized(geo, batch, lastId, ops);
    hide *;
    StartableParts(geo, batch, lastId, ops);
    var x := Reached(geo, batch, lastId, ops);
    var g, c, picks := OldestAfter(geo, batch, lastId, ops);
    GoodParts(geo, x, g, c, picks);
    InvParts(geo, x.s, g, c);
    LogsOf(geo, x.s, g, c);
    ArrivedCount(geo, x.s, g, c);
    a, f, w := Oldest(geo, g), g.flushed, Whole(g);
    RecordsAreStretch(g, a, w);
    RecordsAreStretch(g, f, |g.payloads|);
  }

  /** As long as the sector behind the head is empty, a run has erased no entry and the flash starts with the first. */
  lemma NothingLostOnFirstLap(geo: Geometry, batch: seq<Byte>, lastId: nat, ops: seq<Op>)
    requires Startable(geo, batch, lastId, ops) && geo.Valid()
    requires var s := Reached(geo, batch, lastId, ops).s;
             HeadSector(geo, s) + 1 < geo.sectors && SectorIsEmpty(geo, s.dev.mem, HeadSector(geo, s) + 1)
    ensures Sized(geo, Fresh(geo, batch, lastId).s) && forall i :: 0 <= i < |ops| ==> Allowed(ops[i])
    ensures ErasedIn(geo, Fresh(geo, batch, lastId), ops) == 0
  {
    hide *;
    var s := Reached(geo, batch, lastId, ops).s;
    var g, c, picks := OldestAfter(geo, batch, lastId, ops);
    GoodParts(geo, Reached(geo, batch, lastId, ops), g, c, picks);
    InvParts(geo, s, g, c);
    HeadInUseLaw(geo, s, g);
    EmptySectorIs(geo, s, g, c, g.cur + 1);
    FirstLap(geo, g);
  }

  /** The history behind a run, with the oldest entry in the flash counted from what the run erased. */
  lemma OldestAfter(geo: Geometry, batch: seq<Byte>, lastId: nat, ops: seq<Op>)
    returns (g: History, c: Cursor, picks: seq<nat>)
    requires Startable(geo, batch, lastId, ops)
    ensures Good(geo, Reached(geo, batch, lastId, ops), g, c, picks) && g.base == lastId && Ranges(geo, g)
    ensures geo.Valid() && Sized(geo, Fresh(geo, batch, lastId).s) && forall i :: 0 <= i < |ops| ==> Allowed(ops[i])
    ensures Oldest(geo, g) == ErasedIn(geo, Fresh(geo, batch, lastId), ops)
  {
    hide *;
    ReachedIs(geo, batch, lastId, ops);
    FreshIsGood(geo, batch, lastId);
    NothingBase(geo, lastId);
    g, c, picks := OldestOfRun(geo, Fresh(geo, batch, lastId), Nothing(geo, lastId), Cursor(0, 0, 0), [], ops);
    NothingIsOldest(geo, lastId);
  }

  /** A reader finds no entry at the start of the sector. */
  predicate SectorIsEmpty(geo: Geometry, mem: seq<Byte>, k: nat)
    requires geo.Valid() && |mem| == geo.Size() && k < geo.sectors
  {
    SmallSector(geo);
    SectorLog(geo.align, Sector(geo, mem, k), 0) == []
  }

  lemma EmptySectorIs(geo: Geometry, s: State, g: History, c: Cursor, k: nat)
    requires Inv(geo, s, g, c) && geo.Valid() && |s.dev.mem| == geo.Size() && k < geo.sectors
    requires SectorIsEmpty(geo, s.dev.mem, k)
    requires k != g.cur
    ensures k < |g.lo| == |g.hi| && g.lo[k] == g.hi[k]
  {
    InvParts(geo, s, g, c);
    FlashParts(geo, s.dev.mem, s.writeOffset, s.lastErased, g);
    SectorReads(geo, s.dev.mem, g, k);
    hide SectorLog, Sector, Run, Inv, FlashOk;
  }

  lemma ReachedIs(geo: Geometry, batch: seq<Byte>, lastId: nat, ops: seq<Op>)
    requires Startable(geo, batch, lastId, ops)
    ensures geo.Valid() && Sized(geo, Fresh(geo, batch, lastId).s) && |batch| == geo.batch && lastId < WORD
    ensures forall i :: 0 <= i < |ops| ==> Allowed(ops[i])
    ensures Reached(geo, batch, lastId, ops) == Execute(geo, Fresh(geo, batch, lastId), ops)
  {
    FreshSized(geo, batch, lastId, ops);
    hide Execute, Fresh;
  }

  lemma NothingBase(geo: Geometry, lastId: nat)
    requires geo.Valid()
    ensures Nothing(geo, lastId).base == lastId
  {
  }

  /** `FlushConserves` after any run. */
  lemma FlushDropsOnlyErased(geo: Geometry, batch: seq<Byte>, lastId: nat, ops: seq<Op>)
    returns (d: nat, d': nat, k: nat)
    requires Startable(geo, batch, lastId, ops)
    ensures var s := Reached(geo, batch, lastId, ops).s;
            var r := FlushOp(geo, s);
            && geo.sector > 0 && After(geo, HeadSector(geo, s)) < geo.sectors
               && After(geo, HeadSector(geo, r.s)) < geo.sectors
            && Moved(FlashLog(geo, s), FlashLog(geo, r.s), Erased(geo, s, r.s), BatchLog(geo, s), BatchLog(geo, r.s),
                     d, d', k)
            && (r.err == Ok ==> k == d' == |BatchLog(geo, s)|)
            && (d == 0 <==> ArrivedFrom(geo, s, 0) == 0)
  {
    hide *;
    StartableParts(geo, batch, lastId, ops);
    var g, c, picks := RunHistory(geo, batch, lastId, ops);
    var x := Reached(geo, batch, lastId, ops);
    GoodParts(geo, x, g, c, picks);
    d, d', k := FlushConserves(geo, x.s, g, c);
  }
}
