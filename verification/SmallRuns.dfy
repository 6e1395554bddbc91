/** Runs that go on call by call, and runs of rounds: write one entry, flush it. */
module SmallRuns {
  import opened Bytes
  import opened Entry
  import opened Layout
  import opened Flash
  import opened LoggerSpec
  import opened Invariant
  import opened FlushSteps
  import opened FlushPasses
  import opened Operations
  import opened FlushSuccess
  import opened RecoverySpec
  import opened Conservation
  import opened Runs
  import opened RunRecovery

  // ---------- Runs, one call at a time ----------

  /** The run goes on with one more call. */
  lemma OneMore(geo: Geometry, batch: seq<Byte>, lastId: nat, ops: seq<Op>, op: Op)
    requires Startable(geo, batch, lastId, ops) && Allowed(op)
    ensures Startable(geo, batch, lastId, ops + [op]) && Sized(geo, Reached(geo, batch, lastId, ops).s)
    ensures Reached(geo, batch, lastId, ops + [op]) == Step(geo, Reached(geo, batch, lastId, ops), op)
  {
    FreshSized(geo, batch, lastId, ops);
    hide Step, Allowed, Fresh, Sized;
    ExecuteBoth(geo, Fresh(geo, batch, lastId), ops, [op]);
    assert [op][1..] == [];
  }

  lemma StepIs(geo: Geometry, x: System, payload: seq<Byte>, after: nat)
    requires Sized(geo, x.s) && |payload| < WORD
    ensures Allowed(OpWrite(payload)) && Allowed(OpFlush) && Allowed(OpFault(after))
    ensures Step(geo, x, OpWrite(payload)).s == WriteOp(geo, x.s, payload).s
    ensures Step(geo, x, OpWrite(payload)).written ==
            if WriteOp(geo, x.s, payload).err == Ok then x.written + [payload] else x.written
    ensures Step(geo, x, OpFlush).s == FlushOp(geo, x.s).s && Step(geo, x, OpFlush).written == x.written
    ensures Step(geo, x, OpFault(after)).s == x.s.(dev := x.s.dev.(failNext := true, failAfter := after))
    ensures Step(geo, x, OpFault(after)).written == x.written
    ensures Step(geo, x, OpWrite(payload)).delivered == Step(geo, x, OpFlush).delivered == x.delivered
  {
    hide WriteOp, FlushOp;
  }

  /** A flush of a batch that fits the room left in its sector takes one chunk. */
  lemma FlushInOneChunk(geo: Geometry, s: State, g: History, c: Cursor)
    requires Inv(geo, s, g, c) && Sized(geo, s) && geo.Valid() && s.batchLen > 0 && !s.dev.failNext
    requires s.writeOffset < geo.Size() && s.batchLen <= Room(geo, s.writeOffset)
    ensures var r := FlushOp(geo, s);
            && r.err == Ok && r.s.writeOffset == s.writeOffset + s.batchLen && r.s.batchLen == 0 && !r.s.dev.failNext
            && r.s.hint.writeOffset == s.writeOffset
            && (s.replayOffset <= s.writeOffset ==> r.s.replayOffset == s.replayOffset)
  {
    hide *;
    InvParts(geo, s, g, c);
    FlushBegins(geo, s, g, c);
    StartFields(s);
    WrittenZero(s);
    DevOkIsNoFault();
    FlushOpUnfolds(geo, s);
    var f := FlushStart(s);
    FlushInvParts(geo, f, g, c);
    LoopUnfolds(geo, f);
    InsideIsNotEnd(geo, s.writeOffset);
    var m := NextChunkLaw(geo, f, g, c);
    FittingLaw(g.raw, g.flushed, Room(geo, f.write), |g.raw|);
    PassFault(geo, f);
    var g', c' := PassKeeps(geo, f, g, c);
    var f' := FlushPass(geo, f);
    FlushInvParts(geo, f', g', c');
    HealthyOutcome(geo, f, g, f', g');
    OutcomeOfPass(geo, f, g, f', g');
    PassHint(geo, f, g, f', g');
    PassReplay(geo, f);
    StartReplay(s);
    EndFields(geo, f');
  }

  lemma InsideIsNotEnd(geo: Geometry, off: nat)
    requires geo.Valid() && off < geo.Size()
    ensures geo.sector > 0 && !AtEnd(geo, off)
  {
    OffsetInRing(geo, off);
  }

  lemma PassHint(geo: Geometry, f: Flushing, g: History, f': Flushing, g': History)
    requires PassOutcome(geo, f, g, f', g') && f'.err == Ok
    ensures f'.hintOffset == f.s.writeOffset
  {
  }

  lemma EndFields(geo: Geometry, f: Flushing)
    requires Sized(geo, f.s) && f.written + f.left <= geo.batch
    ensures var r := FlushEnd(geo, f);
            r.dev == f.s.dev && r.writeOffset == f.write && r.batchLen == f.left && r.hint.writeOffset == f.hintOffset
            && r.replayOffset == f.replay
  {
  }

  lemma StartReplay(s: State)
    ensures FlushStart(s).replay == s.replayOffset
  {
  }

  /** A cursor that is not ahead of the writer is not pushed. */
  lemma PassReplay(geo: Geometry, f: Flushing)
    requires Sized(geo, f.s) && geo.Valid() && f.written + f.left <= geo.batch && f.err == Ok
    requires NextChunk(geo, f) <= f.left
    ensures f.replay <= f.write ==> FlushPass(geo, f).replay == f.replay
  {
    hide FlushPass, WriteChunk, NextChunk, NextSectorStart;
    PassShape(geo, f);
  }

  lemma ZeroIsWord()
    ensures 0 < WORD
  {
  }

  /** A flush that finds no room for an entry goes to the start of the next sector and ends there. */
  lemma FlushBehindGap(geo: Geometry, s: State, g: History, c: Cursor)
    requires Inv(geo, s, g, c) && Sized(geo, s) && geo.Valid() && s.batchLen > 0 && !s.dev.failNext
    requires s.writeOffset < geo.Size() && NextChunk(geo, FlushStart(s)) == 0
    ensures var r, next := FlushOp(geo, s), Wrapped(geo, NextSectorStart(geo, s.writeOffset));
            && r.err == Ok && r.s.writeOffset == next + s.batchLen && r.s.batchLen == 0 && !r.s.dev.failNext
            && (s.replayOffset <= s.writeOffset && s.replayOffset <= next ==> r.s.replayOffset == s.replayOffset)
  {
    hide *;
    InvParts(geo, s, g, c);
    FlushBegins(geo, s, g, c);
    StartFields(s);
    StartReplay(s);
    WrittenZero(s);
    DevOkIsNoFault();
    FlushOpUnfolds(geo, s);
    var f := FlushStart(s);
    FlushInvParts(geo, f, g, c);
    EmptyChunkHasRoom(geo, f, g, c);
    InsideIsNotEnd(geo, s.writeOffset);
    LoopUnfolds(geo, f);
    PassShape(geo, f);
    PushedParts(geo, f);
    PassReplay(geo, f);
    PassFault(geo, f);
    var g1, c1 := PassKeeps(geo, f, g, c);
    var f1 := FlushPass(geo, f);
    SettleFails(Pushed(geo, f).(write := Wrapped(geo, NextSectorStart(geo, f.write))));
    HealthyOutcome(geo, f, g, f1, g1);
    MovedStart(geo, f1, g1, c1);
    FlushInvParts(geo, f1, g1, c1);
    RoomAtStart(geo, f1.write);
    BatchFitsSector(geo, f1, g1, c1);
    LoopUnfolds(geo, f1);
    PassReplay(geo, f1);
    PassFault(geo, f1);
    var g2, c2 := PassKeeps(geo, f1, g1, c1);
    var f2 := FlushPass(geo, f1);
    HealthyOutcome(geo, f1, g1, f2, g2);
    FlushInvParts(geo, f2, g2, c2);
    EndFields(geo, f2);
  }

  /** An empty chunk leaves a rest of the sector to skip. */
  lemma EmptyChunkHasRoom(geo: Geometry, f: Flushing, g: History, c: Cursor)
    requires FlushInv(geo, f, g, c) && NextChunk(geo, f) == 0 && f.left > 0
    ensures Room(geo, f.write) < geo.sector
  {
    hide *;
    FlushInvParts(geo, f, g, c);
    RoomPositive(geo, f.write);
    if Room(geo, f.write) == geo.sector {
      BatchFitsSector(geo, f, g, c);
    }
  }

  // ---------- Rounds ----------

  /** One kind of payload, its entry of `e` bytes, `k` of which fit a sector. */
  predicate Plan(geo: Geometry, p: seq<Byte>, e: nat, k: nat) {
    && geo.Valid() && p != [] && OVERHEAD + |p| <= geo.batch && e == EntrySize(|p|, geo.align) && 0 < e <= geo.batch
    && k >= 1 && k * e <= geo.sector < k * e + e
  }

  lemma PlanParts(geo: Geometry, p: seq<Byte>, e: nat, k: nat)
    requires Plan(geo, p, e, k)
    ensures geo.Valid() && p != [] && OVERHEAD + |p| <= geo.batch && e == EntrySize(|p|, geo.align)
    ensures 0 < e <= geo.batch
    ensures k >= 1 && k * e <= geo.sector < k * e + e && geo.align >= 1 && geo.sector > 0 && |p| < WORD
    ensures e <= geo.sector
  {
    BatchIsSmall(geo);
    hide EntrySize;
  }

  function Copies(p: seq<Byte>, n: nat): (s: seq<seq<Byte>>)
    ensures |s| == n && forall i :: 0 <= i < n ==> s[i] == p
  {
    seq(n, _ => p)
  }

  lemma OneMoreCopy(p: seq<Byte>, n: nat)
    ensures Copies(p, n + 1) == Copies(p, n) + [p] && Copies(p, 0) == []
  {
  }

  lemma LengthOfRaw(geo: Geometry, g: History, i: nat)
    requires LogOk(geo, g) && i < |g.raw| == |g.payloads|
    ensures geo.align >= 1 && |g.raw[i]| == EntrySize(|g.payloads[i]|, geo.align)
  {
    hide Unpadded, EntrySize;
  }

  lemma {:induction false} RunOfEquals(raw: seq<seq<Byte>>, a: nat, b: nat, e: nat)
    requires Between(raw, a, b) && forall i :: 0 <= i < |raw| ==> |raw[i]| == e
    ensures |Run(raw, a, b)| == (b - a) * e
    decreases b - a
  {
    if a < b {
      RunFirst(raw, a, b);
      RunOfEquals(raw, a + 1, b, e);
      assert (b - a) * e == (b - a - 1) * e + e;
    } else {
      RunEmpty(raw, a);
    }
  }

  /** In a history of copies every entry has the same size. */
  lemma EqualEntries(geo: Geometry, g: History, p: seq<Byte>, e: nat, n: nat)
    requires LogOk(geo, g) && geo.align >= 1 && g.payloads == Copies(p, n) && e == EntrySize(|p|, geo.align)
    ensures |g.raw| == n && forall i :: 0 <= i < |g.raw| ==> |g.raw[i]| == e
  {
    SameSizes(geo, g);
    hide LogOk, EntrySize;
    forall i | 0 <= i < |g.raw|
      ensures |g.raw[i]| == e
    {
      LengthOfRaw(geo, g, i);
    }
  }

  lemma SameSizes(geo: Geometry, g: History)
    requires LogOk(geo, g)
    ensures |g.raw| == |g.payloads|
  {
    hide IsEntry;
  }

  /** Rounds that fill `j` sectors and put `i` entries into the next. */
  function Count(k: nat, j: nat, i: nat): nat {
    j * k + i
  }

  /** The offset behind entry `i` of sector `j`. */
  function Behind(geo: Geometry, e: nat, j: nat, i: nat): nat {
    j * geo.sector + i * e
  }

  lemma CountIs(k: nat, j: nat, i: nat)
    ensures Count(k, j, i) == j * k + i
  {
  }

  lemma BehindIs(geo: Geometry, e: nat, j: nat, i: nat)
    ensures Behind(geo, e, j, i) == j * geo.sector + i * e
  {
  }

  /** Sector `m` starts with entry `m * k`, and the write offset is behind entry `i` of sector `j`. */
  predicate Trail(geo: Geometry, p: seq<Byte>, e: nat, k: nat, s: State, g: History, c: Cursor, j: nat, i: nat) {
    && !s.dev.failNext && s.batchLen == 0 && s.replayOffset == 0 && s.writeOffset == Behind(geo, e, j, i)
    && g.payloads == Copies(p, Count(k, j, i)) && g.flushed == |g.raw| && g.torn == 0
    && g.cur == j < geo.sectors == |g.lo| && i <= k && (forall m :: 0 <= m <= j ==> g.lo[m] == Count(k, m, 0))
    && Inv(geo, s, g, c)
  }

  lemma TrailParts(geo: Geometry, p: seq<Byte>, e: nat, k: nat, s: State, g: History, c: Cursor, j: nat, i: nat)
    ensures Trail(geo, p, e, k, s, g, c, j, i) <==>
              && !s.dev.failNext && s.batchLen == 0 && s.replayOffset == 0 && s.writeOffset == Behind(geo, e, j, i)
              && g.payloads == Copies(p, Count(k, j, i)) && g.flushed == |g.raw| && g.torn == 0
              && g.cur == j < geo.sectors == |g.lo| && i <= k && (forall m :: 0 <= m <= j ==> g.lo[m] == Count(k, m, 0))
              && Inv(geo, s, g, c)
  {
    hide Inv, Behind, Count, Copies;
  }

  lemma TrailStart(geo: Geometry, batch: seq<Byte>, lastId: nat, p: seq<Byte>, e: nat, k: nat)
    requires Plan(geo, p, e, k) && |batch| == geo.batch && lastId < WORD
    ensures Trail(geo, p, e, k, Fresh(geo, batch, lastId).s, Nothing(geo, lastId), Cursor(0, 0, 0), 0, 0)
  {
    FreshIsGood(geo, batch, lastId);
    OneMoreCopy(p, 0);
    hide Inv, EntrySize;
  }

  /** One more entry in a batch with room for it. */
  lemma WriteRound(geo: Geometry, p: seq<Byte>, e: nat, k: nat, s: State, g: History, c: Cursor)
    returns (g1: History)
    requires Plan(geo, p, e, k) && Inv(geo, s, g, c) && s.batchLen + e <= geo.batch && Sized(geo, s) && |p| < WORD
    ensures var r := WriteOp(geo, s, p);
            && r.err == Ok && Inv(geo, r.s, g1, c) && r.s.batchLen == s.batchLen + e
            && r.s.dev == s.dev && r.s.writeOffset == s.writeOffset && r.s.replayOffset == s.replayOffset
            && r.s.lastErased == s.lastErased && r.s.hint == s.hint
    ensures g1.payloads == g.payloads + [p] && g1.cur == g.cur && g1.lo == g.lo && g1.hi == g.hi && g1.base == g.base
    ensures g1.flushed == g.flushed && g1.torn == g.torn
  {
    hide *;
    PlanParts(geo, p, e, k);
    InvParts(geo, s, g, c);
    BatchIsSmall(geo);
    FitsNoWrap(|p|, geo.align, geo.batch);
    WriteUnfolds(geo, s, p);
    CopiedParts(geo, s, p, DevOk);
    CopyFitsNoWrap(geo, s, p);
    AppendParts(geo, s, p);
    g1 := AppendKeeps(geo, s, g, c, p);
    ExtendedFields(g, Appended(geo, s, p), p);
  }

  lemma ExtendedFields(g: History, r: seq<Byte>, payload: seq<Byte>)
    ensures var g' := Extended(g, r, payload);
            && g'.payloads == g.payloads + [payload] && g'.cur == g.cur && g'.lo == g.lo && g'.hi == g.hi
            && g'.base == g.base && g'.flushed == g.flushed && g'.torn == g.torn
  {
  }

  /** Sectors that are not the current one afterwards start with the entries they started with. */
  lemma StartsKept(geo: Geometry, before: int, after: int, g: History, g': History)
    requires KeepsBounds(geo, before, after, g, g')
    ensures |g'.lo| == |g.lo| && g'.cur < |g'.lo| && forall m :: 0 <= m < |g.lo| && m != g'.cur ==> g'.lo[m] == g.lo[m]
  {
  }

  /** An offset behind some bytes of a sector tells both. */
  lemma OffsetUnique(a: nat, u: nat, b: nat, v: nat, size: nat)
    requires a * size + u == b * size + v && 0 < u <= size && 0 < v <= size
    ensures a == b && u == v
  {
    if a < b {
      MulLe(a + 1, b, size);
    } else if b < a {
      MulLe(b + 1, a, size);
    }
  }

  lemma TimesUnique(x: nat, y: nat, e: nat)
    requires e > 0 && x * e == y * e
    ensures x == y
  {
    if x < y {
      TimesLess(x, y, e);
    } else if y < x {
      TimesLess(y, x, e);
    }
  }

  lemma TimesLess(x: nat, y: nat, e: nat)
    requires x < y && e > 0
    ensures x * e < y * e
  {
    MulLe(x + 1, y, e);
  }

  /** The flush of that entry, from where it leaves the offsets. */
  lemma FlushRound(geo: Geometry, p: seq<Byte>, e: nat, k: nat, s: State, g: History, c: Cursor, j: nat, i: nat, n: nat)
    returns (g': History, c': Cursor)
    requires Plan(geo, p, e, k) && Inv(geo, s, g, c) && Sized(geo, s) && s.batchLen == e
    requires g.payloads == Copies(p, n) && n == Count(k, j, i) && 1 <= i <= k && j < geo.sectors == |g.lo|
    requires forall m :: 0 <= m < j ==> g.lo[m] == Count(k, m, 0)
    requires var r := FlushOp(geo, s);
             && r.err == Ok && r.s.batchLen == 0 && !r.s.dev.failNext && r.s.replayOffset == 0
             && r.s.writeOffset == Behind(geo, e, j, i)
    ensures Trail(geo, p, e, k, FlushOp(geo, s).s, g', c', j, i) && g'.base == g.base
  {
    hide *;
    PlanParts(geo, p, e, k);
    CountIs(k, j, i);
    BehindIs(geo, e, j, i);
    InvParts(geo, s, g, c);
    var first;
    g', c', first := FlushedHistory(geo, s, g, c);
    var s' := FlushOp(geo, s).s;
    InvParts(geo, s', g', c');
    StartsKept(geo, s.lastErased, s'.lastErased, g, g');
    EqualEntries(geo, g', p, e, n);
    WhereFlushed(geo, s'.writeOffset, s'.lastErased, g');
    InOrder(g'.raw, g'.lo[g'.cur], g'.flushed);
    RunOfEquals(g'.raw, g'.lo[g'.cur], g'.flushed, e);
    MulLe(1, i, e);
    MulLe(i, k, e);
    MulLe(1, g'.flushed - g'.lo[g'.cur], e);
    OffsetUnique(g'.cur, (g'.flushed - g'.lo[g'.cur]) * e, j, i * e, geo.sector);
    TimesUnique(g'.flushed - g'.lo[g'.cur], i, e);
    CountIs(k, j, 0);
    TrailParts(geo, p, e, k, s', g', c', j, i);
  }

  lemma WhereFlushed(geo: Geometry, write: nat, lastErased: int, g: History)
    requires Ranges(geo, g) && WriteOk(geo, write, lastErased, g) && !g.moved
    ensures g.cur < |g.lo| == |g.hi| && g.hi[g.cur] == g.flushed && g.lo[g.cur] <= g.flushed
    ensures Between(g.raw, g.lo[g.cur], g.flushed) && |Run(g.raw, g.lo[g.cur], g.flushed)| <= geo.sector
    ensures write == g.cur * geo.sector + |Run(g.raw, g.lo[g.cur], g.flushed)|
  {
    hide Run;
  }

  /** An entry that does not fit the room left yields no chunk. */
  lemma TooLong(geo: Geometry, s: State, g: History, c: Cursor, e: nat)
    requires Inv(geo, s, g, c) && geo.Valid() && s.batchLen > 0 && Room(geo, s.writeOffset) < e
    requires forall i :: 0 <= i < |g.raw| ==> |g.raw[i]| == e
    ensures NextChunk(geo, FlushStart(s)) == 0
  {
    hide *;
    InvParts(geo, s, g, c);
    FlushBegins(geo, s, g, c);
    StartFields(s);
    var f := FlushStart(s);
    FlushInvParts(geo, f, g, c);
    var m := NextChunkLaw(geo, f, g, c);
    InOrder(g.raw, g.flushed, m);
    FittingLaw(g.raw, g.flushed, Room(geo, f.write), m);
    if g.flushed < m {
      InOrder(g.raw, g.flushed + 1, m);
      RunFirst(g.raw, g.flushed, m);
    } else {
      RunEmpty(g.raw, g.flushed);
    }
  }

  /** Offsets of the rounds against the sectors. */
  lemma RoomBehind(geo: Geometry, p: seq<Byte>, e: nat, k: nat, j: nat, i: nat)
    requires Plan(geo, p, e, k) && j < geo.sectors && i <= k
    ensures i < k ==> Behind(geo, e, j, i) < geo.Size() && Room(geo, Behind(geo, e, j, i)) == geo.sector - i * e >= e
    ensures i < k ==> Behind(geo, e, j, i) + e == Behind(geo, e, j, i + 1)
    ensures i == k && k * e < geo.sector ==>
              && Behind(geo, e, j, i) < geo.Size() && Room(geo, Behind(geo, e, j, i)) == geo.sector - k * e < e
              && NextSectorStart(geo, Behind(geo, e, j, i)) == (j + 1) * geo.sector
              && Behind(geo, e, j, i) % geo.sector == k * e && Behind(geo, e, j, i) / geo.sector == j
    ensures i == k && k * e == geo.sector ==> Behind(geo, e, j, i) == (j + 1) * geo.sector
  {
    PlanParts(geo, p, e, k);
    hide EntrySize;
    SectorInside(geo, j);
    MulLe(i, k, e);
    if i < k {
      MulLe(i + 1, k, e);
      assert (i + 1) * e == i * e + e;
      SectorOfOffset(geo, j, i * e);
    } else if k * e < geo.sector {
      SectorOfOffset(geo, j, k * e);
    }
  }

  lemma StartOfSectorRoom(geo: Geometry, e: nat, j: nat)
    requires geo.Valid() && j < geo.sectors
    ensures Behind(geo, e, j, 0) < geo.Size() && Room(geo, Behind(geo, e, j, 0)) == geo.sector
    ensures Behind(geo, e, j, 0) == j * geo.sector && Behind(geo, e, j, 0) + e == Behind(geo, e, j, 1)
    ensures Wrapped(geo, j * geo.sector) == j * geo.sector
  {
    SectorInside(geo, j);
    SectorOfOffset(geo, j, 0);
  }

  /** One round: where it leads. */
  function NextPlace(k: nat, j: nat, i: nat): (nat, nat) {
    if i < k then (j, i + 1) else (j + 1, 1)
  }

  lemma NextPlaceIs(k: nat, j: nat, i: nat)
    ensures NextPlace(k, j, i) == if i < k then (j, i + 1) else (j + 1, 1)
  {
  }

  lemma NextCount(k: nat, j: nat, i: nat)
    requires i <= k
    ensures var (j', i') := NextPlace(k, j, i); Count(k, j', i') == Count(k, j, i) + 1
  {
    assert (j + 1) * k == j * k + k;
  }

  lemma {:induction false} TrailRound(geo: Geometry, p: seq<Byte>, e: nat, k: nat, s: State, g: History, c: Cursor,
                                      j: nat, i: nat)
    returns (g': History, c': Cursor)
    requires Plan(geo, p, e, k) && Trail(geo, p, e, k, s, g, c, j, i) && NextPlace(k, j, i).0 < geo.sectors
    requires Sized(geo, s) && |p| < WORD
    ensures Sized(geo, WriteOp(geo, s, p).s) && WriteOp(geo, s, p).err == Ok
    ensures FlushOp(geo, WriteOp(geo, s, p).s).err == Ok
    ensures Trail(geo, p, e, k, FlushOp(geo, WriteOp(geo, s, p).s).s, g', c',
                  NextPlace(k, j, i).0, NextPlace(k, j, i).1)
    ensures g'.base == g.base
  {
    hide *;
    PlanParts(geo, p, e, k);
    TrailParts(geo, p, e, k, s, g, c, j, i);
    InvParts(geo, s, g, c);
    NextPlaceIs(k, j, i);
    NextCount(k, j, i);
    var n := Count(k, j, i);
    OneMoreCopy(p, n);
    RoomBehind(geo, p, e, k, j, i);
    var g1 := WriteRound(geo, p, e, k, s, g, c);
    var s1 := WriteOp(geo, s, p).s;
    InvParts(geo, s1, g1, c);
    if i < k {
      FlushInOneChunk(geo, s1, g1, c);
    } else {
      StartOfSectorRoom(geo, e, j + 1);
      BehindIs(geo, e, j, i);
      if k * e == geo.sector {
        FlushInOneChunk(geo, s1, g1, c);
      } else {
        EqualEntries(geo, g1, p, e, n + 1);
        TooLong(geo, s1, g1, c, e);
        FlushBehindGap(geo, s1, g1, c);
      }
    }
    var (j', i') := NextPlace(k, j, i);
    g', c' := FlushRound(geo, p, e, k, s1, g1, c, j', i', n + 1);
  }

  // ---------- Whole runs of rounds ----------

  function Rounds(p: seq<Byte>, n: nat): seq<Op> {
    if n == 0 then [] else Rounds(p, n - 1) + [OpWrite(p)] + [OpFlush]
  }

  lemma RoundsUnfold(p: seq<Byte>, n: nat)
    ensures Rounds(p, 0) == [] && Rounds(p, n + 1) == Rounds(p, n) + [OpWrite(p)] + [OpFlush]
  {
  }

  lemma StartOfRun(geo: Geometry, batch: seq<Byte>, lastId: nat)
    requires geo.Valid() && |batch| == geo.batch && lastId < WORD
    ensures Startable(geo, batch, lastId, []) && Reached(geo, batch, lastId, []) == Fresh(geo, batch, lastId)
    ensures Reached(geo, batch, lastId, []).written == Reached(geo, batch, lastId, []).delivered == []
    ensures Nothing(geo, lastId).base == lastId
  {
  }

  /** The write and the flush of a round at the end of a run. */
  lemma RoundOfRun(geo: Geometry, batch: seq<Byte>, lastId: nat, ops: seq<Op>, p: seq<Byte>)
    requires Startable(geo, batch, lastId, ops) && |p| < WORD
    ensures Startable(geo, batch, lastId, ops + [OpWrite(p)])
    ensures Startable(geo, batch, lastId, ops + [OpWrite(p)] + [OpFlush])
    ensures Sized(geo, Reached(geo, batch, lastId, ops).s)
    ensures var x := Reached(geo, batch, lastId, ops);
            var y := Reached(geo, batch, lastId, ops + [OpWrite(p)]);
            && y.s == WriteOp(geo, x.s, p).s && Sized(geo, y.s)
            && y.written == (if WriteOp(geo, x.s, p).err == Ok then x.written + [p] else x.written)
            && Reached(geo, batch, lastId, ops + [OpWrite(p)] + [OpFlush]).s == FlushOp(geo, y.s).s
            && y.delivered == x.delivered
            && Reached(geo, batch, lastId, ops + [OpWrite(p)] + [OpFlush]).written == y.written
            && Reached(geo, batch, lastId, ops + [OpWrite(p)] + [OpFlush]).delivered == y.delivered
  {
    hide *;
    StartableParts(geo, batch, lastId, ops);
    var x := Reached(geo, batch, lastId, ops);
    StepIs(geo, x, p, 0);
    OneMore(geo, batch, lastId, ops, OpWrite(p));
    var y := Reached(geo, batch, lastId, ops + [OpWrite(p)]);
    StartableParts(geo, batch, lastId, ops + [OpWrite(p)]);
    StepIs(geo, y, p, 0);
    OneMore(geo, batch, lastId, ops + [OpWrite(p)], OpFlush);
  }

  /** After `j * k + i` rounds. */
  lemma {:induction false} Filled(geo: Geometry, batch: seq<Byte>, lastId: nat, p: seq<Byte>, e: nat, k: nat, j: nat,
                                  i: nat)
    returns (g: History, c: Cursor)
    requires Plan(geo, p, e, k) && |batch| == geo.batch && lastId < WORD
    requires j < geo.sectors && i <= k && (i == 0 ==> j == 0)
    ensures Startable(geo, batch, lastId, Rounds(p, Count(k, j, i)))
    ensures Trail(geo, p, e, k, Reached(geo, batch, lastId, Rounds(p, Count(k, j, i))).s, g, c, j, i)
    ensures g.base == lastId
    ensures Reached(geo, batch, lastId, Rounds(p, Count(k, j, i))).written == Copies(p, Count(k, j, i))
    ensures Reached(geo, batch, lastId, Rounds(p, Count(k, j, i))).delivered == []
    decreases j, i
  {
    hide *;
    PlanParts(geo, p, e, k);
    CountIs(k, j, i);
    if i == 0 {
      RoundsUnfold(p, 0);
      OneMoreCopy(p, 0);
      StartOfRun(geo, batch, lastId);
      TrailStart(geo, batch, lastId, p, e, k);
      g, c := Nothing(geo, lastId), Cursor(0, 0, 0);
    } else {
      var a, b := if i == 1 && j > 0 then j - 1 else j, if i == 1 && j > 0 then k else i - 1;
      var g0, c0 := Filled(geo, batch, lastId, p, e, k, a, b);
      NextPlaceIs(k, a, b);
      NextCount(k, a, b);
      var n := Count(k, a, b);
      var ops := Rounds(p, n);
      RoundsUnfold(p, n);
      OneMoreCopy(p, n);
      StartableParts(geo, batch, lastId, ops);
      g, c := TrailRound(geo, p, e, k, Reached(geo, batch, lastId, ops).s, g0, c0, a, b);
      RoundOfRun(geo, batch, lastId, ops, p);
    }
  }
}
