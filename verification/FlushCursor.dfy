/** What a flush does to the replay cursor, and which part of the backlog it leaves to replay. */
module FlushCursor {
  import opened Bytes
  import opened Entry
  import opened Layout
  import opened LoggerSpec
  import opened Invariant
  import opened FlushSteps
  import opened FlushPasses
  import opened Operations
  import opened Replay
  import opened RecoverySpec
  import opened Scanning
  import opened Conservation
  import opened Drain
  import opened Runs
  import opened RunRecovery
  import opened Losses
  import opened Backlog
  import opened ChainScan

  // ---------- The cursor in one pass ----------

  /** The offset lies in sector `k`, behind its first byte. */
  predicate AheadIn(geo: Geometry, off: nat, k: nat) {
    SectorStart(geo, k) < off < SectorStart(geo, k) + geo.sector
  }

  lemma AheadInIs(geo: Geometry, off: nat, k: nat)
    ensures AheadIn(geo, off, k) <==> SectorStart(geo, k) < off < SectorStart(geo, k) + geo.sector
  {
  }

  /** The cursor once the sector last erased has changed from `before` to `after`. */
  function CursorAfter(geo: Geometry, before: int, after: int, replay: nat): nat {
    if after != before && 0 <= after < geo.sectors && AheadIn(geo, replay, after)
    then SectorStart(geo, After(geo, after))
    else replay
  }

  lemma CursorAfterIs(geo: Geometry, before: int, after: int, replay: nat)
    ensures after != before && 0 <= after < geo.sectors ==>
              CursorAfter(geo, before, after, replay) ==
              if AheadIn(geo, replay, after) then SectorStart(geo, After(geo, after)) else replay
    ensures !(after != before && 0 <= after < geo.sectors) ==> CursorAfter(geo, before, after, replay) == replay
  {
    hide AheadIn, After, SectorStart;
  }

  lemma PassPushes(geo: Geometry, f: Flushing)
    requires Sized(geo, f.s) && geo.Valid() && f.written + f.left <= geo.batch && f.err == Ok
    requires NextChunk(geo, f) <= f.left && geo.sector > 0
    ensures FlushPass(geo, f).replay == PushReplay(geo, f.write, f.replay)
  {
    hide FlushPass, WriteChunk, NextChunk, NextSectorStart, PushReplay;
    PassShape(geo, f);
  }

  lemma PushIs(geo: Geometry, write: nat, replay: nat)
    requires geo.sector > 0
    ensures Clear(geo, write, replay) ==> PushReplay(geo, write, replay) == replay
    ensures !Clear(geo, write, replay) ==>
              PushReplay(geo, write, replay) == Wrapped(geo, NextSectorStart(geo, replay))
              && write / geo.sector == replay / geo.sector && replay > write
    ensures replay <= write ==> Clear(geo, write, replay)
  {
    hide NextSectorStart, Wrapped;
  }

  /** At the start of a sector the rule asks whether the cursor lies behind that start. */
  lemma PushAtStart(geo: Geometry, write: nat, replay: nat, q: nat)
    requires geo.Valid() && q < geo.sectors && write == SectorStart(geo, q)
    ensures geo.sector > 0
    ensures PushReplay(geo, write, replay) ==
            if AheadIn(geo, replay, q) then SectorStart(geo, After(geo, q)) else replay
  {
    SectorOfOffset(geo, q, 0);
    AheadInIs(geo, replay, q);
    if AheadIn(geo, replay, q) {
      SectorOfOffset(geo, q, replay - SectorStart(geo, q));
      PushTarget(geo, q, replay);
    } else if write < replay {
      BeyondSector(geo, replay, q);
    }
    hide AheadIn, NextSectorStart, Wrapped;
  }

  lemma BeyondSector(geo: Geometry, off: nat, q: nat)
    requires geo.sector > 0 && off >= SectorStart(geo, q) + geo.sector
    ensures off / geo.sector != q
  {
  }

  /** The cursor never lies beyond the partition. */
  lemma CursorInside(geo: Geometry, replay: nat, g: History, c: Cursor)
    requires Ranges(geo, g) && ReplayOk(geo, replay, g, c)
    ensures replay <= geo.Size()
  {
    ReplaySector(geo, replay, g, c);
    SectorInside(geo, c.sector);
    hide Run;
  }

  lemma NotPushedInside(geo: Geometry, write: nat, replay: nat, lastErased: int, g: History, c: Cursor)
    requires Ranges(geo, g) && WriteOk(geo, write, lastErased, g) && ReplayOk(geo, replay, g, c)
    requires geo.sector > 0 && write / geo.sector == g.cur
    ensures Clear(geo, write, replay)
  {
    hide Run, WriteOk, ReplayOk, Ranges;
    if !Clear(geo, write, replay) {
      PushedFrom(geo, write, replay, lastErased, g, c);
    }
  }

  /** One pass of the flush loop moves the cursor if and only if it enters the sector in which the cursor is ahead. */
  lemma PassCursor(geo: Geometry, f: Flushing, g: History, c: Cursor)
    requires FlushInv(geo, f, g, c) && f.err == Ok && f.left > 0
    ensures Sized(geo, f.s) && f.written + f.left <= geo.batch
    ensures FlushPass(geo, f).replay == CursorAfter(geo, f.s.lastErased, FlushPass(geo, f).s.lastErased, f.replay)
  {
    hide *;
    FlushInvParts(geo, f, g, c);
    var f', q := FlushPass(geo, f), f.write / geo.sector;
    var m := NextChunkLaw(geo, f, g, c);
    PassPushes(geo, f);
    PushIs(geo, f.write, f.replay);
    CursorAfterIs(geo, f.s.lastErased, f'.s.lastErased, f.replay);
    if AtEnd(geo, f.write) {
      var c' := PassAtEnd(geo, f, g, c);
      StuckErr(geo, f, f');
      AtEndWhere(geo, f.write, f.s.lastErased, g);
      CursorInside(geo, f.replay, g, c);
    } else if q != f.s.lastErased {
      EnteringHere(geo, f.write, f.s.lastErased, g, q);
      EnteringStart(geo, f.write, f.s.lastErased, g, q);
      var g', c' := PassEnters(geo, f, g, c, q);
      SectorStartIs(geo, q);
      PushAtStart(geo, f.write, f.replay, q);
    } else {
      StayingWhere(geo, f.write, f.s.lastErased, g);
      NotPushedInside(geo, f.write, f.replay, f.s.lastErased, g, c);
      StayingErased(geo, f, g, c);
    }
  }

  lemma StayingErased(geo: Geometry, f: Flushing, g: History, c: Cursor)
    requires FlushInv(geo, f, g, c) && f.err == Ok && f.left > 0 && geo.Valid() && !AtEnd(geo, f.write)
    requires f.write / geo.sector == f.s.lastErased
    ensures Sized(geo, f.s) && f.written + f.left <= geo.batch
    ensures FlushPass(geo, f).s.lastErased == f.s.lastErased
  {
    hide *;
    FlushInvParts(geo, f, g, c);
    if NextChunk(geo, f) > 0 {
      var g', c' := PassAdds(geo, f, g, c);
    } else {
      var g', c' := PassSkips(geo, f, g, c);
    }
  }

  // ---------- The cursor in a flush ----------

  lemma {:induction false} LoopCursor(geo: Geometry, f: Flushing, g: History, c: Cursor)
    requires FlushInv(geo, f, g, c) && f.err == Ok && f.left > 0
    ensures Sized(geo, f.s) && f.written + f.left <= geo.batch
    ensures FlushLoop(geo, f).replay == CursorAfter(geo, f.s.lastErased, FlushLoop(geo, f).s.lastErased, f.replay)
    decreases f.left, GapAhead(geo, f.write)
  {
    hide *;
    FlushInvParts(geo, f, g, c);
    LoopUnfolds(geo, f);
    FlushPassProgress(geo, f);
    PassCursor(geo, f, g, c);
    var f' := FlushPass(geo, f);
    if f'.left > 0 && f'.err == Ok {
      if AtEnd(geo, f.write) {
        var c1 := PassAtEnd(geo, f, g, c);
        StuckErr(geo, f, f');
        assert false;
      }
      var g1, c1 := PassKeeps(geo, f, g, c);
      CursorAfterIs(geo, f.s.lastErased, f'.s.lastErased, f.replay);
      LoopCursor(geo, f', g1, c1);
    }
  }

  lemma EndCursor(geo: Geometry, f: Flushing)
    requires Sized(geo, f.s) && f.written + f.left <= geo.batch
    ensures FlushEnd(geo, f).replayOffset == FlushEnd(geo, f).hint.replayOffset == f.replay
    ensures FlushEnd(geo, f).lastErased == f.s.lastErased
    ensures FlushEnd(geo, f).hint.lastId == FlushEnd(geo, f).lastId == f.s.lastId
  {
  }

  lemma StartCursor(s: State)
    ensures FlushStart(s).replay == s.replayOffset && FlushStart(s).s == s
  {
  }

  lemma FlushCursor(geo: Geometry, s: State, g: History, c: Cursor)
    requires Inv(geo, s, g, c) && s.batchLen > 0
    ensures Sized(geo, s)
    ensures var s' := FlushOp(geo, s).s;
            && s'.replayOffset == CursorAfter(geo, s.lastErased, s'.lastErased, s.replayOffset)
            && s'.hint.replayOffset == s'.replayOffset && s'.hint.lastId == s'.lastId == s.lastId
  {
    hide *;
    InvParts(geo, s, g, c);
    FlushBegins(geo, s, g, c);
    StartCursor(s);
    FlushOpUnfolds(geo, s);
    LoopCursor(geo, FlushStart(s), g, c);
    LoopKeepsId(geo, FlushStart(s), g, c);
    EndCursor(geo, FlushLoop(geo, FlushStart(s)));
  }

  lemma LoopKeepsId(geo: Geometry, f: Flushing, g: History, c: Cursor)
    requires FlushInv(geo, f, g, c) && f.err == Ok
    ensures Sized(geo, f.s) && f.written + f.left <= geo.batch
    ensures Sized(geo, FlushLoop(geo, f).s) && FlushLoop(geo, f).s.lastId == f.s.lastId
    ensures FlushLoop(geo, f).written + FlushLoop(geo, f).left <= geo.batch
  {
    hide FlashOk, ReplayOk, Ranges;
  }

  // ---------- After any run ----------

  /** The current sector before and after, told from the sector last erased. */
  lemma HeadMoves(geo: Geometry, before: int, after: int, g: History, g': History, replay: nat, c: Cursor)
    requires Ranges(geo, g) && Ranges(geo, g') && KeepsBounds(geo, before, after, g, g') && ReplayOk(geo, replay, g, c)
    ensures g'.cur != g.cur ==> after != before && 0 <= after < geo.sectors && g'.cur == after == After(geo, g.cur)
    ensures g'.cur == g.cur && after != before && 0 <= after < geo.sectors ==> replay == 0 == g.cur == after
  {
    RunEmpty(g.raw, 0);
    hide Run;
    TwoSectors(geo);
  }

  lemma CursorOfHeads(geo: Geometry, before: int, after: int, g: History, g': History, replay: nat, c: Cursor)
    requires Ranges(geo, g) && Ranges(geo, g') && KeepsBounds(geo, before, after, g, g') && ReplayOk(geo, replay, g, c)
    ensures CursorAfter(geo, before, after, replay) ==
            if g'.cur != g.cur && AheadIn(geo, replay, g'.cur) then SectorStart(geo, After(geo, g'.cur)) else replay
  {
    hide *;
    HeadMoves(geo, before, after, g, g', replay, c);
    CursorAfterIs(geo, before, after, replay);
    BoundsMove(geo, before, after, g, g');
    if g'.cur == g.cur && after != before && 0 <= after < geo.sectors {
      AheadInIs(geo, replay, after);
    }
  }

  lemma BoundsMove(geo: Geometry, before: int, after: int, g: History, g': History)
    requires KeepsBounds(geo, before, after, g, g') && Ranges(geo, g)
    ensures after != before && 0 <= after < geo.sectors ==> g'.cur == after
  {
    hide Run;
  }

  lemma NextStartIsElsewhere(geo: Geometry, off: nat, k: nat)
    requires geo.Valid() && k < geo.sectors && AheadIn(geo, off, k)
    ensures SectorStart(geo, After(geo, k)) != off
  {
    SectorInside(geo, k);
  }

  /** The batch flushed, with the history behind it and the cursor's law. */
  lemma FlushedWith(geo: Geometry, s: State, g: History, c: Cursor) returns (g': History, c': Cursor)
    requires Inv(geo, s, g, c) && s.batchLen > 0
    ensures Sized(geo, s) && Ranges(geo, g) && Ranges(geo, g') && SameHistory(g, g')
    ensures var s' := FlushOp(geo, s).s;
            && Inv(geo, s', g', c') && geo.sector > 0 && HeadSector(geo, s) == g.cur && HeadSector(geo, s') == g'.cur
            && KeepsBounds(geo, s.lastErased, s'.lastErased, g, g')
            && s'.replayOffset ==
               (if g'.cur != g.cur && AheadIn(geo, s.replayOffset, g'.cur) then SectorStart(geo, After(geo, g'.cur))
                else s.replayOffset)
            && s'.hint.replayOffset == s'.replayOffset && s'.hint.lastId == s'.lastId == s.lastId
  {
    hide *;
    InvParts(geo, s, g, c);
    var first;
    g', c', first := FlushKeeps(geo, s, g, c);
    FlushEffectParts(geo, FlushOp(geo, s), g, g', first);
    var s' := FlushOp(geo, s).s;
    InvParts(geo, s', g', c');
    HeadInUseLaw(geo, s, g);
    HeadInUseLaw(geo, s', g');
    FlushCursor(geo, s, g, c);
    CursorOfHeads(geo, s.lastErased, s'.lastErased, g, g', s.replayOffset, c);
  }

  /**
   * After any run, any flush, whatever comes of it: the replay cursor moves if and only if the flush goes on in another
   * sector and the cursor lies in that sector, behind its first byte. It then stands at the start of the sector after
   * that one in the ring. The hint saved carries the cursor and the last id.
   */
  lemma CursorAfterFlush(geo: Geometry, batch: seq<Byte>, lastId: nat, ops: seq<Op>)
    requires Startable(geo, batch, lastId, ops) && geo.Valid() && geo.sector > 0
    ensures var s := Reached(geo, batch, lastId, ops).s;
            var s' := FlushOp(geo, s).s;
            var q := HeadSector(geo, s');
            && q < geo.sectors
            && (s'.replayOffset != s.replayOffset <==> q != HeadSector(geo, s) && AheadIn(geo, s.replayOffset, q))
            && (s'.replayOffset != s.replayOffset ==> s'.replayOffset == SectorStart(geo, After(geo, q)))
            && (s.batchLen > 0 ==> s'.hint.replayOffset == s'.replayOffset && s'.hint.lastId == s'.lastId == s.lastId)
  {
    hide *;
    StartableParts(geo, batch, lastId, ops);
    var g, c, picks := RunHistory(geo, batch, lastId, ops);
    var s := Reached(geo, batch, lastId, ops).s;
    GoodParts(geo, Reached(geo, batch, lastId, ops), g, c, picks);
    InvParts(geo, s, g, c);
    HeadInUseLaw(geo, s, g);
    if s.batchLen == 0 {
      EmptyFlush(geo, s);
    } else {
      var g', c' := FlushedWith(geo, s, g, c);
      InvParts(geo, FlushOp(geo, s).s, g', c');
      if AheadIn(geo, s.replayOffset, g'.cur) {
        NextStartIsElsewhere(geo, s.replayOffset, g'.cur);
      }
    }
  }

  // ---------- The backlog a flush leaves ----------

  /** Sector `k` is not the one a flush has just entered: its bounds, before and after. */
  lemma BoundsOf(geo: Geometry, before: int, after: int, g: History, g': History, k: nat)
    requires Ranges(geo, g) && Ranges(geo, g') && KeepsBounds(geo, before, after, g, g') && SameHistory(g, g')
    requires k < geo.sectors && (k == g'.cur ==> g'.cur == g.cur && g.flushed > 0)
    ensures |g.lo| == |g.hi| == |g'.lo| == |g'.hi| == geo.sectors && g.flushed <= g'.flushed
    ensures g'.lo[k] == g.lo[k]
    ensures k != g.cur ==> g'.hi[k] == g.hi[k] && k != g'.cur
    ensures k == g.cur ==> g'.hi[k] >= g.flushed
  {
    hide Run;
  }

  lemma StopCases(geo: Geometry, g: History, k: nat)
    requires Ranges(geo, g) && k < geo.sectors
    ensures k < |g.lo| == |g.hi| && Between(g.raw, g.lo[k], g.hi[k]) && g.cur < geo.sectors
    ensures k == g.cur ==> DrainStop(geo, g, k) == g.flushed
    ensures k != g.cur && !(|Run(g.raw, g.lo[k], g.hi[k])| == geo.sector && k + 1 < geo.sectors) ==>
              DrainStop(geo, g, k) == g.hi[k]
    ensures k != g.cur && |Run(g.raw, g.lo[k], g.hi[k])| == geo.sector && k + 1 < geo.sectors ==>
              DrainStop(geo, g, k) == DrainStop(geo, g, k + 1)
  {
    hide Run;
  }

  lemma EntersBehind(geo: Geometry, before: int, after: int, g: History, g': History, k: nat)
    requires Ranges(geo, g) && KeepsBounds(geo, before, after, g, g') && k + 1 < geo.sectors && k != g.cur
    requires (!g.lapped ==> k <= g.cur) && g.flushed > 0
    ensures k + 1 == g'.cur ==> g'.cur == g.cur
  {
    hide Run;
  }

  lemma SameEntries(g: History, g': History)
    requires SameHistory(g, g')
    ensures g'.raw == g.raw && g'.base == g.base && g'.payloads == g.payloads && g.flushed <= g'.flushed
  {
  }

  /** A drain that starts in a sector the flush has not entered gets no less far afterwards. */
  lemma {:induction false} StopGrows(geo: Geometry, before: int, after: int, g: History, g': History, k: nat)
    requires Ranges(geo, g) && Ranges(geo, g') && KeepsBounds(geo, before, after, g, g') && SameHistory(g, g')
    requires Ring(geo, g) && Ring(geo, g') && k < geo.sectors && (!g.lapped ==> k <= g.cur) && g.flushed > 0
    requires (!g'.lapped ==> k <= g'.cur) && (k == g'.cur ==> g'.cur == g.cur)
    ensures DrainStop(geo, g, k) <= DrainStop(geo, g', k)
    decreases geo.sectors - k
  {
    hide *;
    SameEntries(g, g');
    BoundsOf(geo, before, after, g, g', k);
    StopCases(geo, g, k);
    StopCases(geo, g', k);
    StopBeyond(geo, g', k);
    if k != g.cur && |Run(g.raw, g.lo[k], g.hi[k])| == geo.sector && k + 1 < geo.sectors {
      FullGoesOn(geo, g, k);
      FullGoesOn(geo, g', k);
      EntersBehind(geo, before, after, g, g', k);
      StopGrows(geo, before, after, g, g', k + 1);
    }
  }

  lemma SameLength(raw: seq<seq<Byte>>, a: nat, x: nat, y: nat)
    requires Between(raw, a, x) && Between(raw, a, y) && forall i :: 0 <= i < |raw| ==> |raw[i]| > OVERHEAD
    requires |Run(raw, a, x)| == |Run(raw, a, y)|
    ensures x == y
  {
    if x < y {
      RunSplit(raw, a, x, y);
      RunPositive(raw, x, y);
    } else if y < x {
      RunSplit(raw, a, y, x);
      RunPositive(raw, y, x);
    }
  }

  /** Offsets that differ have an entry behind them. */
  lemma SomethingFlushed(geo: Geometry, s: State, g: History, c: Cursor)
    requires Inv(geo, s, g, c) && s.replayOffset != s.writeOffset
    ensures g.flushed > 0
  {
    hide *;
    InvParts(geo, s, g, c);
    TwoSectors(geo);
    CursorParts(geo, s.replayOffset, g, c);
    CursorValue(geo, s.replayOffset, g, c);
    if g.flushed == 0 {
      NothingFlushed(geo, g);
      RunEmpty(g.raw, 0);
      WriteAtNothing(geo, s.writeOffset, s.lastErased, g);
    }
  }

  lemma NothingFlushed(geo: Geometry, g: History)
    requires Ranges(geo, g) && Ring(geo, g) && g.flushed == 0 && 1 < geo.sectors
    ensures g.cur == 0 && !g.lapped && g.lo[0] == g.hi[0] == 0
  {
    hide Run;
    var h0, h1 := g.hi[0], g.hi[1];
  }

  lemma WriteAtNothing(geo: Geometry, write: nat, lastErased: int, g: History)
    requires Ranges(geo, g) && WriteOk(geo, write, lastErased, g) && !g.moved && g.cur == 0 && g.lo[0] == g.hi[0] == 0
    ensures write == 0
  {
    RunEmpty(g.raw, 0);
    hide Run;
  }

  /** The backlog in terms of the history. */
  lemma BacklogOf(geo: Geometry, s: State, g: History, c: Cursor)
    requires Inv(geo, s, g, c) && s.replayOffset != s.writeOffset
    ensures Sized(geo, s) && HeadSector(geo, s) == g.cur < geo.sectors && geo.sector > 0 && Ranges(geo, g)
    ensures c.sector < geo.sectors == |g.lo| == |g.hi| && c.entry <= DrainStop(geo, g, c.sector) <= |g.payloads|
    ensures Between(g.raw, g.lo[c.sector], c.entry) && g.lo[c.sector] <= c.entry <= g.hi[c.sector]
    ensures s.replayOffset / geo.sector == c.sector && (!g.lapped ==> c.sector <= g.cur)
    ensures s.replayOffset % geo.sector == |Run(g.raw, g.lo[c.sector], c.entry)|
    ensures Undelivered(geo, s) == Records(g, c.entry, DrainStop(geo, g, c.sector))
  {
    hide *;
    InvParts(geo, s, g, c);
    HeadPartIs(geo, s, g, c);
    CursorOffset(geo, s, g, c);
    CursorParts(geo, s.replayOffset, g, c);
    CursorValue(geo, s.replayOffset, g, c);
    BacklogIsFrom(geo, s, c.sector, |Run(g.raw, g.lo[c.sector], c.entry)|);
    BacklogIs(geo, s, g, c, c.sector, c.entry);
  }

  lemma PrefixOfRecords(g: History, g': History, a: nat, b: nat, b': nat)
    requires SameHistory(g, g') && a <= b <= b' <= |g.payloads|
    ensures Records(g, a, b) <= Records(g', a, b')
  {
    SameRecords(g, g', a, b);
    RecordsSplit(g', a, b, b');
  }

  /** What a cursor that has not moved still has in front of it. */
  lemma StillAhead(geo: Geometry, s: State, g: History, c: Cursor, s': State, g': History, c': Cursor)
    requires Inv(geo, s, g, c) && Inv(geo, s', g', c') && Ranges(geo, g) && Ranges(geo, g') && SameHistory(g, g')
    requires KeepsBounds(geo, s.lastErased, s'.lastErased, g, g') && s'.replayOffset == s.replayOffset
    requires s.replayOffset != s.writeOffset && s'.replayOffset != s'.writeOffset
    requires g'.cur != g.cur ==> !AheadIn(geo, s.replayOffset, g'.cur) && s.replayOffset != SectorStart(geo, g'.cur)
    ensures Sized(geo, s) && Sized(geo, s') && HeadSector(geo, s) < geo.sectors && HeadSector(geo, s') < geo.sectors
    ensures Undelivered(geo, s) <= Undelivered(geo, s')
  {
    hide *;
    InvParts(geo, s, g, c);
    InvParts(geo, s', g', c');
    SomethingFlushed(geo, s, g, c);
    BacklogOf(geo, s, g, c);
    BacklogOf(geo, s', g', c');
    SameEntries(g, g');
    var k := c.sector;
    if k == g'.cur && g'.cur != g.cur {
      InSector(geo, s.replayOffset, k);
      AheadInIs(geo, s.replayOffset, k);
    }
    BoundsOf(geo, s.lastErased, s'.lastErased, g, g', k);
    EntriesAreLong(geo, g);
    SameLength(g.raw, g.lo[k], c.entry, c'.entry);
    StopGrows(geo, s.lastErased, s'.lastErased, g, g', k);
    PrefixOfRecords(g, g', c.entry, DrainStop(geo, g, k), DrainStop(geo, g', k));
  }

  lemma EntriesAreLong(geo: Geometry, g: History)
    requires Ranges(geo, g)
    ensures forall i :: 0 <= i < |g.raw| ==> |g.raw[i]| > OVERHEAD
  {
    hide Run;
  }

  lemma InSector(geo: Geometry, off: nat, k: nat)
    requires geo.sector > 0 && off / geo.sector == k
    ensures SectorStart(geo, k) <= off < SectorStart(geo, k) + geo.sector
    ensures off % geo.sector == off - SectorStart(geo, k)
  {
    assert off == k * geo.sector + off % geo.sector;
  }

  lemma StartOfPlace(geo: Geometry, k: nat)
    requires geo.Valid() && k < geo.sectors
    ensures SectorStart(geo, k) / geo.sector == k && SectorStart(geo, k) % geo.sector == 0
  {
    SectorOfOffset(geo, k, 0);
  }

  lemma AfterIsInRing(geo: Geometry, k: nat)
    requires k < geo.sectors
    ensures After(geo, k) < geo.sectors
  {
  }

  /** The records from the cursor to the end of its sector. */
  function InSectorAhead(geo: Geometry, s: State, q: nat): seq<Record>
    requires Sized(geo, s) && q < geo.sectors && AheadIn(geo, s.replayOffset, q)
  {
    SmallSector(geo);
    SectorLog(geo.align, Sector(geo, s.dev.mem, q), s.replayOffset - SectorStart(geo, q))
  }

  lemma InSectorAheadIs(geo: Geometry, s: State, q: nat, pos: nat)
    requires Sized(geo, s) && q < geo.sectors && AheadIn(geo, s.replayOffset, q)
    requires s.replayOffset == SectorStart(geo, q) + pos
    ensures geo.Valid() && |s.dev.mem| == geo.Size() && Scannable(geo.align, Sector(geo, s.dev.mem, q))
    ensures InSectorAhead(geo, s, q) == SectorLog(geo.align, Sector(geo, s.dev.mem, q), pos)
  {
    SmallSector(geo);
    hide SectorLog, Sector;
  }

  lemma TailOfRecords(g: History, a: nat, b: nat, c: nat)
    requires a <= b <= c <= |g.payloads|
    ensures |Records(g, a, b)| == b - a <= |Records(g, a, c)| && Records(g, a, c)[b - a..] == Records(g, b, c)
  {
    RecordsSplit(g, a, b, c);
    RecordsCount(g, a, b);
  }

  /** What a pushed cursor has in front of it: all of the backlog but the records of the sector just erased. */
  lemma AheadOfPushed(geo: Geometry, s: State, g: History, c: Cursor, s': State, g': History, c': Cursor)
    requires Inv(geo, s, g, c) && Inv(geo, s', g', c') && Ranges(geo, g) && Ranges(geo, g') && SameHistory(g, g')
    requires KeepsBounds(geo, s.lastErased, s'.lastErased, g, g') && g'.cur < geo.sectors
    requires s.replayOffset != s.writeOffset && s'.replayOffset != s'.writeOffset
    requires g'.cur != g.cur && AheadIn(geo, s.replayOffset, g'.cur)
    requires s'.replayOffset == SectorStart(geo, After(geo, g'.cur))
    ensures Sized(geo, s) && Sized(geo, s') && HeadSector(geo, s) < geo.sectors && HeadSector(geo, s') < geo.sectors
    ensures |InSectorAhead(geo, s, g'.cur)| <= |Undelivered(geo, s)|
    ensures Undelivered(geo, s)[|InSectorAhead(geo, s, g'.cur)|..] <= Undelivered(geo, s')
  {
    hide *;
    InvParts(geo, s, g, c);
    InvParts(geo, s', g', c');
    FlashParts(geo, s.dev.mem, s.writeOffset, s.lastErased, g);
    SomethingFlushed(geo, s, g, c);
    BacklogOf(geo, s, g, c);
    BacklogOf(geo, s', g', c');
    SameEntries(g, g');
    var q := g'.cur;
    var n := After(geo, q);
    AheadSector(geo, s.replayOffset, q);
    AfterIsInRing(geo, q);
    StartOfPlace(geo, n);
    InSectorAheadIs(geo, s, q, |Run(g.raw, g.lo[q], c.entry)|);
    OldSectorReads(geo, s.dev.mem, g, q, c.entry);
    StopCases(geo, g, q);
    StopBeyond(geo, g, q);
    TailOfRecords(g, c.entry, g.hi[q], DrainStop(geo, g, q));
    if |Run(g.raw, g.lo[q], g.hi[q])| == geo.sector && q + 1 < geo.sectors {
      FullGoesOn(geo, g, q);
      BoundsOf(geo, s.lastErased, s'.lastErased, g, g', n);
      RunEmpty(g.raw, g.lo[n]);
      EntriesAreLong(geo, g);
      InOrder(g.raw, g.lo[n], g.lo[n]);
      SameLength(g.raw, g.lo[n], c'.entry, g.lo[n]);
      StopGrows(geo, s.lastErased, s'.lastErased, g, g', n);
      PrefixOfRecords(g, g', g.hi[q], DrainStop(geo, g, n), DrainStop(geo, g', n));
    } else {
      RecordsSplit(g, g.hi[q], g.hi[q], g.hi[q]);
    }
  }

  lemma AheadSector(geo: Geometry, off: nat, q: nat)
    requires geo.Valid() && q < geo.sectors && AheadIn(geo, off, q)
    ensures off / geo.sector == q && off == SectorStart(geo, q) + off % geo.sector
  {
    SectorOfOffset(geo, q, off - SectorStart(geo, q));
  }

  /** The writer has reached the cursor: equal offsets, or a sector entered at whose first byte the cursor stands. */
  predicate Meets(geo: Geometry, s: State, s': State)
    requires geo.sector > 0
  {
    || s'.replayOffset == s'.writeOffset
    || (HeadSector(geo, s') != HeadSector(geo, s) && s.replayOffset == SectorStart(geo, HeadSector(geo, s')))
  }

  lemma MeetsIs(geo: Geometry, s: State, s': State)
    requires geo.sector > 0
    ensures Meets(geo, s, s') <==>
              || s'.replayOffset == s'.writeOffset
              || (HeadSector(geo, s') != HeadSector(geo, s) && s.replayOffset == SectorStart(geo, HeadSector(geo, s')))
  {
    hide HeadSector;
  }

  /** The part of the backlog of `s` that the step to `s'` has not erased. */
  function NotErased(geo: Geometry, s: State, s': State): seq<Record>
    requires Sized(geo, s) && geo.sector > 0 && HeadSector(geo, s) < geo.sectors && HeadSector(geo, s') < geo.sectors
  {
    hide HeadSector, AheadIn, InSectorAhead, Undelivered;
    var q := HeadSector(geo, s');
    if q == HeadSector(geo, s) || !AheadIn(geo, s.replayOffset, q) then Undelivered(geo, s)
    else
      var n := |InSectorAhead(geo, s, q)|;
      if n <= |Undelivered(geo, s)| then Undelivered(geo, s)[n..] else []
  }

  lemma NotErasedIs(geo: Geometry, s: State, s': State, q: nat)
    requires Sized(geo, s) && geo.sector > 0 && HeadSector(geo, s) < geo.sectors
    requires q == HeadSector(geo, s') < geo.sectors
    ensures q == HeadSector(geo, s) || !AheadIn(geo, s.replayOffset, q) ==> NotErased(geo, s, s') == Undelivered(geo, s)
    ensures q != HeadSector(geo, s) && AheadIn(geo, s.replayOffset, q)
            && |InSectorAhead(geo, s, q)| <= |Undelivered(geo, s)| ==>
              NotErased(geo, s, s') == Undelivered(geo, s)[|InSectorAhead(geo, s, q)|..]
  {
    hide HeadSector, AheadIn, InSectorAhead, Undelivered;
  }

  /** Once the writer has reached the cursor, only entries of the batch are in front of it. */
  lemma AheadOfMet(geo: Geometry, s: State, g: History, c: Cursor, s': State, g': History, c': Cursor)
    returns (a: nat, b: nat)
    requires Inv(geo, s, g, c) && Inv(geo, s', g', c') && Ranges(geo, g) && Ranges(geo, g') && SameHistory(g, g')
    requires KeepsBounds(geo, s.lastErased, s'.lastErased, g, g')
    requires s'.replayOffset != s'.writeOffset ==> g'.cur != g.cur && s'.replayOffset == SectorStart(geo, g'.cur)
    ensures Sized(geo, s) && Sized(geo, s') && HeadSector(geo, s') < geo.sectors
    ensures a <= b <= |BatchLog(geo, s)| && Undelivered(geo, s') == BatchLog(geo, s)[a..b]
  {
    hide *;
    InvParts(geo, s, g, c);
    InvParts(geo, s', g', c');
    HeadPartIs(geo, s', g', c');
    LogsOf(geo, s, g, c);
    SameEntries(g, g');
    a, b := 0, 0;
    if s'.replayOffset == s'.writeOffset {
      NoBacklog(geo, s');
    } else {
      BacklogOf(geo, s', g', c');
      StartOfPlace(geo, g'.cur);
      RunEmpty(g'.raw, g'.lo[g'.cur]);
      EntriesAreLong(geo, g');
      InOrder(g'.raw, g'.lo[g'.cur], g'.lo[g'.cur]);
      SameLength(g'.raw, g'.lo[g'.cur], c'.entry, g'.lo[g'.cur]);
      StopCases(geo, g', g'.cur);
      EnteredBehind(geo, s.lastErased, s'.lastErased, g, g');
      a, b := c'.entry - g.flushed, g'.flushed - g.flushed;
      RecordsSlice(g, g.flushed, c'.entry, g'.flushed, |g.payloads|);
      SameRecords(g, g', c'.entry, g'.flushed);
    }
  }

  lemma EnteredBehind(geo: Geometry, before: int, after: int, g: History, g': History)
    requires Ranges(geo, g) && Ranges(geo, g') && KeepsBounds(geo, before, after, g, g') && g'.cur != g.cur
    ensures g'.cur < |g'.lo| && g.flushed <= g'.lo[g'.cur] <= g'.flushed
  {
    hide Run;
  }

  lemma RecordsSlice(g: History, a: nat, x: nat, y: nat, b: nat)
    requires a <= x <= y <= b <= |g.payloads|
    ensures |Records(g, a, b)| == b - a && Records(g, a, b)[x - a..y - a] == Records(g, x, y)
  {
    RecordsCount(g, a, b);
    RecordsSplit(g, a, x, b);
    RecordsSplit(g, x, y, b);
    RecordsCount(g, a, x);
    RecordsCount(g, x, y);
  }

  /**
   * After any run, any flush of a non-empty batch with something to replay: unless the writer reaches the cursor, what
   * the flush has not erased of the backlog is still in front of the cursor, first and in order. If it does reach it,
   * nothing of the old backlog is left there.
   */
  lemma BacklogAfterFlush(geo: Geometry, batch: seq<Byte>, lastId: nat, ops: seq<Op>) returns (a: nat, b: nat)
    requires Startable(geo, batch, lastId, ops) && geo.Valid() && geo.sector > 0
    requires Reached(geo, batch, lastId, ops).s.batchLen > 0
    requires Reached(geo, batch, lastId, ops).s.replayOffset != Reached(geo, batch, lastId, ops).s.writeOffset
    ensures var s := Reached(geo, batch, lastId, ops).s;
            var s' := FlushOp(geo, s).s;
            && HeadSector(geo, s) < geo.sectors && HeadSector(geo, s') < geo.sectors
            && (!Meets(geo, s, s') ==> NotErased(geo, s, s') <= Undelivered(geo, s'))
            && (Meets(geo, s, s') ==> a <= b <= |BatchLog(geo, s)| && Undelivered(geo, s') == BatchLog(geo, s)[a..b])
  {
    hide *;
    StartableParts(geo, batch, lastId, ops);
    var g, c, picks := RunHistory(geo, batch, lastId, ops);
    var s := Reached(geo, batch, lastId, ops).s;
    GoodParts(geo, Reached(geo, batch, lastId, ops), g, c, picks);
    InvParts(geo, s, g, c);
    var g', c' := FlushedWith(geo, s, g, c);
    var s' := FlushOp(geo, s).s;
    InvParts(geo, s', g', c');
    MeetsIs(geo, s, s');
    NotErasedIs(geo, s, s', g'.cur);
    AheadInIs(geo, s.replayOffset, g'.cur);
    a, b := 0, 0;
    if Meets(geo, s, s') {
      a, b := AheadOfMet(geo, s, g, c, s', g', c');
    } else if g'.cur != g.cur && AheadIn(geo, s.replayOffset, g'.cur) {
      AheadOfPushed(geo, s, g, c, s', g', c');
    } else {
      StillAhead(geo, s, g, c, s', g', c');
    }
  }
}
