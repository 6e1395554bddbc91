/** What a drain delivers after any run, told from the flash and the two offsets. */
module Backlog {
  import opened Bytes
  import opened Entry
  import opened Layout
  import opened LoggerSpec
  import opened Invariant
  import opened Operations
  import opened Replay
  import opened RecoverySpec
  import opened Recovery
  import opened Scanning
  import opened Conservation
  import opened Drain
  import opened Runs
  import opened RunRecovery
  import opened Losses

  // ---------- The backlog on flash ----------

  /** Where the entries that start at `pos` end: the offset of the first thing that does not validate. */
  function LogEnd(align: nat, buf: seq<Byte>, pos: nat): nat
    requires Scannable(align, buf)
    decreases |buf| - pos
  {
    if pos + HEADER_SIZE > |buf| || Validate(buf[pos..], |buf| - pos) != Ok then pos
    else
      ValidEntryAdvances(buf[pos..], |buf| - pos, align);
      var length := WordAt(buf[pos..], 8);
      if HEADER_SIZE + length > |buf| - pos then pos else LogEnd(align, buf, pos + EntrySize(length, align))
  }

  /** The part of the head sector in front of the write offset. */
  function HeadPart(geo: Geometry, s: State): (buf: seq<Byte>)
    requires Sized(geo, s) && HeadSector(geo, s) < geo.sectors
    ensures |buf| <= geo.sector
  {
    var start := HeadSector(geo, s) * geo.sector;
    if start <= s.writeOffset <= start + geo.sector
        then Sector(geo, s.dev.mem, HeadSector(geo, s))[..s.writeOffset - start]
    else []
  }

  /**
   * The entries from offset `pos` of sector `k` on, up to the write offset or to the first sector that is not full to
   * the last byte.
   */
  function BacklogFrom(geo: Geometry, s: State, k: nat, pos: nat): seq<Record>
    requires Sized(geo, s) && HeadSector(geo, s) < geo.sectors && k < geo.sectors
    decreases geo.sectors - k
  {
    SmallSector(geo);
    if k == HeadSector(geo, s) then SectorLog(geo.align, HeadPart(geo, s), pos)
    else
      var buf := Sector(geo, s.dev.mem, k);
      SectorLog(geo.align, buf, pos)
      + (if LogEnd(geo.align, buf, pos) == geo.sector && k + 1 < geo.sectors then BacklogFrom(geo, s, k + 1, 0) else [])
  }

  lemma PlaceOf(off: nat, size: nat)
    requires size > 0
    ensures off / size >= 0 && off % size >= 0
  {
  }

  /** The entries from the replay offset on. Equal offsets mean that there is nothing to replay. */
  function Undelivered(geo: Geometry, s: State): seq<Record>
    requires Sized(geo, s) && HeadSector(geo, s) < geo.sectors
  {
    hide *;
    SizedBatch(geo, s);
    PlaceOf(s.replayOffset, geo.sector);
    var k, pos := s.replayOffset / geo.sector, s.replayOffset % geo.sector;
    if s.replayOffset == s.writeOffset || k >= geo.sectors then [] else BacklogFrom(geo, s, k, pos)
  }

  /** The sector with the newest entry in the flash. */
  function NewestSector(geo: Geometry, s: State): nat
    requires geo.Valid()
  {
    if HeadInUse(geo, s) then HeadSector(geo, s)
    else if HeadSector(geo, s) == 0 then geo.sectors - 1 else HeadSector(geo, s) - 1
  }

  /** Where the entries of a sector end. */
  function SectorEnd(geo: Geometry, mem: seq<Byte>, k: nat): nat
    requires geo.Valid() && |mem| == geo.Size() && k < geo.sectors
  {
    SmallSector(geo);
    LogEnd(geo.align, Sector(geo, mem, k), 0)
  }

  /** Sectors `k..last` are full to the last byte. */
  predicate AllFull(geo: Geometry, mem: seq<Byte>, k: nat, last: nat)
    requires geo.Valid() && |mem| == geo.Size() && last < geo.sectors
  {
    forall j :: k <= j < last ==> SectorEnd(geo, mem, j) == geo.sector
  }

  /** No sector from that of the replay offset up to the newest one ends in a gap. */
  predicate NoGapAhead(geo: Geometry, s: State)
    requires Sized(geo, s)
  {
    var k, last := s.replayOffset / geo.sector, NewestSector(geo, s);
    k == HeadSector(geo, s) || (k <= last < geo.sectors && AllFull(geo, s.dev.mem, k, last))
  }

  function PayloadsOf(log: seq<Record>): (s: seq<seq<Byte>>)
    ensures |s| == |log| && forall i :: 0 <= i < |log| ==> s[i] == log[i].payload
  {
    seq(|log|, i requires 0 <= i < |log| => log[i].payload)
  }

  // ---------- Against the history ----------

  lemma EndOfOneEntry(align: nat, buf: seq<Byte>, at: nat, n: nat, id: nat, payload: seq<Byte>)
    requires Scannable(align, buf) && at + n <= |buf| && IsEntry(buf[at..at + n], id, payload, align)
    ensures LogEnd(align, buf, at) == LogEnd(align, buf, at + n)
  {
    hide WordAt, Validate, Unpadded, EntrySize;
    var raw, rest := buf[at..at + n], buf[at + n..];
    assert buf[at..] == raw + rest;
    EntryFields(raw, id, payload, align, rest);
    EntryValidates(raw, id, payload, align, rest, |buf| - at);
  }

  lemma EndStays(align: nat, buf: seq<Byte>, at: nat)
    requires Scannable(align, buf)
    requires at + HEADER_SIZE <= |buf| ==> Validate(buf[at..], |buf| - at) != Ok
    ensures LogEnd(align, buf, at) == at
  {
    hide Validate;
  }

  lemma {:induction false} EndOfEntries(geo: Geometry, g: History, buf: seq<Byte>, a: nat, e: nat, b: nat)
    requires geo.align >= 1 && EntriesAt(geo, g, buf, a, b) && a <= e <= b <= |g.raw| == |g.payloads|
    requires Scannable(geo.align, buf) && Between(g.raw, a, e) && Between(g.raw, a, b)
    requires LogEnd(geo.align, buf, |Run(g.raw, a, b)|) == |Run(g.raw, a, b)|
    ensures LogEnd(geo.align, buf, |Run(g.raw, a, e)|) == |Run(g.raw, a, b)|
    decreases b - e
  {
    hide *;
    if e < b {
      EntryAtParts(geo, g, buf, a, b, e);
      InOrder(g.raw, a, e + 1);
      EndOfOneEntry(geo.align, buf, |Run(g.raw, a, e)|, |g.raw[e]|, Id(g, e), g.payloads[e]);
      EndOfEntries(geo, g, buf, a, e + 1, b);
    }
  }

  /** A sector that is not the current one, from entry `e` on. */
  lemma OldSectorReads(geo: Geometry, mem: seq<Byte>, g: History, k: nat, e: nat)
    requires Ranges(geo, g) && LogOk(geo, g) && MemOk(geo, mem, g) && geo.Valid() && |mem| == geo.Size()
    requires k < geo.sectors == |g.lo| == |g.hi| && k != g.cur && g.lo[k] <= e <= g.hi[k]
    ensures Scannable(geo.align, Sector(geo, mem, k)) && g.hi[k] <= |g.raw| == |g.payloads|
    ensures Between(g.raw, g.lo[k], e) && Between(g.raw, g.lo[k], g.hi[k])
    ensures SectorLog(geo.align, Sector(geo, mem, k), |Run(g.raw, g.lo[k], e)|) == Records(g, e, g.hi[k])
    ensures LogEnd(geo.align, Sector(geo, mem, k), |Run(g.raw, g.lo[k], e)|) == |Run(g.raw, g.lo[k], g.hi[k])|
  {
    hide *;
    SectorIsContent(geo, mem, g, k);
    OldEntries(geo, g, k);
    var buf, b := Content(geo, g, k), g.hi[k];
    SectorScannable(geo, buf);
    InOrder(g.raw, g.lo[k], e);
    InOrder(g.raw, g.lo[k], b);
    var at := |Run(g.raw, g.lo[k], b)|;
    if at + HEADER_SIZE <= geo.sector {
      BlankValidates(buf, at);
    }
    LogEnds(geo.align, buf, at);
    EndStays(geo.align, buf, at);
    LogEntries(geo, g, buf, g.lo[k], e, b);
    EndOfEntries(geo, g, buf, g.lo[k], e, b);
  }

  /** The head sector up to the write offset is exactly the flushed entries. */
  lemma HeadPartIs(geo: Geometry, s: State, g: History, c: Cursor)
    requires Inv(geo, s, g, c)
    ensures Sized(geo, s) && Ranges(geo, g) && HeadSector(geo, s) == g.cur < geo.sectors == |g.lo|
    ensures g.lo[g.cur] <= g.flushed && Between(g.raw, g.lo[g.cur], g.flushed)
    ensures HeadPart(geo, s) == Run(g.raw, g.lo[g.cur], g.flushed)
  {
    hide *;
    InvParts(geo, s, g, c);
    HeadInUseLaw(geo, s, g);
    CurrentBuffer(geo, g);
    SectorIsContent(geo, s.dev.mem, g, g.cur);
    FlashParts(geo, s.dev.mem, s.writeOffset, s.lastErased, g);
    WriteIs(geo, s.writeOffset, s.lastErased, g);
    InOrder(g.raw, g.lo[g.cur], g.flushed);
    HeadPartCut(geo, s, g.cur, |Run(g.raw, g.lo[g.cur], g.flushed)|);
    CutStart(g.raw, g.lo[g.cur], g.flushed, g.tornTo, g.torn, geo.sector);
  }

  lemma HeadPartCut(geo: Geometry, s: State, k: nat, n: nat)
    requires Sized(geo, s) && HeadSector(geo, s) == k < geo.sectors && s.writeOffset == k * geo.sector + n
    requires n <= geo.sector
    ensures |s.dev.mem| == geo.Size() && |Sector(geo, s.dev.mem, k)| == geo.sector
    ensures HeadPart(geo, s) == Sector(geo, s.dev.mem, k)[..n]
  {
    hide Sector, HeadSector;
  }

  lemma CutStart(raw: seq<seq<Byte>>, a: nat, f: nat, t: nat, torn: nat, size: nat)
    requires a <= f <= t <= |raw| && torn <= |Run(raw, f, t)| && |Run(raw, a, f)| + torn <= size
    ensures |CutBuffer(raw, a, f, t, torn, size)| == size
    ensures CutBuffer(raw, a, f, t, torn, size)[..|Run(raw, a, f)|] == Run(raw, a, f)
  {
    hide Run;
  }

  lemma FlushedAt(geo: Geometry, g: History, i: nat)
    requires LogOk(geo, g) && g.cur < |g.lo| && g.lo[g.cur] <= i < g.flushed <= |g.raw|
    ensures geo.align >= 1 && EntryAt(geo, g, Run(g.raw, g.lo[g.cur], g.flushed), |Run(g.raw, g.lo[g.cur], i)|, i)
  {
    hide *;
    InOrder(g.raw, g.lo[g.cur], i);
    InOrder(g.raw, g.lo[g.cur], g.flushed);
    RunInside(g.raw, g.lo[g.cur], i, g.flushed);
    EntryIs(geo, g, i);
    EntryAtFromWhole(geo, g, Run(g.raw, g.lo[g.cur], g.flushed), |Run(g.raw, g.lo[g.cur], i)|, i);
  }

  lemma HeadReads(geo: Geometry, s: State, g: History, c: Cursor, e: nat)
    requires Inv(geo, s, g, c) && g.cur < |g.lo| && g.lo[g.cur] <= e <= g.flushed
    ensures Sized(geo, s) && HeadSector(geo, s) < geo.sectors && Between(g.raw, g.lo[g.cur], e)
    ensures Scannable(geo.align, HeadPart(geo, s)) && g.flushed <= |g.payloads|
    ensures SectorLog(geo.align, HeadPart(geo, s), |Run(g.raw, g.lo[g.cur], e)|) == Records(g, e, g.flushed)
  {
    hide *;
    InvParts(geo, s, g, c);
    FlashParts(geo, s.dev.mem, s.writeOffset, s.lastErased, g);
    HeadPartIs(geo, s, g, c);
    var a, buf := g.lo[g.cur], Run(g.raw, g.lo[g.cur], g.flushed);
    ShortScannable(geo, HeadPart(geo, s));
    InOrder(g.raw, a, e);
    forall i: nat | a <= i < g.flushed
      ensures Between(g.raw, a, i) && EntryAt(geo, g, buf, |Run(g.raw, a, i)|, i)
    {
      InOrder(g.raw, a, i);
      FlushedAt(geo, g, i);
    }
    EntriesFrom(geo, g, buf, a, g.flushed);
    HeaderIsPositive();
    LogEnds(geo.align, buf, |buf|);
    LogEntries(geo, g, buf, a, e, g.flushed);
  }

  lemma ShortScannable(geo: Geometry, buf: seq<Byte>)
    requires geo.Valid() && |buf| <= geo.sector
    ensures Scannable(geo.align, buf)
  {
    SmallSector(geo);
  }

  lemma BacklogUnfolds(geo: Geometry, s: State, k: nat, pos: nat)
    requires Sized(geo, s) && HeadSector(geo, s) < geo.sectors && k < geo.sectors
    ensures Scannable(geo.align, Sector(geo, s.dev.mem, k)) && Scannable(geo.align, HeadPart(geo, s))
    ensures k == HeadSector(geo, s) ==> BacklogFrom(geo, s, k, pos) == SectorLog(geo.align, HeadPart(geo, s), pos)
    ensures k != HeadSector(geo, s) ==>
              var buf := Sector(geo, s.dev.mem, k);
              BacklogFrom(geo, s, k, pos) ==
              SectorLog(geo.align, buf, pos)
              + (if LogEnd(geo.align, buf, pos) == geo.sector && k + 1 < geo.sectors
                  then BacklogFrom(geo, s, k + 1, 0) else [])
  {
    SmallSector(geo);
    hide SectorLog, LogEnd, HeadPart, Sector, HeadSector;
  }

  lemma StopUnfolds(geo: Geometry, g: History, k: nat)
    requires Ranges(geo, g) && k < geo.sectors
    ensures k < |g.hi| == |g.lo| && Between(g.raw, g.lo[k], g.hi[k]) && |Run(g.raw, g.lo[k], g.hi[k])| <= geo.sector
    ensures DrainStop(geo, g, k) ==
            if k == g.cur then g.flushed
            else if |Run(g.raw, g.lo[k], g.hi[k])| < geo.sector || k + 1 == geo.sectors then g.hi[k]
            else DrainStop(geo, g, k + 1)
  {
    hide Run;
  }

  /** The backlog from entry `e` of sector `k` on is the history up to where a drain stops. */
  lemma {:induction false} BacklogIs(geo: Geometry, s: State, g: History, c: Cursor, k: nat, e: nat)
    requires Inv(geo, s, g, c) && Ranges(geo, g) && k < geo.sectors == |g.lo| == |g.hi| && g.lo[k] <= e <= g.hi[k]
    requires !g.lapped ==> k <= g.cur
    ensures Sized(geo, s) && HeadSector(geo, s) < geo.sectors && Between(g.raw, g.lo[k], e)
    ensures e <= DrainStop(geo, g, k) <= |g.payloads|
    ensures BacklogFrom(geo, s, k, |Run(g.raw, g.lo[k], e)|) == Records(g, e, DrainStop(geo, g, k))
    decreases geo.sectors - k
  {
    hide *;
    InvParts(geo, s, g, c);
    FlashParts(geo, s.dev.mem, s.writeOffset, s.lastErased, g);
    HeadPartIs(geo, s, g, c);
    StopUnfolds(geo, g, k);
    InOrder(g.raw, g.lo[k], g.hi[k]);
    InOrder(g.raw, g.lo[k], e);
    BacklogUnfolds(geo, s, k, |Run(g.raw, g.lo[k], e)|);
    StopBeyond(geo, g, k);
    if k == g.cur {
      HeadReads(geo, s, g, c, e);
    } else {
      OldSectorReads(geo, s.dev.mem, g, k, e);
      if |Run(g.raw, g.lo[k], g.hi[k])| == geo.sector {
        FullGoesOn(geo, g, k);
        StopUnfolds(geo, g, k + 1);
        InOrder(g.raw, g.lo[k + 1], g.hi[k + 1]);
        BacklogIs(geo, s, g, c, k + 1, g.lo[k + 1]);
        RunEmpty(g.raw, g.lo[k + 1]);
        StopBeyond(geo, g, k + 1);
        RecordsSplit(g, e, g.hi[k], DrainStop(geo, g, k));
      } else {
        assert Records(g, e, g.hi[k]) + [] == Records(g, e, g.hi[k]);
      }
    }
  }

  // ---------- After any run ----------

  lemma CursorOffset(geo: Geometry, s: State, g: History, c: Cursor)
    requires Inv(geo, s, g, c) && s.replayOffset != s.writeOffset
    ensures Ranges(geo, g) && geo.sector > 0 && c.sector < geo.sectors == |g.lo|
    ensures Between(g.raw, g.lo[c.sector], c.entry)
    ensures s.replayOffset / geo.sector == c.sector
    ensures s.replayOffset % geo.sector == |Run(g.raw, g.lo[c.sector], c.entry)|
  {
    hide *;
    InvParts(geo, s, g, c);
    CursorParts(geo, s.replayOffset, g, c);
    StopUnfolds(geo, g, c.sector);
    InOrder(g.raw, g.lo[c.sector], g.hi[c.sector]);
    InOrder(g.raw, g.lo[c.sector], c.entry);
    ReplaySector(geo, s.replayOffset, g, c);
    CursorValue(geo, s.replayOffset, g, c);
    var d := |Run(g.raw, g.lo[c.sector], c.entry)|;
    if d == geo.sector {
      FullCursorIsWriter(geo, s.writeOffset, s.replayOffset, s.lastErased, g, c);
    }
    SectorOfOffset(geo, c.sector, d);
  }

  lemma FullCursorIsWriter(geo: Geometry, write: nat, replay: nat, lastErased: int, g: History, c: Cursor)
    requires Ranges(geo, g) && WriteOk(geo, write, lastErased, g) && !g.moved && ReplayOk(geo, replay, g, c)
    requires |Run(g.raw, g.lo[c.sector], c.entry)| == geo.sector
    ensures replay == write
  {
    RunSplit(g.raw, g.lo[c.sector], c.entry, g.hi[c.sector]);
    hide Run;
  }

  lemma DrainOfNothing(geo: Geometry, s: State, room: nat, answers: Callback, n: nat)
    requires Sized(geo, s) && s.replayOffset == s.writeOffset
    ensures IterateFrom(geo, s, room, answers, n) == IterateResult(s, InvalidEntry, [])
  {
  }

  lemma BacklogIsFrom(geo: Geometry, s: State, k: nat, pos: nat)
    requires Sized(geo, s) && HeadSector(geo, s) < geo.sectors && geo.sector > 0
    requires s.replayOffset != s.writeOffset && k == s.replayOffset / geo.sector && pos == s.replayOffset % geo.sector
    requires k < geo.sectors
    ensures Undelivered(geo, s) == BacklogFrom(geo, s, k, pos)
  {
    hide BacklogFrom, HeadSector;
  }

  lemma NoBacklog(geo: Geometry, s: State)
    requires Sized(geo, s) && HeadSector(geo, s) < geo.sectors && s.replayOffset == s.writeOffset
    ensures Undelivered(geo, s) == []
  {
    hide BacklogFrom, HeadSector;
  }

  lemma PayloadsOfRecords(g: History, a: nat, b: nat)
    requires a <= b <= |g.payloads|
    ensures PayloadsOf(Records(g, a, b)) == g.payloads[a..b]
  {
    hide Id;
  }

  /** The state behind a drain: which entries it delivers. */
  lemma DrainOf(geo: Geometry, s: State, g: History, c: Cursor, room: nat, answers: Callback) returns (a: nat, b: nat)
    requires Inv(geo, s, g, c) && TakesAll(g.payloads, room) && AcceptsAll(answers)
    ensures Sized(geo, s) && HeadSector(geo, s) < geo.sectors && a <= b <= |g.payloads|
    ensures Undelivered(geo, s) == Records(g, a, b)
    ensures IterateFrom(geo, s, room, answers, 0) ==
            IterateResult(s.(replayOffset := s.writeOffset), InvalidEntry, PayloadsOf(Undelivered(geo, s)))
    ensures s.replayOffset != s.writeOffset ==>
              Ranges(geo, g) && c.sector < geo.sectors && a == c.entry && b == DrainStop(geo, g, c.sector)
    ensures s.replayOffset == s.writeOffset ==> a == b == g.flushed
  {
    hide *;
    InvParts(geo, s, g, c);
    HeadPartIs(geo, s, g, c);
    if s.replayOffset == s.writeOffset {
      a, b := g.flushed, g.flushed;
      NoBacklog(geo, s);
      FlashParts(geo, s.dev.mem, s.writeOffset, s.lastErased, g);
      RecordsSplit(g, a, a, b);
      PayloadsOfRecords(g, a, b);
      DrainOfNothing(geo, s, room, answers, 0);
      assert s.(replayOffset := s.writeOffset) == s;
      assert g.payloads[a..b] == [];
    } else {
      MetParts(geo, s.writeOffset, s.replayOffset, g, c);
      DrainLaw(geo, s, g, c, room, answers, 0);
      CursorOffset(geo, s, g, c);
      CursorParts(geo, s.replayOffset, g, c);
      CursorValue(geo, s.replayOffset, g, c);
      BacklogIsFrom(geo, s, c.sector, |Run(g.raw, g.lo[c.sector], c.entry)|);
      BacklogIs(geo, s, g, c, c.sector, c.entry);
      a, b := c.entry, DrainStop(geo, g, c.sector);
      PayloadsOfRecords(g, a, b);
    }
  }

  /**
   * A drain after any run, with a callback that accepts everything and a buffer that takes every payload written: it
   * delivers exactly the backlog in the flash, which is a stretch of what was written, and leaves the offsets equal.
   */
  lemma DrainAfterRun(geo: Geometry, batch: seq<Byte>, lastId: nat, ops: seq<Op>, room: nat, answers: Callback)
    returns (a: nat, b: nat)
    requires Startable(geo, batch, lastId, ops) && AcceptsAll(answers)
    requires TakesAll(Reached(geo, batch, lastId, ops).written, room)
    ensures var x := Reached(geo, batch, lastId, ops);
            && geo.sector > 0 && HeadSector(geo, x.s) < geo.sectors
            && IterateFrom(geo, x.s, room, answers, 0) ==
               IterateResult(x.s.(replayOffset := x.s.writeOffset), InvalidEntry, PayloadsOf(Undelivered(geo, x.s)))
            && IsStretch(Undelivered(geo, x.s), x.written, lastId, a, b)
  {
    hide *;
    StartableParts(geo, batch, lastId, ops);
    var g, c, picks := RunHistory(geo, batch, lastId, ops);
    var x := Reached(geo, batch, lastId, ops);
    GoodParts(geo, x, g, c, picks);
    InvParts(geo, x.s, g, c);
    a, b := DrainOf(geo, x.s, g, c, room, answers);
    RecordsAreStretch(g, a, b);
  }

  // ---------- When a drain gets to the end ----------

  lemma NewestSectorIs(geo: Geometry, s: State, g: History, c: Cursor)
    requires Inv(geo, s, g, c) && Ranges(geo, g)
    ensures geo.Valid() && NewestSector(geo, s) == Newest(geo, g) < geo.sectors && HeadSector(geo, s) == g.cur
    ensures geo.sectors == |g.lo| == |g.hi| && g.cur < geo.sectors
  {
    InvParts(geo, s, g, c);
    HeadInUseLaw(geo, s, g);
    NewestInRing(geo, g);
    hide Run, Inv, FlashOk, Ring, MemOk, LogOk, WriteOk, ReplayOk, HeadSector, HeadInUse;
  }

  lemma EndOfSector(geo: Geometry, s: State, g: History, c: Cursor, j: nat)
    requires Inv(geo, s, g, c) && Sized(geo, s) && j < geo.sectors == |g.lo| == |g.hi| && j != g.cur
    ensures Between(g.raw, g.lo[j], g.hi[j]) && SectorEnd(geo, s.dev.mem, j) == |Run(g.raw, g.lo[j], g.hi[j])|
  {
    hide *;
    InvParts(geo, s, g, c);
    StopUnfolds(geo, g, j);
    InOrder(g.raw, g.lo[j], g.hi[j]);
    OldSectorReads(geo, s.dev.mem, g, j, g.lo[j]);
    RunEmpty(g.raw, g.lo[j]);
    SectorEndIs(geo, s.dev.mem, j);
  }

  lemma SectorEndIs(geo: Geometry, mem: seq<Byte>, k: nat)
    requires geo.Valid() && |mem| == geo.Size() && k < geo.sectors
    ensures Scannable(geo.align, Sector(geo, mem, k))
    ensures SectorEnd(geo, mem, k) == LogEnd(geo.align, Sector(geo, mem, k), 0)
  {
    SmallSector(geo);
    hide LogEnd, Sector;
  }

  /** The condition on the flash is the condition on the history. */
  lemma FullLaw(geo: Geometry, s: State, g: History, c: Cursor, k: nat, last: nat)
    requires Inv(geo, s, g, c) && Ranges(geo, g) && Sized(geo, s) && k <= last < geo.sectors
    requires last <= g.cur || g.cur < k
    ensures geo.Valid() && |s.dev.mem| == geo.Size()
    ensures AllFull(geo, s.dev.mem, k, last) <==> NoGap(geo, g, k, last)
  {
    hide *;
    InvParts(geo, s, g, c);
    forall j: nat | k <= j < last
      ensures j < geo.sectors == |g.lo| == |g.hi| && Between(g.raw, g.lo[j], g.hi[j])
      ensures SectorEnd(geo, s.dev.mem, j) == |Run(g.raw, g.lo[j], g.hi[j])|
    {
      EndOfSector(geo, s, g, c, j);
    }
    AllFullIs(geo, s.dev.mem, g, k, last);
  }

  lemma AllFullIs(geo: Geometry, mem: seq<Byte>, g: History, k: nat, last: nat)
    requires geo.Valid() && |mem| == geo.Size() && k <= last < geo.sectors && Ranges(geo, g)
    requires forall j: nat | k <= j < last ::
               && j < geo.sectors == |g.lo| == |g.hi| && Between(g.raw, g.lo[j], g.hi[j])
               && SectorEnd(geo, mem, j) == |Run(g.raw, g.lo[j], g.hi[j])|
    ensures AllFull(geo, mem, k, last) <==> NoGap(geo, g, k, last)
  {
    hide SectorEnd, Run;
  }

  lemma NoGapAheadIs(geo: Geometry, s: State, k: nat, last: nat)
    requires Sized(geo, s) && last == NewestSector(geo, s) < geo.sectors && geo.sector > 0
    requires k == s.replayOffset / geo.sector
    ensures geo.Valid() && |s.dev.mem| == geo.Size()
    ensures NoGapAhead(geo, s) <==> k == HeadSector(geo, s) || (k <= last && AllFull(geo, s.dev.mem, k, last))
  {
    hide AllFull, HeadSector, NewestSector;
  }

  lemma NoGapOrder(geo: Geometry, g: History, k: nat, last: nat)
    requires Ranges(geo, g) && last < geo.sectors && NoGap(geo, g, k, last)
    ensures k <= last
  {
    hide Run;
  }

  lemma GapLaw(geo: Geometry, s: State, g: History, c: Cursor, k: nat)
    requires Inv(geo, s, g, c) && Ranges(geo, g) && Sized(geo, s) && geo.sector > 0 && k == s.replayOffset / geo.sector
    ensures Newest(geo, g) < geo.sectors
    ensures NoGapAhead(geo, s) <==> k == g.cur || NoGap(geo, g, k, Newest(geo, g))
  {
    hide *;
    NewestSectorIs(geo, s, g, c);
    NewestInRing(geo, g);
    var last := Newest(geo, g);
    NoGapAheadIs(geo, s, k, last);
    if k != g.cur && k <= last {
      FullLaw(geo, s, g, c, k, last);
    }
    if NoGap(geo, g, k, last) {
      NoGapOrder(geo, g, k, last);
    }
  }

  lemma NewestEntries(geo: Geometry, s: State, g: History, c: Cursor)
    requires Inv(geo, s, g, c)
    ensures Sized(geo, s) && g.flushed <= |g.payloads| && |BatchLog(geo, s)| == |g.payloads| - g.flushed
  {
    hide *;
    InvParts(geo, s, g, c);
    LogsOf(geo, s, g, c);
    RecordsCount(g, g.flushed, |g.payloads|);
  }

  /**
   * When a drain after any run gets to the newest entry in the flash, so that nothing but the batch is left behind: if
   * and only if there is nothing to replay or, from the sector of the replay offset on, no sector before the newest one
   * ends in a gap.
   */
  lemma DrainCompleteIff(geo: Geometry, batch: seq<Byte>, lastId: nat, ops: seq<Op>, room: nat, answers: Callback)
    returns (a: nat, b: nat)
    requires Startable(geo, batch, lastId, ops) && AcceptsAll(answers)
    requires TakesAll(Reached(geo, batch, lastId, ops).written, room)
    ensures var x := Reached(geo, batch, lastId, ops);
            && a <= b <= |x.written| && IterateFrom(geo, x.s, room, answers, 0).accepted == x.written[a..b]
            && (b + |BatchLog(geo, x.s)| == |x.written| <==>
                x.s.replayOffset == x.s.writeOffset || NoGapAhead(geo, x.s))
  {
    hide *;
    StartableParts(geo, batch, lastId, ops);
    var g, c, picks := RunHistory(geo, batch, lastId, ops);
    var x := Reached(geo, batch, lastId, ops);
    GoodParts(geo, x, g, c, picks);
    InvParts(geo, x.s, g, c);
    a, b := DrainOf(geo, x.s, g, c, room, answers);
    PayloadsOfRecords(g, a, b);
    NewestEntries(geo, x.s, g, c);
    if x.s.replayOffset != x.s.writeOffset {
      CursorOffset(geo, x.s, g, c);
      CursorValue(geo, x.s.replayOffset, g, c);
      StopIff(geo, g, c.sector);
      GapLaw(geo, x.s, g, c, c.sector);
    }
  }

  // ---------- What replay never comes back to ----------

  lemma MarkUp(geo: Geometry, s: State, g: History, c: Cursor, mark: nat)
    requires Inv(geo, s, g, c) && mark <= c.entry
    ensures Inv(geo, s, g, c.(mark := mark))
  {
    hide FlashOk, Run, Ranges;
  }

  lemma PickedBelow(delivered: seq<seq<Byte>>, written: seq<seq<Byte>>, picks: seq<nat>, mark: nat, mark': nat)
    requires Picked(delivered, written, picks, mark) && mark <= mark' <= |written|
    ensures Picked(delivered, written, picks, mark')
  {
  }

  lemma PicksOf(delivered: seq<seq<Byte>>, written: seq<seq<Byte>>, picks: seq<nat>, mark: nat)
    requires Picked(delivered, written, picks, mark)
    ensures |picks| == |delivered|
    ensures forall i :: 0 <= i < |picks| ==> picks[i] < |written| && delivered[i] == written[picks[i]]
  {
  }

  lemma NewPicks(picks: seq<nat>, picks': seq<nat>, mark: nat)
    requires MorePicks(picks, picks', mark)
    ensures |picks| <= |picks'| && (forall i :: 0 <= i < |picks| ==> picks'[i] == picks[i])
    ensures forall i :: |picks| <= i < |picks'| ==> picks'[i] >= mark
  {
  }

  /** A cursor at the write offset is in front of everything still in the batch. */
  lemma CursorOfEqual(geo: Geometry, s: State, g: History, c: Cursor)
    requires Inv(geo, s, g, c) && s.replayOffset == s.writeOffset
    ensures Inv(geo, s, g, Cursor(g.cur, g.flushed, g.flushed)) && c.mark <= g.flushed
  {
    hide *;
    InvParts(geo, s, g, c);
    assert s == s.(replayOffset := s.writeOffset);
    CursorParts(geo, s.replayOffset, g, c);
    OldestInHistory(geo, g);
    AtWriter(geo, s, g, c);
    MarkUp(geo, s, g, Cursor(g.cur, g.flushed, c.mark), g.flushed);
    CursorIs(g, c);
  }

  lemma CursorIs(g: History, c: Cursor)
    ensures Cursor(g.cur, g.flushed, c.mark).(mark := g.flushed) == Cursor(g.cur, g.flushed, g.flushed)
    ensures Cursor(g.cur, g.flushed, c.mark).entry == g.flushed
  {
  }

  /**
   * After any run, and whatever calls follow: what they deliver comes from the backlog on. An entry flushed by then
   * that lies in front of the backlog and has not been delivered never is; with equal offsets these are all the entries
   * flushed by then and not delivered, the older lap that a writer reaching the cursor leaves in the flash included.
   */
  lemma NeverBehind(geo: Geometry, batch: seq<Byte>, lastId: nat, ops: seq<Op>, more: seq<Op>)
    returns (a: nat, b: nat, picks: seq<nat>)
    requires Startable(geo, batch, lastId, ops) && Startable(geo, batch, lastId, more)
    ensures forall i :: 0 <= i < |more| ==> Allowed(more[i])
    ensures var x := Reached(geo, batch, lastId, ops);
            var y := Execute(geo, x, more);
            && HeadSector(geo, x.s) < geo.sectors && IsStretch(Undelivered(geo, x.s), x.written, lastId, a, b)
            && (x.s.replayOffset == x.s.writeOffset ==> a + |BatchLog(geo, x.s)| == |x.written|)
            && |x.delivered| <= |y.delivered| == |picks|
            && (forall i :: 0 <= i < |picks| ==> picks[i] < |y.written| && y.delivered[i] == y.written[picks[i]])
            && (forall i :: |x.delivered| <= i < |picks| ==> picks[i] >= a)
  {
    FreshSized(geo, batch, lastId, more);
    hide *;
    StartableParts(geo, batch, lastId, ops);
    var g, c, picks0 := RunHistory(geo, batch, lastId, ops);
    var x := Reached(geo, batch, lastId, ops);
    GoodParts(geo, x, g, c, picks0);
    InvParts(geo, x.s, g, c);
    HeadPartIs(geo, x.s, g, c);
    NewestEntries(geo, x.s, g, c);
    var c1 := c;
    if x.s.replayOffset == x.s.writeOffset {
      CursorOfEqual(geo, x.s, g, c);
      c1 := Cursor(g.cur, g.flushed, g.flushed);
      a, b := g.flushed, g.flushed;
      NoBacklog(geo, x.s);
      RecordsSplit(g, a, a, b);
    } else {
      CursorOffset(geo, x.s, g, c);
      CursorParts(geo, x.s.replayOffset, g, c);
      BacklogIsFrom(geo, x.s, c.sector, |Run(g.raw, g.lo[c.sector], c.entry)|);
      BacklogIs(geo, x.s, g, c, c.sector, c.entry);
      MarkUp(geo, x.s, g, c, c.entry);
      c1 := c.(mark := c.entry);
      a, b := c.entry, DrainStop(geo, g, c.sector);
    }
    RecordsAreStretch(g, a, b);
    PickedBelow(x.delivered, x.written, picks0, c.mark, c1.mark);
    GoodParts(geo, x, g, c1, picks0);
    var g', c', picks' := RunKeeps(geo, x, g, c1, picks0, more);
    picks := picks';
    var y := Execute(geo, x, more);
    GoodParts(geo, y, g', c', picks);
    PicksOf(x.delivered, x.written, picks0, c1.mark);
    PicksOf(y.delivered, y.written, picks, c'.mark);
    NewPicks(picks0, picks, c1.mark);
  }
}
