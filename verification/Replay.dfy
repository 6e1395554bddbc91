/** Reading an entry back, and the replay cursor. */
module Replay {
  import opened Bytes
  import opened Entry
  import opened Layout
  import opened LoggerSpec
  import opened Invariant
  import opened Operations

  /** What a reader sees from offset `d` of sector `k` on. */
  lemma ReadInSector(geo: Geometry, mem: seq<Byte>, g: History, k: nat, d: nat, n: nat)
    requires Ranges(geo, g) && MemOk(geo, mem, g) && k < geo.sectors && d + n <= geo.sector
    ensures k * geo.sector + d + n <= |mem|
    ensures mem[k * geo.sector + d..k * geo.sector + d + n] == Content(geo, g, k)[d..d + n]
  {
    hide Run, Content;
    SectorInside(geo, k);
    SliceOfSlice(mem, k * geo.sector, geo.sector, d, n);
    assert Sector(geo, mem, k) == Content(geo, g, k);
  }

  lemma SliceOfSlice(s: seq<Byte>, at: nat, size: nat, d: nat, n: nat)
    requires d + n <= size && at + size <= |s|
    ensures s[at..at + size][d..d + n] == s[at + d..at + d + n]
  {
    var x, y := s[at..at + size], s[at + d..at + d + n];
    forall i | 0 <= i < n
      ensures x[d..d + n][i] == y[i]
    {
      assert x[d + i] == s[at + (d + i)];
    }
  }

  /** The entry at a cursor that has entries of its sector in front of it. */
  lemma ContentAt(geo: Geometry, g: History, k: nat, e: nat)
    requires Ranges(geo, g) && k < geo.sectors && g.lo[k] <= e < g.hi[k]
    ensures var d := |Run(g.raw, g.lo[k], e)|;
            d + |g.raw[e]| <= geo.sector && Content(geo, g, k)[d..d + |g.raw[e]|] == g.raw[e]
            && |Run(g.raw, g.lo[k], e + 1)| == d + |g.raw[e]|
  {
    RunSplit(g.raw, g.lo[k], e, g.hi[k]);
    RunFirst(g.raw, e, g.hi[k]);
    RunSplit(g.raw, g.lo[k], e, e + 1);
    RunFirst(g.raw, e, e + 1);
    RunEmpty(g.raw, e + 1);
    hide Run;
  }

  /** Behind the last entry of a sector that is not the current one the flash is erased. */
  lemma ContentBehind(geo: Geometry, g: History, k: nat)
    requires Ranges(geo, g) && k < geo.sectors && k != g.cur && |Run(g.raw, g.lo[k], g.hi[k])| < geo.sector
    ensures Content(geo, g, k)[|Run(g.raw, g.lo[k], g.hi[k])|] == ERASED
  {
    hide Run;
  }

  /** The number of bytes a read fetches. */
  function Fetch(geo: Geometry, off: nat): nat
    requires off <= geo.Size()
  {
    if geo.batch > geo.Size() - off then geo.Size() - off else geo.batch
  }

  lemma ReadUnfolds(geo: Geometry, mem: seq<Byte>, off: nat, room: nat)
    requires geo.Valid() && |mem| == geo.Size() && off < geo.Size()
    ensures off + Fetch(geo, off) <= |mem| && Fetch(geo, off) <= geo.sector
    ensures var data := mem[off..off + Fetch(geo, off)];
            && (Validate(data, geo.sector) != Ok ==>
               ReadOp(geo, mem, off, room) == ReadResult(Validate(data, geo.sector), []))
            && (Validate(data, geo.sector) == Ok && |data| >= OVERHEAD && HEADER_SIZE + WordAt(data, 8) <= |data| ==>
                  ReadOp(geo, mem, off, room) ==
                  if WordAt(data, 8) > room then ReadResult(NoMem, [])
                  else ReadResult(Ok, data[HEADER_SIZE..HEADER_SIZE + WordAt(data, 8)]))
  {
    hide WordAt, Validate;
  }

  lemma ValidIsLong(data: seq<Byte>, capacity: nat)
    requires |data| <= capacity && Validate(data, capacity) == Ok
    ensures |data| >= OVERHEAD
  {
    hide WordAt, HalfAt;
  }

  /** Reading entry `e` of the history gives back its payload, or reports that the caller's buffer is too small. */
  lemma ReadEntry(geo: Geometry, mem: seq<Byte>, g: History, off: nat, e: nat, room: nat)
    requires geo.Valid() && |mem| == geo.Size() && LogOk(geo, g) && e < |g.raw|
    requires off + |g.raw[e]| <= |mem| && mem[off..off + |g.raw[e]|] == g.raw[e]
    ensures off < geo.Size()
    ensures ReadOp(geo, mem, off, room) ==
            if |g.payloads[e]| > room then ReadResult(NoMem, []) else ReadResult(Ok, g.payloads[e])
  {
    hide WordAt, Validate, EntrySize, Unpadded, ReadOp;
    var raw, payload := g.raw[e], g.payloads[e];
    assert IsEntry(raw, Id(g, e), payload, geo.align) && |raw| <= geo.batch;
    assert |raw| >= OVERHEAD + |payload|;
    ReadUnfolds(geo, mem, off, room);
    var n := Fetch(geo, off);
    var data := mem[off..off + n];
    var rest := data[|raw|..];
    assert data == raw + rest by {
      assert data[..|raw|] == mem[off..off + |raw|];
    }
    EntryFields(raw, Id(g, e), payload, geo.align, rest);
    EntryValidates(raw, Id(g, e), payload, geo.align, rest, geo.sector);
  }

  /** A read that starts on an erased byte finds no entry. */
  lemma ReadBlank(geo: Geometry, mem: seq<Byte>, off: nat, room: nat)
    requires geo.Valid() && |mem| == geo.Size() && off < geo.Size() && mem[off] == ERASED
    ensures ReadOp(geo, mem, off, room) == ReadResult(InvalidEntry, [])
  {
    hide WordAt, Validate, ReadOp;
    ReadUnfolds(geo, mem, off, room);
    BlankIsNoEntry(mem[off..off + Fetch(geo, off)], geo.sector);
  }

  /** What a reader finds at the replay cursor: the next entry, or the gap at the end of a sector. */
  lemma ReadAtCursor(geo: Geometry, s: State, g: History, c: Cursor, room: nat)
    requires Inv(geo, s, g, c) && s.replayOffset != s.writeOffset
    ensures c.sector < geo.sectors == |g.hi| && c.entry <= g.hi[c.sector] && |g.raw| == |g.payloads|
    ensures geo.Valid() && |s.dev.mem| == geo.Size() && s.replayOffset < geo.Size()
    ensures c.entry < g.hi[c.sector] ==>
              && c.entry < |g.raw|
              && ReadOp(geo, s.dev.mem, s.replayOffset, room) ==
                 if |g.payloads[c.entry]| > room then ReadResult(NoMem, []) else ReadResult(Ok, g.payloads[c.entry])
    ensures c.entry == g.hi[c.sector] ==>
              c.sector != g.cur && ReadOp(geo, s.dev.mem, s.replayOffset, room) == ReadResult(InvalidEntry, [])
  {
    hide ReadOp, Run, Ring, LogOk, Content;
    SectorInside(geo, c.sector);
    if c.entry < g.hi[c.sector] {
      ContentAt(geo, g, c.sector, c.entry);
      ReadInSector(geo, s.dev.mem, g, c.sector, |Run(g.raw, g.lo[c.sector], c.entry)|, |g.raw[c.entry]|);
      SameCounts(geo, g);
      ReadEntry(geo, s.dev.mem, g, s.replayOffset, c.entry, room);
    } else {
      var d := |Run(g.raw, g.lo[c.sector], c.entry)|;
      assert c.sector != g.cur;
      ContentBehind(geo, g, c.sector);
      ReadInSector(geo, s.dev.mem, g, c.sector, d, 1);
      assert s.dev.mem[s.replayOffset] == s.dev.mem[s.replayOffset..s.replayOffset + 1][0];
      ReadBlank(geo, s.dev.mem, s.replayOffset, room);
    }
  }

  lemma SameCounts(geo: Geometry, g: History)
    requires LogOk(geo, g)
    ensures |g.raw| == |g.payloads|
  {
    hide IsEntry;
  }

  // ---------- The replay step ----------

  /**
   * What a replay call does: OK hands out the entry at the cursor, at or above every entry accepted before,
   * and raises the mark past it; any other outcome accepts nothing.
   */
  predicate ReplayEffect(r: ReplayResult, g: History, c: Cursor, c': Cursor) {
    && (r.err == Ok ==> c.mark <= c.entry < |g.payloads| && r.offered == g.payloads[c.entry] && c'.mark == c.entry + 1)
    && (r.err == ProcessFail ==> c.entry < |g.payloads| && r.offered == g.payloads[c.entry])
    && (r.err != Ok ==> c'.mark == c.mark)
    && r.err != Stray
  }

  /** The cursor at the write offset. */
  lemma AtWriter(geo: Geometry, s: State, g: History, c: Cursor)
    requires Inv(geo, s, g, c)
    ensures Inv(geo, s.(replayOffset := s.writeOffset), g, Cursor(g.cur, g.flushed, c.mark))
  {
    hide Run, Ring, LogOk, MemOk;
  }

  /** The cursor behind the next entry, in the next sector if this one is full. */
  function Stepped(geo: Geometry, g: History, c: Cursor): Cursor
    requires Ranges(geo, g) && c.sector < geo.sectors && g.lo[c.sector] <= c.entry < g.hi[c.sector]
  {
    if c.sector != g.cur && |Run(g.raw, g.lo[c.sector], c.entry + 1)| == geo.sector
    then Cursor(After(geo, c.sector), c.entry + 1, c.entry + 1)
    else Cursor(c.sector, c.entry + 1, c.entry + 1)
  }

  lemma FullSectorIsLast(geo: Geometry, g: History, k: nat, e: nat)
    requires Ranges(geo, g) && k < geo.sectors && g.lo[k] <= e < g.hi[k] && |Run(g.raw, g.lo[k], e + 1)| == geo.sector
    ensures e + 1 == g.hi[k]
  {
    RunSplit(g.raw, g.lo[k], e + 1, g.hi[k]);
    RunPositive(g.raw, e + 1, g.hi[k]);
    hide Run;
  }

  lemma CursorParts(geo: Geometry, replay: nat, g: History, c: Cursor)
    requires Ranges(geo, g) && ReplayOk(geo, replay, g, c)
    ensures c.sector < geo.sectors == |g.lo| == |g.hi| && g.lo[c.sector] <= c.entry <= g.hi[c.sector]
    ensures c.mark <= c.entry
  {
    hide Run;
  }

  lemma StepsInside(geo: Geometry, replay: nat, g: History, c: Cursor)
    requires Ranges(geo, g) && ReplayOk(geo, replay, g, c) && c.entry < g.hi[c.sector]
    requires c.sector == g.cur || |Run(g.raw, g.lo[c.sector], c.entry + 1)| < geo.sector
    ensures ReplayOk(geo, replay + |g.raw[c.entry]|, g, Cursor(c.sector, c.entry + 1, c.entry + 1))
  {
    ContentAt(geo, g, c.sector, c.entry);
    hide Run, Content;
  }

  lemma FullGoesOn(geo: Geometry, g: History, k: nat)
    requires Ranges(geo, g) && Ring(geo, g) && k < geo.sectors && k != g.cur && (!g.lapped ==> k <= g.cur)
    requires |Run(g.raw, g.lo[k], g.hi[k])| == geo.sector
    ensures k + 1 < geo.sectors && g.lo[k + 1] == g.hi[k] && After(geo, k) == k + 1 && (!g.lapped ==> k + 1 <= g.cur)
  {
    hide Run;
  }

  lemma CursorValue(geo: Geometry, replay: nat, g: History, c: Cursor)
    requires Ranges(geo, g) && ReplayOk(geo, replay, g, c)
    ensures replay == c.sector * geo.sector + |Run(g.raw, g.lo[c.sector], c.entry)| && (!g.lapped ==> c.sector <= g.cur)
    ensures (c.sector + 1) * geo.sector == c.sector * geo.sector + geo.sector
  {
    hide Run;
  }

  lemma StepsOver(geo: Geometry, replay: nat, g: History, c: Cursor)
    requires Ranges(geo, g) && Ring(geo, g) && ReplayOk(geo, replay, g, c) && c.entry < g.hi[c.sector]
    requires c.sector != g.cur && |Run(g.raw, g.lo[c.sector], c.entry + 1)| == geo.sector
    ensures ReplayOk(geo, replay + |g.raw[c.entry]|, g, Cursor(After(geo, c.sector), c.entry + 1, c.entry + 1))
  {
    hide *;
    CursorParts(geo, replay, g, c);
    CursorValue(geo, replay, g, c);
    ContentAt(geo, g, c.sector, c.entry);
    FullSectorIsLast(geo, g, c.sector, c.entry);
    FullGoesOn(geo, g, c.sector);
    CursorAtStart(geo, g, c.sector + 1, c.entry + 1);
  }

  lemma SteppedOk(geo: Geometry, replay: nat, g: History, c: Cursor)
    requires Ranges(geo, g) && Ring(geo, g) && ReplayOk(geo, replay, g, c) && c.entry < g.hi[c.sector]
    ensures ReplayOk(geo, replay + |g.raw[c.entry]|, g, Stepped(geo, g, c))
  {
    hide Run, Ring, ReplayOk;
    CursorParts(geo, replay, g, c);
    SteppedWithin(geo, g, c);
    if c.sector != g.cur && |Run(g.raw, g.lo[c.sector], c.entry + 1)| == geo.sector {
      StepsOver(geo, replay, g, c);
    } else {
      StepsInside(geo, replay, g, c);
    }
  }

  lemma SteppedWithin(geo: Geometry, g: History, c: Cursor)
    requires Ranges(geo, g) && c.sector < geo.sectors && g.lo[c.sector] <= c.entry < g.hi[c.sector]
    ensures |Run(g.raw, g.lo[c.sector], c.entry + 1)| <= geo.sector
  {
    RunSplit(g.raw, g.lo[c.sector], c.entry + 1, g.hi[c.sector]);
    hide Run;
  }

  lemma EntryLength(geo: Geometry, g: History, e: nat)
    requires LogOk(geo, g) && e < |g.raw|
    ensures EntrySize(|g.payloads[e]|, geo.align) == |g.raw[e]|
  {
    hide EntrySize, Unpadded;
  }

  lemma InvWithCursor(geo: Geometry, s: State, g: History, c: Cursor, replay: nat, c': Cursor)
    requires Inv(geo, s, g, c) && Ranges(geo, g) && ReplayOk(geo, replay, g, c')
    ensures Inv(geo, s.(replayOffset := replay), g, c')
  {
    hide FlashOk, ReplayOk, Run;
  }

  lemma ReplayUnfolds(geo: Geometry, s: State, room: nat, accepts: seq<Byte> -> bool)
    requires Sized(geo, s)
    ensures s.writeOffset == s.replayOffset ==> ReplayOp(geo, s, room, accepts) == ReplayResult(s, InvalidEntry, [])
    ensures s.writeOffset != s.replayOffset ==>
              var read := ReadOp(geo, s.dev.mem, s.replayOffset, room);
              ReplayOp(geo, s, room, accepts) ==
              if read.err != Ok then ReplayResult(s.(replayOffset := s.writeOffset), read.err, [])
              else if !accepts(read.payload) then ReplayResult(s, ProcessFail, read.payload)
              else ReplayResult(s.(replayOffset := s.replayOffset + EntrySize(|read.payload|, geo.align)), Ok,
                  read.payload)
  {
    hide ReadOp, EntrySize;
  }

  lemma SteppedMark(geo: Geometry, g: History, c: Cursor)
    requires Ranges(geo, g) && c.sector < geo.sectors && g.lo[c.sector] <= c.entry < g.hi[c.sector]
    ensures Stepped(geo, g, c).mark == c.entry + 1
  {
    hide Run;
  }

  lemma ReplayEffectFrom(r: ReplayResult, g: History, c: Cursor, c': Cursor)
    requires r.err == Ok ==>
             c.mark <= c.entry < |g.payloads| && r.offered == g.payloads[c.entry] && c'.mark == c.entry + 1
    requires r.err == ProcessFail ==> c.entry < |g.payloads| && r.offered == g.payloads[c.entry]
    requires r.err != Ok ==> c'.mark == c.mark
    requires r.err != Stray
    ensures ReplayEffect(r, g, c, c')
  {
  }

  /** One replay call, whatever the callback answers and however small its buffer. */
  lemma ReplayKeeps(geo: Geometry, s: State, g: History, c: Cursor, room: nat, accepts: seq<Byte> -> bool)
    returns (c': Cursor)
    requires Inv(geo, s, g, c)
    ensures Sized(geo, s) && Inv(geo, ReplayOp(geo, s, room, accepts).s, g, c')
    ensures ReplayEffect(ReplayOp(geo, s, room, accepts), g, c, c')
  {
    hide *;
    InvParts(geo, s, g, c);
    CursorParts(geo, s.replayOffset, g, c);
    ReplayUnfolds(geo, s, room, accepts);
    var r := ReplayOp(geo, s, room, accepts);
    if s.writeOffset == s.replayOffset {
      c' := c;
    } else {
      ReadAtCursor(geo, s, g, c, room);
      var read := ReadOp(geo, s.dev.mem, s.replayOffset, room);
      if read.err != Ok {
        c' := Cursor(g.cur, g.flushed, c.mark);
        AtWriter(geo, s, g, c);
      } else if !accepts(read.payload) {
        c' := c;
      } else {
        c' := Stepped(geo, g, c);
        SteppedMark(geo, g, c);
        SteppedOk(geo, s.replayOffset, g, c);
        EntryLength(geo, g, c.entry);
        InvWithCursor(geo, s, g, c, s.replayOffset + |g.raw[c.entry]|, c');
      }
    }
    ReplayEffectFrom(r, g, c, c');
  }
}
