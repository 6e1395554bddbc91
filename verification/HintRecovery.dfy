/** Forward recovery from the hint that a successful flush saves. */
module HintRecovery {
  import opened Bytes
  import opened Entry
  import opened Layout
  import opened LoggerSpec
  import opened Invariant
  import opened Operations
  import opened Replay
  import opened RecoverySpec
  import opened Recovery
  import opened Scanning

  lemma LastChunkParts(geo: Geometry, g: History, first: nat, off: nat)
    requires Ranges(geo, g) && LastChunk(geo, off, g, first)
    ensures g.cur < geo.sectors == |g.lo| == |g.hi| && g.lo[g.cur] <= first < g.hi[g.cur] == g.flushed <= |g.raw|
    ensures Between(g.raw, g.lo[g.cur], first) && off == g.cur * geo.sector + |Run(g.raw, g.lo[g.cur], first)|
  {
    hide Run;
  }

  /** The first entry of the last chunk, read back from the flash. */
  lemma HintedEntry(geo: Geometry, mem: seq<Byte>, g: History, first: nat, off: nat)
    requires Ranges(geo, g) && LogOk(geo, g) && MemOk(geo, mem, g) && LastChunk(geo, off, g, first)
    ensures first < |g.raw| && off + |g.raw[first]| <= |mem| && off + HEADER_SIZE <= |mem|
    ensures WordAt(mem, off) == HEADER_MAGIC
    ensures geo.align >= 1 && EntrySize(WordAt(mem, off + 8), geo.align) == |g.raw[first]|
  {
    hide *;
    LastChunkParts(geo, g, first, off);
    ContentAt(geo, g, g.cur, first);
    EntryIs(geo, g, first);
    ReadInSector(geo, mem, g, g.cur, |Run(g.raw, g.lo[g.cur], first)|, |g.raw[first]|);
    EntryWords(mem, off, g.raw[first], Id(g, first), g.payloads[first], geo.align);
    EntryLengthWord(mem, off, g.raw[first], Id(g, first), g.payloads[first], geo.align);
  }

  lemma EntryLengthWord(mem: seq<Byte>, off: nat, raw: seq<Byte>, id: nat, payload: seq<Byte>, align: nat)
    requires IsEntry(raw, id, payload, align) && off + |raw| <= |mem| && mem[off..off + |raw|] == raw
    ensures off + HEADER_SIZE <= |mem| && align >= 1 && EntrySize(WordAt(mem, off + 8), align) == |raw|
  {
    hide WordAt, EntrySize, Unpadded;
    EntryFields(raw, id, payload, align, []);
    assert raw + [] == raw;
    WordInSlice(mem, off, |raw|, 8);
  }

  /** The last chunk runs from its first entry to the write offset. */
  lemma ChunkReaches(geo: Geometry, write: nat, lastErased: int, g: History, first: nat, off: nat)
    requires Ranges(geo, g) && WriteOk(geo, write, lastErased, g) && !g.moved && LastChunk(geo, off, g, first)
    ensures write == off + |Run(g.raw, first, g.flushed)| && first < |g.raw|
    ensures off + |g.raw[first]| == write <==> first + 1 == g.flushed
    ensures off < write && off == g.cur * geo.sector + |Run(g.raw, g.lo[g.cur], first)|
    ensures g.lo[g.cur] <= first < g.flushed && |Run(g.raw, g.lo[g.cur], first)| < geo.sector
    ensures Between(g.raw, g.lo[g.cur], first)
  {
    RunAdds(g.raw, g.lo[g.cur], first, g.flushed);
    RunFirst(g.raw, first, g.flushed);
    RunPositive(g.raw, first + 1, g.flushed);
    RunPositive(g.raw, first, g.flushed);
    hide Run;
  }

  /** The hint covers exactly one entry: the one at its offset ends at the write offset. */
  predicate OneEntryChunk(geo: Geometry, mem: seq<Byte>, off: nat, write: nat)
    requires geo.align >= 1 && off + HEADER_SIZE <= |mem|
  {
    off + EntrySize(WordAt(mem, off + 8), geo.align) == write
  }

  lemma HintUsableIs(geo: Geometry, mem: seq<Byte>, hint: Hint)
    requires |mem| == geo.Size() && hint.writeOffset + HEADER_SIZE <= |mem|
    requires WordAt(mem, hint.writeOffset) == HEADER_MAGIC
    ensures HintUsable(geo, mem, hint) <==> hint.writeOffset != 0
  {
  }

  lemma RecoverFromHint(geo: Geometry, mem: seq<Byte>, hint: Hint)
    requires geo.Valid() && |mem| == geo.Size() && hint.lastId < WORD && HintUsable(geo, mem, hint)
    ensures hint.writeOffset < geo.Size() && Recover(geo, mem, hint) == Linear(geo, mem, hint.writeOffset, hint.lastId)
  {
    hide Linear;
  }

  lemma NewestOrder(g: History, first: nat)
    requires first < g.flushed < first + 0x8000_0000
    ensures IsNext(Id(g, first), Id(g, g.flushed - 1)) <==> first + 1 == g.flushed
  {
    hide Id, IsNext;
    SerialOrder(g, first, g.flushed - 1);
  }

  lemma ChunkIsShort(geo: Geometry, g: History, first: nat)
    requires Ranges(geo, g) && geo.Valid() && g.lo[g.cur] <= first < g.flushed
    ensures g.flushed < first + 0x8000_0000
  {
    RunAdds(g.raw, g.lo[g.cur], first, g.flushed);
    RunCount(g.raw, first, g.flushed);
    hide Run;
    SmallSector(geo);
  }

  /**
   * Recovery from the hint saved by the flush that wrote the last chunk, nothing torn: it returns the write
   * offset in RAM if and only if the hint is the default or the chunk held a single entry. Otherwise it
   * stays at the start of the chunk, though with the newest id.
   */
  lemma HintLaw(geo: Geometry, mem: seq<Byte>, write: nat, lastErased: int, g: History, hint: Hint, first: nat)
    requires FlashOk(geo, mem, write, lastErased, g) && !g.moved && g.torn == 0
    requires geo.Valid() && |mem| == geo.Size() && LastChunk(geo, hint.writeOffset, g, first)
    requires hint.lastId == Id(g, g.flushed - 1)
    ensures geo.align >= 1 && hint.writeOffset + HEADER_SIZE <= |mem|
    ensures hint.writeOffset == 0 || OneEntryChunk(geo, mem, hint.writeOffset, write) ==>
              Recover(geo, mem, hint) == Recovered(write, Id(g, g.flushed - 1))
    ensures hint.writeOffset != 0 && !OneEntryChunk(geo, mem, hint.writeOffset, write) ==>
              Recover(geo, mem, hint) == Recovered(hint.writeOffset, hint.lastId) && hint.writeOffset < write
  {
    hide *;
    FlashParts(geo, mem, write, lastErased, g);
    var off := hint.writeOffset;
    HintedEntry(geo, mem, g, first, off);
    ChunkReaches(geo, write, lastErased, g, first, off);
    OneEntryIs(geo, mem, off, write);
    HintUsableIs(geo, mem, hint);
    IdIsWord(g, g.flushed - 1);
    if off == 0 {
      WholeRecovery(geo, mem, write, lastErased, g, hint);
    } else {
      RecoverFromHint(geo, mem, hint);
      ChunkIsShort(geo, g, first);
      NewestOrder(g, first);
      LinearUnfolds(geo, mem, g.cur, |Run(g.raw, g.lo[g.cur], first)|, hint.lastId);
      if first + 1 == g.flushed {
        ScanFromEntry(geo, mem, g, first, off, hint.lastId);
        ScanEndIs(geo, g);
        NothingTorn(g);
        WriteIs(geo, write, lastErased, g);
      } else {
        ScanFromOlder(geo, mem, g, first, off, hint.lastId);
      }
    }
  }

  lemma OneEntryIs(geo: Geometry, mem: seq<Byte>, off: nat, write: nat)
    requires geo.align >= 1 && off + HEADER_SIZE <= |mem|
    ensures off + 8 + 4 <= |mem|
    ensures OneEntryChunk(geo, mem, off, write) <==> off + EntrySize(WordAt(mem, off + 8), geo.align) == write
  {
  }
}
