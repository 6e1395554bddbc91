/** What a boot finds after any run: recovery, the saved hint, and the entries that arrived. */
module RunRecovery {
  import opened Bytes
  import opened Crc
  import opened Entry
  import opened Layout
  import opened LoggerSpec
  import opened Invariant
  import opened FlushSteps
  import opened Operations
  import opened Replay
  import opened RecoverySpec
  import opened Recovery
  import opened Scanning
  import opened HintRecovery
  import opened Conservation
  import opened Runs

  /** The parameters of a logger that never saved any. */
  const NO_HINT: Hint := Hint(0, 0, 0)

  lemma NoHintIsUnusable(geo: Geometry, mem: seq<Byte>)
    requires |mem| == geo.Size()
    ensures !HintUsable(geo, mem, NO_HINT) && NO_HINT.lastId < WORD
  {
  }

  // ---------- After a successful flush ----------

  /** What a flush that returned OK leaves: everything flushed, nothing torn, the hint at the last chunk. */
  lemma FlushedHistory(geo: Geometry, s: State, g: History, c: Cursor) returns (g': History, c': Cursor, first: nat)
    requires Sized(geo, s) && Inv(geo, s, g, c) && FlushOp(geo, s).err == Ok
    ensures var s' := FlushOp(geo, s).s;
            && Inv(geo, s', g', c') && geo.Valid() && |s'.dev.mem| == geo.Size()
            && g'.cur < |g'.lo| == |g'.hi| && g'.lo[g'.cur] < g'.hi[g'.cur]
            && g'.torn == 0 && g'.base == g.base && g'.payloads == g.payloads
               && g'.flushed == |g'.raw| == |g'.payloads| > 0
            && LastChunk(geo, s'.hint.writeOffset, g', first) && s'.hint.lastId == s'.lastId == Id(g', g'.flushed - 1)
            && KeepsBounds(geo, s.lastErased, s'.lastErased, g, g')
  {
    hide FlushOp, Inv, Run, Sized, KeepsBounds;
    if s.batchLen == 0 {
      EmptyFlush(geo, s);
      assert false;
    }
    g', c', first := FlushKeeps(geo, s, g, c);
    InvParts(geo, FlushOp(geo, s).s, g', c');
    AllFlushed(geo, g', FlushOp(geo, s).s.hint.writeOffset, first);
  }

  lemma AllFlushed(geo: Geometry, g: History, off: nat, first: nat)
    requires Ranges(geo, g) && g.flushed == |g.raw| && LastChunk(geo, off, g, first) && |g.raw| == |g.payloads|
    requires g.base < WORD
    ensures g.lo[g.cur] < g.hi[g.cur] && g.torn == 0 && |g.payloads| > 0
    ensures Id(g, g.flushed - 1) == (g.base + |g.raw|) % WORD
  {
    RunEmpty(g.raw, g.flushed);
    hide Run;
  }

  /**
   * Exact recovery: after any run that ends in a successful flush, with any number of laps and of id wraps,
   * recovery without a hint returns the write offset in RAM and the id of the newest entry.
   */
  lemma ExactRecovery(geo: Geometry, batch: seq<Byte>, lastId: nat, ops: seq<Op>)
    requires Startable(geo, batch, lastId, ops)
    requires FlushOp(geo, Reached(geo, batch, lastId, ops).s).err == Ok
    ensures var s := FlushOp(geo, Reached(geo, batch, lastId, ops).s).s;
            Recover(geo, s.dev.mem, NO_HINT) == Recovered(s.writeOffset, s.lastId)
  {
    hide *;
    StartableParts(geo, batch, lastId, ops);
    var g, c, picks := RunHistory(geo, batch, lastId, ops);
    var x := Reached(geo, batch, lastId, ops);
    GoodParts(geo, x, g, c, picks);
    var g', c', first := FlushedHistory(geo, x.s, g, c);
    var s := FlushOp(geo, x.s).s;
    InvParts(geo, s, g', c');
    NoHintIsUnusable(geo, s.dev.mem);
    WholeRecovery(geo, s.dev.mem, s.writeOffset, s.lastErased, g', NO_HINT);
  }

  lemma StartableParts(geo: Geometry, batch: seq<Byte>, lastId: nat, ops: seq<Op>)
    requires Startable(geo, batch, lastId, ops)
    ensures geo.Valid() && lastId < WORD && Sized(geo, Reached(geo, batch, lastId, ops).s) && geo.align >= 1
    ensures |Reached(geo, batch, lastId, ops).s.dev.mem| == geo.Size()
  {
    hide Reached;
  }

  /** A flush that returned OK leaves nothing in the batch. */
  lemma FlushEmpties(geo: Geometry, batch: seq<Byte>, lastId: nat, ops: seq<Op>)
    requires Startable(geo, batch, lastId, ops)
    requires FlushOp(geo, Reached(geo, batch, lastId, ops).s).err == Ok
    ensures FlushOp(geo, Reached(geo, batch, lastId, ops).s).s.batchLen == 0
  {
    hide Inv, Run, FlushOp, Sized, Startable, Reached, LastChunk;
    var g, c, picks := RunHistory(geo, batch, lastId, ops);
    var s := Reached(geo, batch, lastId, ops).s;
    if s.batchLen == 0 {
      EmptyFlush(geo, s);
    } else {
      var g', c', first := FlushKeeps(geo, s, g, c);
    }
  }

  /**
   * Recovery from the hint that this flush saved gives the same result if and only if the hint is the default or
   * the last chunk held a single entry.
   */
  lemma ExactHintIff(geo: Geometry, batch: seq<Byte>, lastId: nat, ops: seq<Op>)
    requires Startable(geo, batch, lastId, ops)
    requires FlushOp(geo, Reached(geo, batch, lastId, ops).s).err == Ok
    ensures var s := FlushOp(geo, Reached(geo, batch, lastId, ops).s).s;
            && geo.align >= 1 && s.hint.writeOffset + HEADER_SIZE <= |s.dev.mem|
            && (Recover(geo, s.dev.mem, s.hint) == Recovered(s.writeOffset, s.lastId)
                <==> s.hint.writeOffset == 0 || OneEntryChunk(geo, s.dev.mem, s.hint.writeOffset, s.writeOffset))
  {
    hide *;
    StartableParts(geo, batch, lastId, ops);
    var g, c, picks := RunHistory(geo, batch, lastId, ops);
    var x := Reached(geo, batch, lastId, ops);
    GoodParts(geo, x, g, c, picks);
    var g', c', first := FlushedHistory(geo, x.s, g, c);
    var s := FlushOp(geo, x.s).s;
    InvParts(geo, s, g', c');
    HintLaw(geo, s.dev.mem, s.writeOffset, s.lastErased, g', s.hint, first);
  }

  // ---------- After any run, torn writes included ----------

  /** The current sector holds at least one whole entry. */
  predicate HeadInUse(geo: Geometry, s: State)
    requires geo.sector > 0
  {
    || s.writeOffset % geo.sector != 0
    || s.writeOffset == geo.Size()
    || (s.writeOffset > 0 && s.lastErased != s.writeOffset / geo.sector)
  }

  /** The current sector: the one of the write offset, or the one it has just filled. */
  function HeadSector(geo: Geometry, s: State): nat
    requires geo.sector > 0
  {
    if HeadInUse(geo, s) && s.writeOffset % geo.sector == 0 && s.writeOffset > 0 then s.writeOffset / geo.sector - 1
    else s.writeOffset / geo.sector
  }

  lemma HeadInUseLaw(geo: Geometry, s: State, g: History)
    requires Ranges(geo, g) && WriteOk(geo, s.writeOffset, s.lastErased, g) && !g.moved
    ensures HeadInUse(geo, s) <==> g.lo[g.cur] < g.hi[g.cur]
    ensures HeadSector(geo, s) == g.cur
  {
    RunPositive(g.raw, g.lo[g.cur], g.hi[g.cur]);
    hide Run;
    WriteSector(geo, s.writeOffset, s.lastErased, g);
    SectorInside(geo, g.cur);
    if g.cur + 1 < geo.sectors {
      SectorInside(geo, g.cur + 1);
    }
  }

  /** The first offset behind the current sector. */
  function HeadEnd(geo: Geometry, s: State): nat
    requires geo.sector > 0
  {
    HeadSector(geo, s) * geo.sector + geo.sector
  }

  /**
   * How many bytes at the front of the batch are entries that stand wholly, through their tails, at the write
   * offset of the flash, within the current sector.
   */
  function ArrivedFrom(geo: Geometry, s: State, pos: nat): nat
    requires Sized(geo, s)
    decreases s.batchLen - pos
  {
    if pos + OVERHEAD > s.batchLen then pos
    else
      var length := WordAt(s.batch, pos + 8);
      var size := EntrySize(length, geo.align);
      var at := s.writeOffset + pos;
      if size < OVERHEAD + length || pos + size > s.batchLen || at + size > HeadEnd(geo, s) || at + size > |s.dev.mem|
         || s.dev.mem[at..at + OVERHEAD + length] != s.batch[pos..pos + OVERHEAD + length]
      then pos
      else ArrivedFrom(geo, s, pos + size)
  }

  /** Entry `i` of the history in the batch. */
  lemma BatchEntry(geo: Geometry, s: State, g: History, i: nat)
    requires Sized(geo, s) && LogOk(geo, g) && g.flushed <= i < |g.raw| == |g.payloads|
    requires s.batch[..s.batchLen] == Run(g.raw, g.flushed, |g.raw|)
    ensures var pos := |Run(g.raw, g.flushed, i)|;
            && geo.align >= 1 && pos + |g.raw[i]| <= s.batchLen && |Run(g.raw, g.flushed, i + 1)| == pos + |g.raw[i]|
            && s.batch[pos..pos + |g.raw[i]|] == g.raw[i]
            && IsEntry(g.raw[i], Id(g, i), g.payloads[i], geo.align)
  {
    hide *;
    EntryIs(geo, g, i);
    SizedBatch(geo, s);
    InOrder(g.raw, g.flushed, i);
    InOrder(g.raw, g.flushed, |g.raw|);
    RunInside(g.raw, g.flushed, i, |g.raw|);
    var pos := |Run(g.raw, g.flushed, i)|;
    InOrder(g.raw, g.flushed, i + 1);
    RunAdds(g.raw, g.flushed, i, i + 1);
    InOrder(g.raw, i, i + 1);
    InOrder(g.raw, i + 1, i + 1);
    RunFirst(g.raw, i, i + 1);
    RunEmpty(g.raw, i + 1);
    SliceOfSlice(s.batch, 0, s.batchLen, pos, |g.raw[i]|);
  }

  lemma SizedBatch(geo: Geometry, s: State)
    requires Sized(geo, s)
    ensures s.batchLen <= |s.batch| && geo.Valid() && |s.dev.mem| == geo.Size() && geo.sector > 0 && geo.align >= 1
  {
  }

  lemma EntryLengthAt(buf: seq<Byte>, pos: nat, raw: seq<Byte>, id: nat, payload: seq<Byte>, align: nat)
    requires IsEntry(raw, id, payload, align) && pos + |raw| <= |buf| && buf[pos..pos + |raw|] == raw
    ensures pos + HEADER_SIZE <= |buf| && pos + OVERHEAD <= pos + |raw| && align >= 1
    ensures WordAt(buf, pos + 8) == |payload| && EntrySize(|payload|, align) == |raw| >= OVERHEAD + |payload|
    ensures buf[pos..pos + OVERHEAD + |payload|] == raw[..OVERHEAD + |payload|]
  {
    hide WordAt, EntrySize, Unpadded;
    EntryFields(raw, id, payload, align, []);
    assert raw + [] == raw;
    WordInSlice(buf, pos, |raw|, 8);
  }

  lemma ArrivedUnfolds(geo: Geometry, s: State, pos: nat, length: nat)
    requires Sized(geo, s) && pos + OVERHEAD <= s.batchLen && length == WordAt(s.batch, pos + 8)
    requires geo.sector > 0 && geo.align >= 1
    requires EntrySize(length, geo.align) >= OVERHEAD + length && pos + EntrySize(length, geo.align) <= s.batchLen
    ensures var size, at := EntrySize(length, geo.align), s.writeOffset + pos;
            ArrivedFrom(geo, s, pos) ==
            if at + size > HeadEnd(geo, s) || at + size > |s.dev.mem|
               || s.dev.mem[at..at + OVERHEAD + length] != s.batch[pos..pos + OVERHEAD + length]
            then pos else ArrivedFrom(geo, s, pos + size)
  {
    hide WordAt, EntrySize;
  }

  lemma ArrivedAtEnd(geo: Geometry, s: State)
    requires Sized(geo, s)
    ensures ArrivedFrom(geo, s, s.batchLen) == s.batchLen
  {
  }

  /** The last byte of a tail is not an erased byte. */
  lemma LastTailByte(raw: seq<Byte>, id: nat, payload: seq<Byte>, align: nat)
    requires IsEntry(raw, id, payload, align)
    ensures |raw| >= OVERHEAD + |payload| && raw[OVERHEAD + |payload| - 1] != ERASED
  {
    hide Covered, Half, Word, EntrySize, Crc16;
    var u := Unpadded(id, payload);
    var crc := Crc16(Covered(id, payload));
    assert u == Covered(id, payload) + (Half(crc) + Word(TAIL_MAGIC));
    assert u[OVERHEAD + |payload| - 1] == Word(TAIL_MAGIC)[3];
    TailMagicEnds();
    assert raw[..OVERHEAD + |payload|][OVERHEAD + |payload| - 1] == raw[OVERHEAD + |payload| - 1];
  }

  lemma TailMagicEnds()
    ensures Word(TAIL_MAGIC)[3] != ERASED
  {
    hide Word, WordAt;
    TailMagicBytes(Word(TAIL_MAGIC), 0);
  }

  lemma FirstBytesOfEntry(x: seq<Byte>, raw: seq<Byte>, id: nat, payload: seq<Byte>, align: nat)
    requires IsEntry(x, id, payload, align) && IsEntry(raw, id, payload, align)
    ensures |x| == |raw| >= OVERHEAD + |payload| && x[..OVERHEAD + |payload|] == raw[..OVERHEAD + |payload|]
  {
    hide Unpadded, EntrySize;
  }

  lemma EntryAtIs(geo: Geometry, g: History, buf: seq<Byte>, at: nat, i: nat)
    requires geo.align >= 1 && EntryAt(geo, g, buf, at, i)
    ensures i < |g.raw| == |g.payloads| && at + |g.raw[i]| <= |buf|
    ensures IsEntry(buf[at..at + |g.raw[i]|], Id(g, i), g.payloads[i], geo.align)
  {
    hide IsEntry;
  }

  /** An entry of the batch whose tail arrived stands in the flash as it stands in the batch. */
  lemma ArrivedIsThere(geo: Geometry, s: State, g: History, i: nat)
    requires Sized(geo, s) && Ranges(geo, g) && LogOk(geo, g) && MemOk(geo, s.dev.mem, g)
    requires g.cur < geo.sectors && g.flushed <= g.tornTo <= |g.raw| == |g.payloads|
    requires g.lo[g.cur] <= g.flushed <= i < Whole(g)
    requires s.writeOffset == g.cur * geo.sector + |Run(g.raw, g.lo[g.cur], g.flushed)|
    ensures var at, n := s.writeOffset + |Run(g.raw, g.flushed, i)|, OVERHEAD + |g.payloads[i]|;
            && n <= |g.raw[i]| && at + |g.raw[i]| <= g.cur * geo.sector + geo.sector <= |s.dev.mem|
            && s.dev.mem[at..at + n] == g.raw[i][..n]
  {
    hide *;
    SizedBatch(geo, s);
    WholeFromLaw(g, g.flushed, i);
    WholeIs(g);
    CurrentBuffer(geo, g);
    ArrivedEntryAt(geo, g, i);
    InOrder(g.raw, g.lo[g.cur], i);
    EntryIs(geo, g, i);
    var d, n := |Run(g.raw, g.lo[g.cur], i)|, OVERHEAD + |g.payloads[i]|;
    EntryAtIs(geo, g, Content(geo, g, g.cur), d, i);
    RunAdds(g.raw, g.lo[g.cur], g.flushed, i);
    FirstBytesOfEntry(Content(geo, g, g.cur)[d..d + |g.raw[i]|], g.raw[i], Id(g, i), g.payloads[i], geo.align);
    SectorInside(geo, g.cur);
    ReadInSector(geo, s.dev.mem, g, g.cur, d, n);
    SliceOfSlice(Content(geo, g, g.cur), d, |g.raw[i]|, 0, n);
  }

  lemma WholeIs(g: History)
    requires g.flushed <= g.tornTo <= |g.raw| == |g.payloads|
    ensures Whole(g) == WholeFrom(g, g.flushed) && OVERHEAD > 0
  {
  }

  /** The entry behind the last whole one is not there: its last tail byte still reads erased. */
  lemma NextIsNotThere(geo: Geometry, s: State, g: History)
    requires Sized(geo, s) && Ranges(geo, g) && LogOk(geo, g) && MemOk(geo, s.dev.mem, g)
    requires g.cur < geo.sectors && g.flushed <= g.tornTo <= |g.raw| == |g.payloads|
    requires g.lo[g.cur] <= g.flushed <= Whole(g) < |g.raw|
    requires s.writeOffset == g.cur * geo.sector + |Run(g.raw, g.lo[g.cur], g.flushed)|
    requires s.writeOffset + |Run(g.raw, g.flushed, Whole(g))| + |g.raw[Whole(g)]| <= g.cur * geo.sector + geo.sector
    ensures var w := Whole(g);
            var at, n := s.writeOffset + |Run(g.raw, g.flushed, w)|, OVERHEAD + |g.payloads[w]|;
            n <= |g.raw[w]| && at + n <= |s.dev.mem| && s.dev.mem[at..at + n] != g.raw[w][..n]
  {
    hide *;
    SizedBatch(geo, s);
    var w := Whole(g);
    WholeFromLaw(g, g.flushed, w);
    WholeIs(g);
    CurrentBuffer(geo, g);
    InOrder(g.raw, g.flushed, w);
    InOrder(g.raw, g.lo[g.cur], g.flushed);
    EntryIs(geo, g, w);
    LastTailByte(g.raw[w], Id(g, w), g.payloads[w], geo.align);
    var used, n := |Run(g.raw, g.lo[g.cur], g.flushed)|, OVERHEAD + |g.payloads[w]|;
    var k := used + |Run(g.raw, g.flushed, w)| + n - 1;
    SectorInside(geo, g.cur);
    CutBufferBlank(g.raw, g.lo[g.cur], g.flushed, g.tornTo, g.torn, geo.sector, k);
    ReadInSector(geo, s.dev.mem, g, g.cur, k, 1);
    OneByte(s.dev.mem, g.cur * geo.sector + k, Content(geo, g, g.cur), k);
    var at := s.writeOffset + |Run(g.raw, g.flushed, w)|;
    assert s.dev.mem[at..at + n][n - 1] == s.dev.mem[at + n - 1];
  }

  lemma OneByte(mem: seq<Byte>, at: nat, buf: seq<Byte>, k: nat)
    requires at < |mem| && k < |buf| && mem[at..at + 1] == buf[k..k + 1]
    ensures mem[at] == buf[k]
  {
    assert mem[at] == mem[at..at + 1][0];
    assert buf[k] == buf[k..k + 1][0];
  }

  lemma {:induction false} ArrivedLaw(geo: Geometry, s: State, g: History, c: Cursor, i: nat)
    requires Inv(geo, s, g, c) && Sized(geo, s) && g.flushed <= i <= |g.raw|
    requires g.flushed <= g.tornTo <= |g.raw| == |g.payloads| && i <= Whole(g)
    ensures Between(g.raw, g.flushed, i) && Between(g.raw, g.flushed, Whole(g))
    ensures ArrivedFrom(geo, s, |Run(g.raw, g.flushed, i)|) == |Run(g.raw, g.flushed, Whole(g))|
    decreases Whole(g) - i
  {
    hide *;
    InvParts(geo, s, g, c);
    FlashParts(geo, s.dev.mem, s.writeOffset, s.lastErased, g);
    BetweenWhole(g);
    InOrder(g.raw, g.flushed, i);
    WriteIs(geo, s.writeOffset, s.lastErased, g);
    HeadInUseLaw(geo, s, g);
    HeadEndIs(geo, s);
    var pos := |Run(g.raw, g.flushed, i)|;
    if i == |g.raw| {
      assert s.batch[..s.batchLen] == Run(g.raw, g.flushed, |g.raw|);
      ArrivedAtEnd(geo, s);
    } else {
      BatchEntry(geo, s, g, i);
      EntryLengthAt(s.batch, pos, g.raw[i], Id(g, i), g.payloads[i], geo.align);
      ArrivedUnfolds(geo, s, pos, |g.payloads[i]|);
      if i < Whole(g) {
        ArrivedIsThere(geo, s, g, i);
        ArrivedLaw(geo, s, g, c, i + 1);
      } else if s.writeOffset + pos + |g.raw[i]| <= g.cur * geo.sector + geo.sector {
        NextIsNotThere(geo, s, g);
      }
    }
  }

  lemma HeadEndIs(geo: Geometry, s: State)
    requires geo.sector > 0
    ensures HeadEnd(geo, s) == HeadSector(geo, s) * geo.sector + geo.sector
  {
  }

  // ---------- Recovery ----------

  /**
   * Of the entry at `pos` of the batch exactly the first `t` bytes stand at `off` of the flash, as far as its header
   * goes; the cut is inside the length field, and the length read there does not wrap the tail offset.
   */
  predicate CutAt(mem: seq<Byte>, off: nat, batch: seq<Byte>, pos: nat, t: nat) {
    && 9 <= t <= 11 && off + HEADER_SIZE <= |mem| && pos + HEADER_SIZE <= |batch|
    && mem[off..off + t] == batch[pos..pos + t]
    && (forall k :: off + t <= k < off + HEADER_SIZE ==> mem[k] == ERASED)
    && HEADER_SIZE + LengthAfterCut(WordAt(batch, pos + 8), t) < WORD
  }

  predicate CutInLength(mem: seq<Byte>, off: nat, batch: seq<Byte>, pos: nat) {
    CutAt(mem, off, batch, pos, 9) || CutAt(mem, off, batch, pos, 10) || CutAt(mem, off, batch, pos, 11)
  }

  lemma CutInLengthIs(mem: seq<Byte>, off: nat, batch: seq<Byte>, pos: nat) returns (t: nat)
    ensures CutInLength(mem, off, batch, pos) ==> CutAt(mem, off, batch, pos, t)
    ensures forall u: nat {:trigger CutAt(mem, off, batch, pos, u)} ::
              CutAt(mem, off, batch, pos, u) ==> CutInLength(mem, off, batch, pos)
  {
    hide WordAt;
    t := if CutAt(mem, off, batch, pos, 9) then 9 else if CutAt(mem, off, batch, pos, 10) then 10 else 11;
  }

  /** Behind the arrived entries stands an entry that sends the validator out of its buffer. */
  predicate StrayAhead(geo: Geometry, s: State)
    requires Sized(geo, s)
  {
    var pos := ArrivedFrom(geo, s, 0);
    && pos + OVERHEAD <= s.batchLen && s.writeOffset + pos + OVERHEAD <= HeadEnd(geo, s)
    && CutInLength(s.dev.mem, s.writeOffset + pos, s.batch, pos)
  }

  lemma StrayAheadIs(geo: Geometry, s: State, pos: nat)
    requires Sized(geo, s) && geo.sector > 0 && pos == ArrivedFrom(geo, s, 0)
    ensures StrayAhead(geo, s) <==>
            && pos + OVERHEAD <= s.batchLen && s.writeOffset + pos + OVERHEAD <= HeadEnd(geo, s)
            && CutInLength(s.dev.mem, s.writeOffset + pos, s.batch, pos)
  {
    hide ArrivedFrom, CutInLength, HeadEnd;
  }

  /** `data` is the flash from `off` on, `raw` the entry at `pos` of the batch. */
  predicate Facing(mem: seq<Byte>, off: nat, data: seq<Byte>, batch: seq<Byte>, pos: nat, raw: seq<Byte>) {
    && off + |data| <= |mem| && mem[off..off + |data|] == data && |data| >= OVERHEAD
    && pos + |raw| <= |batch| && batch[pos..pos + |raw|] == raw && |raw| >= OVERHEAD
  }

  lemma FacingBytes(mem: seq<Byte>, off: nat, data: seq<Byte>, batch: seq<Byte>, pos: nat, raw: seq<Byte>)
    requires Facing(mem, off, data, batch, pos, raw)
    ensures off + OVERHEAD <= |mem| && pos + OVERHEAD <= |batch| && |data| >= OVERHEAD && |raw| >= OVERHEAD
    ensures forall k :: 0 <= k < OVERHEAD ==> mem[off + k] == data[k] && batch[pos + k] == raw[k]
  {
    forall k | 0 <= k < OVERHEAD
      ensures mem[off + k] == data[k] && batch[pos + k] == raw[k]
    {
      assert mem[off..off + |data|][k] == data[k] && batch[pos..pos + |raw|][k] == raw[k];
    }
  }

  /** An entry cut inside its length field, as bytes of flash and batch. */
  lemma CutIsAt(mem: seq<Byte>, off: nat, data: seq<Byte>, batch: seq<Byte>, pos: nat, raw: seq<Byte>, id: nat,
                payload: seq<Byte>, align: nat, t: nat)
    requires Facing(mem, off, data, batch, pos, raw) && IsEntry(raw, id, payload, align)
    requires id < WORD && |payload| < WORD && CutShort(id, payload, t, data) && CutStrays(|payload|, t)
    ensures CutAt(mem, off, batch, pos, t)
  {
    hide WordAt, Unpadded, EntrySize;
    FacingBytes(mem, off, data, batch, pos, raw);
    EntryLengthAt(batch, pos, raw, id, payload, align);
    assert forall k :: 0 <= k < t ==> raw[..OVERHEAD + |payload|][k] == raw[k];
    assert data[..t] == raw[..t];
    SliceOfSlice(mem, off, |data|, 0, t);
    SliceOfSlice(batch, pos, |raw|, 0, t);
  }

  /** What the length field reads in such a flash. */
  lemma CutAtLength(mem: seq<Byte>, off: nat, data: seq<Byte>, batch: seq<Byte>, pos: nat, raw: seq<Byte>, id: nat,
                    payload: seq<Byte>, align: nat, t: nat)
    requires Facing(mem, off, data, batch, pos, raw) && IsEntry(raw, id, payload, align)
    requires CutAt(mem, off, batch, pos, t)
    ensures |data| >= OVERHEAD && 9 <= t <= 11 && WordAt(data, 8) == LengthAfterCut(|payload|, t)
    ensures HEADER_SIZE + LengthAfterCut(|payload|, t) < WORD
    ensures data[0] != ERASED
  {
    hide WordAt, Unpadded, EntrySize, LengthAfterCut;
    FacingBytes(mem, off, data, batch, pos, raw);
    EntryLengthAt(batch, pos, raw, id, payload, align);
    EntryReaches(raw, id, payload, align);
    EntryFields(raw, id, payload, align, []);
    assert raw + [] == raw;
    hide Facing;
    forall k | 0 <= k < t
      ensures data[k] == raw[k]
    {
      assert mem[off..off + t][k] == batch[pos..pos + t][k];
    }
    var cut := raw[..t] + Blank(OVERHEAD + |payload| - t);
    assert forall k :: 0 <= k < t ==> raw[..OVERHEAD + |payload|][k] == raw[k];
    CutLength(id, payload, t, cut);
    SameWordAs(cut, 8, data[8..12]);
    SameWordAs(data, 8, data[8..12]);
    HeaderMagicBytes(raw, 0);
  }

  /** The length read decides: bytes of a cut entry that read so were cut inside the length field. */
  lemma LengthDecides(id: nat, payload: seq<Byte>, t0: nat, t: nat, data: seq<Byte>)
    requires id < WORD && |payload| < 0xFF00_0000 && CutShort(id, payload, t0, data) && |data| >= OVERHEAD
    requires 9 <= t <= 11 && WordAt(data, 8) == LengthAfterCut(|payload|, t)
    requires HEADER_SIZE + LengthAfterCut(|payload|, t) < WORD
    ensures CutStrays(|payload|, t0)
  {
    hide WordAt, CutShort;
    CutLength(id, payload, t0, data);
  }

  lemma FacingFrom(geo: Geometry, mem: seq<Byte>, k: nat, at: nat, batch: seq<Byte>, pos: nat, raw: seq<Byte>)
    requires |mem| == geo.Size() && k < geo.sectors && at + OVERHEAD <= geo.sector
    requires pos + |raw| <= |batch| && batch[pos..pos + |raw|] == raw && |raw| >= OVERHEAD
    ensures Facing(mem, k * geo.sector + at, Sector(geo, mem, k)[at..], batch, pos, raw)
  {
    SectorInside(geo, k);
  }

  /** `Strays`, where an entry of the batch faces what is left of the sector. */
  lemma StrayFacing(geo: Geometry, g: History, mem: seq<Byte>, off: nat, batch: seq<Byte>, pos: nat, at: nat)
    requires Ranges(geo, g) && LogOk(geo, g) && geo.Valid()
    requires g.lo[g.cur] <= g.flushed <= g.tornTo <= |g.raw| == |g.payloads|
    requires Between(g.raw, g.lo[g.cur], Whole(g)) && at == |Run(g.raw, g.lo[g.cur], Whole(g))| < geo.sector
    requires Whole(g) < |g.raw| && |g.payloads[Whole(g)]| < 0xFF00_0000 && at <= |Content(geo, g, g.cur)| == geo.sector
    requires IsEntry(g.raw[Whole(g)], Id(g, Whole(g)), g.payloads[Whole(g)], geo.align)
    requires Facing(mem, off, Content(geo, g, g.cur)[at..], batch, pos, g.raw[Whole(g)])
    ensures Strays(g) <==> CutInLength(mem, off, batch, pos)
  {
    hide *;
    StraysIs(g);
    CurrentBuffer(geo, g);
    var w, data := Whole(g), Content(geo, g, g.cur)[at..];
    var raw, id, payload := g.raw[w], Id(g, w), g.payloads[w];
    if CutBytes(g) > 0 {
      CutTail(geo, g);
      if Strays(g) {
        CutIsAt(mem, off, data, batch, pos, raw, id, payload, geo.align, CutBytes(g));
      }
    } else {
      BlankTail(geo, g, at);
    }
    var t := CutInLengthIs(mem, off, batch, pos);
    if CutInLength(mem, off, batch, pos) {
      CutAtLength(mem, off, data, batch, pos, raw, id, payload, geo.align, t);
      if CutBytes(g) > 0 {
        LengthDecides(id, payload, CutBytes(g), t, data);
      }
    }
  }

  lemma NoStrayWithoutRoom(geo: Geometry, g: History, at: nat)
    requires Ranges(geo, g) && LogOk(geo, g) && g.lo[g.cur] <= g.flushed <= g.tornTo <= |g.raw| == |g.payloads|
    requires Between(g.raw, g.lo[g.cur], Whole(g)) && at == |Run(g.raw, g.lo[g.cur], Whole(g))|
    requires Whole(g) == |g.raw| || at + OVERHEAD > geo.sector
    ensures !Strays(g)
  {
    hide *;
    StraysIs(g);
    CurrentBuffer(geo, g);
    CutBytesLaw(g);
    if CutBytes(g) > 0 && Whole(g) < |g.raw| {
      CutTail(geo, g);
      var data := Content(geo, g, g.cur)[at..];
      CutShortIsLong(Id(g, Whole(g)), g.payloads[Whole(g)], CutBytes(g), data);
    }
  }

  lemma CutShortIsLong(id: nat, payload: seq<Byte>, t: nat, data: seq<Byte>)
    requires id < WORD && |payload| < WORD && CutShort(id, payload, t, data)
    ensures |data| >= OVERHEAD
  {
    hide Unpadded;
  }

  lemma EntryIsSmall(geo: Geometry, g: History, i: nat)
    requires geo.Valid() && LogOk(geo, g) && i < |g.raw| == |g.payloads|
    ensures OVERHEAD <= |g.raw[i]| && |g.payloads[i]| < 0xFF00_0000 && OVERHEAD > 0
  {
    SmallSector(geo);
    hide Unpadded, EntrySize;
  }

  /** `Strays` as a property of flash and batch. */
  lemma StrayLaw(geo: Geometry, s: State, g: History, c: Cursor)
    requires Inv(geo, s, g, c) && Sized(geo, s) && g.flushed <= g.tornTo <= |g.raw| == |g.payloads|
    ensures StrayAhead(geo, s) <==> Strays(g)
  {
    hide *;
    InvParts(geo, s, g, c);
    FlashParts(geo, s.dev.mem, s.writeOffset, s.lastErased, g);
    BetweenWhole(g);
    InOrder(g.raw, g.flushed, Whole(g));
    InOrder(g.raw, g.flushed, g.flushed);
    WriteIs(geo, s.writeOffset, s.lastErased, g);
    ArrivedLaw(geo, s, g, c, g.flushed);
    RunEmpty(g.raw, g.flushed);
    HeadInUseLaw(geo, s, g);
    HeadEndIs(geo, s);
    RunAdds(g.raw, g.lo[g.cur], g.flushed, Whole(g));
    WholeInSector(geo, g);
    OverheadIsPositive();
    var w := Whole(g);
    var pos, at := |Run(g.raw, g.flushed, w)|, |Run(g.raw, g.lo[g.cur], w)|;
    StrayAheadIs(geo, s, pos);
    if w == |g.raw| {
      assert s.batch[..s.batchLen] == Run(g.raw, g.flushed, |g.raw|);
      NoStrayWithoutRoom(geo, g, at);
    } else {
      BatchEntry(geo, s, g, w);
      EntryIsSmall(geo, g, w);
      if at + OVERHEAD > geo.sector {
        NoStrayWithoutRoom(geo, g, at);
      } else {
        SectorIsContent(geo, s.dev.mem, g, g.cur);
        FacingFrom(geo, s.dev.mem, g.cur, at, s.batch, pos, g.raw[w]);
        StrayFacing(geo, g, s.dev.mem, g.cur * geo.sector + at, s.batch, pos, at);
      }
    }
  }

  lemma OverheadIsPositive()
    ensures OVERHEAD > 0
  {
  }

  lemma HeaderIsPositive()
    ensures HEADER_SIZE > 0
  {
  }

  /** What arrived whole ends inside the current sector. */
  lemma WholeInSector(geo: Geometry, g: History)
    requires Ranges(geo, g) && LogOk(geo, g) && g.cur < geo.sectors == |g.lo|
    requires g.lo[g.cur] <= g.flushed <= g.tornTo <= |g.raw| == |g.payloads|
    ensures Between(g.raw, g.lo[g.cur], Whole(g)) && |Run(g.raw, g.lo[g.cur], Whole(g))| <= geo.sector
  {
    hide *;
    CurrentBuffer(geo, g);
    WholeIs(g);
    WholeFromLaw(g, g.flushed, g.flushed);
    InOrder(g.raw, g.lo[g.cur], Whole(g));
    if Whole(g) > g.flushed {
      RunAdds(g.raw, g.flushed, Whole(g), g.tornTo);
      RunAdds(g.raw, g.lo[g.cur], g.flushed, Whole(g));
    }
  }

  lemma LastRecord(g: History, a: nat, b: nat)
    requires a < b <= |g.payloads|
    ensures |Records(g, a, b)| == b - a && Records(g, a, b)[b - a - 1].id == Id(g, b - 1)
  {
    hide Id;
  }

  /** Some entry stands wholly in the current sector, flushed or brought there by a torn write. */
  predicate HeadHolds(geo: Geometry, s: State)
    requires Sized(geo, s)
  {
    geo.sector > 0 && (HeadInUse(geo, s) || ArrivedFrom(geo, s, 0) > 0)
  }

  lemma HeadHoldsIs(geo: Geometry, s: State)
    requires Sized(geo, s) && geo.sector > 0
    ensures HeadHolds(geo, s) <==> HeadInUse(geo, s) || ArrivedFrom(geo, s, 0) > 0
  {
    hide HeadInUse, ArrivedFrom;
  }

  lemma HeadHoldsLaw(geo: Geometry, s: State, g: History, c: Cursor)
    requires Inv(geo, s, g, c)
    ensures Sized(geo, s) && g.cur < |g.lo| && g.flushed <= g.tornTo <= |g.raw| == |g.payloads|
    ensures g.lo[g.cur] <= g.flushed <= Whole(g) && (HeadHolds(geo, s) <==> g.lo[g.cur] < Whole(g))
  {
    hide *;
    InvParts(geo, s, g, c);
    FlashParts(geo, s.dev.mem, s.writeOffset, s.lastErased, g);
    HeadInUseLaw(geo, s, g);
    HeadHoldsIs(geo, s);
    NoneArrived(geo, s, g, c);
    WholeReaches(g);
  }

  lemma NoneArrived(geo: Geometry, s: State, g: History, c: Cursor)
    requires Inv(geo, s, g, c) && Sized(geo, s) && g.flushed <= g.tornTo <= |g.raw| == |g.payloads|
    ensures ArrivedFrom(geo, s, 0) == 0 <==> Whole(g) == g.flushed
  {
    hide *;
    InvParts(geo, s, g, c);
    BetweenWhole(g);
    WholeReaches(g);
    InOrder(g.raw, g.flushed, Whole(g));
    InOrder(g.raw, g.flushed, g.flushed);
    ArrivedLaw(geo, s, g, c, g.flushed);
    RunEmpty(g.raw, g.flushed);
    EntriesNotEmpty(geo, g);
    RunPositive(g.raw, g.flushed, Whole(g));
  }

  /**
   * Recovery after any run, torn writes included, that left a whole entry in the current sector: the offset right
   * behind the last entry that stands wholly in the flash, and the id of that entry, which is the last one a reader of
   * the flash finds. The one exception, a header cut inside its length field, is told apart exactly.
   */
  lemma TornRecovery(geo: Geometry, batch: seq<Byte>, lastId: nat, ops: seq<Op>)
    requires Startable(geo, batch, lastId, ops)
    requires geo.sector > 0 && HeadHolds(geo, Reached(geo, batch, lastId, ops).s)
    ensures var s := Reached(geo, batch, lastId, ops).s;
            && After(geo, HeadSector(geo, s)) < geo.sectors
            && var log := RingLog(geo, s.dev.mem, After(geo, HeadSector(geo, s)), geo.sectors);
            && |log| > 0
            && Recover(geo, s.dev.mem, NO_HINT) ==
               if StrayAhead(geo, s) then StrayRead
               else Recovered(s.writeOffset + ArrivedFrom(geo, s, 0), log[|log| - 1].id)
  {
    hide *;
    StartableParts(geo, batch, lastId, ops);
    var g, c, picks := RunHistory(geo, batch, lastId, ops);
    var x := Reached(geo, batch, lastId, ops);
    GoodParts(geo, x, g, c, picks);
    var s := x.s;
    InvParts(geo, s, g, c);
    FlashParts(geo, s.dev.mem, s.writeOffset, s.lastErased, g);
    HeadInUseLaw(geo, s, g);
    HeadHoldsLaw(geo, s, g, c);
    NoHintIsUnusable(geo, s.dev.mem);
    RecoveryLaw(geo, s.dev.mem, s.writeOffset, s.lastErased, g, NO_HINT);
    ExpectedIs(s.writeOffset, g);
    StrayLaw(geo, s, g, c);
    InOrder(g.raw, g.flushed, Whole(g));
    InOrder(g.raw, g.flushed, g.flushed);
    ArrivedLaw(geo, s, g, c, g.flushed);
    RunEmpty(g.raw, g.flushed);
    FlashIsHistory(geo, s.dev.mem, s.writeOffset, s.lastErased, g);
    OldestBelow(geo, g);
    LastRecord(g, g.lo[After(geo, g.cur)], Whole(g));
  }

  /** The oldest entry kept is older than the newest one of the current sector. */
  lemma OldestBelow(geo: Geometry, g: History)
    requires Ranges(geo, g) && Ring(geo, g) && g.cur < geo.sectors && g.flushed <= Whole(g) && g.lo[g.cur] < Whole(g)
    requires g.flushed <= g.tornTo <= |g.raw| == |g.payloads|
    ensures After(geo, g.cur) < geo.sectors == |g.lo| && g.lo[After(geo, g.cur)] < Whole(g)
  {
    hide Run, Whole;
    var q := After(geo, g.cur);
    var h := g.hi[q];
    LapOrder(geo, g, q);
  }

  lemma LapOrder(geo: Geometry, g: History, k: nat)
    requires Ranges(geo, g) && Ring(geo, g) && k < geo.sectors && k == After(geo, g.cur)
    ensures g.lo[k] <= g.hi[k] <= g.flushed
    ensures g.lo[k] == g.flushed ==> g.lo[g.cur] == g.flushed
  {
    hide Run;
    var h := g.hi[k];
    if g.lo[k] == g.flushed {
      var z := g.hi[0];
    }
  }
}
