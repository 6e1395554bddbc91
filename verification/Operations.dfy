/** Flush, write and replay keep the invariant, and what each of them does to the history. */
module Operations {
  import opened Bytes
  import opened Entry
  import opened Layout
  import opened Flash
  import opened LoggerSpec
  import opened Invariant
  import opened FlushSteps
  import opened FlushPasses

  // ---------- The loop ----------

  /** Entries `first..` are the last chunk written; the hint is the offset of the first of them. */
  predicate LastChunk(geo: Geometry, hintOffset: nat, g: History, first: nat) {
    && g.cur < |g.lo| && g.lo[g.cur] <= first < g.flushed <= |g.raw|
    && hintOffset == g.cur * geo.sector + |Run(g.raw, g.lo[g.cur], first)|
  }

  /** How the loop ends. */
  predicate LoopOutcome(f': Flushing, g: History, g': History) {
    && SameHistory(g, g') && !g'.moved
    && (f'.err == Ok <==> f'.left == 0)
    && (f'.err == Ok || f'.err == WriteFail || f'.err == EraseFail)
    && f'.devErr != DevInvalidState
  }

  lemma LoopUnfolds(geo: Geometry, f: Flushing)
    requires Sized(geo, f.s) && f.written + f.left <= geo.batch && f.err == Ok
    ensures var f' := FlushPass(geo, f);
            FlushLoop(geo, f) == if f'.left > 0 && f'.err == Ok then FlushLoop(geo, f') else f'
  {
    hide FlushPass;
  }

  lemma OutcomeOfPass(geo: Geometry, f: Flushing, g: History, f': Flushing, g': History)
    requires PassOutcome(geo, f, g, f', g') && f.left > 0
    ensures f'.left > 0 && f'.err == Ok ==> f'.s.writeOffset == f'.write
    ensures f'.err != Ok || f'.left == 0 ==> LoopOutcome(f', g, g')
    ensures f'.err == Ok && f'.left == 0 && f.s.writeOffset == f.write ==> LastChunk(geo, f'.hintOffset, g', g.flushed)
  {
  }

  lemma OutcomeAtEnd(geo: Geometry, f: Flushing, f': Flushing, g: History)
    requires StuckAt(geo, f, f') && f.left > 0 && !g.moved
    ensures LoopOutcome(f', g, g)
  {
  }

  lemma OutcomeTrans(f': Flushing, g: History, g1: History, g2: History)
    requires SameHistory(g, g1) && LoopOutcome(f', g1, g2)
    ensures LoopOutcome(f', g, g2)
  {
  }

  /** The flush loop, whatever the batch, the sectors it passes and the fault injected. */
  lemma {:induction false} LoopKeeps(geo: Geometry, f: Flushing, g: History, c: Cursor)
    returns (g': History, c': Cursor, first: nat)
    requires FlushInv(geo, f, g, c) && f.err == Ok && f.left > 0 && f.s.writeOffset == f.write
    ensures Sized(geo, f.s) && f.written + f.left <= geo.batch
    ensures FlushInv(geo, FlushLoop(geo, f), g', c') && c'.mark == c.mark
    ensures LoopOutcome(FlushLoop(geo, f), g, g')
    ensures KeepsBounds(geo, f.s.lastErased, FlushLoop(geo, f).s.lastErased, g, g')
    ensures FlushLoop(geo, f).err == Ok ==> LastChunk(geo, FlushLoop(geo, f).hintOffset, g', first)
    decreases f.left, GapAhead(geo, f.write)
  {
    hide *;
    FlushInvParts(geo, f, g, c);
    LoopUnfolds(geo, f);
    FlushPassProgress(geo, f);
    var f' := FlushPass(geo, f);
    if AtEnd(geo, f.write) {
      c' := PassAtEnd(geo, f, g, c);
      g', first := g, 0;
      OutcomeAtEnd(geo, f, f', g);
      StuckErr(geo, f, f');
      StaysReflexive(geo, g);
      BoundsOfStays(geo, f.s.lastErased, f'.s.lastErased, g, g);
    } else {
      var g1, c1 := PassKeeps(geo, f, g, c);
      OutcomeOfPass(geo, f, g, f', g1);
      if f'.left > 0 && f'.err == Ok {
        var g2, c2, p := LoopKeeps(geo, f', g1, c1);
        g', c', first := g2, c2, p;
        HistoryOfPass(geo, f, g, f', g1);
        OutcomeTrans(FlushLoop(geo, f'), g, g1, g2);
        StaysThenBounds(geo, f.s.lastErased, FlushLoop(geo, f').s.lastErased, g, g1, g2);
      } else {
        g', c', first := g1, c1, g.flushed;
      }
    }
  }

  lemma StuckErr(geo: Geometry, f: Flushing, f': Flushing)
    requires StuckAt(geo, f, f')
    ensures f'.err != Ok && (f'.s.lastErased == f.s.lastErased || f'.s.lastErased == geo.sectors)
  {
  }

  lemma HistoryOfPass(geo: Geometry, f: Flushing, g: History, f': Flushing, g': History)
    requires PassOutcome(geo, f, g, f', g')
    ensures SameHistory(g, g')
  {
  }

  // ---------- Flush ----------

  lemma FlushBegins(geo: Geometry, s: State, g: History, c: Cursor)
    requires Inv(geo, s, g, c)
    ensures FlushInv(geo, FlushStart(s), g, c) && FlushStart(s).s.writeOffset == FlushStart(s).write
    ensures FlushStart(s).left == s.batchLen && FlushStart(s).err == Ok
  {
    hide FlashOk, ReplayOk, Ranges;
  }

  /** The saved parameters after a flush. */
  predicate Ended(geo: Geometry, f: Flushing, s': State) {
    && s'.batchLen == f.left && s'.hint == Hint(f.hintOffset, f.replay, f.s.lastId) && s'.writeOffset == f.write
    && s'.dev == f.s.dev && s'.lastId == f.s.lastId && s'.lastErased == f.s.lastErased
  }

  lemma FlushEnds(geo: Geometry, f: Flushing, g: History, c: Cursor)
    requires FlushInv(geo, f, g, c) && !g.moved && g.base < WORD
    requires f.s.lastId == (g.base + |g.raw|) % WORD
    ensures Inv(geo, FlushEnd(geo, f), g, c) && Ended(geo, f, FlushEnd(geo, f))
  {
    hide FlashOk, ReplayOk, Ranges;
    var batch := Compacted(f.s.batch, f.written, f.left);
    assert batch[..f.left] == f.s.batch[f.written..f.written + f.left];
  }

  lemma InvParts(geo: Geometry, s: State, g: History, c: Cursor)
    requires Inv(geo, s, g, c)
    ensures Sized(geo, s) && geo.Valid() && s.batchLen <= geo.batch == |s.batch| && |s.dev.mem| == geo.Size()
    ensures FlashOk(geo, s.dev.mem, s.writeOffset, s.lastErased, g) && Ranges(geo, g) && Ring(geo, g) && LogOk(geo, g)
    ensures ReplayOk(geo, s.replayOffset, g, c) && WriteOk(geo, s.writeOffset, s.lastErased, g)
    ensures MemOk(geo, s.dev.mem, g)
    ensures !g.moved && g.base < WORD && g.flushed <= |g.raw| && s.lastId == (g.base + |g.raw|) % WORD
    ensures s.batch[..s.batchLen] == Run(g.raw, g.flushed, |g.raw|) && |g.raw| == |g.payloads|
    ensures geo.sector > 0 && geo.align >= 1 && g.cur < geo.sectors == |g.lo| == |g.hi|
  {
    hide Ring, MemOk, LogOk, ReplayOk, WriteOk, Run;
  }

  /** What a flush of a non-empty batch does to the history. */
  predicate FlushEffect(geo: Geometry, r: FlushResult, g: History, g': History, first: nat) {
    && SameHistory(g, g')
    && (r.err == Ok || r.err == WriteFail || r.err == EraseFail)
    && (r.err == Ok <==> r.s.batchLen == 0)
    && r.devErr != DevInvalidState
    && (r.err == Ok ==> LastChunk(geo, r.s.hint.writeOffset, g', first) && g'.flushed == |g'.raw|)
    && r.s.hint.lastId == r.s.lastId
  }

  lemma FlushEffectFrom(geo: Geometry, f: Flushing, r: FlushResult, g: History, g': History, first: nat)
    requires LoopOutcome(f, g, g') && Ended(geo, f, r.s) && r.err == f.err && r.devErr == f.devErr
    requires f.err == Ok ==> LastChunk(geo, f.hintOffset, g', first)
    requires g'.flushed <= |g'.raw| && f.left == |Run(g'.raw, g'.flushed, |g'.raw|)|
    requires forall i :: 0 <= i < |g'.raw| ==> |g'.raw[i]| > OVERHEAD
    ensures FlushEffect(geo, r, g, g', first)
  {
    RunPositive(g'.raw, g'.flushed, |g'.raw|);
    hide Run;
  }

  lemma FlushOpUnfolds(geo: Geometry, s: State)
    requires Sized(geo, s) && s.batchLen > 0
    ensures FlushOp(geo, s) == FlushResult(FlushEnd(geo, FlushLoop(geo, FlushStart(s))),
                                           FlushLoop(geo, FlushStart(s)).err, FlushLoop(geo, FlushStart(s)).devErr)
    ensures Sized(geo, FlushStart(s).s) && FlushStart(s).written + FlushStart(s).left <= geo.batch
    ensures FlushStart(s).err == Ok
    ensures FlushLoop(geo, FlushStart(s)).s.lastId == s.lastId
  {
    hide FlushLoop, FlushEnd;
  }

  lemma EntriesNotEmpty(geo: Geometry, g: History)
    requires Ranges(geo, g)
    ensures forall i :: 0 <= i < |g.raw| ==> |g.raw[i]| > OVERHEAD
  {
  }

  lemma SameHistoryParts(g: History, g': History)
    requires SameHistory(g, g')
    ensures g'.base == g.base && g'.raw == g.raw && g'.payloads == g.payloads && g'.flushed >= g.flushed
  {
  }

  lemma LoopOutcomeParts(f': Flushing, g: History, g': History)
    requires LoopOutcome(f', g, g')
    ensures SameHistory(g, g') && !g'.moved
  {
  }

  /**
   * Flush moves a prefix of the batch to the flash: the history is unchanged, the entries up to `g'.flushed`
   * are in the flash and the rest is still the batch, whatever error stopped it; OK means nothing is left.
   */
  lemma FlushKeeps(geo: Geometry, s: State, g: History, c: Cursor) returns (g': History, c': Cursor, first: nat)
    requires Inv(geo, s, g, c) && s.batchLen > 0
    ensures Sized(geo, s) && Inv(geo, FlushOp(geo, s).s, g', c') && c'.mark == c.mark
    ensures FlushEffect(geo, FlushOp(geo, s), g, g', first)
    ensures KeepsBounds(geo, s.lastErased, FlushOp(geo, s).s.lastErased, g, g')
  {
    hide *;
    InvParts(geo, s, g, c);
    FlushBegins(geo, s, g, c);
    FlushOpUnfolds(geo, s);
    g', c', first := LoopKeeps(geo, FlushStart(s), g, c);
    var f := FlushLoop(geo, FlushStart(s));
    EndKeepsErased(geo, s, f);
    LoopOutcomeParts(f, g, g');
    SameHistoryParts(g, g');
    FlushInvParts(geo, f, g', c');
    FlushEnds(geo, f, g', c');
    EntriesNotEmpty(geo, g');
    FlushEffectFrom(geo, f, FlushOp(geo, s), g, g', first);
  }

  lemma EndKeepsErased(geo: Geometry, s: State, f: Flushing)
    requires Sized(geo, f.s) && f.written + f.left <= geo.batch
    ensures FlushEnd(geo, f).lastErased == f.s.lastErased && FlushStart(s).s == s
  {
  }

  // ---------- Write ----------

  /** The history with one more entry. */
  function Extended(g: History, raw: seq<Byte>, payload: seq<Byte>): History {
    g.(raw := g.raw + [raw], payloads := g.payloads + [payload])
  }

  lemma RunsOfExtended(raw: seq<seq<Byte>>, r: seq<Byte>)
    ensures forall a: nat, b: nat | Between(raw, a, b) ::
              Between(raw + [r], a, b) && Run(raw + [r], a, b) == Run(raw, a, b)
  {
    forall a: nat, b: nat | Between(raw, a, b)
      ensures Between(raw + [r], a, b) && Run(raw + [r], a, b) == Run(raw, a, b)
    {
      assert (raw + [r])[a..b] == raw[a..b];
    }
  }

  lemma ExtendedRanges(geo: Geometry, g: History, r: seq<Byte>, payload: seq<Byte>)
    requires Ranges(geo, g) && |r| > OVERHEAD
    ensures Ranges(geo, Extended(g, r, payload))
  {
    RunsOfExtended(g.raw, r);
    hide Run;
  }

  lemma ExtendedRing(geo: Geometry, g: History, r: seq<Byte>, payload: seq<Byte>, write: nat, lastErased: int)
    requires Ranges(geo, g) && Ring(geo, g) && WriteOk(geo, write, lastErased, g)
    requires Ranges(geo, Extended(g, r, payload))
    ensures Ring(geo, Extended(g, r, payload)) && WriteOk(geo, write, lastErased, Extended(g, r, payload))
  {
    RunsOfExtended(g.raw, r);
    hide Run;
  }

  lemma ExtendedMem(geo: Geometry, mem: seq<Byte>, g: History, r: seq<Byte>, payload: seq<Byte>)
    requires Ranges(geo, g) && MemOk(geo, mem, g) && Ranges(geo, Extended(g, r, payload))
    ensures MemOk(geo, mem, Extended(g, r, payload))
  {
    RunsOfExtended(g.raw, r);
    hide Run, Sector;
    assert forall k: nat | k < geo.sectors :: Content(geo, Extended(g, r, payload), k) == Content(geo, g, k);
  }

  lemma ExtendedReplay(geo: Geometry, replay: nat, g: History, c: Cursor, r: seq<Byte>, payload: seq<Byte>)
    requires Ranges(geo, g) && ReplayOk(geo, replay, g, c) && Ranges(geo, Extended(g, r, payload))
    ensures ReplayOk(geo, replay, Extended(g, r, payload), c)
  {
    RunsOfExtended(g.raw, r);
    hide Run;
  }

  lemma ExtendedLog(geo: Geometry, g: History, r: seq<Byte>, payload: seq<Byte>)
    requires LogOk(geo, g) && IsEntry(r, Id(g, |g.raw|), payload, geo.align) && |r| <= geo.batch
    ensures LogOk(geo, Extended(g, r, payload))
  {
    hide IsEntry;
    var g' := Extended(g, r, payload);
    forall i | 0 <= i < |g'.raw|
      ensures IsEntry(g'.raw[i], Id(g', i), g'.payloads[i], geo.align) && |g'.raw[i]| <= geo.batch
    {
      assert Id(g', i) == Id(g, i);
    }
  }

  lemma EntryIsLong(raw: seq<Byte>, id: nat, payload: seq<Byte>, align: nat)
    requires IsEntry(raw, id, payload, align)
    ensures |raw| > OVERHEAD
  {
  }

  lemma ExtendedFlash(geo: Geometry, mem: seq<Byte>, write: nat, replay: nat, lastErased: int, g: History, c: Cursor,
                      r: seq<Byte>, payload: seq<Byte>)
    requires FlashOk(geo, mem, write, lastErased, g) && ReplayOk(geo, replay, g, c)
    requires IsEntry(r, Id(g, |g.raw|), payload, geo.align) && |r| <= geo.batch
    ensures FlashOk(geo, mem, write, lastErased, Extended(g, r, payload))
    ensures ReplayOk(geo, replay, Extended(g, r, payload), c)
  {
    hide Run, Ranges, MemOk, Ring, WriteOk, ReplayOk, LogOk, IsEntry;
    EntryIsLong(r, Id(g, |g.raw|), payload, geo.align);
    ExtendedRanges(geo, g, r, payload);
    ExtendedRing(geo, g, r, payload, write, lastErased);
    ExtendedMem(geo, mem, g, r, payload);
    ExtendedReplay(geo, replay, g, c, r, payload);
    ExtendedLog(geo, g, r, payload);
  }

  /** The bytes an entry takes in the batch: what was copied there, then what the buffer held. */
  function Appended(geo: Geometry, s: State, payload: seq<Byte>): seq<Byte>
    requires Sized(geo, s) && EntryFits(geo, s, payload)
  {
    EntryFitsParts(geo, s, payload);
    Append(geo, s, payload).batch[s.batchLen..s.batchLen + EntrySize(|payload|, geo.align)]
  }

  lemma SpliceParts(batch: seq<Byte>, at: nat, u: seq<Byte>, size: nat)
    requires |u| <= size && at + size <= |batch|
    ensures Splice(batch, at, u)[at..at + size][..|u|] == u
    ensures Splice(batch, at, u)[..at] == batch[..at]
  {
  }

  lemma AppendedIs(geo: Geometry, s: State, payload: seq<Byte>)
    requires Sized(geo, s) && EntryFits(geo, s, payload)
    ensures var size := EntrySize(|payload|, geo.align);
            var u := Unpadded((s.lastId + 1) % WORD, payload);
            && OVERHEAD + |payload| <= size && s.batchLen + size <= |s.batch|
            && Append(geo, s, payload).batch == Splice(s.batch, s.batchLen, u)
            && Appended(geo, s, payload) == Splice(s.batch, s.batchLen, u)[s.batchLen..s.batchLen + size]
  {
    hide EntrySize, Unpadded, Splice, AlignUp, BitClear, NoWrap;
    EntryFitsParts(geo, s, payload);
    EntrySizeBounds(|payload|, geo.align);
  }

  lemma EntryFromParts(raw: seq<Byte>, id: nat, payload: seq<Byte>, align: nat)
    requires id < WORD && |payload| > 0 && NoWrap(|payload|, align) && |raw| == EntrySize(|payload|, align)
    requires OVERHEAD + |payload| <= |raw| && raw[..OVERHEAD + |payload|] == Unpadded(id, payload)
    ensures IsEntry(raw, id, payload, align)
  {
  }

  lemma AppendedIsEntry(geo: Geometry, s: State, payload: seq<Byte>)
    requires Sized(geo, s) && EntryFits(geo, s, payload) && |payload| > 0
    ensures IsEntry(Appended(geo, s, payload), (s.lastId + 1) % WORD, payload, geo.align)
    ensures |Appended(geo, s, payload)| == EntrySize(|payload|, geo.align)
    ensures Append(geo, s, payload).batch[..s.batchLen] == s.batch[..s.batchLen]
  {
    hide Appended, Append, Splice, Unpadded, IsEntry, EntrySize;
    var id := (s.lastId + 1) % WORD;
    EntryFitsParts(geo, s, payload);
    AppendedIs(geo, s, payload);
    SpliceParts(s.batch, s.batchLen, Unpadded(id, payload), EntrySize(|payload|, geo.align));
    EntryFromParts(Appended(geo, s, payload), id, payload, geo.align);
  }

  lemma NextId(base: nat, n: nat, lastId: nat)
    requires lastId == (base + n) % WORD
    ensures (lastId + 1) % WORD == (base + 1 + n) % WORD
  {
  }

  lemma RunOfExtended(raw: seq<seq<Byte>>, r: seq<Byte>, a: nat)
    requires a <= |raw|
    ensures Run(raw + [r], a, |raw| + 1) == Run(raw, a, |raw|) + r
  {
    assert (raw + [r])[a..|raw| + 1] == raw[a..] + [r];
    assert raw[a..|raw|] == raw[a..];
    FlatConcat(raw[a..], [r]);
    FlatOne(r);
  }

  lemma AppendParts(geo: Geometry, s: State, payload: seq<Byte>)
    requires Sized(geo, s) && EntryFits(geo, s, payload)
    ensures var s' := Append(geo, s, payload);
            s' == s.(batch := s'.batch, batchLen := s.batchLen + EntrySize(|payload|, geo.align),
                     lastId := (s.lastId + 1) % WORD)
            && Sized(geo, s')
            && s'.batch[..s'.batchLen] == s'.batch[..s.batchLen] + Appended(geo, s, payload)
  {
    hide EntrySize, Unpadded;
  }

  lemma InvFromParts(geo: Geometry, s: State, g: History, c: Cursor)
    requires Sized(geo, s) && FlashOk(geo, s.dev.mem, s.writeOffset, s.lastErased, g)
    requires ReplayOk(geo, s.replayOffset, g, c)
    requires !g.moved && g.base < WORD && g.flushed <= |g.raw| && s.lastId == (g.base + |g.raw|) % WORD
    requires s.batch[..s.batchLen] == Run(g.raw, g.flushed, |g.raw|)
    ensures Inv(geo, s, g, c)
  {
    hide FlashOk, ReplayOk, Run;
  }

  lemma ExtendedParts(g: History, r: seq<Byte>, payload: seq<Byte>)
    ensures var g' := Extended(g, r, payload);
            g'.raw == g.raw + [r] && g'.payloads == g.payloads + [payload] && g'.flushed == g.flushed
            && g'.base == g.base && g'.moved == g.moved
  {
  }

  /** Appending to the batch adds exactly one entry to the history, under the next id. */
  lemma AppendKeeps(geo: Geometry, s: State, g: History, c: Cursor, payload: seq<Byte>) returns (g': History)
    requires Inv(geo, s, g, c) && Sized(geo, s) && EntryFits(geo, s, payload) && |payload| > 0
    ensures Inv(geo, Append(geo, s, payload), g', c)
    ensures g' == Extended(g, Appended(geo, s, payload), payload)
  {
    hide *;
    InvParts(geo, s, g, c);
    var r := Appended(geo, s, payload);
    g' := Extended(g, r, payload);
    var s' := Append(geo, s, payload);
    AppendedIsEntry(geo, s, payload);
    AppendParts(geo, s, payload);
    NextId(g.base, |g.raw|, s.lastId);
    IdIs(g, |g.raw|);
    SmallEntry(geo, s, payload);
    ExtendedFlash(geo, s.dev.mem, s.writeOffset, s.replayOffset, s.lastErased, g, c, r, payload);
    ExtendedParts(g, r, payload);
    RunOfExtended(g.raw, r, g.flushed);
    NextId(g.base, |g.raw|, s.lastId);
    InvFromParts(geo, s', g', c);
  }

  lemma ExtendedBounds(geo: Geometry, before: int, after: int, g: History, g1: History, r: seq<Byte>,
                       payload: seq<Byte>)
    requires KeepsBounds(geo, before, after, g, g1)
    ensures KeepsBounds(geo, before, after, g, Extended(g1, r, payload))
  {
  }

  lemma SmallEntry(geo: Geometry, s: State, payload: seq<Byte>)
    requires Sized(geo, s) && EntryFits(geo, s, payload)
    ensures EntrySize(|payload|, geo.align) <= geo.batch
  {
  }

  lemma IdIs(g: History, i: nat)
    ensures Id(g, i) == (g.base + 1 + i) % WORD
  {
  }

  /** What a write does: OK adds exactly this payload at the end of the history, an error adds nothing. */
  predicate WriteEffect(r: FlushResult, g: History, g': History, payload: seq<Byte>) {
    && g'.base == g.base && g'.flushed >= g.flushed && |g'.raw| == |g'.payloads|
    && g'.payloads == (if r.err == Ok then g.payloads + [payload] else g.payloads)
    && r.devErr != DevInvalidState
  }

  /** Does the copy of an entry stay inside the batch? */
  predicate CopyFits(geo: Geometry, s: State, payload: seq<Byte>) {
    s.batchLen + OVERHEAD + |payload| <= geo.batch
  }

  lemma CopyFitsNoWrap(geo: Geometry, s: State, payload: seq<Byte>)
    requires Sized(geo, s) && (CopyFits(geo, s, payload) || NoWrap(|payload|, geo.align))
    ensures NoWrap(|payload|, geo.align)
    ensures s.batchLen + EntrySize(|payload|, geo.align) <= geo.batch ==> CopyFits(geo, s, payload)
  {
    BatchIsSmall(geo);
    if CopyFits(geo, s, payload) {
      FitsNoWrap(|payload|, geo.align, geo.batch);
    }
    EntrySizeBounds(|payload|, geo.align);
    hide EntrySize, AlignUp;
  }

  /** What a write returns once there is room for the size it computed. */
  function Copied(geo: Geometry, s: State, payload: seq<Byte>, devErr: DevErr): FlushResult
    requires Sized(geo, s) && s.batchLen + EntrySize(|payload|, geo.align) <= geo.batch
  {
    if CopyFits(geo, s, payload) then
      FlushResult(Append(geo, s, payload), Ok, devErr)
    else FlushResult(s, Stray, devErr)
  }

  lemma WriteUnfolds(geo: Geometry, s: State, payload: seq<Byte>)
    requires Sized(geo, s) && |payload| < WORD
    ensures var size := EntrySize(|payload|, geo.align);
            && (|payload| == 0 ==> WriteOp(geo, s, payload) == FlushResult(s, InvalidArg, DevOk))
            && (|payload| > 0 && size > geo.batch ==> WriteOp(geo, s, payload) == FlushResult(s, NoMem, DevOk))
            && (|payload| > 0 && s.batchLen + size <= geo.batch ==>
               WriteOp(geo, s, payload) == Copied(geo, s, payload, DevOk))
            && (|payload| > 0 && size <= geo.batch < s.batchLen + size ==>
                  && s.batchLen > 0
                  && (FlushOp(geo, s).err != Ok ==> WriteOp(geo, s, payload) == FlushOp(geo, s))
                  && (FlushOp(geo, s).err == Ok && FlushOp(geo, s).s.batchLen == 0 ==>
                        WriteOp(geo, s, payload) == Copied(geo, FlushOp(geo, s).s, payload, FlushOp(geo, s).devErr)))
  {
    hide FlushOp, Append, EntrySize, NoWrap;
  }

  lemma CopiedParts(geo: Geometry, s: State, payload: seq<Byte>, devErr: DevErr)
    requires Sized(geo, s) && s.batchLen + EntrySize(|payload|, geo.align) <= geo.batch
    ensures CopyFits(geo, s, payload) ==>
              NoWrap(|payload|, geo.align) && EntryFits(geo, s, payload)
              && Copied(geo, s, payload, devErr) == FlushResult(Append(geo, s, payload), Ok, devErr)
    ensures !CopyFits(geo, s, payload) ==>
              !NoWrap(|payload|, geo.align) && Copied(geo, s, payload, devErr) == FlushResult(s, Stray, devErr)
  {
    if CopyFits(geo, s, payload) || NoWrap(|payload|, geo.align) {
      CopyFitsNoWrap(geo, s, payload);
    }
    hide Append, EntrySize, NoWrap, CopyFits;
  }

  lemma FlushEffectParts(geo: Geometry, r: FlushResult, g: History, g': History, first: nat)
    requires FlushEffect(geo, r, g, g', first)
    ensures SameHistory(g, g') && (r.err == Ok <==> r.s.batchLen == 0) && r.devErr != DevInvalidState && r.err != Stray
  {
  }

  lemma WriteEffectFrom(r: FlushResult, g: History, g1: History, g': History, payload: seq<Byte>)
    requires g1.base == g.base && g1.payloads == g.payloads && g1.flushed >= g.flushed && |g'.raw| == |g'.payloads|
    requires g'.base == g1.base && g'.flushed == g1.flushed && r.devErr != DevInvalidState
    requires g'.payloads == if r.err == Ok then g1.payloads + [payload] else g1.payloads
    ensures WriteEffect(r, g, g', payload)
  {
  }

  /** The copy of an entry into a batch that has room for its computed size. */
  lemma CopyKeeps(geo: Geometry, s: State, g: History, c: Cursor, payload: seq<Byte>, devErr: DevErr, before: int,
                  g0: History)
    returns (g': History)
    requires Inv(geo, s, g, c) && Sized(geo, s) && |payload| > 0 && devErr != DevInvalidState
    requires s.batchLen + EntrySize(|payload|, geo.align) <= geo.batch && KeepsBounds(geo, before, s.lastErased, g0, g)
    ensures var r := Copied(geo, s, payload, devErr);
            && Inv(geo, r.s, g', c) && WriteEffect(r, g, g', payload)
               && (r.err == Stray ==> !NoWrap(|payload|, geo.align))
            && KeepsBounds(geo, before, r.s.lastErased, g0, g') && g'.flushed == g.flushed && g'.base == g.base
  {
    hide *;
    InvParts(geo, s, g, c);
    CopiedParts(geo, s, payload, devErr);
    var r := Copied(geo, s, payload, devErr);
    if CopyFits(geo, s, payload) {
      g' := AppendKeeps(geo, s, g, c, payload);
      ExtendedParts(g, Appended(geo, s, payload), payload);
      AppendParts(geo, s, payload);
      ExtendedBounds(geo, before, s.lastErased, g0, g, Appended(geo, s, payload), payload);
    } else {
      g' := g;
    }
    WriteEffectFrom(r, g, g, g', payload);
  }

  lemma WriteEffectParts(r: FlushResult, g: History, g': History, payload: seq<Byte>)
    requires WriteEffect(r, g, g', payload)
    ensures |g'.raw| == |g'.payloads| && g'.payloads == (if r.err == Ok then g.payloads + [payload] else g.payloads)
    ensures r.devErr != DevInvalidState
  {
  }

  /** A write, with the flush it may trigger. */
  lemma WriteKeeps(geo: Geometry, s: State, g: History, c: Cursor, payload: seq<Byte>) returns (g': History, c': Cursor)
    requires Inv(geo, s, g, c) && Sized(geo, s) && |payload| < WORD
    ensures Inv(geo, WriteOp(geo, s, payload).s, g', c') && c'.mark == c.mark
    ensures WriteEffect(WriteOp(geo, s, payload), g, g', payload)
    ensures WriteOp(geo, s, payload).err == Stray ==> !NoWrap(|payload|, geo.align)
    ensures KeepsBounds(geo, s.lastErased, WriteOp(geo, s, payload).s.lastErased, g, g')
  {
    hide *;
    InvParts(geo, s, g, c);
    WriteUnfolds(geo, s, payload);
    var r := WriteOp(geo, s, payload);
    var size := EntrySize(|payload|, geo.align);
    StaysReflexive(geo, g);
    BoundsOfStays(geo, s.lastErased, s.lastErased, g, g);
    if |payload| == 0 || size > geo.batch {
      g', c' := g, c;
      WriteEffectFrom(r, g, g, g', payload);
    } else if s.batchLen + size <= geo.batch {
      g' := CopyKeeps(geo, s, g, c, payload, DevOk, s.lastErased, g);
      c' := c;
    } else {
      var g1, c1, first := FlushKeeps(geo, s, g, c);
      c' := c1;
      var fr := FlushOp(geo, s);
      FlushEffectParts(geo, fr, g, g1, first);
      SameHistoryParts(g, g1);
      InvParts(geo, fr.s, g1, c1);
      if fr.err != Ok {
        g' := g1;
      } else {
        g' := CopyKeeps(geo, fr.s, g1, c1, payload, fr.devErr, s.lastErased, g);
        WriteEffectParts(r, g1, g', payload);
      }
      WriteEffectFrom(r, g, g1, g', payload);
    }
  }
}
