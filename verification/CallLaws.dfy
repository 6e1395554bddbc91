/** What single calls do, told from the bytes in flash and batch: reads, replay, writes, and the choice of the hint. */
module CallLaws {
  import opened Bytes
  import opened Crc
  import opened Entry
  import opened Layout
  import opened Flash
  import opened LoggerSpec
  import opened Invariant
  import opened Operations
  import opened Replay
  import opened RecoverySpec
  import opened Conservation
  import opened Drain
  import opened Runs
  import opened RunRecovery
  import opened Losses
  import opened Backlog
  import opened FlushCursor
  import opened LogParser

  // ---------- Read ----------

  /** The bytes a read may use: a batch, or less at the end of the partition. */
  function Window(geo: Geometry, off: nat): nat {
    if off >= geo.Size() then 0 else if geo.Size() - off < geo.batch then geo.Size() - off else geo.batch
  }

  lemma WindowIs(geo: Geometry, off: nat)
    requires geo.Valid() && off < geo.Size()
    ensures off + Window(geo, off) <= geo.Size() && Window(geo, off) <= geo.sector
    ensures Window(geo, off) == if geo.batch > geo.Size() - off then geo.Size() - off else geo.batch
    ensures geo.sector < 0x8000_0000
  {
    SmallSector(geo);
  }

  /** What a slice of the flash reads is what the flash reads there. */
  lemma SliceReads(mem: seq<Byte>, off: nat, size: nat, i: nat)
    requires off + size <= |mem|
    ensures i + 4 <= size ==> WordAt(mem[off..off + size], i) == WordAt(mem, off + i)
    ensures i + 4 <= size ==> (StartsEntry(mem[off..off + size], i) <==> StartsEntry(mem, off + i))
    ensures i + 4 <= size ==> (EndsEntry(mem[off..off + size], i) <==> EndsEntry(mem, off + i))
    ensures i + 2 <= size ==> HalfAt(mem[off..off + size], i) == HalfAt(mem, off + i)
    ensures i <= size ==> mem[off..off + size][..i] == mem[off..off + i]
  {
  }

  /** An entry of `n` payload bytes stands at `off`: the fields against the magics and the CRC. */
  predicate Checks(data: seq<Byte>, off: nat, n: nat) {
    && off + 18 + n <= |data| && StartsEntry(data, off) && WordAt(data, off + 8) == n
    && HalfAt(data, off + 12 + n) == Crc16(data[off..off + 12 + n]) && EndsEntry(data, off + 14 + n)
  }

  lemma ChecksIs(data: seq<Byte>, off: nat, n: nat)
    ensures Checks(data, off, n) <==>
              && off + 18 + n <= |data| && StartsEntry(data, off) && WordAt(data, off + 8) == n
              && HalfAt(data, off + 12 + n) == Crc16(data[off..off + 12 + n]) && EndsEntry(data, off + 14 + n)
  {
    hide StartsEntry, WordAt, HalfAt, Crc16, EndsEntry;
  }

  /** The fields check exactly where an entry stands. */
  lemma ChecksIff(mem: seq<Byte>, off: nat, payload: seq<Byte>)
    ensures Checks(mem, off, |payload|) && mem[off + 12..off + 12 + |payload|] == payload <==>
            exists id: nat :: StandsAt(mem, off, id, payload)
  {
    hide *;
    ChecksIs(mem, off, |payload|);
    ParserOutcome(mem, off);
    if Checks(mem, off, |payload|) && mem[off + 12..off + 12 + |payload|] == payload {
      ParsedStands(mem, off);
      assert StandsAt(mem, off, WordAt(mem, off + 4), payload);
    }
    if id: nat :| StandsAt(mem, off, id, payload) {
      EntryParses(mem, off, id, payload);
    }
  }

  /** The validator on a slice, where the length does not wrap the tail offset. */
  lemma ValidIff(mem: seq<Byte>, off: nat, size: nat, capacity: nat, n: nat)
    requires off + size <= |mem| && size <= capacity && n < 0xFFFF_FFF4
    requires size >= 18 ==> WordAt(mem, off + 8) == n
    ensures Validate(mem[off..off + size], capacity) == Ok <==> 18 + n <= size && Checks(mem, off, n)
  {
    hide *;
    var data := mem[off..off + size];
    ValidatorOutcome(data, capacity);
    ChecksIs(mem, off, n);
    SliceReads(mem, off, size, 0);
    SliceReads(mem, off, size, 8);
    SliceReads(mem, off, size, 12 + n);
    SliceReads(mem, off, size, 14 + n);
  }

  lemma ReadCases(geo: Geometry, mem: seq<Byte>, off: nat, room: nat)
    requires geo.Valid() && |mem| == geo.Size()
    ensures off >= geo.Size() ==> ReadOp(geo, mem, off, room) == ReadResult(InvalidArg, [])
    ensures off < geo.Size() ==>
              && off + Window(geo, off) <= |mem| && Window(geo, off) <= geo.sector
              && var data := mem[off..off + Window(geo, off)];
                 && (Validate(data, geo.sector) == Ok ==> |data| >= 18)
                 && ReadOp(geo, mem, off, room) ==
                    if Validate(data, geo.sector) != Ok then ReadResult(Validate(data, geo.sector), [])
                    else if WordAt(data, 8) > room then ReadResult(NoMem, [])
                    else if 12 + WordAt(data, 8) > |data| then ReadResult(Stray, [])
                    else ReadResult(Ok, data[12..12 + WordAt(data, 8)])
  {
    hide WordAt, HalfAt, Crc16, Window;
    if off < geo.Size() {
      WindowIs(geo, off);
    }
  }

  /**
   * The read on any flash, whatever stands there: it gives back a payload if and only if the bytes of an entry with
   * that payload and some id stand at the offset, within a batch and the partition, and the caller's buffer takes it.
   */
  lemma ReadIff(geo: Geometry, mem: seq<Byte>, off: nat, room: nat, payload: seq<Byte>)
    requires geo.Valid() && |mem| == geo.Size()
    ensures off >= geo.Size() ==> ReadOp(geo, mem, off, room) == ReadResult(InvalidArg, [])
    ensures ReadOp(geo, mem, off, room) == ReadResult(Ok, payload) <==>
              && |payload| <= room && 18 + |payload| <= Window(geo, off)
              && exists id: nat :: StandsAt(mem, off, id, payload)
  {
    hide *;
    ReadCases(geo, mem, off, room);
    ChecksIff(mem, off, payload);
    ChecksIs(mem, off, |payload|);
    WindowIsNone(geo, off);
    if off < geo.Size() && Window(geo, off) >= 18 {
      WindowIs(geo, off);
      var size, n := Window(geo, off), WordAt(mem, off + 8);
      SliceReads(mem, off, size, 8);
      if n < 0xFFFF_FFF4 {
        ValidIff(mem, off, size, geo.sector, n);
      }
      if 12 + n <= size {
        SliceOf(mem, off, size, n);
      }
    }
  }

  lemma WindowIsNone(geo: Geometry, off: nat)
    ensures off >= geo.Size() ==> Window(geo, off) == 0
  {
  }

  lemma SliceOf(mem: seq<Byte>, off: nat, size: nat, n: nat)
    requires off + size <= |mem| && 12 + n <= size
    ensures mem[off..off + size][12..12 + n] == mem[off + 12..off + 12 + n]
  {
    SliceOfSlice(mem, off, size, 12, n);
  }

  // ---------- Replay ----------

  /** What a replay call answers when `log` is what is left to replay. */
  predicate Replays(geo: Geometry, s: State, log: seq<Record>, room: nat, accepts: seq<Byte> -> bool, r: ReplayResult)
    requires Sized(geo, s)
  {
    if log == [] then r == ReplayResult(s.(replayOffset := s.writeOffset), InvalidEntry, [])
    else if |log[0].payload| > room then r == ReplayResult(s.(replayOffset := s.writeOffset), NoMem, [])
    else if !accepts(log[0].payload) then r == ReplayResult(s, ProcessFail, log[0].payload)
    else r == ReplayResult(s.(replayOffset := r.s.replayOffset), Ok, log[0].payload)
  }

  lemma ReplaysIs(geo: Geometry, s: State, log: seq<Record>, room: nat, accepts: seq<Byte> -> bool, r: ReplayResult)
    requires Sized(geo, s)
    ensures log == [] ==>
              (Replays(geo, s, log, room, accepts, r) <==>
               r == ReplayResult(s.(replayOffset := s.writeOffset), InvalidEntry, []))
    ensures log != [] ==>
              (Replays(geo, s, log, room, accepts, r) <==>
               if |log[0].payload| > room then r == ReplayResult(s.(replayOffset := s.writeOffset), NoMem, [])
               else if !accepts(log[0].payload) then r == ReplayResult(s, ProcessFail, log[0].payload)
               else r == ReplayResult(s.(replayOffset := r.s.replayOffset), Ok, log[0].payload))
  {
  }

  /** In front of a cursor with something left stands the first of it; with nothing left there is a gap. */
  lemma CursorReads(geo: Geometry, s: State, g: History, c: Cursor, room: nat, stop: nat)
    requires geo.Valid() && |s.dev.mem| == geo.Size() && s.replayOffset != s.writeOffset
    requires Ranges(geo, g) && c.sector < geo.sectors == |g.hi| && |g.raw| == |g.payloads|
    requires stop == DrainStop(geo, g, c.sector) && c.entry <= stop <= |g.payloads|
    requires Inv(geo, s, g, c)
    ensures c.entry < stop ==>
              && c.entry < g.hi[c.sector]
              && ReadOp(geo, s.dev.mem, s.replayOffset, room) ==
                 if |g.payloads[c.entry]| > room then ReadResult(NoMem, []) else ReadResult(Ok, g.payloads[c.entry])
    ensures c.entry == stop ==> ReadOp(geo, s.dev.mem, s.replayOffset, room) == ReadResult(InvalidEntry, [])
  {
    hide *;
    InvParts(geo, s, g, c);
    BacklogOf(geo, s, g, c);
    ReadAtCursor(geo, s, g, c, room);
    StopBeyond(geo, g, c.sector);
    StopAt(geo, g, c.sector);
    if c.entry == g.hi[c.sector] {
      GapIsBehind(geo, s.replayOffset, g, c);
    }
  }

  lemma FirstRecord(g: History, a: nat, b: nat)
    requires a < b <= |g.payloads|
    ensures Records(g, a, b) != [] && Records(g, a, b)[0].payload == g.payloads[a]
    ensures Records(g, a, b)[1..] == Records(g, a + 1, b)
  {
    RecordsSplit(g, a, a + 1, b);
    RecordsCount(g, a, a + 1);
    hide Id;
  }

  lemma NoRecords(g: History, a: nat)
    requires a <= |g.payloads|
    ensures Records(g, a, a) == []
  {
    RecordsSplit(g, a, a, a);
  }

  /** The accepted entry is behind the cursor, and the rest is in front of it. */
  lemma AcceptedMovesOn(geo: Geometry, s: State, g: History, c: Cursor, s': State)
    requires Inv(geo, s, g, c) && Sized(geo, s) && s.replayOffset != s.writeOffset
    requires Ranges(geo, g) && c.sector < geo.sectors == |g.hi| && c.entry < g.hi[c.sector] && c.entry < |g.raw|
    requires c.entry < DrainStop(geo, g, c.sector) <= |g.payloads|
    requires s' == s.(replayOffset := s.replayOffset + |g.raw[c.entry]|)
    ensures Sized(geo, s') && HeadSector(geo, s') < geo.sectors
    ensures Undelivered(geo, s') == Records(g, c.entry + 1, DrainStop(geo, g, c.sector))
  {
    hide *;
    InvParts(geo, s, g, c);
    CursorParts(geo, s.replayOffset, g, c);
    CursorValue(geo, s.replayOffset, g, c);
    var c' := Stepped(geo, g, c);
    SteppedOk(geo, s.replayOffset, g, c);
    SteppedStop(geo, g, c);
    SteppedMet(geo, s.writeOffset, s.replayOffset, s.lastErased, g, c);
    MetParts(geo, s.writeOffset, s'.replayOffset, g, c');
    InvWithCursor(geo, s, g, c, s'.replayOffset, c');
    InvParts(geo, s', g, c');
    HeadPartIs(geo, s', g, c');
    if s'.replayOffset == s'.writeOffset {
      NoBacklog(geo, s');
      StopAt(geo, g, c'.sector);
      NoRecords(g, g.flushed);
    } else {
      BacklogOf(geo, s', g, c');
    }
  }

  lemma InvOfAccepted(geo: Geometry, s: State, g: History, c: Cursor) returns (c': Cursor)
    requires Inv(geo, s, g, c) && Ranges(geo, g) && c.sector < |g.hi| && c.entry < g.hi[c.sector] && c.entry < |g.raw|
    ensures Inv(geo, s.(replayOffset := s.replayOffset + |g.raw[c.entry]|), g, c')
  {
    hide *;
    InvParts(geo, s, g, c);
    CursorParts(geo, s.replayOffset, g, c);
    c' := Stepped(geo, g, c);
    SteppedOk(geo, s.replayOffset, g, c);
    InvWithCursor(geo, s, g, c, s.replayOffset + |g.raw[c.entry]|, c');
  }

  /** One replay call on any reachable state. */
  lemma ReplayStep(geo: Geometry, s: State, g: History, c: Cursor, room: nat, accepts: seq<Byte> -> bool)
    returns (c': Cursor)
    requires Inv(geo, s, g, c)
    ensures Sized(geo, s) && HeadSector(geo, s) < geo.sectors
    ensures var r := ReplayOp(geo, s, room, accepts);
            && Replays(geo, s, Undelivered(geo, s), room, accepts, r)
            && (r.err == Ok ==>
                && Inv(geo, r.s, g, c') && Sized(geo, r.s) && HeadSector(geo, r.s) < geo.sectors
                && Undelivered(geo, s) != [] && Undelivered(geo, r.s) == Undelivered(geo, s)[1..])
  {
    hide *;
    InvParts(geo, s, g, c);
    HeadPartIs(geo, s, g, c);
    c' := c;
    var log, r := Undelivered(geo, s), ReplayOp(geo, s, room, accepts);
    ReplayUnfolds(geo, s, room, accepts);
    ReplaysIs(geo, s, log, room, accepts, r);
    if s.replayOffset == s.writeOffset {
      NoBacklog(geo, s);
      assert s.(replayOffset := s.writeOffset) == s;
    } else {
      BacklogOf(geo, s, g, c);
      var stop := DrainStop(geo, g, c.sector);
      CursorReads(geo, s, g, c, room, stop);
      if c.entry == stop {
        NoRecords(g, stop);
      } else {
        FirstRecord(g, c.entry, stop);
        if |g.payloads[c.entry]| <= room && accepts(g.payloads[c.entry]) {
          EntryLength(geo, g, c.entry);
          AcceptedMovesOn(geo, s, g, c, r.s);
          c' := InvOfAccepted(geo, s, g, c);
        }
      }
    }
  }

  /**
   * One replay call after any run, with any buffer and any answer: it offers the first entry of what the flash holds
   * from the replay offset on. Accepted, that entry is behind the cursor and the rest in front of it; refused, nothing
   * changes. A buffer that is too small, or nothing to offer, sends the cursor to the write offset.
   */
  lemma ReplayTakesFirst(geo: Geometry, batch: seq<Byte>, lastId: nat, ops: seq<Op>, room: nat,
                         accepts: seq<Byte> -> bool)
    requires Startable(geo, batch, lastId, ops) && geo.Valid() && geo.sector > 0
    ensures var s := Reached(geo, batch, lastId, ops).s;
            && HeadSector(geo, s) < geo.sectors
            && var r := ReplayOp(geo, s, room, accepts);
               && Replays(geo, s, Undelivered(geo, s), room, accepts, r)
               && (r.err == Ok ==> HeadSector(geo, r.s) < geo.sectors && Undelivered(geo, s) != []
                                   && Undelivered(geo, r.s) == Undelivered(geo, s)[1..])
  {
    hide *;
    StartableParts(geo, batch, lastId, ops);
    var g, c, picks := RunHistory(geo, batch, lastId, ops);
    var s := Reached(geo, batch, lastId, ops).s;
    GoodParts(geo, Reached(geo, batch, lastId, ops), g, c, picks);
    var c' := ReplayStep(geo, s, g, c, room, accepts);
  }

  /** Call `n` and the ones after it take the first `k` of `log`. */
  predicate Taken(log: seq<Record>, k: nat, room: nat, answers: Callback, n: nat)
    requires k <= |log|
  {
    forall i :: 0 <= i < k ==> |log[i].payload| <= room && answers(n + i, log[i].payload)
  }

  lemma TakenMore(log: seq<Record>, k: nat, room: nat, answers: Callback, n: nat)
    requires k < |log| && |log[0].payload| <= room && answers(n, log[0].payload)
    requires Taken(log[1..], k, room, answers, n + 1)
    ensures Taken(log, k + 1, room, answers, n)
  {
    forall i | 0 <= i < k + 1
      ensures |log[i].payload| <= room && answers(n + i, log[i].payload)
    {
      if i > 0 {
        assert log[i] == log[1..][i - 1];
        assert |log[1..][i - 1].payload| <= room && answers(n + 1 + (i - 1), log[1..][i - 1].payload);
      }
    }
  }

  /** What a drain answers that took the first `k` of `log`. */
  predicate Drains(geo: Geometry, s: State, log: seq<Record>, k: nat, room: nat, answers: Callback, n: nat,
                   r: IterateResult)
    requires k <= |log|
  {
    && Taken(log, k, room, answers, n) && r.accepted == PayloadsOf(log[..k])
    && r.s == s.(replayOffset := r.s.replayOffset)
    && if k == |log| then r.err == InvalidEntry && r.s.replayOffset == s.writeOffset
       else if |log[k].payload| > room then r.err == NoMem && r.s.replayOffset == s.writeOffset
       else !answers(n + k, log[k].payload) && r.err == ProcessFail
  }

  lemma NoneTaken(log: seq<Record>, room: nat, answers: Callback, n: nat)
    ensures Taken(log, 0, room, answers, n) && PayloadsOf(log[..0]) == []
  {
  }

  lemma DrainsNone(geo: Geometry, s: State, log: seq<Record>, room: nat, answers: Callback, n: nat, r: IterateResult,
                   step: ReplayResult)
    requires Sized(geo, s) && Replays(geo, s, log, room, AtCall(answers, n), step) && step.err != Ok
    requires r == IterateResult(step.s, step.err, [])
    ensures Drains(geo, s, log, 0, room, answers, n, r)
    ensures log != [] && |log[0].payload| <= room ==> r.s == s
  {
    NoneTaken(log, room, answers, n);
    assert s.(replayOffset := s.replayOffset) == s;
    hide Taken, PayloadsOf;
  }

  lemma DrainsOneMore(geo: Geometry, s: State, log: seq<Record>, k: nat, room: nat, answers: Callback, n: nat,
                      r: IterateResult, step: ReplayResult, rest: IterateResult)
    requires Sized(geo, s) && log != [] && Replays(geo, s, log, room, AtCall(answers, n), step) && step.err == Ok
    requires k <= |log[1..]| && Drains(geo, step.s, log[1..], k, room, answers, n + 1, rest)
    requires r == IterateResult(rest.s, rest.err, [step.offered] + rest.accepted)
    ensures Drains(geo, s, log, k + 1, room, answers, n, r)
  {
    TakenMore(log, k, room, answers, n);
    hide Taken;
    assert log[..k + 1] == [log[0]] + log[1..][..k];
    assert PayloadsOf(log[..k + 1]) == [log[0].payload] + PayloadsOf(log[1..][..k]);
    assert k + 1 < |log| ==> log[k + 1] == log[1..][k];
    hide PayloadsOf;
  }

  lemma {:induction false} DrainTakes(geo: Geometry, s: State, g: History, c: Cursor, room: nat, answers: Callback,
                                      n: nat) returns (k: nat)
    requires Inv(geo, s, g, c) && Sized(geo, s) && HeadSector(geo, s) < geo.sectors
    ensures k <= |Undelivered(geo, s)|
    ensures var log, r := Undelivered(geo, s), IterateFrom(geo, s, room, answers, n);
            && Drains(geo, s, log, k, room, answers, n, r) && HeadSector(geo, r.s) < geo.sectors
            && (r.err == ProcessFail ==> Undelivered(geo, r.s) == log[k..])
    decreases Ahead(geo, s)
  {
    hide *;
    IterateUnfolds(geo, s, room, answers, n);
    var log, step := Undelivered(geo, s), ReplayOp(geo, s, room, AtCall(answers, n));
    var c' := ReplayStep(geo, s, g, c, room, AtCall(answers, n));
    var r := IterateFrom(geo, s, room, answers, n);
    if step.err == Ok {
      ReplayAdvances(geo, s, room, AtCall(answers, n));
      k := DrainTakes(geo, step.s, g, c', room, answers, n + 1);
      DrainsOneMore(geo, s, log, k, room, answers, n, r, step, IterateFrom(geo, step.s, room, answers, n + 1));
      assert log[1..][k..] == log[k + 1..];
      k := k + 1;
    } else {
      k := 0;
      DrainsNone(geo, s, log, room, answers, n, r, step);
      DrainFails(geo, s, log, room, AtCall(answers, n), step);
      HeadSectorSame(geo, s, step.s);
      assert log[0..] == log;
    }
  }

  lemma DrainFails(geo: Geometry, s: State, log: seq<Record>, room: nat, accepts: seq<Byte> -> bool, step: ReplayResult)
    requires Sized(geo, s) && Replays(geo, s, log, room, accepts, step) && step.err != Ok
    ensures step.err == ProcessFail ==> step.s == s
    ensures step.s == s.(replayOffset := step.s.replayOffset)
  {
  }

  lemma HeadSectorSame(geo: Geometry, s: State, s': State)
    requires Sized(geo, s) && s' == s.(replayOffset := s'.replayOffset)
    ensures geo.sector > 0 && Sized(geo, s') && HeadSector(geo, s') == HeadSector(geo, s)
  {
  }

  /**
   * A drain after any run, with any buffer and any answers: it hands out what the flash holds from the replay offset
   * on, entry by entry, as long as each fits the buffer and is accepted. A refused entry and all behind it are left for
   * the next time; an entry that is too large, or the end, sends the cursor to the write offset.
   */
  lemma DrainAnswers(geo: Geometry, batch: seq<Byte>, lastId: nat, ops: seq<Op>, room: nat, answers: Callback)
    returns (k: nat)
    requires Startable(geo, batch, lastId, ops) && geo.Valid() && geo.sector > 0
    ensures var s := Reached(geo, batch, lastId, ops).s;
            && HeadSector(geo, s) < geo.sectors && k <= |Undelivered(geo, s)|
            && var log, r := Undelivered(geo, s), IterateFrom(geo, s, room, answers, 0);
               && Drains(geo, s, log, k, room, answers, 0, r) && HeadSector(geo, r.s) < geo.sectors
               && (r.err == ProcessFail ==> Undelivered(geo, r.s) == log[k..])
  {
    hide *;
    StartableParts(geo, batch, lastId, ops);
    var g, c, picks := RunHistory(geo, batch, lastId, ops);
    var s := Reached(geo, batch, lastId, ops).s;
    GoodParts(geo, Reached(geo, batch, lastId, ops), g, c, picks);
    InvParts(geo, s, g, c);
    HeadPartIs(geo, s, g, c);
    k := DrainTakes(geo, s, g, c, room, answers, 0);
  }

  // ---------- Write ----------

  /** The bytes an entry takes in a batch, without wrap-around. */
  function Taking(geo: Geometry, payload: seq<Byte>): nat
    requires geo.Valid()
  {
    AlignUp(18 + |payload|, geo.align)
  }

  /** The state that takes the entry in: the batch, its length and the last id change, and nothing else. */
  predicate TakesIn(geo: Geometry, s: State, payload: seq<Byte>, s': State)
    requires geo.Valid()
  {
    && |payload| < WORD
    && s' == s.(batch := s'.batch, batchLen := s.batchLen + Taking(geo, payload), lastId := s'.lastId)
    && s'.lastId == (s.lastId + 1) % 0x1_0000_0000 && |s'.batch| == |s.batch| && s.batchLen <= |s.batch|
    && s'.batch[..s.batchLen] == s.batch[..s.batchLen] && s.batchLen + 18 + |payload| <= |s.batch|
    && s'.batch[s.batchLen..s.batchLen + 18 + |payload|] == Unpadded(s'.lastId, payload)
    && s'.batch[s.batchLen + 18 + |payload|..] == s.batch[s.batchLen + 18 + |payload|..]
  }

  lemma AppendTakesIn(geo: Geometry, s: State, payload: seq<Byte>)
    requires Sized(geo, s) && geo.Valid() && EntryFits(geo, s, payload) && NoWrap(|payload|, geo.align)
    ensures TakesIn(geo, s, payload, Append(geo, s, payload))
  {
    hide EntrySize, Unpadded, AlignUp, Splice;
    EntrySizeBounds(|payload|, geo.align);
    SpliceParts(s.batch, s.batchLen, Unpadded((s.lastId + 1) % WORD, payload));
  }

  lemma SpliceParts(mem: seq<Byte>, off: nat, src: seq<Byte>)
    requires off + |src| <= |mem|
    ensures var r := Splice(mem, off, src);
            r[..off] == mem[..off] && r[off..off + |src|] == src && r[off + |src|..] == mem[off + |src|..]
  {
  }

  lemma SizeInBatch(geo: Geometry, payload: seq<Byte>)
    requires geo.Valid() && |payload| < 0xFFFF_FE00
    ensures NoWrap(|payload|, geo.align) && |payload| < WORD && geo.align >= 1
    ensures EntrySize(|payload|, geo.align) == Taking(geo, payload) >= 18 + |payload|
  {
    BatchIsSmall(geo);
    EntrySizeBounds(|payload|, geo.align);
    hide EntrySize, AlignUp;
  }

  lemma LoopLeaves(geo: Geometry, f: Flushing)
    requires Sized(geo, f.s) && f.written + f.left <= geo.batch && f.err == Ok
    ensures FlushLoop(geo, f).err == Ok ==> FlushLoop(geo, f).left == 0
    decreases f.left, GapAhead(geo, f.write)
  {
    hide FlushPass;
    FlushPassProgress(geo, f);
    var f' := FlushPass(geo, f);
    if f'.left > 0 && f'.err == Ok {
      LoopLeaves(geo, f');
    }
  }

  /** A flush that succeeds leaves an empty batch, on any flash. */
  lemma OkEmpties(geo: Geometry, s: State)
    requires Sized(geo, s)
    ensures FlushOp(geo, s).err == Ok ==> FlushOp(geo, s).s.batchLen == 0
    ensures s.batchLen == 0 ==> FlushOp(geo, s) == FlushResult(s, InvalidArg, DevOk)
  {
    hide FlushLoop;
    if s.batchLen > 0 {
      LoopLeaves(geo, FlushStart(s));
    }
  }

  lemma WriteCases(geo: Geometry, s: State, payload: seq<Byte>, size: nat)
    requires Sized(geo, s) && geo.Valid() && |payload| < WORD && geo.align >= 1
    requires size == EntrySize(|payload|, geo.align) >= OVERHEAD + |payload|
    ensures WriteOp(geo, s, payload) ==
            if payload == [] then FlushResult(s, InvalidArg, DevOk)
            else if size > geo.batch then FlushResult(s, NoMem, DevOk)
            else
              var r := if s.batchLen + size > geo.batch then FlushOp(geo, s) else FlushResult(s, Ok, DevOk);
              if r.err != Ok then r
              else if r.s.batchLen + size > geo.batch then FlushResult(r.s, Stray, r.devErr)
              else FlushResult(Append(geo, r.s, payload), Ok, r.devErr)
  {
    hide FlushOp, Append, EntrySize;
  }

  /**
   * One write on any flash, of anything but a payload of nearly 2^32 bytes. An empty payload or one that no batch
   * takes is refused and changes nothing. One that fits what is left of the batch goes in behind what is there, under
   * the next id, and nothing else changes. Otherwise, and only then, the batch is flushed first: what that flush leaves
   * takes the entry in if it succeeded, and its error is returned if not.
   */
  lemma WriteLaw(geo: Geometry, s: State, payload: seq<Byte>)
    requires Sized(geo, s) && geo.Valid() && |payload| < 0xFFFF_FE00 && |payload| < WORD
    ensures var r, size := WriteOp(geo, s, payload), Taking(geo, payload);
            if payload == [] then r == FlushResult(s, InvalidArg, DevOk)
            else if size > geo.batch then r == FlushResult(s, NoMem, DevOk)
            else if s.batchLen + size <= geo.batch then r.err == Ok && TakesIn(geo, s, payload, r.s)
            else
              var f := FlushOp(geo, s);
              if f.err == Ok then r.err == Ok && TakesIn(geo, f.s, payload, r.s) else r == f
  {
    hide *;
    SizeInBatch(geo, payload);
    OverheadIs18();
    var size := Taking(geo, payload);
    WriteCases(geo, s, payload, size);
    if payload != [] && size <= geo.batch {
      if s.batchLen + size <= geo.batch {
        FitsFrom(geo, s, payload);
        AppendTakesIn(geo, s, payload);
      } else {
        var f := FlushOp(geo, s);
        OkEmpties(geo, s);
        if f.err == Ok {
          FitsFrom(geo, f.s, payload);
          AppendTakesIn(geo, f.s, payload);
        }
      }
    }
  }

  lemma OverheadIs18()
    ensures OVERHEAD == 18
  {
  }

  lemma FitsFrom(geo: Geometry, s: State, payload: seq<Byte>)
    requires geo.Valid() && geo.align >= 1 && EntrySize(|payload|, geo.align) >= OVERHEAD + |payload|
    requires s.batchLen + EntrySize(|payload|, geo.align) <= geo.batch
    ensures EntryFits(geo, s, payload)
  {
    hide EntrySize;
  }

  // ---------- The hint ----------

  /** No entry can start at the offset of the hint: it is the default, or there is no header magic. */
  predicate HintIsIdle(mem: seq<Byte>, hint: Hint) {
    || hint.writeOffset == 0 || hint.writeOffset + 12 > |mem| || !StartsEntry(mem, hint.writeOffset)
  }

  /**
   * On any flash recovery makes nothing of such a hint: it ends as it would without one. Any other hint is all it goes
   * by: it scans from there, without a search.
   */
  lemma HintNeedsHeader(geo: Geometry, mem: seq<Byte>, hint: Hint)
    requires geo.Valid() && |mem| == geo.Size() && hint.lastId < WORD
    ensures NO_HINT.lastId < WORD
    ensures HintIsIdle(mem, hint) ==> Recover(geo, mem, hint) == Recover(geo, mem, NO_HINT)
    ensures !HintIsIdle(mem, hint) ==>
              && hint.writeOffset < geo.Size()
              && Recover(geo, mem, hint) == Linear(geo, mem, hint.writeOffset, hint.lastId)
  {
    hide Linear, HeadSearch, SectorIds, WordAt, StartsEntry;
    if hint.writeOffset + 12 <= |mem| {
      MagicBytes(mem, hint.writeOffset);
    }
  }
}
