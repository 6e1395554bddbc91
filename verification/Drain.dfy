/** Draining the backlog: repeated replay until the first outcome that is not OK. */
module Drain {
  import opened Bytes
  import opened Entry
  import opened Layout
  import opened LoggerSpec
  import opened Invariant
  import opened Operations
  import opened Replay

  datatype IterateResult = IterateResult(s: State, err: Err, accepted: seq<seq<Byte>>)

  /** A callback that may answer differently on every call: the call number and the payload decide. */
  type Callback = (nat, seq<Byte>) -> bool

  function AtCall(answers: Callback, n: nat): seq<Byte> -> bool {
    (payload: seq<Byte>) => answers(n, payload)
  }

  /** What is left of the partition in front of the cursor. */
  function Ahead(geo: Geometry, s: State): nat {
    if s.replayOffset < geo.Size() then geo.Size() - s.replayOffset else 0
  }

  lemma ReadAdvances(geo: Geometry, mem: seq<Byte>, off: nat, room: nat)
    requires geo.Valid() && |mem| == geo.Size() && ReadOp(geo, mem, off, room).err == Ok
    ensures off < geo.Size() && EntrySize(|ReadOp(geo, mem, off, room).payload|, geo.align) > 0
  {
    hide WordAt, Validate, EntrySize;
    var data := mem[off..off + Fetch(geo, off)];
    ReadUnfolds(geo, mem, off, room);
    SectorBelowLimit(geo);
    ValidEntryAdvances(data, geo.sector, geo.align);
    ValidIsLong(data, geo.sector);
  }

  lemma SectorBelowLimit(geo: Geometry)
    requires geo.Valid()
    ensures geo.sector < 0xFF00_0000
  {
    MulLe(2, geo.sectors, geo.sector);
  }

  /** An accepted entry moves the cursor on, on any flash image. */
  lemma ReplayAdvances(geo: Geometry, s: State, room: nat, accepts: seq<Byte> -> bool)
    requires Sized(geo, s) && ReplayOp(geo, s, room, accepts).err == Ok
    ensures Ahead(geo, ReplayOp(geo, s, room, accepts).s) < Ahead(geo, s)
  {
    hide ReadOp, EntrySize;
    ReadAdvances(geo, s.dev.mem, s.replayOffset, room);
  }

  /** The replay loop. It ends on every flash image and for every callback. */
  function IterateFrom(geo: Geometry, s: State, room: nat, answers: Callback, n: nat): (r: IterateResult)
    requires Sized(geo, s)
    ensures Sized(geo, r.s) && r.err != Ok
    decreases Ahead(geo, s)
  {
    var step := ReplayOp(geo, s, room, AtCall(answers, n));
    if step.err != Ok then IterateResult(step.s, step.err, [])
    else
      ReplayAdvances(geo, s, room, AtCall(answers, n));
      var rest := IterateFrom(geo, step.s, room, answers, n + 1);
      IterateResult(rest.s, rest.err, [step.offered] + rest.accepted)
  }

  // ---------- What a drain delivers ----------

  /** The entry a drain from sector `k` stops at: behind the first sector with a gap, or at the writer. */
  function DrainStop(geo: Geometry, g: History, k: nat): (stop: nat)
    requires Ranges(geo, g) && k < geo.sectors
    ensures stop <= |g.raw|
    decreases geo.sectors - k
  {
    if k == g.cur then g.flushed
    else if |Run(g.raw, g.lo[k], g.hi[k])| < geo.sector || k + 1 == geo.sectors then g.hi[k]
    else DrainStop(geo, g, k + 1)
  }

  /** Where the cursor meets the write offset there is nothing left in front of it. */
  predicate Met(geo: Geometry, write: nat, replay: nat, g: History, c: Cursor) {
    replay == write ==> c.sector == g.cur && c.entry == g.flushed
  }

  lemma MetInside(geo: Geometry, write: nat, replay: nat, lastErased: int, g: History, c: Cursor)
    requires Ranges(geo, g) && WriteOk(geo, write, lastErased, g) && !g.moved && ReplayOk(geo, replay, g, c)
    requires c.entry > g.lo[c.sector]
    ensures Met(geo, write, replay, g, c)
  {
    RunPositive(g.raw, g.lo[c.sector], c.entry);
    if c.sector == g.cur {
      RunSplit(g.raw, g.lo[g.cur], c.entry, g.flushed);
      RunPositive(g.raw, c.entry, g.flushed);
    }
    hide Run;
    WriteSector(geo, write, lastErased, g);
    if c.sector != g.cur {
      SectorOfOffset(geo, c.sector, |Run(g.raw, g.lo[c.sector], c.entry)|);
    }
  }

  lemma MetOver(geo: Geometry, write: nat, replay: nat, lastErased: int, g: History, c: Cursor)
    requires Ranges(geo, g) && WriteOk(geo, write, lastErased, g) && !g.moved && ReplayOk(geo, replay, g, c)
    requires c.sector > 0 && c.sector - 1 != g.cur && c.entry == g.lo[c.sector]
    ensures Met(geo, write, replay, g, c)
  {
    RunPositive(g.raw, g.lo[c.sector], c.entry);
    RunPositive(g.raw, g.lo[g.cur], g.hi[g.cur]);
    hide Run;
    WriteSector(geo, write, lastErased, g);
    SectorOfOffset(geo, c.sector, 0);
  }

  lemma SteppedIs(geo: Geometry, g: History, c: Cursor)
    requires Ranges(geo, g) && c.sector < geo.sectors && g.lo[c.sector] <= c.entry < g.hi[c.sector]
    ensures Between(g.raw, g.lo[c.sector], c.entry + 1) && c.entry < |g.raw|
    ensures Stepped(geo, g, c) ==
            if c.sector != g.cur && |Run(g.raw, g.lo[c.sector], c.entry + 1)| == geo.sector
            then Cursor(After(geo, c.sector), c.entry + 1, c.entry + 1) else Cursor(c.sector, c.entry + 1, c.entry + 1)
  {
    hide Run;
  }

  lemma SteppedMet(geo: Geometry, write: nat, replay: nat, lastErased: int, g: History, c: Cursor)
    requires Ranges(geo, g) && Ring(geo, g) && WriteOk(geo, write, lastErased, g) && !g.moved
    requires ReplayOk(geo, replay, g, c) && c.entry < g.hi[c.sector]
    ensures Met(geo, write, replay + |g.raw[c.entry]|, g, Stepped(geo, g, c))
  {
    hide *;
    CursorParts(geo, replay, g, c);
    SteppedIs(geo, g, c);
    SteppedOk(geo, replay, g, c);
    if c.sector != g.cur && |Run(g.raw, g.lo[c.sector], c.entry + 1)| == geo.sector {
      CursorValue(geo, replay, g, c);
      FullSectorIsLast(geo, g, c.sector, c.entry);
      FullGoesOn(geo, g, c.sector);
      MetOver(geo, write, replay + |g.raw[c.entry]|, lastErased, g, Stepped(geo, g, c));
    } else {
      MetInside(geo, write, replay + |g.raw[c.entry]|, lastErased, g, Stepped(geo, g, c));
    }
  }

  lemma SteppedStop(geo: Geometry, g: History, c: Cursor)
    requires Ranges(geo, g) && Ring(geo, g) && c.sector < geo.sectors && g.lo[c.sector] <= c.entry < g.hi[c.sector]
    requires !g.lapped ==> c.sector <= g.cur
    ensures Stepped(geo, g, c).sector < geo.sectors && Stepped(geo, g, c).entry == c.entry + 1
    ensures DrainStop(geo, g, Stepped(geo, g, c).sector) == DrainStop(geo, g, c.sector)
  {
    hide Run, Ring;
    if c.sector != g.cur && |Run(g.raw, g.lo[c.sector], c.entry + 1)| == geo.sector {
      FullSectorIsLast(geo, g, c.sector, c.entry);
      FullGoesOn(geo, g, c.sector);
    }
  }

  lemma StopAt(geo: Geometry, g: History, k: nat)
    requires Ranges(geo, g) && k < geo.sectors
    ensures k == g.cur ==> DrainStop(geo, g, k) == g.flushed
    ensures k != g.cur && |Run(g.raw, g.lo[k], g.hi[k])| < geo.sector ==> DrainStop(geo, g, k) == g.hi[k]
    ensures DrainStop(geo, g, k) <= |g.raw|
  {
    hide Run;
  }

  lemma {:induction false} StopBeyond(geo: Geometry, g: History, k: nat)
    requires Ranges(geo, g) && Ring(geo, g) && k < geo.sectors && (!g.lapped ==> k <= g.cur)
    ensures DrainStop(geo, g, k) >= g.hi[k] >= g.lo[k]
    decreases geo.sectors - k
  {
    hide Run, Ring;
    if k != g.cur && |Run(g.raw, g.lo[k], g.hi[k])| == geo.sector {
      FullGoesOn(geo, g, k);
      StopBeyond(geo, g, k + 1);
    }
  }

  /** A callback that accepts everything. */
  ghost predicate AcceptsAll(answers: Callback) {
    forall n: nat, p: seq<Byte> :: answers(n, p)
  }

  lemma IterateUnfolds(geo: Geometry, s: State, room: nat, answers: Callback, n: nat)
    requires Sized(geo, s)
    ensures var step := ReplayOp(geo, s, room, AtCall(answers, n));
            IterateFrom(geo, s, room, answers, n) ==
            if step.err != Ok then IterateResult(step.s, step.err, [])
            else
              var rest := IterateFrom(geo, step.s, room, answers, n + 1);
              IterateResult(rest.s, rest.err, [step.offered] + rest.accepted)
  {
    hide ReplayOp;
  }

  lemma AllAccepted(answers: Callback, n: nat, p: seq<Byte>)
    requires AcceptsAll(answers)
    ensures AtCall(answers, n)(p)
  {
  }

  lemma MetParts(geo: Geometry, write: nat, replay: nat, g: History, c: Cursor)
    ensures Met(geo, write, replay, g, c) <==> (replay == write ==> c.sector == g.cur && c.entry == g.flushed)
  {
  }

  /** A caller's buffer of `room` bytes takes every one of these payloads. */
  predicate TakesAll(payloads: seq<seq<Byte>>, room: nat) {
    forall i :: 0 <= i < |payloads| ==> |payloads[i]| <= room
  }

  lemma PayloadTaken(payloads: seq<seq<Byte>>, room: nat, e: nat)
    requires TakesAll(payloads, room) && e < |payloads|
    ensures |payloads[e]| <= room
  {
  }

  lemma GapIsBehind(geo: Geometry, replay: nat, g: History, c: Cursor)
    requires Ranges(geo, g) && ReplayOk(geo, replay, g, c) && c.sector != g.cur && c.entry == g.hi[c.sector]
    ensures |Run(g.raw, g.lo[c.sector], g.hi[c.sector])| < geo.sector
  {
    hide Run;
  }

  /**
   * A drain with an accepting callback and a buffer that takes every payload delivers, in order, exactly the
   * entries from the cursor up to `DrainStop`, and ends with the two offsets equal.
   */
  lemma {:induction false} DrainLaw(geo: Geometry, s: State, g: History, c: Cursor, room: nat, answers: Callback,
                                    n: nat)
    requires Inv(geo, s, g, c) && Sized(geo, s) && TakesAll(g.payloads, room) && AcceptsAll(answers)
    requires Met(geo, s.writeOffset, s.replayOffset, g, c)
    ensures Ranges(geo, g) && c.sector < geo.sectors && c.entry <= DrainStop(geo, g, c.sector) <= |g.payloads|
    ensures var r := IterateFrom(geo, s, room, answers, n);
            && r.accepted == g.payloads[c.entry..DrainStop(geo, g, c.sector)]
            && r.err == InvalidEntry && r.s == s.(replayOffset := s.writeOffset)
    decreases Ahead(geo, s)
  {
    hide *;
    InvParts(geo, s, g, c);
    CursorParts(geo, s.replayOffset, g, c);
    CursorValue(geo, s.replayOffset, g, c);
    MetParts(geo, s.writeOffset, s.replayOffset, g, c);
    IterateUnfolds(geo, s, room, answers, n);
    ReplayUnfolds(geo, s, room, AtCall(answers, n));
    StopAt(geo, g, c.sector);
    StopBeyond(geo, g, c.sector);
    if s.replayOffset != s.writeOffset {
      ReadAtCursor(geo, s, g, c, room);
      if c.entry < g.hi[c.sector] {
        SameCounts(geo, g);
        PayloadTaken(g.payloads, room, c.entry);
        AllAccepted(answers, n, g.payloads[c.entry]);
        EntryLength(geo, g, c.entry);
        ReplayAdvances(geo, s, room, AtCall(answers, n));
        var c' := Stepped(geo, g, c);
        SteppedOk(geo, s.replayOffset, g, c);
        SteppedStop(geo, g, c);
        SteppedMet(geo, s.writeOffset, s.replayOffset, s.lastErased, g, c);
        InvWithCursor(geo, s, g, c, s.replayOffset + |g.raw[c.entry]|, c');
        var s' := ReplayOp(geo, s, room, AtCall(answers, n)).s;
        SizedStays(geo, s, room, AtCall(answers, n));
        DrainLaw(geo, s', g, c', room, answers, n + 1);
        var stop := DrainStop(geo, g, c.sector);
        assert g.payloads[c.entry..stop] == [g.payloads[c.entry]] + g.payloads[c.entry + 1..stop];
      } else {
        GapIsBehind(geo, s.replayOffset, g, c);
        assert g.payloads[c.entry..c.entry] == [];
      }
    } else {
      assert g.payloads[c.entry..c.entry] == [];
    }
  }

  lemma SizedStays(geo: Geometry, s: State, room: nat, accepts: seq<Byte> -> bool)
    requires Sized(geo, s)
    ensures Sized(geo, ReplayOp(geo, s, room, accepts).s)
  {
    hide ReplayOp;
  }

  /** The sector that holds the newest entry: the current one, or the one before it if that is still empty. */
  function Newest(geo: Geometry, g: History): nat
    requires Ranges(geo, g)
  {
    if g.lo[g.cur] < g.hi[g.cur] then g.cur else if g.cur == 0 then geo.sectors - 1 else g.cur - 1
  }

  /** Every sector from `k` up to `last`, that one not included, is full to the last byte. */
  predicate NoGap(geo: Geometry, g: History, k: nat, last: nat)
    requires Ranges(geo, g) && last < geo.sectors
  {
    k <= last && forall j :: k <= j < last ==> |Run(g.raw, g.lo[j], g.hi[j])| == geo.sector
  }

  /** The newest sector ends where the flash ends; every other one with entries ends before. */
  lemma NewestLaw(geo: Geometry, g: History, k: nat)
    requires Ranges(geo, g) && Ring(geo, g) && k < geo.sectors && k != g.cur && (!g.lapped ==> k <= g.cur)
    ensures Newest(geo, g) < geo.sectors
    ensures k == Newest(geo, g) ==> g.hi[k] == g.flushed
    ensures k != Newest(geo, g) ==> g.hi[k] < g.flushed
    ensures k == Newest(geo, g) ==> (k + 1 == g.cur || (g.cur == 0 && k + 1 == geo.sectors))
  {
    hide Run;
    var h := g.hi[k];
    var h0 := g.hi[0];
    if g.cur > 0 {
      var h1 := g.hi[g.cur - 1];
    }
  }

  /** A drain gets to the newest entry if and only if no sector on the way ends in a gap. */
  lemma {:induction false} StopIff(geo: Geometry, g: History, k: nat)
    requires Ranges(geo, g) && Ring(geo, g) && k < geo.sectors && (!g.lapped ==> k <= g.cur)
    ensures Newest(geo, g) < geo.sectors
    ensures DrainStop(geo, g, k) == g.flushed <==> k == g.cur || NoGap(geo, g, k, Newest(geo, g))
    decreases geo.sectors - k
  {
    hide Run, Ring, Newest;
    NewestInRing(geo, g);
    if k != g.cur {
      NewestLaw(geo, g, k);
      if |Run(g.raw, g.lo[k], g.hi[k])| == geo.sector {
        FullGoesOn(geo, g, k);
        StopIff(geo, g, k + 1);
      }
    }
  }

  lemma NewestInRing(geo: Geometry, g: History)
    requires Ranges(geo, g)
    ensures Newest(geo, g) < geo.sectors
    ensures g.lo[g.cur] < g.hi[g.cur] ==> Newest(geo, g) == g.cur
    ensures Newest(geo, g) == g.cur || Newest(geo, g) + 1 == g.cur || (g.cur == 0 && Newest(geo, g) + 1 == geo.sectors)
  {
    hide Run;
  }
}
