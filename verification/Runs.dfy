/** Whole runs: any interleaving of write, flush, replay and injected write faults, from erased flash on. */
module Runs {
  import opened Bytes
  import opened Entry
  import opened Layout
  import opened Flash
  import opened LoggerSpec
  import opened Invariant
  import opened FlushSteps
  import opened Operations
  import opened Replay

  /** One call, or a fault injected into the device: its next write past `after` bytes is cut there. */
  datatype Op =
    | OpWrite(payload: seq<Byte>)
    | OpFlush
    | OpReplay(room: nat, answer: bool)
    | OpFault(after: nat)

  /**
   * The logger, what was written and accepted so far, and whether the device ever refused to turn a 0 into
   * a 1. `err` is the result of the last call.
   */
  datatype System = System(s: State, written: seq<seq<Byte>>, delivered: seq<seq<Byte>>, refused: bool, err: Err)

  /** The length of a written payload is a 32-bit number. */
  predicate Allowed(op: Op) {
    op.OpWrite? ==> |op.payload| < WORD
  }

  function Answer(answer: bool): seq<Byte> -> bool {
    (_: seq<Byte>) => answer
  }

  function Step(geo: Geometry, x: System, op: Op): (r: System)
    requires Sized(geo, x.s) && Allowed(op)
    ensures Sized(geo, r.s)
  {
    match op
    case OpWrite(payload) =>
      var r := WriteOp(geo, x.s, payload);
      System(r.s, if r.err == Ok then x.written + [payload] else x.written, x.delivered,
             x.refused || r.devErr == DevInvalidState, r.err)
    case OpFlush =>
      var r := FlushOp(geo, x.s);
      System(r.s, x.written, x.delivered, x.refused || r.devErr == DevInvalidState, r.err)
    case OpReplay(room, answer) =>
      var r := ReplayOp(geo, x.s, room, Answer(answer));
      System(r.s, x.written, if r.err == Ok then x.delivered + [r.offered] else x.delivered, x.refused, r.err)
    case OpFault(after) =>
      x.(s := x.s.(dev := x.s.dev.(failNext := true, failAfter := after)))
  }

  function Execute(geo: Geometry, x: System, ops: seq<Op>): (r: System)
    requires Sized(geo, x.s) && forall i :: 0 <= i < |ops| ==> Allowed(ops[i])
    ensures Sized(geo, r.s)
    decreases |ops|
  {
    hide Step, Allowed, Sized;
    if ops == [] then x else Execute(geo, Step(geo, x, ops[0]), ops[1..])
  }

  /** Erased flash, any bytes in the batch buffer, the first id being the one after `lastId`. */
  function Fresh(geo: Geometry, batch: seq<Byte>, lastId: nat): System
    requires geo.Valid()
  {
    System(Booted(Device(Blank(geo.Size()), false, 0), batch, 0, 0, lastId), [], [], false, Ok)
  }

  predicate Startable(geo: Geometry, batch: seq<Byte>, lastId: nat, ops: seq<Op>) {
    geo.Valid() && |batch| == geo.batch && lastId < WORD && forall i :: 0 <= i < |ops| ==> Allowed(ops[i])
  }

  lemma FreshSized(geo: Geometry, batch: seq<Byte>, lastId: nat, ops: seq<Op>)
    requires Startable(geo, batch, lastId, ops)
    ensures geo.Valid() && Sized(geo, Fresh(geo, batch, lastId).s)
    ensures forall i :: 0 <= i < |ops| ==> Allowed(ops[i])
  {
  }

  /** The state after a run. */
  function Reached(geo: Geometry, batch: seq<Byte>, lastId: nat, ops: seq<Op>): (x: System)
    requires Startable(geo, batch, lastId, ops)
    ensures Sized(geo, x.s)
  {
    FreshSized(geo, batch, lastId, ops);
    Execute(geo, Fresh(geo, batch, lastId), ops)
  }

  // ---------- Runs put together ----------

  /** The calls that write `payloads`. */
  function Writes(payloads: seq<seq<Byte>>): (ops: seq<Op>)
    ensures |ops| == |payloads| && forall i :: 0 <= i < |ops| ==> ops[i] == OpWrite(payloads[i])
  {
    seq(|payloads|, i requires 0 <= i < |payloads| => OpWrite(payloads[i]))
  }

  lemma {:induction false} ExecuteWrites(geo: Geometry, x: System, payloads: seq<seq<Byte>>)
    requires Sized(geo, x.s) && forall i :: 0 <= i < |payloads| ==> |payloads[i]| < WORD
    ensures forall i :: 0 <= i < |payloads| ==> Allowed(Writes(payloads)[i])
    ensures Execute(geo, x, Writes(payloads)).s == WriteAll(geo, x.s, payloads)
    decreases |payloads|
  {
    hide WriteOp, Sized;
    if payloads != [] {
      assert Writes(payloads)[1..] == Writes(payloads[1..]);
      ExecuteWrites(geo, Step(geo, x, OpWrite(payloads[0])), payloads[1..]);
    }
  }

  lemma {:induction false} ExecuteBoth(geo: Geometry, x: System, ops: seq<Op>, more: seq<Op>)
    requires Sized(geo, x.s) && forall i :: 0 <= i < |ops| ==> Allowed(ops[i])
    requires forall i :: 0 <= i < |more| ==> Allowed(more[i])
    ensures forall i :: 0 <= i < |ops + more| ==> Allowed((ops + more)[i])
    ensures Sized(geo, Execute(geo, x, ops).s)
    ensures Execute(geo, x, ops + more) == Execute(geo, Execute(geo, x, ops), more)
    decreases |ops|
  {
    hide Step, Allowed, Sized;
    if ops == [] {
      assert ops + more == more;
    } else {
      assert (ops + more)[1..] == ops[1..] + more;
      ExecuteBoth(geo, Step(geo, x, ops[0]), ops[1..], more);
    }
  }

  /** Writing payloads one after the other takes a reachable logger to a reachable one. */
  lemma WritesGoOn(geo: Geometry, batch: seq<Byte>, lastId: nat, ops: seq<Op>, payloads: seq<seq<Byte>>)
    requires Startable(geo, batch, lastId, ops) && forall i :: 0 <= i < |payloads| ==> |payloads[i]| < WORD
    ensures Startable(geo, batch, lastId, ops + Writes(payloads)) && Sized(geo, Reached(geo, batch, lastId, ops).s)
    ensures WriteAll(geo, Reached(geo, batch, lastId, ops).s, payloads) ==
            Reached(geo, batch, lastId, ops + Writes(payloads)).s
  {
    FreshSized(geo, batch, lastId, ops);
    ExecuteWrites(geo, Reached(geo, batch, lastId, ops), payloads);
    hide Execute, Allowed, Fresh, Sized, WriteAll;
    ExecuteBoth(geo, Fresh(geo, batch, lastId), ops, Writes(payloads));
  }

  // ---------- What every run keeps ----------

  /** `delivered` is what stands at the strictly increasing places `picks` of `written`, all below `mark`. */
  predicate Picked(delivered: seq<seq<Byte>>, written: seq<seq<Byte>>, picks: seq<nat>, mark: nat) {
    && |picks| == |delivered| && mark <= |written|
    && (forall i :: 0 <= i < |picks| ==> picks[i] < mark && delivered[i] == written[picks[i]])
    && (forall i, j :: 0 <= i < j < |picks| ==> picks[i] < picks[j])
  }

  predicate Good(geo: Geometry, x: System, g: History, c: Cursor, picks: seq<nat>) {
    && Inv(geo, x.s, g, c) && g.payloads == x.written && !x.refused && Picked(x.delivered, x.written, picks, c.mark)
  }

  lemma PickOne(delivered: seq<seq<Byte>>, written: seq<seq<Byte>>, picks: seq<nat>, mark: nat, at: nat)
    requires Picked(delivered, written, picks, mark) && mark <= at < |written|
    ensures Picked(delivered + [written[at]], written, picks + [at], at + 1)
  {
  }

  /** Nothing picked before changes, and what is picked on top of it lies at `mark` or above. */
  predicate MorePicks(picks: seq<nat>, picks': seq<nat>, mark: nat) {
    picks <= picks' && forall i :: |picks| <= i < |picks'| ==> picks'[i] >= mark
  }

  lemma MorePicksTrans(picks: seq<nat>, picks1: seq<nat>, picks2: seq<nat>, mark: nat, mark1: nat)
    requires MorePicks(picks, picks1, mark) && MorePicks(picks1, picks2, mark1) && mark <= mark1
    ensures MorePicks(picks, picks2, mark)
  {
    forall i | |picks| <= i < |picks2|
      ensures picks2[i] >= mark
    {
      if i < |picks1| {
        assert picks2[i] == picks1[i];
      }
    }
  }

  lemma MorePicksReflexive(picks: seq<nat>, mark: nat)
    ensures MorePicks(picks, picks, mark)
  {
  }

  lemma PickFromLonger(delivered: seq<seq<Byte>>, written: seq<seq<Byte>>, picks: seq<nat>, mark: nat,
                       payload: seq<Byte>)
    requires Picked(delivered, written, picks, mark)
    ensures Picked(delivered, written + [payload], picks, mark)
  {
  }

  lemma FaultKeeps(geo: Geometry, s: State, g: History, c: Cursor, after: nat)
    requires Inv(geo, s, g, c)
    ensures Inv(geo, s.(dev := s.dev.(failNext := true, failAfter := after)), g, c)
  {
    hide FlashOk, ReplayOk, Run;
  }

  lemma GoodParts(geo: Geometry, x: System, g: History, c: Cursor, picks: seq<nat>)
    ensures Good(geo, x, g, c, picks) <==>
            Inv(geo, x.s, g, c) && g.payloads == x.written && !x.refused
                && Picked(x.delivered, x.written, picks, c.mark)
  {
  }

  lemma EmptyFlush(geo: Geometry, s: State)
    requires Sized(geo, s) && s.batchLen == 0
    ensures FlushOp(geo, s) == FlushResult(s, InvalidArg, DevOk)
  {
  }

  lemma SameBounds(geo: Geometry, s: State, g: History, c: Cursor)
    requires Inv(geo, s, g, c)
    ensures KeepsBounds(geo, s.lastErased, s.lastErased, g, g)
  {
    hide *;
    InvParts(geo, s, g, c);
    StaysReflexive(geo, g);
    BoundsOfStays(geo, s.lastErased, s.lastErased, g, g);
  }

  lemma ReplayKeepsErased(geo: Geometry, s: State, room: nat, accepts: seq<Byte> -> bool)
    requires Sized(geo, s)
    ensures ReplayOp(geo, s, room, accepts).s.lastErased == s.lastErased
  {
    hide ReadOp, EntrySize;
  }

  lemma StepWrite(geo: Geometry, x: System, g: History, c: Cursor, picks: seq<nat>, payload: seq<Byte>)
    returns (g': History, c': Cursor)
    requires Good(geo, x, g, c, picks) && Sized(geo, x.s) && Allowed(OpWrite(payload))
    ensures Good(geo, Step(geo, x, OpWrite(payload)), g', c', picks) && g'.base == g.base && c'.mark == c.mark
    ensures KeepsBounds(geo, x.s.lastErased, Step(geo, x, OpWrite(payload)).s.lastErased, g, g')
  {
    hide WriteOp, Inv, Run, Picked, KeepsBounds;
    g', c' := Operations.WriteKeeps(geo, x.s, g, c, payload);
    if WriteOp(geo, x.s, payload).err == Ok {
      PickFromLonger(x.delivered, x.written, picks, c.mark, payload);
    }
  }

  lemma StepFlush(geo: Geometry, x: System, g: History, c: Cursor, picks: seq<nat>)
    returns (g': History, c': Cursor)
    requires Good(geo, x, g, c, picks) && Sized(geo, x.s)
    ensures Good(geo, Step(geo, x, OpFlush), g', c', picks) && g'.base == g.base && c'.mark == c.mark
    ensures KeepsBounds(geo, x.s.lastErased, Step(geo, x, OpFlush).s.lastErased, g, g')
  {
    hide FlushOp, Inv, Run, LastChunk, KeepsBounds;
    if x.s.batchLen == 0 {
      EmptyFlush(geo, x.s);
      SameBounds(geo, x.s, g, c);
      g', c' := g, c;
    } else {
      var first;
      g', c', first := FlushKeeps(geo, x.s, g, c);
    }
  }

  lemma StepReplay(geo: Geometry, x: System, g: History, c: Cursor, picks: seq<nat>, room: nat, answer: bool)
    returns (c': Cursor, picks': seq<nat>)
    requires Good(geo, x, g, c, picks) && Sized(geo, x.s)
    ensures Good(geo, Step(geo, x, OpReplay(room, answer)), g, c', picks')
    ensures c.mark <= c'.mark && MorePicks(picks, picks', c.mark)
    ensures KeepsBounds(geo, x.s.lastErased, Step(geo, x, OpReplay(room, answer)).s.lastErased, g, g)
  {
    hide ReplayOp, Inv, Run, Picked, KeepsBounds;
    SameBounds(geo, x.s, g, c);
    ReplayKeepsErased(geo, x.s, room, Answer(answer));
    c' := ReplayKeeps(geo, x.s, g, c, room, Answer(answer));
    picks' := picks;
    if ReplayOp(geo, x.s, room, Answer(answer)).err == Ok {
      PickOne(x.delivered, x.written, picks, c.mark, c.entry);
      picks' := picks + [c.entry];
    }
  }

  /** One step, whatever it is. */
  lemma StepKeeps(geo: Geometry, x: System, g: History, c: Cursor, picks: seq<nat>, op: Op)
    returns (g': History, c': Cursor, picks': seq<nat>)
    requires Good(geo, x, g, c, picks) && Sized(geo, x.s) && Allowed(op)
    ensures Good(geo, Step(geo, x, op), g', c', picks') && g'.base == g.base
    ensures c.mark <= c'.mark && MorePicks(picks, picks', c.mark)
    ensures KeepsBounds(geo, x.s.lastErased, Step(geo, x, op).s.lastErased, g, g')
  {
    hide Good, WriteOp, FlushOp, ReplayOp, Run, KeepsBounds;
    g', c', picks' := g, c, picks;
    MorePicksReflexive(picks, c.mark);
    match op
    case OpWrite(payload) => g', c' := StepWrite(geo, x, g, c, picks, payload);
    case OpFlush => g', c' := StepFlush(geo, x, g, c, picks);
    case OpReplay(room, answer) => c', picks' := StepReplay(geo, x, g, c, picks, room, answer);
    case OpFault(after) =>
      GoodParts(geo, x, g, c, picks);
      SameBounds(geo, x.s, g, c);
      FaultKeeps(geo, x.s, g, c, after);
      GoodParts(geo, Step(geo, x, op), g, c, picks);
  }

  lemma {:induction false} RunKeeps(geo: Geometry, x: System, g: History, c: Cursor, picks: seq<nat>, ops: seq<Op>)
    returns (g': History, c': Cursor, picks': seq<nat>)
    requires Good(geo, x, g, c, picks) && Sized(geo, x.s) && forall i :: 0 <= i < |ops| ==> Allowed(ops[i])
    ensures Good(geo, Execute(geo, x, ops), g', c', picks') && g'.base == g.base
    ensures c.mark <= c'.mark && MorePicks(picks, picks', c.mark)
    decreases |ops|
  {
    hide Good, Step, Allowed, Sized, MorePicks;
    g', c', picks' := g, c, picks;
    MorePicksReflexive(picks, c.mark);
    if ops != [] {
      var g1, c1, picks1 := StepKeeps(geo, x, g, c, picks, ops[0]);
      g', c', picks' := RunKeeps(geo, Step(geo, x, ops[0]), g1, c1, picks1, ops[1..]);
      MorePicksTrans(picks, picks1, picks', c.mark, c1.mark);
    }
  }

  // ---------- The start ----------

  function Nothing(geo: Geometry, lastId: nat): History {
    var zeros := seq(geo.sectors, _ => 0);
    History(lastId, [], [], 0, zeros, zeros, 0, false, false, 0, 0)
  }

  lemma NothingRanges(geo: Geometry, lastId: nat)
    requires geo.Valid()
    ensures Ranges(geo, Nothing(geo, lastId)) && LogOk(geo, Nothing(geo, lastId)) && Ring(geo, Nothing(geo, lastId))
  {
    RunEmpty([], 0);
    hide Run;
  }

  lemma NothingMem(geo: Geometry, lastId: nat)
    requires geo.Valid() && Ranges(geo, Nothing(geo, lastId))
    ensures MemOk(geo, Blank(geo.Size()), Nothing(geo, lastId))
  {
    var g := Nothing(geo, lastId);
    RunEmpty([], 0);
    hide Run;
    forall k: nat | k < geo.sectors
      ensures Sector(geo, Blank(geo.Size()), k) == Content(geo, g, k)
    {
      SectorInside(geo, k);
    }
  }

  /** Erased flash is where the invariant starts. */
  lemma FreshIsGood(geo: Geometry, batch: seq<Byte>, lastId: nat)
    requires geo.Valid() && |batch| == geo.batch && lastId < WORD
    ensures Good(geo, Fresh(geo, batch, lastId), Nothing(geo, lastId), Cursor(0, 0, 0), [])
  {
    var g := Nothing(geo, lastId);
    NothingRanges(geo, lastId);
    NothingMem(geo, lastId);
    RunEmpty([], 0);
    hide Run, MemOk, Ring, LogOk;
    assert batch[..0] == [];
  }

  /** Every run from erased flash has a history behind it. */
  lemma RunHistory(geo: Geometry, batch: seq<Byte>, lastId: nat, ops: seq<Op>)
    returns (g: History, c: Cursor, picks: seq<nat>)
    requires Startable(geo, batch, lastId, ops)
    ensures Good(geo, Reached(geo, batch, lastId, ops), g, c, picks) && g.base == lastId
  {
    FreshIsGood(geo, batch, lastId);
    FreshSized(geo, batch, lastId, ops);
    hide Good, Execute, Fresh;
    g, c, picks := RunKeeps(geo, Fresh(geo, batch, lastId), Nothing(geo, lastId), Cursor(0, 0, 0), [], ops);
  }

  // ---------- Safety ----------

  /**
   * Every run: the entries accepted by the replay callback are, byte for byte, entries that were written, each
   * at most once and in the order written.
   */
  lemma DeliveredInOrder(geo: Geometry, batch: seq<Byte>, lastId: nat, ops: seq<Op>) returns (picks: seq<nat>)
    requires Startable(geo, batch, lastId, ops)
    ensures var x := Reached(geo, batch, lastId, ops);
            && |picks| == |x.delivered|
            && (forall i :: 0 <= i < |picks| ==> picks[i] < |x.written| && x.delivered[i] == x.written[picks[i]])
            && (forall i, j :: 0 <= i < j < |picks| ==> picks[i] < picks[j])
  {
    hide Reached, Startable, Inv;
    var g, c;
    g, c, picks := RunHistory(geo, batch, lastId, ops);
  }

  /** Every run: no write, not even the retry of a torn one with a longer batch, ever needs a 0 to become a 1. */
  lemma NeverRefused(geo: Geometry, batch: seq<Byte>, lastId: nat, ops: seq<Op>)
    requires Startable(geo, batch, lastId, ops)
    ensures !Reached(geo, batch, lastId, ops).refused
  {
    hide Reached, Startable, Inv;
    var g, c, picks := RunHistory(geo, batch, lastId, ops);
  }
}
