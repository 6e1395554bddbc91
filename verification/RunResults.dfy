/** After any run: the dead end at the end of the partition. */
module RunResults {
  import opened Bytes
  import opened Entry
  import opened Layout
  import opened Flash
  import opened LoggerSpec
  import opened Invariant
  import opened Operations
  import opened FlushSuccess
  import opened Runs
  import opened RunRecovery

  /** Nothing reaches the flash any more. */
  predicate Stuck(geo: Geometry, s: State, mem: seq<Byte>) {
    s.writeOffset == geo.Size() && s.dev.mem == mem
  }

  lemma FlushStays(geo: Geometry, s: State, g: History, c: Cursor)
    requires Inv(geo, s, g, c) && Sized(geo, s) && s.writeOffset == geo.Size()
    ensures FlushOp(geo, s).err != Ok && Stuck(geo, FlushOp(geo, s).s, s.dev.mem)
  {
    hide *;
    StuckIs(geo, FlushOp(geo, s).s, s.dev.mem);
    if s.batchLen == 0 {
      EmptyFlush(geo, s);
      InvalidIsNotOk();
    } else {
      FlushAtEnd(geo, s, g, c);
    }
  }

  lemma InvalidIsNotOk()
    ensures InvalidArg != Ok
  {
  }

  lemma StuckIs(geo: Geometry, s: State, mem: seq<Byte>)
    ensures Stuck(geo, s, mem) <==> s.writeOffset == geo.Size() && s.dev.mem == mem
  {
  }

  lemma WriteStays(geo: Geometry, s: State, g: History, c: Cursor, payload: seq<Byte>)
    requires Inv(geo, s, g, c) && Sized(geo, s) && |payload| < WORD && s.writeOffset == geo.Size()
    ensures Stuck(geo, WriteOp(geo, s, payload).s, s.dev.mem)
  {
    hide *;
    InvParts(geo, s, g, c);
    WriteUnfolds(geo, s, payload);
    StuckIs(geo, WriteOp(geo, s, payload).s, s.dev.mem);
    if |payload| > 0 && EntrySize(|payload|, geo.align) <= geo.batch {
      if s.batchLen + EntrySize(|payload|, geo.align) <= geo.batch {
        CopiedParts(geo, s, payload, DevOk);
        if CopyFits(geo, s, payload) {
          AppendParts(geo, s, payload);
        }
      } else {
        FlushStays(geo, s, g, c);
        StuckIs(geo, FlushOp(geo, s).s, s.dev.mem);
      }
    }
  }

  lemma ReplayStays(geo: Geometry, s: State, room: nat, accepts: seq<Byte> -> bool)
    requires Sized(geo, s)
    ensures ReplayOp(geo, s, room, accepts).s.dev == s.dev
    ensures ReplayOp(geo, s, room, accepts).s.writeOffset == s.writeOffset
  {
    hide ReadOp, EntrySize;
  }

  lemma StepStays(geo: Geometry, x: System, g: History, c: Cursor, picks: seq<nat>, op: Op)
    requires Good(geo, x, g, c, picks) && Sized(geo, x.s) && Allowed(op) && x.s.writeOffset == geo.Size()
    ensures Stuck(geo, Step(geo, x, op).s, x.s.dev.mem)
  {
    hide Inv, WriteOp, FlushOp, ReplayOp, Picked, Sized;
    match op
    case OpWrite(payload) => WriteStays(geo, x.s, g, c, payload);
    case OpFlush => FlushStays(geo, x.s, g, c);
    case OpReplay(room, answer) => ReplayStays(geo, x.s, room, Answer(answer));
    case OpFault(after) =>
  }

  lemma {:induction false} StaysStuck(geo: Geometry, x: System, g: History, c: Cursor, picks: seq<nat>, ops: seq<Op>)
    requires Good(geo, x, g, c, picks) && Sized(geo, x.s) && x.s.writeOffset == geo.Size()
    requires forall i :: 0 <= i < |ops| ==> Allowed(ops[i])
    ensures Stuck(geo, Execute(geo, x, ops).s, x.s.dev.mem)
    decreases |ops|
  {
    hide Good, Step, Allowed, Sized;
    if ops != [] {
      StepStays(geo, x, g, c, picks, ops[0]);
      var g', c', picks' := StepKeeps(geo, x, g, c, picks, ops[0]);
      StaysStuck(geo, Step(geo, x, ops[0]), g', c', picks', ops[1..]);
    }
  }

  /**
   * The dead end: once a run has filled the last sector to the last byte, no call that follows writes or
   * erases a single byte of flash.
   */
  lemma FullPartitionIsFinal(geo: Geometry, batch: seq<Byte>, lastId: nat, ops: seq<Op>, more: seq<Op>)
    requires Startable(geo, batch, lastId, ops) && Startable(geo, batch, lastId, more)
    requires Reached(geo, batch, lastId, ops).s.writeOffset == geo.Size()
    ensures forall i :: 0 <= i < |more| ==> Allowed(more[i])
    ensures Execute(geo, Reached(geo, batch, lastId, ops), more).s.dev.mem == Reached(geo, batch, lastId, ops).s.dev.mem
  {
    FreshSized(geo, batch, lastId, more);
    hide *;
    StartableParts(geo, batch, lastId, ops);
    var g, c, picks := RunHistory(geo, batch, lastId, ops);
    var x := Reached(geo, batch, lastId, ops);
    StaysStuck(geo, x, g, c, picks, more);
    StuckIs(geo, Execute(geo, x, more).s, x.s.dev.mem);
  }
}
