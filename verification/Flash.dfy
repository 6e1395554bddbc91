/** The NOR flash device: programming only clears bits, erasing sets whole sectors, writes can be cut short. */
module Flash {
  import opened Bytes
  import opened Layout

  datatype DevErr = DevOk | DevFail | DevInvalidArg | DevInvalidSize | DevInvalidState

  /** Device state: the cells, and whether the next write that gets past `failAfter` bytes is cut there. */
  datatype Device = Device(mem: seq<Byte>, failNext: bool, failAfter: nat)

  /** Programming a cell may clear bits, never set one. */
  predicate Programmable(cell: Byte, b: Byte) {
    b & !cell == 0
  }

  /** What a programmed cell reads. */
  function Combined(cell: Byte, b: Byte): Byte {
    cell & b
  }

  /** The byte loop of the device write, from byte `i` on. */
  function ProgramFrom(d: Device, off: nat, src: seq<Byte>, i: nat): (r: (Device, DevErr))
    requires i <= |src| && off + |src| <= |d.mem|
    ensures |r.0.mem| == |d.mem|
    decreases |src| - i
  {
    if i == |src| then (d, DevOk)
    else if d.failNext && i >= d.failAfter then (d.(failNext := false), DevFail)
    else if !Programmable(d.mem[off + i], src[i]) then (d, DevInvalidState)
    else ProgramFrom(d.(mem := d.mem[off + i := Combined(d.mem[off + i], src[i])]), off, src, i + 1)
  }

  lemma ProgramFromUnfolds(d: Device, off: nat, src: seq<Byte>, i: nat)
    requires i <= |src| && off + |src| <= |d.mem|
    ensures i == |src| ==> ProgramFrom(d, off, src, i) == (d, DevOk)
    ensures i < |src| ==>
              ProgramFrom(d, off, src, i) ==
              if d.failNext && i >= d.failAfter then (d.(failNext := false), DevFail)
              else if !Programmable(d.mem[off + i], src[i]) then (d, DevInvalidState)
              else ProgramFrom(d.(mem := d.mem[off + i := Combined(d.mem[off + i], src[i])]), off, src, i + 1)
  {
    hide Programmable, Combined;
  }

  function Program(d: Device, off: nat, src: seq<Byte>): (r: (Device, DevErr))
    ensures |r.0.mem| == |d.mem|
  {
    if off + |src| > |d.mem| then (d, DevInvalidSize) else ProgramFrom(d, off, src, 0)
  }

  lemma ProgramUnfolds(d: Device, off: nat, src: seq<Byte>)
    ensures Program(d, off, src) == if off + |src| > |d.mem| then (d, DevInvalidSize) else ProgramFrom(d, off, src, 0)
  {
    hide ProgramFrom;
  }

  function Erase(d: Device, sector: nat, off: nat, size: nat): (r: (Device, DevErr))
    requires sector > 0
    ensures |r.0.mem| == |d.mem|
  {
    if off % sector != 0 || size % sector != 0 then (d, DevInvalidArg)
    else if off + size > |d.mem| then (d, DevInvalidSize)
    else (d.(mem := Splice(d.mem, off, Blank(size))), DevOk)
  }

  lemma ProgrammedByte(cell: Byte, b: Byte)
    ensures Programmable(cell, b) ==> Combined(cell, b) == b
    ensures (cell & b) & !cell == 0
    ensures Programmable(ERASED, b) && Programmable(b, b)
  {
  }

  lemma BitsOnlyClear(x: Byte, y: Byte, z: Byte)
    requires y & !x == 0 && z & !y == 0
    ensures z & !x == 0
  {
  }

  /** One programmed byte of a write that goes on. */
  lemma ProgramStep(d: Device, off: nat, src: seq<Byte>, i: nat)
    requires i < |src| && off + |src| <= |d.mem|
    requires !(d.failNext && i >= d.failAfter) && Programmable(d.mem[off + i], src[i])
    ensures ProgramFrom(d, off, src, i) == ProgramFrom(d.(mem := d.mem[off + i := src[i]]), off, src, i + 1)
  {
    ProgrammedByte(d.mem[off + i], src[i]);
  }

  /** The state of the cells after a write against the state before. */
  ghost predicate Obeys(mem: seq<Byte>, mem': seq<Byte>, off: nat, src: seq<Byte>, done: bool)
    requires |mem| == |mem'| && off + |src| <= |mem|
  {
    && (forall a :: 0 <= a < |mem| ==> Programmable(mem[a], mem'[a]))
    && (forall a :: 0 <= a < off ==> mem'[a] == mem[a])
    && (forall a :: off + |src| <= a < |mem| ==> mem'[a] == mem[a])
    && (done ==> mem'[off..off + |src|] == src)
  }

  lemma ObeysAfterByte(mem: seq<Byte>, off: nat, src: seq<Byte>, i: nat, mem': seq<Byte>, done: bool)
    requires i < |src| && off + |src| <= |mem| == |mem'| && Programmable(mem[off + i], src[i])
    requires Obeys(mem[off + i := src[i]], mem', off, src, done)
    ensures Obeys(mem, mem', off, src, done)
  {
    hide Programmable;
    forall a | 0 <= a < |mem|
      ensures Programmable(mem[a], mem'[a])
    {
      assert Programmable(mem[off + i := src[i]][a], mem'[a]);
      if a == off + i {
        ProgramTwice(mem[a], src[i], mem'[a]);
      }
    }
  }

  lemma ObeysUnchanged(mem: seq<Byte>, off: nat, src: seq<Byte>, done: bool)
    requires off + |src| <= |mem| && (done ==> mem[off..off + |src|] == src)
    ensures Obeys(mem, mem, off, src, done)
  {
    hide Programmable;
    forall a | 0 <= a < |mem| ensures Programmable(mem[a], mem[a]) {
      ProgrammedByte(mem[a], mem[a]);
    }
  }

  lemma {:induction false} ProgramLawFrom(d: Device, off: nat, src: seq<Byte>, i: nat)
    requires i <= |src| && off + |src| <= |d.mem| && d.mem[off..off + i] == src[..i]
    ensures Obeys(d.mem, ProgramFrom(d, off, src, i).0.mem, off, src, ProgramFrom(d, off, src, i).1 == DevOk)
    decreases |src| - i
  {
    hide *;
    ProgramFromUnfolds(d, off, src, i);
    if i < |src| && !(d.failNext && i >= d.failAfter) && Programmable(d.mem[off + i], src[i]) {
      ProgramStep(d, off, src, i);
      var d' := d.(mem := d.mem[off + i := src[i]]);
      assert d'.mem[off..off + i + 1] == d.mem[off..off + i] + [src[i]];
      ProgramLawFrom(d', off, src, i + 1);
      var r := ProgramFrom(d', off, src, i + 1);
      ObeysAfterByte(d.mem, off, src, i, r.0.mem, r.1 == DevOk);
    } else {
      assert src[..|src|] == src;
      ObeysUnchanged(d.mem, off, src, i == |src|);
    }
  }

  lemma ProgramTwice(x: Byte, y: Byte, z: Byte)
    requires Programmable(x, y) && Programmable(y, z)
    ensures Programmable(x, z)
  {
    BitsOnlyClear(x, y, z);
  }

  /**
   * The device on any input: whatever the outcome no bit goes from 0 to 1, nothing outside the addressed
   * range changes, and an OK write leaves exactly the source bytes there.
   */
  lemma ProgramLaw(d: Device, off: nat, src: seq<Byte>)
    requires off + |src| <= |d.mem|
    ensures Obeys(d.mem, Program(d, off, src).0.mem, off, src, Program(d, off, src).1 == DevOk)
  {
    ProgramLawFrom(d, off, src, 0);
  }

  /** Cells that are erased or already hold the byte to be written. */
  predicate Ready(mem: seq<Byte>, off: nat, src: seq<Byte>)
    requires off + |src| <= |mem|
  {
    forall j :: 0 <= j < |src| ==> mem[off + j] == ERASED || mem[off + j] == src[j]
  }

  /** How many bytes of a write to ready cells arrive. */
  function Arriving(d: Device, size: nat): (n: nat)
    ensures n <= size
  {
    if d.failNext && d.failAfter < size then d.failAfter else size
  }

  /** What a write to ready cells leaves. */
  function AfterWrite(d: Device, off: nat, src: seq<Byte>): (Device, DevErr)
    requires off + |src| <= |d.mem|
  {
    var n := Arriving(d, |src|);
    (Device(Splice(d.mem, off, src[..n]), d.failNext && d.failAfter >= |src|, d.failAfter),
     if n < |src| then DevFail else DevOk)
  }

  lemma AfterWriteStep(d: Device, off: nat, src: seq<Byte>, i: nat)
    requires i < Arriving(d, |src|) && off + |src| <= |d.mem|
    ensures AfterWrite(d.(mem := d.mem[off + i := src[i]]), off, src) == AfterWrite(d, off, src)
  {
    SpliceOver(d.mem, off, src, Arriving(d, |src|), i);
    hide Splice;
  }

  lemma AfterWriteDone(d: Device, off: nat, src: seq<Byte>)
    requires off + |src| <= |d.mem| && forall k :: 0 <= k < Arriving(d, |src|) ==> d.mem[off + k] == src[k]
    ensures AfterWrite(d, off, src) == ProgramFrom(d, off, src, Arriving(d, |src|))
  {
    hide Programmable, Splice, ProgramFrom;
    ProgramFromUnfolds(d, off, src, Arriving(d, |src|));
    SpliceOfSame(d.mem, off, src, Arriving(d, |src|));
  }

  lemma ReadyStep(d: Device, off: nat, src: seq<Byte>, i: nat)
    requires i < Arriving(d, |src|) && off + |src| <= |d.mem| && Ready(d.mem, off, src)
    ensures !(d.failNext && i >= d.failAfter) && Programmable(d.mem[off + i], src[i])
    ensures Ready(d.mem[off + i := src[i]], off, src)
  {
    ProgrammedByte(d.mem[off + i], src[i]);
    hide Programmable;
  }

  lemma {:induction false} ProgramReadyFrom(d: Device, off: nat, src: seq<Byte>, i: nat)
    requires off + |src| <= |d.mem| && Ready(d.mem, off, src)
    requires i <= Arriving(d, |src|)
    requires forall k :: 0 <= k < i ==> d.mem[off + k] == src[k]
    ensures ProgramFrom(d, off, src, i) == AfterWrite(d, off, src)
    decreases |src| - i
  {
    hide *;
    if i == Arriving(d, |src|) {
      AfterWriteDone(d, off, src);
    } else {
      ReadyStep(d, off, src, i);
      ProgramStep(d, off, src, i);
      AfterWriteStep(d, off, src, i);
      var d' := d.(mem := d.mem[off + i := src[i]]);
      SameArriving(d, d', |src|);
      ProgramReadyFrom(d', off, src, i + 1);
    }
  }

  lemma SameArriving(d: Device, d': Device, size: nat)
    requires d'.failNext == d.failNext && d'.failAfter == d.failAfter
    ensures Arriving(d', size) == Arriving(d, size)
  {
  }

  lemma SpliceOfSame(mem: seq<Byte>, off: nat, src: seq<Byte>, n: nat)
    requires n <= |src| && off + |src| <= |mem| && forall k :: 0 <= k < n ==> mem[off + k] == src[k]
    ensures Splice(mem, off, src[..n]) == mem
  {
  }

  lemma SpliceOver(mem: seq<Byte>, off: nat, src: seq<Byte>, n: nat, i: nat)
    requires i < n <= |src| && off + |src| <= |mem|
    ensures Splice(mem[off + i := src[i]], off, src[..n]) == Splice(mem, off, src[..n])
  {
  }

  /** A write to ready cells never meets a 0 that should be a 1: it succeeds, or is cut by an injected fault. */
  lemma ProgramReady(d: Device, off: nat, src: seq<Byte>)
    requires off + |src| <= |d.mem| && Ready(d.mem, off, src)
    ensures Program(d, off, src).0 ==
            Device(Splice(d.mem, off, src[..Arriving(d, |src|)]), d.failNext && d.failAfter >= |src|, d.failAfter)
    ensures Program(d, off, src).1 == if Arriving(d, |src|) < |src| then DevFail else DevOk
  {
    ProgramReadyFrom(d, off, src, 0);
  }

  /** A bit that is set can be written where the cell still has it set. */
  lemma ProgrammableIff(cell: Byte, b: Byte)
    ensures Programmable(cell, b) <==> cell & b == b
  {
  }

  lemma SpliceOneMore(mem: seq<Byte>, at: nat, src: seq<Byte>, i: nat, k: nat)
    requires i < k <= |src| && at + |src| <= |mem|
    ensures Splice(mem[at + i := src[i]], at + i + 1, src[i + 1..k]) == Splice(mem, at + i, src[i..k])
  {
  }

  lemma SpliceNothing(mem: seq<Byte>, at: nat, src: seq<Byte>, i: nat)
    requires i <= |src| && at + |src| <= |mem|
    ensures Splice(mem, at + i, src[i..i]) == mem
  {
  }

  /** What a write did that got from byte `i` to byte `k`. */
  predicate GotTo(d: Device, off: nat, src: seq<Byte>, i: nat, k: nat, d': Device, err: DevErr)
    requires i <= k <= |src| && off + |src| <= |d.mem|
  {
    && d' == Device(Splice(d.mem, off + i, src[i..k]), d'.failNext, d.failAfter)
    && (forall j :: i <= j < k ==> Programmable(d.mem[off + j], src[j]))
    && (d.failNext && i < k ==> k <= d.failAfter)
    && (err == DevOk <==> k == |src|) && (err == DevOk ==> d'.failNext == d.failNext)
    && (k < |src| ==>
        if d.failNext && k >= d.failAfter then err == DevFail && !d'.failNext
        else !Programmable(d.mem[off + k], src[k]) && err == DevInvalidState && d'.failNext == d.failNext)
  }

  lemma GotOneMore(d: Device, off: nat, src: seq<Byte>, i: nat, k: nat, d': Device, err: DevErr)
    requires i < k <= |src| && off + |src| <= |d.mem| && Programmable(d.mem[off + i], src[i])
    requires !(d.failNext && i >= d.failAfter)
    requires GotTo(d.(mem := d.mem[off + i := src[i]]), off, src, i + 1, k, d', err)
    ensures GotTo(d, off, src, i, k, d', err)
  {
    hide Splice, Programmable;
    SpliceOneMore(d.mem, off, src, i, k);
    var d1 := d.(mem := d.mem[off + i := src[i]]);
    forall j | i <= j < k
      ensures Programmable(d.mem[off + j], src[j])
    {
      if j > i {
        assert d1.mem[off + j] == d.mem[off + j] && Programmable(d1.mem[off + j], src[j]);
      }
    }
    if k < |src| {
      assert d1.mem[off + k] == d.mem[off + k];
    }
  }

  lemma {:induction false} ProgramOutcomeFrom(d: Device, off: nat, src: seq<Byte>, i: nat) returns (k: nat)
    requires i <= |src| && off + |src| <= |d.mem|
    ensures i <= k <= |src|
    ensures GotTo(d, off, src, i, k, ProgramFrom(d, off, src, i).0, ProgramFrom(d, off, src, i).1)
    decreases |src| - i
  {
    hide Splice, ProgramFrom, Programmable, Combined;
    ProgramFromUnfolds(d, off, src, i);
    SpliceNothing(d.mem, off, src, i);
    k := i;
    if i < |src| && !(d.failNext && i >= d.failAfter) && Programmable(d.mem[off + i], src[i]) {
      ProgramStep(d, off, src, i);
      var d1 := d.(mem := d.mem[off + i := src[i]]);
      hide GotTo;
      k := ProgramOutcomeFrom(d1, off, src, i + 1);
      var r := ProgramFrom(d, off, src, i);
      GotOneMore(d, off, src, i, k, r.0, r.1);
    }
  }

  /**
   * Exactly what a write does on any cells: beyond the device nothing; otherwise the first `k` bytes arrive, up to the
   * fault that waits or to the first byte with a bit that the cell has lost.
   */
  lemma ProgramOutcome(d: Device, off: nat, src: seq<Byte>) returns (k: nat)
    ensures off + |src| > |d.mem| ==> Program(d, off, src) == (d, DevInvalidSize)
    ensures off + |src| <= |d.mem| ==>
              var (d', err) := Program(d, off, src);
              && k <= |src| && d' == Device(Splice(d.mem, off, src[..k]), d'.failNext, d.failAfter)
              && (forall j :: 0 <= j < k ==> d.mem[off + j] & src[j] == src[j])
              && (d.failNext && 0 < k ==> k <= d.failAfter)
              && (err == DevOk <==> k == |src|) && (err == DevOk ==> d'.failNext == d.failNext)
              && (k < |src| ==>
                  if d.failNext && k >= d.failAfter then err == DevFail && !d'.failNext
                  else d.mem[off + k] & src[k] != src[k] && err == DevInvalidState && d'.failNext == d.failNext)
  {
    hide Splice, ProgramFrom, Programmable;
    k := 0;
    if off + |src| <= |d.mem| {
      k := ProgramOutcomeFrom(d, off, src, 0);
      assert src[0..k] == src[..k];
      forall j | 0 <= j < |src|
        ensures Programmable(d.mem[off + j], src[j]) <==> d.mem[off + j] & src[j] == src[j]
      {
        ProgrammableIff(d.mem[off + j], src[j]);
      }
    }
  }

  /** An erase takes whole sectors inside the device, sets every cell of them and touches nothing else. */
  lemma EraseLaw(d: Device, sector: nat, off: nat, size: nat)
    requires sector > 0
    ensures off % sector != 0 || size % sector != 0 ==> Erase(d, sector, off, size) == (d, DevInvalidArg)
    ensures off % sector == 0 == size % sector && off + size > |d.mem| ==>
              Erase(d, sector, off, size) == (d, DevInvalidSize)
    ensures off % sector == 0 == size % sector && off + size <= |d.mem| ==>
              var (d', err) := Erase(d, sector, off, size);
              && err == DevOk && d' == d.(mem := d'.mem) && |d'.mem| == |d.mem|
              && forall i :: 0 <= i < |d.mem| ==> d'.mem[i] == if off <= i < off + size then 0xFF else d.mem[i]
  {
  }

  // ---------- The device itself ----------

  class MockFlash {
    const memory: array<Byte>
    const sector: nat
    var failNextWrite: bool
    var failAfterBytes: nat

    ghost function State(): Device
      reads this, memory
    {
      Device(memory[..], failNextWrite, failAfterBytes)
    }

    constructor (size: nat, sectorSize: nat)
      ensures State() == Device(Blank(size), false, 0)
      ensures sector == sectorSize && fresh(memory)
    {
      memory := new Byte[size](_ => ERASED);
      sector := sectorSize;
      failNextWrite := false;
      failAfterBytes := 0;
      new;
      assert memory[..] == Blank(size);
    }

    method InjectWriteFailure(afterBytes: nat)
      modifies this
      ensures State() == old(State()).(failNext := true, failAfter := afterBytes)
    {
      failNextWrite := true;
      failAfterBytes := afterBytes;
    }

    method Read(off: nat, size: nat) returns (data: seq<Byte>, err: DevErr)
      ensures err == if off + size > memory.Length then DevInvalidSize else DevOk
      ensures err == DevOk ==> data == memory[off..off + size]
    {
      if off + size > memory.Length {
        return [], DevInvalidSize;
      }
      return memory[off..off + size], DevOk;
    }

    /** The rule of one cell: bits can only go from 1 to 0. */
    method ProgramCell(at: nat, newVal: Byte) returns (ok: bool)
      requires at < memory.Length
      modifies memory
      ensures ok == Programmable(old(memory[at]), newVal)
      ensures memory[..] == if ok then old(memory[..])[at := Combined(old(memory[at]), newVal)] else old(memory[..])
    {
      var oldVal := memory[at];
      ok := newVal & !oldVal == 0;
      if ok {
        memory[at] := oldVal & newVal;
      }
    }

    method Write(off: nat, src: seq<Byte>) returns (err: DevErr)
      modifies this, memory
      ensures (State(), err) == Program(old(State()), off, src)
    {
      hide ProgramFrom, Program, Programmable, Combined;
      ghost var target := Program(State(), off, src);
      ProgramUnfolds(State(), off, src);
      err := DevOk;
      if off + |src| > memory.Length {
        return DevInvalidSize;
      }
      var idx := 0;
      while idx < |src| && err == DevOk
        invariant idx <= |src| && off + |src| <= memory.Length
        invariant target == if err == DevOk then ProgramFrom(State(), off, src, idx) else (State(), err)
        decreases |src| - idx, err == DevOk
      {
        ProgramFromUnfolds(State(), off, src, idx);
        if failNextWrite && idx >= failAfterBytes {
          failNextWrite := false;
          err := DevFail;
        } else {
          var ok := ProgramCell(off + idx, src[idx]);
          if !ok {
            err := DevInvalidState;
          } else {
            idx := idx + 1;
          }
        }
      }
      if err == DevOk {
        ProgramFromUnfolds(State(), off, src, idx);
      }
    }

    method EraseRange(off: nat, size: nat) returns (err: DevErr)
      requires sector > 0
      modifies memory
      ensures (State(), err) == Erase(old(State()), sector, off, size)
    {
      if off % sector != 0 || size % sector != 0 {
        return DevInvalidArg;
      } else if off + size > memory.Length {
        return DevInvalidSize;
      }
      ghost var before := memory[..];
      forall i | off <= i < off + size {
        memory[i] := ERASED;
      }
      assert memory[..] == Splice(before, off, Blank(size));
      return DevOk;
    }
  }
}
