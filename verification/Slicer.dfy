/** The Modbus slicer: bytes are gathered in a slab until the line falls silent. */
module Slicer {
  import opened Bytes
  import opened Layout
  import opened RecoverySpec

  /** Bytes a slab holds. */
  const SLAB_SIZE: nat := 512

  // ---------- As functions ----------

  /** `held` is the content of the slab, if there is one; `start` and `last` the time stamps kept with it. */
  datatype State = State(held: Option<seq<Byte>>, start: int, last: int)

  datatype Output = Nothing | Frame(bytes: seq<Byte>, timestamp: int) | Overflow(timestamp: int) | NoMem(timestamp: int)

  /** What a call does: the new state, what it hands to the frame callback, and which bytes it drops. */
  datatype Result = Result(s: State, out: Output, dropped: seq<Byte>)

  function Told(hasCallback: bool, out: Output): Output {
    if hasCallback then out else Nothing
  }

  /** New bytes; `available` says whether the pool has a slab. */
  function Feed(s: State, src: seq<Byte>, timestamp: int, available: bool, hasCallback: bool): Result {
    if src == [] then Result(s.(last := timestamp), Nothing, [])
    else
      var s1 := if s.held.Some? then s else State(if available then Some([]) else None, timestamp, s.last);
      if s1.held.None? then Result(s1.(last := timestamp), Told(hasCallback, NoMem(s1.start)), src)
      else if |s1.held.value| + |src| > SLAB_SIZE
      then Result(State(Some([]), s1.start, timestamp), Told(hasCallback, Overflow(s1.start)), s1.held.value + src)
      else Result(State(Some(s1.held.value + src), s1.start, timestamp), Nothing, [])
  }

  /** The line was silent: hand the slab on, or clear it if nobody takes it. */
  function Timeout(s: State, hasCallback: bool): Result {
    if s.held.None? || s.held.value == [] then Result(s, Nothing, [])
    else if hasCallback then Result(s.(held := None), Frame(s.held.value, s.start), [])
    else Result(s.(held := Some([])), Nothing, s.held.value)
  }

  /** Silent for longer than `t35` by the clock. */
  function CheckTimeout(s: State, now: int, t35: int, hasCallback: bool): Result {
    if s.held.Some? && s.held.value != [] && now - s.last > t35 then Timeout(s, hasCallback) else Result(s, Nothing, [])
  }

  /** 3.5 character times and a fifth more, in microseconds. */
  function SilenceTime(bits: nat, baudrate: nat): int
    requires baudrate > 0
  {
    var t1 := bits * 1_000_000 / baudrate;
    var t35 := 7 * t1 / 2;
    t35 + t35 / 5
  }

  lemma SilenceOf(bits: nat, baudrate: nat, t1: nat)
    requires baudrate > 0 && t1 == bits * 1_000_000 / baudrate
    ensures SilenceTime(bits, baudrate) == 7 * t1 / 2 + 7 * t1 / 2 / 5
    ensures t1 * baudrate <= bits * 1_000_000 < (t1 + 1) * baudrate
  {
    var n := bits * 1_000_000;
    assert n == t1 * baudrate + n % baudrate;
    assert (t1 + 1) * baudrate == t1 * baudrate + baudrate;
  }

  /** From six microseconds a character on, the extra fifth covers what rounding takes away. */
  lemma RoundingCovered(t1: nat, n: nat, baudrate: nat)
    requires t1 >= 6 && n < (t1 + 1) * baudrate
    ensures 7 * n <= 2 * (7 * t1 / 2 + 7 * t1 / 2 / 5) * baudrate
  {
    var total := 7 * t1 / 2 + 7 * t1 / 2 / 5;
    assert 2 * total >= 7 * (t1 + 1);
    MulLe(7 * (t1 + 1), 2 * total, baudrate);
    assert 7 * (t1 + 1) * baudrate == 7 * ((t1 + 1) * baudrate);
  }

  /**
   * The silence waited for, against 3.5 real character times: it is no shorter if and only if a character takes six
   * microseconds or more in whole numbers, or two to five with at most a seventh of that cut off. In particular one
   * microsecond is never enough.
   */
  lemma SilenceIsLongEnoughIff(bits: nat, baudrate: nat)
    requires baudrate > 0
    ensures var n, t1 := bits * 1_000_000, bits * 1_000_000 / baudrate;
            7 * n <= 2 * SilenceTime(bits, baudrate) * baudrate <==>
              n == 0 || t1 >= 6 || (t1 >= 2 && 7 * n <= 8 * t1 * baudrate)
    ensures 10 * SilenceTime(bits, baudrate) <= 42 * (bits * 1_000_000 / baudrate)
  {
    var n, t1 := bits * 1_000_000, bits * 1_000_000 / baudrate;
    SilenceOf(bits, baudrate, t1);
    hide SilenceTime;
    if t1 >= 6 {
      RoundingCovered(t1, n, baudrate);
    } else {
      ShortCharacters(t1);
    }
  }

  /** A character of 2.97 microseconds counts as two, and the silence of eight falls short of 10.4. */
  lemma FastLineFallsShort()
    ensures 7 * (11 * 1_000_000) > 2 * SilenceTime(11, 3_700_000) * 3_700_000
  {
    SilenceOf(11, 3_700_000, 2);
    hide SilenceTime;
  }

  /** Characters of 11 bits at the usual rates: the silence in microseconds. */
  lemma UsualRates()
    ensures SilenceTime(11, 9_600) == 4808 && SilenceTime(11, 19_200) == 2402 && SilenceTime(11, 115_200) == 398
  {
  }

  lemma ShortCharacters(t1: nat)
    requires t1 < 6
    ensures 7 * t1 / 2 + 7 * t1 / 2 / 5 == if t1 >= 2 then 4 * t1 else 3 * t1
  {
  }

  // ---------- Runs ----------

  datatype Input = Fed(src: seq<Byte>, timestamp: int, available: bool) | Silent | Clock(now: int)

  /** Where bytes went. */
  datatype Fate = Emitted(bytes: seq<Byte>, timestamp: int) | Dropped(bytes: seq<Byte>)

  datatype Line = Line(s: State, ledger: seq<Fate>)

  function Call(s: State, input: Input, t35: int, hasCallback: bool): Result {
    match input
    case Fed(src, timestamp, available) => Feed(s, src, timestamp, available, hasCallback)
    case Silent => Timeout(s, hasCallback)
    case Clock(now) => CheckTimeout(s, now, t35, hasCallback)
  }

  function Entries(r: Result): seq<Fate> {
    (if r.out.Frame? then [Emitted(r.out.bytes, r.out.timestamp)] else [])
        + (if r.dropped != [] then [Dropped(r.dropped)] else [])
  }

  function Run(x: Line, inputs: seq<Input>, t35: int, hasCallback: bool): Line
    decreases |inputs|
  {
    if inputs == [] then x
    else
      var r := Call(x.s, inputs[0], t35, hasCallback);
      Run(Line(r.s, x.ledger + Entries(r)), inputs[1..], t35, hasCallback)
  }

  function Idle(): Line {
    Line(State(None, 0, 0), [])
  }

  function BytesOf(ledger: seq<Fate>): seq<Byte> {
    if ledger == [] then [] else BytesOf(ledger[..|ledger| - 1]) + ledger[|ledger| - 1].bytes
  }

  function Pending(s: State): seq<Byte> {
    if s.held.Some? then s.held.value else []
  }

  function FedBytes(inputs: seq<Input>): seq<Byte> {
    if inputs == [] then [] else (if inputs[0].Fed? then inputs[0].src else []) + FedBytes(inputs[1..])
  }

  // ---------- Conservation ----------

  lemma BytesOfMore(ledger: seq<Fate>, fate: Fate)
    ensures BytesOf(ledger + [fate]) == BytesOf(ledger) + fate.bytes
    ensures ledger + [] == ledger
  {
    assert (ledger + [fate])[..|ledger|] == ledger;
  }

  lemma CallConserves(s: State, input: Input, t35: int, hasCallback: bool, ledger: seq<Fate>)
    ensures var r := Call(s, input, t35, hasCallback);
            BytesOf(ledger + Entries(r)) + Pending(r.s) ==
            BytesOf(ledger) + Pending(s) + (if input.Fed? then input.src else [])
  {
    hide *;
    var r := Call(s, input, t35, hasCallback);
    CallEntries(s, input, t35, hasCallback);
    Accounted(ledger, Entries(r), Pending(r.s), Pending(s), if input.Fed? then input.src else []);
  }

  lemma Accounted(ledger: seq<Fate>, entries: seq<Fate>, pending': seq<Byte>, pending: seq<Byte>, arrived: seq<Byte>)
    requires |entries| <= 1 && (if entries == [] then [] else entries[0].bytes) + pending' == pending + arrived
    ensures BytesOf(ledger + entries) + pending' == BytesOf(ledger) + pending + arrived
  {
    hide BytesOf;
    assert BytesOf(ledger) + (pending + arrived) == BytesOf(ledger) + pending + arrived;
    if entries == [] {
      assert ledger + entries == ledger && [] + pending' == pending';
    } else {
      BytesOfMore(ledger, entries[0]);
      assert entries == [entries[0]];
    }
  }

  /** One call accounts for what was pending and what came in; it makes at most one entry. */
  lemma CallEntries(s: State, input: Input, t35: int, hasCallback: bool)
    ensures var r := Call(s, input, t35, hasCallback);
            && |Entries(r)| <= 1
            && (if Entries(r) == [] then [] else Entries(r)[0].bytes) + Pending(r.s) ==
               Pending(s) + (if input.Fed? then input.src else [])
  {
    match input
    case Fed(src, timestamp, available) => FeedEntries(s, src, timestamp, available, hasCallback);
    case Silent =>
    case Clock(now) =>
  }

  lemma FeedEntries(s: State, src: seq<Byte>, timestamp: int, available: bool, hasCallback: bool)
    ensures var r := Feed(s, src, timestamp, available, hasCallback);
            && |Entries(r)| <= 1
            && (if Entries(r) == [] then [] else Entries(r)[0].bytes) + Pending(r.s) == Pending(s) + src
  {
    assert [] + src == src;
  }

  /**
   * Conservation: for every sequence of calls, whether slabs are available and a callback is registered or not,
   * the bytes emitted, the bytes dropped and the bytes pending are exactly the bytes fed, in order.
   */
  lemma {:induction false} BytesConserved(x: Line, inputs: seq<Input>, t35: int, hasCallback: bool)
    ensures var y := Run(x, inputs, t35, hasCallback);
            BytesOf(y.ledger) + Pending(y.s) == BytesOf(x.ledger) + Pending(x.s) + FedBytes(inputs)
    decreases |inputs|
  {
    hide BytesOf, Call, Entries, Pending;
    if inputs != [] {
      var r := Call(x.s, inputs[0], t35, hasCallback);
      CallConserves(x.s, inputs[0], t35, hasCallback, x.ledger);
      BytesConserved(Line(r.s, x.ledger + Entries(r)), inputs[1..], t35, hasCallback);
    }
  }

  /** Emitted frames have 1 to 512 bytes; the slab never holds more than it can. */
  predicate Sized(x: Line) {
    && |Pending(x.s)| <= 512
    && forall i :: 0 <= i < |x.ledger| ==> x.ledger[i].Emitted? ==> 1 <= |x.ledger[i].bytes| <= 512
  }

  lemma {:induction false} FramesAreSized(x: Line, inputs: seq<Input>, t35: int, hasCallback: bool)
    requires Sized(x)
    ensures Sized(Run(x, inputs, t35, hasCallback))
    decreases |inputs|
  {
    if inputs != [] {
      var r := Call(x.s, inputs[0], t35, hasCallback);
      FramesAreSized(Line(r.s, x.ledger + Entries(r)), inputs[1..], t35, hasCallback);
    }
  }

  // ---------- Chunks between silences ----------

  /** One frame on the line, delivered in any chunks, then silence. */
  function Delivery(chunks: seq<seq<Byte>>): seq<Input> {
    if chunks == [] then [Silent] else [Fed(chunks[0], 0, true)] + Delivery(chunks[1..])
  }

  function Deliveries(frames: seq<seq<seq<Byte>>>): seq<Input> {
    if frames == [] then [] else Delivery(frames[0]) + Deliveries(frames[1..])
  }

  lemma {:induction false} RunSplits(x: Line, a: seq<Input>, b: seq<Input>, t35: int, hasCallback: bool)
    ensures Run(x, a + b, t35, hasCallback) == Run(Run(x, a, t35, hasCallback), b, t35, hasCallback)
    decreases |a|
  {
    hide Call, Entries;
    if a == [] {
      assert a + b == b;
    } else {
      var r := Call(x.s, a[0], t35, hasCallback);
      assert (a + b)[1..] == a[1..] + b;
      RunSplits(Line(r.s, x.ledger + Entries(r)), a[1..], b, t35, hasCallback);
    }
  }

  /** The emitted frames of a ledger, time stamps aside. */
  function FramesOf(ledger: seq<Fate>): seq<seq<Byte>> {
    if ledger == [] then []
    else FramesOf(ledger[..|ledger| - 1]) + (if ledger[|ledger| - 1].Emitted? then [ledger[|ledger| - 1].bytes] else [])
  }

  predicate NoDrops(ledger: seq<Fate>) {
    forall i :: 0 <= i < |ledger| ==> ledger[i].Emitted?
  }

  /** Frames that are not empty. */
  function NonEmpty(frames: seq<seq<seq<Byte>>>): seq<seq<Byte>> {
    if frames == [] then []
    else (if Flat(frames[0]) == [] then [] else [Flat(frames[0])]) + NonEmpty(frames[1..])
  }

  lemma FramesOfMore(ledger: seq<Fate>, fate: Fate)
    ensures FramesOf(ledger + [fate]) == FramesOf(ledger) + (if fate.Emitted? then [fate.bytes] else [])
    ensures ledger + [] == ledger
  {
    assert (ledger + [fate])[..|ledger|] == ledger;
  }

  lemma NoDropsOfMore(ledger: seq<Fate>, fate: Fate)
    ensures NoDrops(ledger + [fate]) <==> NoDrops(ledger) && fate.Emitted?
  {
    var more := ledger + [fate];
    assert more[|ledger|] == fate;
    assert forall i :: 0 <= i < |ledger| ==> more[i] == ledger[i];
  }

  /** One chunk is gathered, or with what was gathered dropped. */
  lemma ChunkLaw(s: State, chunk: seq<Byte>, t35: int)
    requires |Pending(s)| <= SLAB_SIZE
    ensures var r := Call(s, Fed(chunk, 0, true), t35, true);
            && |Pending(r.s)| <= SLAB_SIZE
            && (|Pending(s) + chunk| <= SLAB_SIZE ==> Entries(r) == [] && Pending(r.s) == Pending(s) + chunk)
            && (|Pending(s) + chunk| > SLAB_SIZE ==> Entries(r) == [Dropped(Pending(s) + chunk)] && Pending(r.s) == [])
  {
  }

  lemma SilentLaw(s: State, t35: int)
    ensures var r := Call(s, Silent, t35, true);
            && Pending(r.s) == []
            && Entries(r) == if Pending(s) == [] then [] else [Emitted(Pending(s), s.start)]
  {
  }

  lemma RunUnfolds(x: Line, inputs: seq<Input>, t35: int, hasCallback: bool)
    requires inputs != []
    ensures var r := Call(x.s, inputs[0], t35, hasCallback);
            Run(x, inputs, t35, hasCallback) == Run(Line(r.s, x.ledger + Entries(r)), inputs[1..], t35, hasCallback)
    ensures Run(x, [], t35, hasCallback) == x
  {
    hide Call, Entries;
  }

  lemma DeliveryUnfolds(chunks: seq<seq<Byte>>)
    ensures chunks == [] ==> Delivery(chunks) == [Silent] && Flat(chunks) == []
    ensures chunks != [] ==> Delivery(chunks) != [] && Delivery(chunks)[0] == Fed(chunks[0], 0, true)
    ensures chunks != [] ==>
            Delivery(chunks)[1..] == Delivery(chunks[1..]) && Flat(chunks) == chunks[0] + Flat(chunks[1..])
  {
  }

  /** What one delivery adds to the ledger if it fits the slab, and that it drops something if it does not. */
  lemma {:induction false} DeliveryLaw(x: Line, chunks: seq<seq<Byte>>, t35: int)
    requires |Pending(x.s)| <= SLAB_SIZE
    ensures var y := Run(x, Delivery(chunks), t35, true);
            var whole := Pending(x.s) + Flat(chunks);
            && Pending(y.s) == [] && x.ledger <= y.ledger
            && (|whole| <= SLAB_SIZE ==>
                  && FramesOf(y.ledger) == FramesOf(x.ledger) + (if whole == [] then [] else [whole])
                  && (NoDrops(y.ledger) <==> NoDrops(x.ledger)))
            && (|whole| > SLAB_SIZE ==> !NoDrops(y.ledger))
    decreases |chunks|
  {
    hide FramesOf, NoDrops, Call, Entries, Pending, Delivery, Flat, Run;
    DeliveryUnfolds(chunks);
    var inputs := Delivery(chunks);
    RunUnfolds(x, inputs, t35, true);
    var r := Call(x.s, inputs[0], t35, true);
    var x1 := Line(r.s, x.ledger + Entries(r));
    if chunks == [] {
      SilentLaw(x.s, t35);
      assert inputs[1..] == [];
      RunUnfolds(x1, [Silent], t35, true);
      assert Pending(x.s) + Flat(chunks) == Pending(x.s);
      FramesOfMore(x.ledger, Emitted(Pending(x.s), x.s.start));
      NoDropsOfMore(x.ledger, Emitted(Pending(x.s), x.s.start));
    } else {
      ChunkLaw(x.s, chunks[0], t35);
      DeliveryLaw(x1, chunks[1..], t35);
      var y := Run(x1, Delivery(chunks[1..]), t35, true);
      assert Pending(x.s) + Flat(chunks) == (Pending(x.s) + chunks[0]) + Flat(chunks[1..]);
      if |Pending(x.s) + chunks[0]| <= SLAB_SIZE {
        assert x1.ledger == x.ledger;
      } else {
        NoDropsOfMore(x.ledger, Dropped(Pending(x.s) + chunks[0]));
        DropsStay(x1.ledger, y.ledger);
      }
    }
  }

  lemma DropsStay(a: seq<Fate>, b: seq<Fate>)
    requires a <= b
    ensures NoDrops(b) ==> NoDrops(a)
  {
  }

  predicate AllFit(frames: seq<seq<seq<Byte>>>) {
    forall i :: 0 <= i < |frames| ==> |Flat(frames[i])| <= SLAB_SIZE
  }

  /**
   * With a slab always at hand, nothing is dropped if and only if every frame on the line fits a slab; then the
   * frames emitted are exactly the frames on the line, however the driver cut them into chunks.
   */
  lemma {:induction false} FramesIndependentOfChunks(x: Line, frames: seq<seq<seq<Byte>>>, t35: int)
    requires Pending(x.s) == []
    ensures var y := Run(x, Deliveries(frames), t35, true);
            && x.ledger <= y.ledger
            && (NoDrops(y.ledger) <==> NoDrops(x.ledger) && AllFit(frames))
            && (AllFit(frames) ==> FramesOf(y.ledger) == FramesOf(x.ledger) + NonEmpty(frames))
    decreases |frames|
  {
    hide FramesOf, NoDrops, Delivery, Flat, Call, Run, Pending;
    if frames == [] {
      assert FramesOf(x.ledger) + [] == FramesOf(x.ledger);
      RunOfNothing(x, t35);
    } else {
      var y := Run(x, Delivery(frames[0]), t35, true);
      RunSplits(x, Delivery(frames[0]), Deliveries(frames[1..]), t35, true);
      DeliveryLaw(x, frames[0], t35);
      FramesIndependentOfChunks(y, frames[1..], t35);
      assert [] + Flat(frames[0]) == Flat(frames[0]);
      assert frames == [frames[0]] + frames[1..];
      DropsStay(y.ledger, Run(y, Deliveries(frames[1..]), t35, true).ledger);
    }
  }

  lemma RunOfNothing(x: Line, t35: int)
    ensures Run(x, [], t35, true) == x
  {
  }

  // ---------- Frames that do not fit ----------

  /** What the driver hands over in one call at most. */
  const DRIVER_CHUNK: nat := 256

  predicate FromDriver(chunks: seq<seq<Byte>>) {
    forall i :: 0 <= i < |chunks| ==> |chunks[i]| <= DRIVER_CHUNK
  }

  /** The frames emitted for one frame on the line, cut into `chunks`, by a slicer that is idle. */
  function FramesFor(chunks: seq<seq<Byte>>, t35: int): seq<seq<Byte>> {
    FramesOf(Run(Idle(), Delivery(chunks), t35, true).ledger)
  }

  lemma IdleHoldsNothing()
    ensures Pending(Idle().s) == [] && FramesOf(Idle().ledger) == []
  {
  }

  /** The first chunk of a delivery. */
  lemma FirstChunk(x: Line, chunks: seq<seq<Byte>>, t35: int) returns (x1: Line)
    requires |Pending(x.s)| <= SLAB_SIZE && chunks != []
    ensures Run(x, Delivery(chunks), t35, true) == Run(x1, Delivery(chunks[1..]), t35, true)
    ensures Flat(chunks) == chunks[0] + Flat(chunks[1..]) && FramesOf(x1.ledger) == FramesOf(x.ledger)
    ensures Pending(x1.s) == if |Pending(x.s) + chunks[0]| <= SLAB_SIZE then Pending(x.s) + chunks[0] else []
  {
    hide FramesOf, Call, Entries, Pending, Flat, Run, Delivery;
    DeliveryUnfolds(chunks);
    RunUnfolds(x, Delivery(chunks), t35, true);
    ChunkLaw(x.s, chunks[0], t35);
    var r := Call(x.s, Fed(chunks[0], 0, true), t35, true);
    x1 := Line(r.s, x.ledger + Entries(r));
    if Entries(r) == [] {
      assert x1.ledger == x.ledger;
    } else {
      FramesOfMore(x.ledger, Dropped(Pending(x.s) + chunks[0]));
    }
  }

  /** One byte too many: whatever the chunks, the one that overflows is the last with a byte in it. */
  lemma {:induction false} OneTooMany(x: Line, chunks: seq<seq<Byte>>, t35: int)
    requires |Pending(x.s)| <= SLAB_SIZE && |Pending(x.s) + Flat(chunks)| == SLAB_SIZE + 1
    ensures FramesOf(Run(x, Delivery(chunks), t35, true).ledger) == FramesOf(x.ledger)
    decreases |chunks|
  {
    hide FramesOf, Pending, Flat, Run, Delivery;
    DeliveryUnfolds(chunks);
    var x1 := FirstChunk(x, chunks, t35);
    assert Pending(x.s) + Flat(chunks) == (Pending(x.s) + chunks[0]) + Flat(chunks[1..]);
    if |Pending(x.s) + chunks[0]| <= SLAB_SIZE {
      OneTooMany(x1, chunks[1..], t35);
    } else {
      DeliveryLaw(x1, chunks[1..], t35);
      assert Pending(x1.s) + Flat(chunks[1..]) == [];
      assert FramesOf(x1.ledger) + [] == FramesOf(x1.ledger);
    }
  }

  /** Up to one byte more than a slab holds, what is emitted is a function of the frame. */
  lemma SmallFrames(chunks: seq<seq<Byte>>, t35: int)
    requires |Flat(chunks)| <= 513
    ensures FramesFor(chunks, t35) == if Flat(chunks) == [] || |Flat(chunks)| == 513 then [] else [Flat(chunks)]
  {
    hide FramesOf, Pending, Flat, Run, Delivery;
    IdleHoldsNothing();
    assert [] + Flat(chunks) == Flat(chunks);
    if |Flat(chunks)| <= SLAB_SIZE {
      DeliveryLaw(Idle(), chunks, t35);
    } else {
      OneTooMany(Idle(), chunks, t35);
    }
  }

  /** At most a slab of bytes in chunks as the driver makes them. */
  function Halves(bytes: seq<Byte>): (chunks: seq<seq<Byte>>)
    requires |bytes| <= SLAB_SIZE
    ensures FromDriver(chunks)
  {
    if |bytes| <= DRIVER_CHUNK then [bytes] else [bytes[..DRIVER_CHUNK], bytes[DRIVER_CHUNK..]]
  }

  lemma HalvesJoin(bytes: seq<Byte>)
    requires |bytes| <= SLAB_SIZE
    ensures Flat(Halves(bytes)) == bytes
  {
    if |bytes| <= DRIVER_CHUNK {
      FlatOne(bytes);
    } else {
      FlatOne(bytes[DRIVER_CHUNK..]);
      assert Halves(bytes)[1..] == [bytes[DRIVER_CHUNK..]];
    }
  }

  /** A full slab in two chunks, a third chunk of `n` bytes that overflows it, then `rest`. */
  function Lead(bytes: seq<Byte>, n: nat, rest: seq<seq<Byte>>): (chunks: seq<seq<Byte>>)
    requires n <= DRIVER_CHUNK && SLAB_SIZE + n <= |bytes|
    ensures FromDriver(rest) ==> FromDriver(chunks)
  {
    [bytes[..DRIVER_CHUNK], bytes[DRIVER_CHUNK..SLAB_SIZE], bytes[SLAB_SIZE..SLAB_SIZE + n]] + rest
  }

  /** Two chunks that fill the slab and one more: all three are dropped. */
  lemma ThreeDropped(x: Line, p: seq<Byte>, q: seq<Byte>, r: seq<Byte>, rest: seq<seq<Byte>>, t35: int)
    returns (y: Line)
    requires Pending(x.s) == [] && |p| + |q| == SLAB_SIZE && r != []
    ensures Flat([p, q, r] + rest) == p + (q + (r + Flat(rest)))
    ensures Pending(y.s) == [] && FramesOf(y.ledger) == FramesOf(x.ledger)
    ensures Run(x, Delivery([p, q, r] + rest), t35, true) == Run(y, Delivery(rest), t35, true)
  {
    hide FramesOf, Pending, Flat, Run, Delivery;
    var c, c1, c2 := [p, q, r] + rest, [q, r] + rest, [r] + rest;
    assert c[1..] == c1 && c1[1..] == c2 && c2[1..] == rest;
    assert [] + p == p;
    var x1 := FirstChunk(x, c, t35);
    var x2 := FirstChunk(x1, c1, t35);
    y := FirstChunk(x2, c2, t35);
  }

  lemma Quartered(bytes: seq<Byte>, a: nat, b: nat, c: nat)
    requires a <= b <= c <= |bytes|
    ensures bytes[..a] + (bytes[a..b] + (bytes[b..c] + bytes[c..])) == bytes
  {
    assert bytes[b..c] + bytes[c..] == bytes[b..];
    assert bytes[a..b] + bytes[b..] == bytes[a..];
  }

  /** What leads is dropped, and the rest is delivered to an empty slicer. */
  lemma LeadDrops(x: Line, bytes: seq<Byte>, n: nat, rest: seq<seq<Byte>>, t35: int) returns (y: Line)
    requires Pending(x.s) == [] && 1 <= n <= DRIVER_CHUNK && SLAB_SIZE + n <= |bytes|
    requires Flat(rest) == bytes[SLAB_SIZE + n..]
    ensures Flat(Lead(bytes, n, rest)) == bytes && Pending(y.s) == [] && FramesOf(y.ledger) == FramesOf(x.ledger)
    ensures Run(x, Delivery(Lead(bytes, n, rest)), t35, true) == Run(y, Delivery(rest), t35, true)
  {
    hide FramesOf, Pending, Flat, Run, Delivery;
    Quartered(bytes, DRIVER_CHUNK, SLAB_SIZE, SLAB_SIZE + n);
    var p, q, r := bytes[..DRIVER_CHUNK], bytes[DRIVER_CHUNK..SLAB_SIZE], bytes[SLAB_SIZE..SLAB_SIZE + n];
    y := ThreeDropped(x, p, q, r, rest, t35);
  }

  /** The rest is delivered whole. */
  lemma LeadThenWhole(x: Line, bytes: seq<Byte>, n: nat, t35: int)
    requires Pending(x.s) == [] && 1 <= n <= DRIVER_CHUNK && SLAB_SIZE + n <= |bytes| <= SLAB_SIZE + n + SLAB_SIZE
    ensures var rest := bytes[SLAB_SIZE + n..];
            && Flat(Lead(bytes, n, Halves(rest))) == bytes
            && FramesOf(Run(x, Delivery(Lead(bytes, n, Halves(rest))), t35, true).ledger) ==
               FramesOf(x.ledger) + if rest == [] then [] else [rest]
  {
    hide FramesOf, Pending, Flat, Run, Delivery, Lead, Halves;
    var rest := bytes[SLAB_SIZE + n..];
    HalvesJoin(rest);
    var y := LeadDrops(x, bytes, n, Halves(rest), t35);
    DeliveryLaw(y, Halves(rest), t35);
    assert [] + rest == rest;
  }

  /** Two ways to cut a longer frame, both within what the driver does, that give different results. */
  lemma {:induction false} TwoCuts(x: Line, bytes: seq<Byte>, t35: int) returns (a: seq<seq<Byte>>, b: seq<seq<Byte>>)
    requires Pending(x.s) == [] && |bytes| > SLAB_SIZE + 1
    ensures Flat(a) == Flat(b) == bytes && FromDriver(a) && FromDriver(b)
    ensures FramesOf(Run(x, Delivery(a), t35, true).ledger) != FramesOf(Run(x, Delivery(b), t35, true).ledger)
    decreases |bytes|
  {
    hide FramesOf, Pending, Flat, Run, Delivery, Lead, Halves;
    if |bytes| <= 2 * SLAB_SIZE + 1 {
      a, b := Lead(bytes, 1, Halves(bytes[SLAB_SIZE + 1..])), Lead(bytes, 2, Halves(bytes[SLAB_SIZE + 2..]));
      LeadThenWhole(x, bytes, 1, t35);
      LeadThenWhole(x, bytes, 2, t35);
      Differ(FramesOf(x.ledger), bytes[SLAB_SIZE + 1..], bytes[SLAB_SIZE + 2..]);
    } else if |bytes| == 2 * SLAB_SIZE + 2 {
      var rest := bytes[SLAB_SIZE + 1..];
      a, b := Lead(bytes, 2, Halves(bytes[SLAB_SIZE + 2..])), Lead(bytes, 1, [rest[..1]] + Halves(rest[1..]));
      LeadThenWhole(x, bytes, 2, t35);
      HalvesJoin(rest[1..]);
      OneInFront(rest);
      var y := LeadDrops(x, bytes, 1, [rest[..1]] + Halves(rest[1..]), t35);
      assert [] + rest == rest;
      OneTooMany(y, [rest[..1]] + Halves(rest[1..]), t35);
      Differ(FramesOf(x.ledger), bytes[SLAB_SIZE + 2..], []);
    } else {
      var rest := bytes[SLAB_SIZE + 1..];
      var c, d := TwoCuts(x, rest, t35);
      a, b := Lead(bytes, 1, c), Lead(bytes, 1, d);
      var y := LeadDrops(x, bytes, 1, c, t35);
      var z := LeadDrops(x, bytes, 1, d, t35);
      SameFrames(x, y, c, t35);
      SameFrames(x, z, d, t35);
    }
  }

  /** What a delivery emits depends only on what was pending. */
  lemma {:induction false} SameFrames(x: Line, y: Line, chunks: seq<seq<Byte>>, t35: int)
    requires Pending(x.s) == Pending(y.s) && |Pending(x.s)| <= SLAB_SIZE && FramesOf(x.ledger) == FramesOf(y.ledger)
    ensures FramesOf(Run(x, Delivery(chunks), t35, true).ledger) == FramesOf(Run(y, Delivery(chunks), t35, true).ledger)
    decreases |chunks|
  {
    hide FramesOf, Pending, Flat, Run, Delivery;
    if chunks == [] {
      DeliveryUnfolds(chunks);
      DeliveryLaw(x, chunks, t35);
      DeliveryLaw(y, chunks, t35);
    } else {
      var x1 := FirstChunk(x, chunks, t35);
      var y1 := FirstChunk(y, chunks, t35);
      SameFrames(x1, y1, chunks[1..], t35);
    }
  }

  lemma OneInFront(rest: seq<Byte>)
    requires 1 <= |rest| <= SLAB_SIZE + 1
    ensures Flat([rest[..1]] + Halves(rest[1..])) == rest && FromDriver([rest[..1]] + Halves(rest[1..]))
  {
    hide Halves;
    HalvesJoin(rest[1..]);
    var chunks := [rest[..1]] + Halves(rest[1..]);
    assert chunks[1..] == Halves(rest[1..]);
    assert rest[..1] + rest[1..] == rest;
  }

  lemma Differ(before: seq<seq<Byte>>, p: seq<Byte>, q: seq<Byte>)
    requires |p| != |q|
    ensures before + (if p == [] then [] else [p]) != before + (if q == [] then [] else [q])
  {
    var x, y := before + (if p == [] then [] else [p]), before + (if q == [] then [] else [q]);
    if p != [] && q != [] {
      assert x[|before|] == p && y[|before|] == q;
    }
  }

  /**
   * What is emitted for a frame on the line is the same however the driver cuts it if and only if the frame is at most
   * one byte longer than a slab holds: one byte too many always drops all of it, more can leave an end of it behind.
   */
  lemma CutsDoNotMatterIff(bytes: seq<Byte>, t35: int)
    ensures (forall a, b | FromDriver(a) && FromDriver(b) && Flat(a) == Flat(b) == bytes ::
               FramesFor(a, t35) == FramesFor(b, t35))
            <==> |bytes| <= 513
  {
    hide FramesFor, FromDriver, Flat;
    if |bytes| <= SLAB_SIZE + 1 {
      forall a, b | FromDriver(a) && FromDriver(b) && Flat(a) == Flat(b) == bytes
        ensures FramesFor(a, t35) == FramesFor(b, t35)
      {
        SmallFrames(a, t35);
        SmallFrames(b, t35);
      }
    } else {
      var a, b := CutsThatMatter(bytes, t35);
    }
  }

  lemma CutsThatMatter(bytes: seq<Byte>, t35: int) returns (a: seq<seq<Byte>>, b: seq<seq<Byte>>)
    requires |bytes| > SLAB_SIZE + 1
    ensures Flat(a) == Flat(b) == bytes && FromDriver(a) && FromDriver(b) && FramesFor(a, t35) != FramesFor(b, t35)
  {
    hide FramesOf, Pending, Flat, Run, Delivery, FromDriver;
    IdleHoldsNothing();
    a, b := TwoCuts(Idle(), bytes, t35);
  }

  // ---------- Time stamps ----------

  /** The state after the first `k` calls of a run from the start. */
  function StateAt(inputs: seq<Input>, k: nat, t35: int, hasCallback: bool): State
    requires k <= |inputs|
  {
    if k == 0 then Idle().s else Call(StateAt(inputs, k - 1, t35, hasCallback), inputs[k - 1], t35, hasCallback).s
  }

  /** Call `i` took the slab the slicer still has after call `n - 1`. */
  ghost predicate Took(inputs: seq<Input>, i: nat, n: nat, t35: int, hasCallback: bool)
    requires n <= |inputs|
  {
    && i < n && StateAt(inputs, i, t35, hasCallback).held.None?
    && forall k: nat :: i < k <= n ==> StateAt(inputs, k, t35, hasCallback).held.Some?
  }

  /** Call `j` brought the first of the bytes pending after call `n - 1`. */
  ghost predicate BroughtFirst(inputs: seq<Input>, j: nat, n: nat, t35: int, hasCallback: bool)
    requires n <= |inputs|
  {
    && j < n && Pending(StateAt(inputs, j, t35, hasCallback)) == []
    && forall k: nat :: j < k <= n ==> Pending(StateAt(inputs, k, t35, hasCallback)) != []
  }

  /** One of the calls `i..n` dropped bytes: an overflow, or silence with no callback. */
  ghost predicate DroppedSince(inputs: seq<Input>, i: nat, n: nat, t35: int, hasCallback: bool)
    requires n <= |inputs|
  {
    exists k: nat :: i <= k < n && Drops(inputs, k, t35, hasCallback)
  }

  predicate Drops(inputs: seq<Input>, k: nat, t35: int, hasCallback: bool)
    requires k < |inputs|
  {
    Call(StateAt(inputs, k, t35, hasCallback), inputs[k], t35, hasCallback).dropped != []
  }

  /** Which calls take a slab, keep its start, drop, or bring bytes. */
  lemma CallStamps(s: State, input: Input, t35: int, hasCallback: bool)
    ensures var r := Call(s, input, t35, hasCallback);
            && (s.held.None? && r.s.held.Some? ==> input.Fed? && r.s.start == input.timestamp)
            && (s.held.Some? && r.s.held.Some? ==> r.s.start == s.start)
            && (Pending(s) == [] && Pending(r.s) != [] ==> input.Fed?)
            && (r.s.held.Some? ==> (r.dropped != [] ==> Pending(r.s) == []))
            && (s.held.None? && r.s.held.Some? && r.dropped == [] ==> Pending(r.s) != [])
            && (s.held.Some? && Pending(s) != [] && r.s.held.Some? && r.dropped == [] ==> Pending(r.s) != [])
            && (s.held.None? ==> Pending(s) == []) && (Pending(r.s) != [] ==> r.s.held.Some?)
  {
  }

  lemma StateUnfolds(inputs: seq<Input>, k: nat, t35: int, hasCallback: bool)
    requires k < |inputs|
    ensures StateAt(inputs, k + 1, t35, hasCallback) ==
            Call(StateAt(inputs, k, t35, hasCallback), inputs[k], t35, hasCallback).s
    ensures StateAt(inputs, 0, t35, hasCallback).held.None?
  {
    hide Call;
  }

  /** From the call that took the slab on, the start is the stamp of that call. */
  lemma {:induction false} StartIsTaking(inputs: seq<Input>, i: nat, n: nat, k: nat, t35: int, hasCallback: bool)
    requires n <= |inputs| && Took(inputs, i, n, t35, hasCallback) && i < k <= n
    ensures inputs[i].Fed? && StateAt(inputs, k, t35, hasCallback).start == inputs[i].timestamp
    decreases k
  {
    hide Call, StateAt, Pending;
    StateUnfolds(inputs, k - 1, t35, hasCallback);
    CallStamps(StateAt(inputs, k - 1, t35, hasCallback), inputs[k - 1], t35, hasCallback);
    if k > i + 1 {
      StartIsTaking(inputs, i, n, k - 1, t35, hasCallback);
    }
  }

  /** As long as nothing is dropped, bytes stay pending from the call that took the slab on. */
  lemma {:induction false} PendingSinceTaking(inputs: seq<Input>, i: nat, n: nat, k: nat, t35: int, hasCallback: bool)
    requires n <= |inputs| && Took(inputs, i, n, t35, hasCallback) && i < k <= n
    requires !DroppedSince(inputs, i, n, t35, hasCallback)
    ensures Pending(StateAt(inputs, k, t35, hasCallback)) != []
    decreases k
  {
    hide Call, StateAt, Pending;
    StateUnfolds(inputs, k - 1, t35, hasCallback);
    CallStamps(StateAt(inputs, k - 1, t35, hasCallback), inputs[k - 1], t35, hasCallback);
    assert !Drops(inputs, k - 1, t35, hasCallback);
    if k > i + 1 {
      PendingSinceTaking(inputs, i, n, k - 1, t35, hasCallback);
    }
  }

  /**
   * The time stamp kept with pending bytes is that of the feed that brought the first of them if and only if nothing
   * was dropped, by an overflow or by silence without a callback, since the slab was taken, or the stamps of the two
   * feeds coincide. It always is the stamp of the feed that took the slab.
   */
  lemma StartIsFirstByteIff(inputs: seq<Input>, i: nat, j: nat, t35: int, hasCallback: bool)
    requires Took(inputs, i, |inputs|, t35, hasCallback) && BroughtFirst(inputs, j, |inputs|, t35, hasCallback)
    ensures i <= j && inputs[i].Fed? && inputs[j].Fed?
    ensures var s := StateAt(inputs, |inputs|, t35, hasCallback);
            && s.start == inputs[i].timestamp
            && (s.start == inputs[j].timestamp <==>
                !DroppedSince(inputs, i, |inputs|, t35, hasCallback) || inputs[i].timestamp == inputs[j].timestamp)
  {
    hide Call, StateAt, Pending, Drops;
    var n := |inputs|;
    StartIsTaking(inputs, i, n, n, t35, hasCallback);
    StateUnfolds(inputs, j, t35, hasCallback);
    CallStamps(StateAt(inputs, j, t35, hasCallback), inputs[j], t35, hasCallback);
    StateUnfolds(inputs, i, t35, hasCallback);
    CallStamps(StateAt(inputs, i, t35, hasCallback), inputs[i], t35, hasCallback);
    if !DroppedSince(inputs, i, n, t35, hasCallback) {
      NoDropMeansSame(inputs, i, j, t35, hasCallback);
    }
    if j < i {
      PendingNeedsSlab(inputs, i, t35, hasCallback);
    }
  }

  lemma PendingNeedsSlab(inputs: seq<Input>, k: nat, t35: int, hasCallback: bool)
    requires k <= |inputs| && StateAt(inputs, k, t35, hasCallback).held.None?
    ensures Pending(StateAt(inputs, k, t35, hasCallback)) == []
  {
    hide StateAt;
  }

  lemma NoDropMeansSame(inputs: seq<Input>, i: nat, j: nat, t35: int, hasCallback: bool)
    requires Took(inputs, i, |inputs|, t35, hasCallback) && BroughtFirst(inputs, j, |inputs|, t35, hasCallback)
    requires !DroppedSince(inputs, i, |inputs|, t35, hasCallback)
    ensures i == j
  {
    hide Call, StateAt, Pending, Drops, DroppedSince;
    if i < j {
      PendingSinceTaking(inputs, i, |inputs|, j, t35, hasCallback);
    } else if j < i {
      PendingNeedsSlab(inputs, i, t35, hasCallback);
    }
  }

  /** Pending bytes always have such feeds behind them. */
  lemma {:induction false} PendingHasOrigins(inputs: seq<Input>, n: nat, t35: int, hasCallback: bool)
    returns (i: nat, j: nat)
    requires n <= |inputs|
    ensures StateAt(inputs, n, t35, hasCallback).held.Some? ==> Took(inputs, i, n, t35, hasCallback)
    ensures Pending(StateAt(inputs, n, t35, hasCallback)) != [] ==> BroughtFirst(inputs, j, n, t35, hasCallback)
    decreases n
  {
    hide Call, StateAt, Pending;
    i, j := 0, 0;
    if n > 0 {
      i, j := PendingHasOrigins(inputs, n - 1, t35, hasCallback);
      if StateAt(inputs, n - 1, t35, hasCallback).held.None? {
        i := n - 1;
      }
      if Pending(StateAt(inputs, n - 1, t35, hasCallback)) == [] {
        j := n - 1;
      }
    } else {
      StateAtStart(inputs, t35, hasCallback);
    }
  }

  lemma StateAtStart(inputs: seq<Input>, t35: int, hasCallback: bool)
    ensures StateAt(inputs, 0, t35, hasCallback).held.None? && Pending(StateAt(inputs, 0, t35, hasCallback)) == []
  {
  }

  /** The states of a run are those of its prefixes, so that the above speaks of the frames a run emits. */
  lemma {:induction false} RunState(inputs: seq<Input>, k: nat, ledger: seq<Fate>, t35: int, hasCallback: bool)
    requires k <= |inputs|
    ensures Run(Line(StateAt(inputs, k, t35, hasCallback), ledger), inputs[k..], t35, hasCallback).s ==
            StateAt(inputs, |inputs|, t35, hasCallback)
    decreases |inputs| - k
  {
    hide Call, Entries, StateAt;
    var x := Line(StateAt(inputs, k, t35, hasCallback), ledger);
    if k < |inputs| {
      var r := Call(x.s, inputs[k], t35, hasCallback);
      StateUnfolds(inputs, k, t35, hasCallback);
      assert inputs[k..][1..] == inputs[k + 1..];
      RunState(inputs, k + 1, ledger + Entries(r), t35, hasCallback);
    }
  }

  lemma StepOf(x: Line, inputs: seq<Input>, t35: int, r: Result, y: Line, rest: seq<Input>)
    requires inputs != [] && r == Call(x.s, inputs[0], t35, true) && rest == inputs[1..]
    requires y.s == r.s && y.ledger == x.ledger + Entries(r)
    ensures Run(x, inputs, t35, true) == Run(y, rest, t35, true)
  {
    RunUnfolds(x, inputs, t35, true);
    hide Run, Call, Entries;
  }

  /**
   * A run in which they differ: 513 bytes as the driver hands them over from time 0 on, which overflow, then two bytes
   * at time 9 and silence.
   */
  lemma StaleTimestamp(a: seq<Byte>, b: seq<Byte>, c: seq<Byte>, next: seq<Byte>, t35: int)
    requires |a| == |b| == DRIVER_CHUNK && |c| == 1 && |next| == 2
    ensures var inputs := [Fed(a, 0, true), Fed(b, 1, true), Fed(c, 2, true), Fed(next, 9, true), Silent];
            Run(Idle(), inputs, t35, true).ledger == [Dropped(a + b + c), Emitted(next, 0)]
  {
    hide Run;
    var inputs := [Fed(a, 0, true), Fed(b, 1, true), Fed(c, 2, true), Fed(next, 9, true), Silent];
    var s1, s2 := State(Some(a), 0, 0), State(Some(a + b), 0, 1);
    var s3, s4 := State(Some([]), 0, 2), State(Some(next), 0, 9);
    assert [] + a == a && [] + next == next;
    var dropped := [Dropped(a + b + c)];
    var last := Line(State(None, 0, 9), dropped + [Emitted(next, 0)]);
    StepOf(Idle(), inputs, t35, Result(s1, Nothing, []), Line(s1, []), inputs[1..]);
    StepOf(Line(s1, []), inputs[1..], t35, Result(s2, Nothing, []), Line(s2, []), inputs[2..]);
    StepOf(Line(s2, []), inputs[2..], t35, Result(s3, Overflow(0), a + b + c), Line(s3, dropped), inputs[3..]);
    StepOf(Line(s3, dropped), inputs[3..], t35, Result(s4, Nothing, []), Line(s4, dropped), inputs[4..]);
    StepOf(Line(s4, dropped), inputs[4..], t35, Result(State(None, 0, 9), Frame(next, 0), []), last, []);
    RunUnfolds(last, [Silent], t35, true);
  }

  /**
   * With a callback every drop is reported, and nothing else is: bytes for which there is no slab with the time they
   * came, and bytes beyond the 512 of a slab with the time the slab was taken. Without one nothing is, and the slicer
   * goes on in the same way.
   */
  lemma DropsAreReported(s: State, src: seq<Byte>, t: int, available: bool)
    requires |Pending(s)| <= 512
    ensures var r := Feed(s, src, t, available, true);
            && (r.dropped != [] <==> r.out.Overflow? || r.out.NoMem?) && !r.out.Frame?
            && (r.out.NoMem? <==> src != [] && s.held.None? && !available)
            && (r.out.Overflow? <==> (s.held.Some? || available) && |Pending(s)| + |src| > 512)
            && (r.out.NoMem? ==> r.out.timestamp == t && r.dropped == src)
            && (r.out.Overflow? ==> r.out.timestamp == (if s.held.Some? then s.start else t) && r.s.held == Some([]))
            && (r.dropped == [] && src != [] ==> r.s.held == Some(Pending(s) + src))
            && (src == [] ==> r == Result(s.(last := t), Nothing, []))
            && Feed(s, src, t, available, false) == r.(out := Nothing)
  {
    assert [] + src == src;
  }

  /** The time stamp of the last feed of a run. */
  function LastFed(inputs: seq<Input>, otherwise: int): int {
    if inputs == [] then otherwise
    else LastFed(inputs[1..], if inputs[0].Fed? then inputs[0].timestamp else otherwise)
  }

  lemma {:induction false} LastIsLastFed(x: Line, inputs: seq<Input>, t35: int, hasCallback: bool)
    ensures Run(x, inputs, t35, hasCallback).s.last == LastFed(inputs, x.s.last)
    decreases |inputs|
  {
    if inputs != [] {
      var r := Call(x.s, inputs[0], t35, hasCallback);
      LastIsLastFed(Line(r.s, x.ledger + Entries(r)), inputs[1..], t35, hasCallback);
    }
  }

  /**
   * After any run a look at the clock emits a frame if and only if bytes are pending and the last feed lies more
   * than the silence time back; it emits all of them, with the time stamp kept, and gives the slab away. Otherwise it
   * changes nothing. Silence itself does the same whenever bytes are pending; without a callback it drops them and
   * keeps the slab.
   */
  lemma ClockEmitsIff(inputs: seq<Input>, now: int, t35: int)
    ensures var s := Run(Idle(), inputs, t35, true).s;
            var out := Call(s, Clock(now), t35, true).out;
            && (out.Frame? <==> Pending(s) != [] && now - LastFed(inputs, 0) > t35)
            && (out.Frame? ==> out == Frame(Pending(s), s.start))
            && Call(s, Clock(now), t35, true).s == (if out.Frame? then s.(held := None) else s)
            && Call(s, Silent, t35, true) ==
               (if Pending(s) == [] then Result(s, Nothing, [])
                else Result(s.(held := None), Frame(Pending(s), s.start), []))
            && Call(s, Silent, t35, false) ==
               (if Pending(s) == [] then Result(s, Nothing, []) else Result(s.(held := Some([])), Nothing, Pending(s)))
  {
    hide Run;
    LastIsLastFed(Idle(), inputs, t35, true);
  }

  // ---------- The object ----------

  class Slab {
    const data: array<Byte>
    var length: nat

    ghost predicate Valid()
      reads this
    {
      data.Length == SLAB_SIZE && length <= SLAB_SIZE
    }

    constructor ()
      ensures Valid() && fresh(data) && length == 0
    {
      data := new Byte[SLAB_SIZE];
      length := 0;
    }
  }

  class ModbusSlicer {
    var slab: Slab?
    var start: int
    var last: int
    const t35: int
    const hasCallback: bool

    ghost function Footprint(): set<object>
      reads this
    {
      if slab == null then {} else {slab, slab.data}
    }

    ghost predicate Valid()
      reads this, Footprint()
    {
      slab != null ==> slab.Valid()
    }

    ghost function Value(): State
      reads this, Footprint()
      requires Valid()
    {
      State(if slab == null then None else Some(slab.data[..slab.length]), start, last)
    }

    constructor (bits: nat, baudrate: nat, callback: bool)
      requires baudrate > 0
      ensures Valid() && Value() == Idle().s && t35 == SilenceTime(bits, baudrate) && hasCallback == callback
    {
      slab, start, last := null, 0, 0;
      var t1 := bits * 1_000_000 / baudrate;
      t35 := 7 * t1 / 2 + 7 * t1 / 2 / 5;
      hasCallback := callback;
    }

    /** `offered` is what the pool would hand out; it is taken only if the slicer has no slab. */
    method FeedBytes(src: seq<Byte>, timestamp: int, offered: Slab?) returns (out: Output)
      requires Valid() && (offered != null ==> offered.Valid())
      modifies this, Footprint(), offered, if offered == null then {} else {offered.data}
      ensures Valid() && (slab == old(slab) || slab == offered)
      ensures Value() == Feed(old(Value()), src, timestamp, offered != null, hasCallback).s
      ensures out == Feed(old(Value()), src, timestamp, offered != null, hasCallback).out
    {
      out := Nothing;
      if src != [] {
        if slab == null {
          slab := offered;
          start := timestamp;
          if slab != null {
            slab.length := 0;
          }
        }
        if slab == null {
          out := NoMem(start);
        } else if slab.length + |src| > SLAB_SIZE {
          out := Overflow(start);
          slab.length := 0;
        } else {
          ghost var before := slab.data[..slab.length];
          forall i | 0 <= i < |src| {
            slab.data[slab.length + i] := src[i];
          }
          slab.length := slab.length + |src|;
          assert slab.data[..slab.length] == before + src;
        }
        if !hasCallback {
          out := Nothing;
        }
      }
      last := timestamp;
    }

    /** Hands the slab on with the frame; the slicer keeps no reference to it. */
    method Silence() returns (out: Output, handed: Slab?)
      requires Valid()
      modifies this, Footprint()
      ensures Valid()
      ensures Value() == Timeout(old(Value()), hasCallback).s && out == Timeout(old(Value()), hasCallback).out
      ensures out.Frame? ==>
                && handed != null && handed == old(slab) && slab == null
                && handed.Valid() && handed.data[..handed.length] == out.bytes
      ensures !out.Frame? ==> handed == null && slab == old(slab)
    {
      out, handed := Nothing, null;
      if slab != null && slab.length > 0 {
        if hasCallback {
          out := Frame(slab.data[..slab.length], start);
          handed := slab;
          slab := null;
        } else {
          slab.length := 0;
        }
      }
    }

    method CheckSilence(now: int) returns (out: Output, handed: Slab?)
      requires Valid()
      modifies this, Footprint()
      ensures Valid()
      ensures Value() == CheckTimeout(old(Value()), now, t35, hasCallback).s
      ensures out == CheckTimeout(old(Value()), now, t35, hasCallback).out
      ensures out.Frame? ==> handed == old(slab) && slab == null
    {
      out, handed := Nothing, null;
      if slab != null && slab.length > 0 && now - last > t35 {
        out, handed := Silence();
      }
    }
  }
}
