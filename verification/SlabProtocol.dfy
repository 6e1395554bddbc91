/**
 * Who owns a slab: the analyzer, pipeline, logger and telemetry tasks hand slabs on through bounded queues.
 * Tasks interleave at the granularity of one pool or queue operation.
 */
module SlabProtocol {
  import opened SlabPool

  const RAW_QUEUE: nat := 32
  const LIVE_QUEUE: nat := 16
  const LOG_QUEUE: nat := 32
  const STORE_QUOTA: nat := 2

  /** The slicer buffers into a slab, or has none. */
  datatype Analyzer = NoSlab | Filling(slab: nat)

  /** The pipeline task: which slabs it holds between two operations. */
  datatype Pipeline = PipelineIdle | Received(raw: nat) | Packing(raw: nat, out: nat) | Releasing(raw: nat)

  /** The logger task: waiting, or in its quota loop with `done` entries stored, perhaps holding one more. */
  datatype Logger = Waiting | Looping(done: nat) | Storing(slab: nat, done: nat)

  /** The telemetry task: publishing a live record, or replaying one through a slab of its own. */
  datatype Telemetry = TelemetryIdle | Publishing(slab: nat)

  /**
   * `free` is the free list, head first, on which the pool's own `AfterAlloc` and `AfterFree` act; `abandoned` are the
   * slabs nobody refers to any more.
   */
  datatype World = World(
    free: seq<nat>, analyzer: Analyzer, raw: seq<nat>, pipeline: Pipeline, live: seq<nat>, log: seq<nat>,
    logger: Logger, telemetry: Telemetry, abandoned: seq<nat>)

  datatype Event =
    | SlicerAcquires | FrameEnds(crcOk: bool)
    | PipelineReceives | PipelineAllocates | PipelineDispatches(packed: bool, online: bool) | PipelineReleases
    | LoggerWakes | LoggerReceives | LoggerStores
    | TelemetryReceives | TelemetryAllocates | TelemetryReleases

  function Start(): World {
    World(AllSlabs(), NoSlab, [], PipelineIdle, [], [], Waiting, TelemetryIdle, [])
  }

  /** A slab whose hand-over fails is forgotten by its sender. */
  function Abandon(w: World, slab: nat): World {
    w.(abandoned := w.abandoned + [slab])
  }

  function Release(w: World, slab: nat): World {
    w.(free := AfterFree(w.free, slab))
  }

  /** The frame callback: a frame with a good CRC goes to the raw queue. */
  function HandOver(w: World, slab: nat, crcOk: bool): World {
    if crcOk && |w.raw| < RAW_QUEUE then w.(raw := w.raw + [slab]) else Abandon(w, slab)
  }

  /** The router: to the live queue if online, else to the logging queue; the result is ignored. */
  function Route(w: World, slab: nat, online: bool): World {
    if online then if |w.live| < LIVE_QUEUE then w.(live := w.live + [slab]) else Abandon(w, slab)
    else if |w.log| < LOG_QUEUE then w.(log := w.log + [slab]) else Abandon(w, slab)
  }

  /** One step; an event that its task is not ready for changes nothing. */
  function Step(w: World, e: Event): World {
    match e
    case SlicerAcquires =>
      if w.analyzer.NoSlab? && Taken(w.free).Some?
          then w.(analyzer := Filling(Taken(w.free).value), free := AfterAlloc(w.free))
      else w
    case FrameEnds(crcOk) =>
      if w.analyzer.Filling? then HandOver(w.(analyzer := NoSlab), w.analyzer.slab, crcOk) else w
    case PipelineReceives =>
      if w.pipeline.PipelineIdle? && w.raw != [] then w.(pipeline := Received(w.raw[0]), raw := w.raw[1..]) else w
    case PipelineAllocates =>
      if !w.pipeline.Received? then w
      else if Taken(w.free).None? then w.(pipeline := Releasing(w.pipeline.raw))
      else w.(pipeline := Packing(w.pipeline.raw, Taken(w.free).value), free := AfterAlloc(w.free))
    case PipelineDispatches(packed, online) =>
      if !w.pipeline.Packing? then w
      else
        var w' := w.(pipeline := Releasing(w.pipeline.raw));
        if packed then Route(w', w.pipeline.out, online) else Release(w', w.pipeline.out)
    case PipelineReleases =>
      if w.pipeline.Releasing? then Release(w.(pipeline := PipelineIdle), w.pipeline.raw) else w
    case LoggerWakes =>
      if w.logger.Waiting? then w.(logger := Looping(0)) else w
    case LoggerReceives =>
      if !w.logger.Looping? then w
      else if w.log == [] then w.(logger := Waiting)
      else if w.logger.done < STORE_QUOTA then w.(logger := Storing(w.log[0], w.logger.done), log := w.log[1..])
      else Abandon(w.(logger := Waiting, log := w.log[1..]), w.log[0])
    case LoggerStores =>
      if w.logger.Storing? then Release(w.(logger := Looping(w.logger.done + 1)), w.logger.slab) else w
    case TelemetryReceives =>
      if w.telemetry.TelemetryIdle? && w.live != [] then w.(telemetry := Publishing(w.live[0]), live := w.live[1..])
          else w
    case TelemetryAllocates =>
      if w.telemetry.TelemetryIdle? && Taken(w.free).Some?
      then w.(telemetry := Publishing(Taken(w.free).value), free := AfterAlloc(w.free))
      else w
    case TelemetryReleases =>
      if w.telemetry.Publishing? then Release(w.(telemetry := TelemetryIdle), w.telemetry.slab) else w
  }

  function Run(w: World, events: seq<Event>): World
    decreases |events|
  {
    if events == [] then w else Run(Step(w, events[0]), events[1..])
  }

  // ---------- One owner ----------

  function Is(slab: nat, x: nat): nat {
    if slab == x then 1 else 0
  }

  function InAnalyzer(a: Analyzer, x: nat): nat {
    match a case NoSlab => 0 case Filling(slab) => Is(slab, x)
  }

  function InPipeline(p: Pipeline, x: nat): nat {
    match p
    case PipelineIdle => 0
    case Received(raw) => Is(raw, x)
    case Packing(raw, out) => Is(raw, x) + Is(out, x)
    case Releasing(raw) => Is(raw, x)
  }

  function InLogger(l: Logger, x: nat): nat {
    match l case Waiting => 0 case Looping(_) => 0 case Storing(slab, _) => Is(slab, x)
  }

  function InTelemetry(t: Telemetry, x: nat): nat {
    match t case TelemetryIdle => 0 case Publishing(slab) => Is(slab, x)
  }

  /** How often `x` stands in a list or queue. */
  function In(s: seq<nat>, x: nat): nat {
    multiset(s)[x]
  }

  /** The number of references to slab `x`, wherever they are. */
  function References(w: World, x: nat): nat {
    In(w.free, x) + InAnalyzer(w.analyzer, x) + In(w.raw, x) + InPipeline(w.pipeline, x) + In(w.live, x) + In(w.log, x)
    + InLogger(w.logger, x) + InTelemetry(w.telemetry, x) + In(w.abandoned, x)
  }

  /** The number of all references. */
  function Total(w: World): nat {
    |w.free| + (if w.analyzer.Filling? then 1 else 0) + |w.raw|
    + (if w.pipeline.PipelineIdle? then 0 else if w.pipeline.Packing? then 2 else 1) + |w.live| + |w.log|
    + (if w.logger.Storing? then 1 else 0) + (if w.telemetry.Publishing? then 1 else 0) + |w.abandoned|
  }

  /** Each slab of the pool is referred to exactly once. */
  ghost predicate Partitioned(w: World) {
    && (forall x: nat :: References(w, x) == if x < POOL_SIZE then 1 else 0)
    && Total(w) == POOL_SIZE && |w.live| <= LIVE_QUEUE
  }

  lemma Popped(s: seq<nat>, x: nat)
    requires s != []
    ensures In(s, x) == Is(s[0], x) + In(s[1..], x)
  {
    assert s == [s[0]] + s[1..];
  }

  lemma Pushed(s: seq<nat>, slab: nat, x: nat)
    ensures In([slab] + s, x) == Is(slab, x) + In(s, x)
    ensures In(s + [slab], x) == Is(slab, x) + In(s, x)
  {
  }

  /** No reference to `x` gained or lost, the number of all references kept, the live queue within its bound. */
  predicate Keeps(w: World, w': World, x: nat) {
    References(w', x) == References(w, x) && Total(w') == Total(w)
        && (|w.live| <= LIVE_QUEUE ==> |w'.live| <= LIVE_QUEUE)
  }

  lemma AnalyzerKeeps(w: World, e: Event, x: nat)
    requires e.SlicerAcquires? || e.FrameEnds?
    ensures Keeps(w, Step(w, e), x)
  {
    hide In;
    if w.free != [] {
      Popped(w.free, x);
    }
    if w.analyzer.Filling? {
      Pushed(w.raw, w.analyzer.slab, x);
      Pushed(w.abandoned, w.analyzer.slab, x);
    }
  }

  lemma PipelineKeeps(w: World, e: Event, x: nat)
    requires e.PipelineReceives? || e.PipelineAllocates? || e.PipelineReleases?
    ensures Keeps(w, Step(w, e), x)
  {
    hide In;
    if w.free != [] {
      Popped(w.free, x);
    }
    if w.raw != [] {
      Popped(w.raw, x);
    }
    if w.pipeline.Releasing? {
      Pushed(w.free, w.pipeline.raw, x);
    }
  }

  lemma DispatchKeeps(w: World, packed: bool, online: bool, x: nat)
    ensures Keeps(w, Step(w, PipelineDispatches(packed, online)), x)
  {
    hide In;
    if w.pipeline.Packing? {
      Pushed(w.live, w.pipeline.out, x);
      Pushed(w.log, w.pipeline.out, x);
      Pushed(w.abandoned, w.pipeline.out, x);
      Pushed(w.free, w.pipeline.out, x);
    }
  }

  lemma LoggerKeeps(w: World, e: Event, x: nat)
    requires e.LoggerWakes? || e.LoggerReceives? || e.LoggerStores?
    ensures Keeps(w, Step(w, e), x)
  {
    hide In;
    if w.log != [] {
      Popped(w.log, x);
      Pushed(w.abandoned, w.log[0], x);
    }
    if w.logger.Storing? {
      Pushed(w.free, w.logger.slab, x);
    }
  }

  lemma TelemetryKeeps(w: World, e: Event, x: nat)
    requires e.TelemetryReceives? || e.TelemetryAllocates? || e.TelemetryReleases?
    ensures Keeps(w, Step(w, e), x)
  {
    hide In;
    if w.free != [] {
      Popped(w.free, x);
    }
    if w.live != [] {
      Popped(w.live, x);
    }
    if w.telemetry.Publishing? {
      Pushed(w.free, w.telemetry.slab, x);
    }
  }

  lemma StepKeeps(w: World, e: Event, x: nat)
    ensures Keeps(w, Step(w, e), x)
  {
    hide *;
    match e
    case SlicerAcquires => AnalyzerKeeps(w, e, x);
    case FrameEnds(_) => AnalyzerKeeps(w, e, x);
    case PipelineReceives => PipelineKeeps(w, e, x);
    case PipelineAllocates => PipelineKeeps(w, e, x);
    case PipelineDispatches(packed, online) => DispatchKeeps(w, packed, online, x);
    case PipelineReleases => PipelineKeeps(w, e, x);
    case LoggerWakes => LoggerKeeps(w, e, x);
    case LoggerReceives => LoggerKeeps(w, e, x);
    case LoggerStores => LoggerKeeps(w, e, x);
    case TelemetryReceives => TelemetryKeeps(w, e, x);
    case TelemetryAllocates => TelemetryKeeps(w, e, x);
    case TelemetryReleases => TelemetryKeeps(w, e, x);
  }

  lemma PartitionedStep(w: World, e: Event)
    requires Partitioned(w)
    ensures Partitioned(Step(w, e))
  {
    hide Step, References, Total;
    StepKeeps(w, e, 0);
    forall x: nat
      ensures References(Step(w, e), x) == if x < POOL_SIZE then 1 else 0
    {
      StepKeeps(w, e, x);
    }
  }

  lemma {:induction false} PartitionedRun(w: World, events: seq<Event>)
    requires Partitioned(w)
    ensures Partitioned(Run(w, events))
    decreases |events|
  {
    hide Partitioned, Step;
    if events != [] {
      PartitionedStep(w, events[0]);
      PartitionedRun(Step(w, events[0]), events[1..]);
    }
  }

  lemma AllSlabsOnce(x: nat)
    ensures In(AllSlabs(), x) == if x < POOL_SIZE then 1 else 0
  {
    var s := AllSlabs();
    if x < POOL_SIZE {
      assert s == s[..x] + [s[x]] + s[x + 1..];
      assert x !in s[..x] && x !in s[x + 1..];
    }
  }

  lemma StartPartitioned()
    ensures Partitioned(Start())
  {
    hide AllSlabs, In;
    forall x: nat
      ensures References(Start(), x) == if x < POOL_SIZE then 1 else 0
    {
      AllSlabsOnce(x);
      assert In([], x) == 0 by {
        EmptyHolds(x);
      }
    }
  }

  lemma EmptyHolds(x: nat)
    ensures In([], x) == 0
  {
  }

  /**
   * Over every interleaving each of the 32 slabs is in exactly one place: the free list, the slicer, a queue, a
   * task's hand, or abandoned.
   */
  lemma OneOwner(events: seq<Event>, slab: nat)
    ensures References(Run(Start(), events), slab) == if slab < POOL_SIZE then 1 else 0
  {
    hide References, Start, Run;
    StartPartitioned();
    PartitionedRun(Start(), events);
  }

  /**
   * The pool is as large as the raw and the logging queue: as the sender still holds a slab, neither queue is
   * ever full when a slab is sent there.
   */
  lemma SendsNeverFail(w: World)
    requires Partitioned(w)
    ensures w.analyzer.Filling? ==> |w.raw| < RAW_QUEUE
    ensures w.pipeline.Packing? ==> |w.log| < LOG_QUEUE
  {
    hide References;
  }

  /** A slab goes back to the free list only while it is not in it, as the pool requires. */
  lemma NoDoubleFree(w: World, e: Event)
    requires Partitioned(w)
    ensures var free' := Step(w, e).free;
            || free' == w.free
            || (w.free != [] && free' == AfterAlloc(w.free))
            || (free' != [] && free' == AfterFree(w.free, free'[0]) && free'[0] < POOL_SIZE && free'[0] !in w.free)
  {
    hide References, Total;
    PartitionedStep(w, e);
    var free' := Step(w, e).free;
    if free' != [] && free' == [free'[0]] + w.free {
      NotTwice(Step(w, e), free'[0], w.free);
    }
  }

  lemma NotTwice(w: World, slab: nat, rest: seq<nat>)
    requires Partitioned(w) && w.free == [slab] + rest
    ensures slab < POOL_SIZE && slab !in rest
  {
    hide Total, AllSlabs;
    Pushed(rest, slab, slab);
    assert References(w, slab) >= In(w.free, slab) >= 1;
  }

  // ---------- Abandoned slabs ----------

  /** The three ways to lose a slab: a bad CRC, a full live queue, a dequeue past the logger's quota. */
  predicate Loses(w: World, e: Event) {
    || (e.FrameEnds? && w.analyzer.Filling? && !e.crcOk)
    || (e.PipelineDispatches? && w.pipeline.Packing? && e.packed && e.online && |w.live| == LIVE_QUEUE)
    || (e.LoggerReceives? && w.logger.Looping? && w.logger.done >= STORE_QUOTA && w.log != [])
  }

  /** Exactly these steps abandon a slab, one each; no step gives one back. */
  lemma AbandonedIff(w: World, e: Event)
    requires Partitioned(w)
    ensures w.abandoned <= Step(w, e).abandoned
    ensures |Step(w, e).abandoned| == |w.abandoned| + if Loses(w, e) then 1 else 0
  {
    SendsNeverFail(w);
    hide References, AllSlabs, Total;
  }

  /** The steps of a run that lose a slab. */
  function Losses(w: World, events: seq<Event>): nat
    decreases |events|
  {
    if events == [] then 0 else (if Loses(w, events[0]) then 1 else 0) + Losses(Step(w, events[0]), events[1..])
  }

  lemma {:induction false} LossesAreAbandoned(w: World, events: seq<Event>)
    requires Partitioned(w)
    ensures |Run(w, events).abandoned| == |w.abandoned| + Losses(w, events)
    decreases |events|
  {
    hide Partitioned, Step, Loses;
    if events != [] {
      AbandonedIff(w, events[0]);
      PartitionedStep(w, events[0]);
      LossesAreAbandoned(Step(w, events[0]), events[1..]);
    }
  }

  /** No run loses more than 32 slabs; a run that has lost 32 has no slab left for any task, now or ever after. */
  lemma LossesExhaustThePool(events: seq<Event>, more: seq<Event>)
    ensures Losses(Start(), events) <= POOL_SIZE
    ensures Losses(Start(), events) == POOL_SIZE ==>
              var w := Run(Run(Start(), events), more);
              w.free == [] && w.analyzer.NoSlab? && w.raw == [] && w.live == [] && w.log == []
  {
    hide AllSlabs, References, Run, Losses;
    StartPartitioned();
    LossesAreAbandoned(Start(), events);
    PartitionedRun(Start(), events);
    var w := Run(Start(), events);
    LossesAreAbandoned(w, more);
    PartitionedRun(w, more);
  }

  /** One frame that fails its CRC check. */
  function BadFrames(n: nat): (events: seq<Event>)
    ensures |events| == 2 * n
  {
    if n == 0 then [] else [SlicerAcquires, FrameEnds(false)] + BadFrames(n - 1)
  }

  /** `n` bad frames lose `n` slabs. */
  lemma {:induction false} BadFramesLose(w: World, n: nat)
    requires w.analyzer.NoSlab? && |w.free| >= n
    ensures Losses(w, BadFrames(n)) == n
    decreases n
  {
    if n > 0 {
      var events := BadFrames(n);
      var w1 := Step(w, SlicerAcquires);
      var w2 := Step(w1, FrameEnds(false));
      assert events[0] == SlicerAcquires && events[1..][0] == FrameEnds(false) && events[1..][1..] == BadFrames(n - 1);
      assert Losses(w, events) == Losses(w1, events[1..]);
      assert Losses(w1, events[1..]) == 1 + Losses(w2, BadFrames(n - 1));
      BadFramesLose(w2, n - 1);
    }
  }

  /** From the start, 32 frames with a bad CRC leave the device without a slab. */
  lemma ThirtyTwoBadFrames()
    ensures Run(Start(), BadFrames(POOL_SIZE)).free == []
  {
    BadFramesLose(Start(), POOL_SIZE);
    LossesExhaustThePool(BadFrames(POOL_SIZE), []);
  }

  /** The logger's wake-up with nothing else going on. */
  function WakeUp(): seq<Event> {
    [LoggerWakes, LoggerReceives, LoggerStores, LoggerReceives, LoggerStores, LoggerReceives]
  }

  /** With three or more entries queued, one wake-up stores two of them and loses the third. */
  lemma ThirdEntryLost(w: World)
    requires w.logger.Waiting? && |w.log| >= 3
    ensures Run(w, WakeUp()) == w.(log := w.log[3..], free := [w.log[1], w.log[0]] + w.free,
                                   abandoned := w.abandoned + [w.log[2]])
  {
    hide Step;
    var e := WakeUp();
    SixSteps(w, e);
    WakesAndLoses(w);
    StoreOne(w.(logger := Looping(0)));
    var w3 := w.(logger := Looping(1), log := w.log[1..], free := [w.log[0]] + w.free);
    StoreOne(w3);
    var w5 := w3.(logger := Looping(2), log := w3.log[1..], free := [w3.log[0]] + w3.free);
    WakesAndLoses(w5);
    assert w5.log[0] == w.log[2] && w5.log[1..] == w.log[3..];
    assert w5.free == [w.log[1], w.log[0]] + w.free;
  }

  lemma WakesAndLoses(w: World)
    ensures w.logger.Waiting? ==> Step(w, LoggerWakes) == w.(logger := Looping(0))
    ensures w.logger == Looping(STORE_QUOTA) && w.log != [] ==>
              Step(w, LoggerReceives) == w.(logger := Waiting, log := w.log[1..], abandoned := w.abandoned + [w.log[0]])
  {
  }

  /** Below its quota the loop frees the slab it receives. */
  lemma StoreOne(w: World)
    requires w.logger.Looping? && w.logger.done < STORE_QUOTA && w.log != []
    ensures Step(Step(w, LoggerReceives), LoggerStores) ==
            w.(logger := Looping(w.logger.done + 1), log := w.log[1..], free := [w.log[0]] + w.free)
  {
  }

  lemma SixSteps(w: World, e: seq<Event>)
    requires |e| == 6
    ensures Run(w, e) == Step(Step(Step(Step(Step(Step(w, e[0]), e[1]), e[2]), e[3]), e[4]), e[5])
  {
    hide Step;
    OneStep(w, e);
    OneStep(Step(w, e[0]), e[1..]);
    OneStep(Step(Step(w, e[0]), e[1]), e[2..]);
    OneStep(Step(Step(Step(w, e[0]), e[1]), e[2]), e[3..]);
    OneStep(Step(Step(Step(Step(w, e[0]), e[1]), e[2]), e[3]), e[4..]);
    OneStep(Step(Step(Step(Step(Step(w, e[0]), e[1]), e[2]), e[3]), e[4]), e[5..]);
    assert e[1..][1..] == e[2..] && e[2..][1..] == e[3..] && e[3..][1..] == e[4..] && e[4..][1..] == e[5..]
        && e[5..][1..] == [];
  }

  lemma OneStep(w: World, e: seq<Event>)
    requires e != []
    ensures Run(w, e) == Run(Step(w, e[0]), e[1..])
    ensures Run(w, []) == w
  {
  }
}
