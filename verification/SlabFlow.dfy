/** Where slabs go: every queue and every task's hand gives on what it got, in order, over every interleaving. */
module SlabFlow {
  import RecoverySpec
  import opened SlabPool
  import opened SlabProtocol

  // ---------- Places ----------

  datatype Place =
    | AnalyzerHand | RawQueue | PipelineRaw | PipelineOut | LiveQueue | LogQueue | LoggerHand | TelemetryHand | Nowhere

  /** What is there, the first to leave first. */
  function Inside(w: World, p: Place): seq<nat> {
    match p
    case AnalyzerHand => if w.analyzer.Filling? then [w.analyzer.slab] else []
    case RawQueue => w.raw
    case PipelineRaw => if w.pipeline.PipelineIdle? then [] else [w.pipeline.raw]
    case PipelineOut => if w.pipeline.Packing? then [w.pipeline.out] else []
    case LiveQueue => w.live
    case LogQueue => w.log
    case LoggerHand => if w.logger.Storing? then [w.logger.slab] else []
    case TelemetryHand => if w.telemetry.Publishing? then [w.telemetry.slab] else []
    case Nowhere => w.abandoned
  }

  function First(s: seq<nat>): seq<nat> {
    if s == [] then [] else [s[0]]
  }

  /** The pipeline has packed a record into a slab and hands it on. */
  predicate Dispatches(w: World, e: Event, online: bool) {
    e.PipelineDispatches? && e.packed && e.online == online && w.pipeline.Packing?
  }

  /** The slab that gets there in this step, told from the state before. */
  function Arriving(w: World, e: Event, p: Place): seq<nat> {
    match p
    case AnalyzerHand => if e.SlicerAcquires? && w.analyzer.NoSlab? then First(w.free) else []
    case RawQueue => if e.FrameEnds? && e.crcOk then Inside(w, AnalyzerHand) else []
    case PipelineRaw => if e.PipelineReceives? && w.pipeline.PipelineIdle? then First(w.raw) else []
    case PipelineOut => if e.PipelineAllocates? && w.pipeline.Received? then First(w.free) else []
    case LiveQueue => if Dispatches(w, e, true) && |w.live| < 16 then [w.pipeline.out] else []
    case LogQueue => if Dispatches(w, e, false) then [w.pipeline.out] else []
    case LoggerHand => if e.LoggerReceives? && w.logger.Looping? && w.logger.done < 2 then First(w.log) else []
    case TelemetryHand =>
      if !w.telemetry.TelemetryIdle? then []
      else if e.TelemetryReceives? then First(w.live)
      else if e.TelemetryAllocates? then First(w.free)
      else []
    case Nowhere =>
      if e.FrameEnds? && !e.crcOk then Inside(w, AnalyzerHand)
      else if Dispatches(w, e, true) && |w.live| >= 16 then [w.pipeline.out]
      else if e.LoggerReceives? && w.logger.Looping? && w.logger.done >= 2 then First(w.log)
      else []
  }

  /** The slab that leaves in this step. */
  function Leaving(w: World, e: Event, p: Place): seq<nat> {
    match p
    case AnalyzerHand => if e.FrameEnds? then Inside(w, AnalyzerHand) else []
    case RawQueue => Arriving(w, e, PipelineRaw)
    case PipelineRaw => if e.PipelineReleases? && w.pipeline.Releasing? then [w.pipeline.raw] else []
    case PipelineOut => if e.PipelineDispatches? then Inside(w, PipelineOut) else []
    case LiveQueue => if e.TelemetryReceives? && w.telemetry.TelemetryIdle? then First(w.live) else []
    case LogQueue => if e.LoggerReceives? && w.logger.Looping? then First(w.log) else []
    case LoggerHand => if e.LoggerStores? then Inside(w, LoggerHand) else []
    case TelemetryHand => if e.TelemetryReleases? then Inside(w, TelemetryHand) else []
    case Nowhere => []
  }

  // ---------- One step ----------

  predicate Passes(w: World, e: Event, p: Place) {
    Inside(w, p) + Arriving(w, e, p) == Leaving(w, e, p) + Inside(Step(w, e), p)
  }

  /** What a place holds stays, grows at its end, or loses its first. */
  predicate Moves(inside: seq<nat>, arriving: seq<nat>, leaving: seq<nat>, inside': seq<nat>) {
    || (arriving == leaving == [] && inside' == inside)
    || (leaving == [] && inside' == inside + arriving)
    || (arriving == [] && inside != [] && leaving == [inside[0]] && inside' == inside[1..])
  }

  lemma MovesPass(inside: seq<nat>, arriving: seq<nat>, leaving: seq<nat>, inside': seq<nat>)
    requires Moves(inside, arriving, leaving, inside')
    ensures inside + arriving == leaving + inside'
  {
    if arriving == [] && inside != [] && leaving == [inside[0]] && inside' == inside[1..] {
      assert inside + arriving == inside == [inside[0]] + inside[1..];
    } else {
      assert [] + inside' == inside';
      assert inside + [] == inside;
    }
  }

  lemma RawMoves(w: World, e: Event)
    requires w.analyzer.Filling? ==> |w.raw| < RAW_QUEUE
    ensures Moves(w.raw, Arriving(w, e, RawQueue), Leaving(w, e, RawQueue), Step(w, e).raw)
  {
    hide AfterAlloc, AfterFree, Taken;
  }

  lemma LiveMoves(w: World, e: Event)
    ensures Moves(w.live, Arriving(w, e, LiveQueue), Leaving(w, e, LiveQueue), Step(w, e).live)
  {
    hide AfterAlloc, AfterFree, Taken;
  }

  lemma LogMoves(w: World, e: Event)
    requires w.pipeline.Packing? ==> |w.log| < LOG_QUEUE
    ensures Moves(w.log, Arriving(w, e, LogQueue), Leaving(w, e, LogQueue), Step(w, e).log)
  {
    hide AfterAlloc, AfterFree, Taken;
  }

  lemma LossesMove(w: World, e: Event)
    requires w.analyzer.Filling? ==> |w.raw| < RAW_QUEUE
    requires w.pipeline.Packing? ==> |w.log| < LOG_QUEUE
    ensures Moves(w.abandoned, Arriving(w, e, Nowhere), Leaving(w, e, Nowhere), Step(w, e).abandoned)
  {
    hide AfterAlloc, AfterFree, Taken;
  }

  /** A hand holds one slab: it takes one when empty and gives it away. */
  predicate Handles(inside: seq<nat>, arriving: seq<nat>, leaving: seq<nat>, inside': seq<nat>) {
    || (arriving == leaving == [] && inside' == inside)
    || (inside == leaving == [] && inside' == arriving)
    || (arriving == inside' == [] && leaving == inside)
  }

  lemma HandlesPass(inside: seq<nat>, arriving: seq<nat>, leaving: seq<nat>, inside': seq<nat>)
    requires Handles(inside, arriving, leaving, inside')
    ensures inside + arriving == leaving + inside'
  {
    assert [] + inside' == inside' && inside + [] == inside && [] + arriving == arriving && leaving + [] == leaving;
  }

  lemma AnalyzerHandles(w: World, e: Event)
    ensures Handles(Inside(w, AnalyzerHand), Arriving(w, e, AnalyzerHand), Leaving(w, e, AnalyzerHand),
                    Inside(Step(w, e), AnalyzerHand))
  {
    hide AfterAlloc, AfterFree;
  }

  lemma RawHandles(w: World, e: Event)
    ensures Handles(Inside(w, PipelineRaw), Arriving(w, e, PipelineRaw), Leaving(w, e, PipelineRaw),
                    Inside(Step(w, e), PipelineRaw))
  {
    hide AfterAlloc, AfterFree, Taken;
  }

  lemma OutHandles(w: World, e: Event)
    ensures Handles(Inside(w, PipelineOut), Arriving(w, e, PipelineOut), Leaving(w, e, PipelineOut),
                    Inside(Step(w, e), PipelineOut))
  {
    hide AfterAlloc, AfterFree;
  }

  lemma LoggerHandles(w: World, e: Event)
    ensures Handles(Inside(w, LoggerHand), Arriving(w, e, LoggerHand), Leaving(w, e, LoggerHand),
                    Inside(Step(w, e), LoggerHand))
  {
    hide AfterAlloc, AfterFree, Taken;
  }

  lemma TelemetryHandles(w: World, e: Event)
    ensures Handles(Inside(w, TelemetryHand), Arriving(w, e, TelemetryHand), Leaving(w, e, TelemetryHand),
                    Inside(Step(w, e), TelemetryHand))
  {
    hide AfterAlloc, AfterFree;
  }

  lemma QueueIs(w: World)
    ensures Inside(w, RawQueue) == w.raw && Inside(w, LiveQueue) == w.live && Inside(w, LogQueue) == w.log
    ensures Inside(w, Nowhere) == w.abandoned
  {
  }

  /** One step at one place: what was there and what arrives is what leaves and what is there afterwards. */
  lemma StepPasses(w: World, e: Event, p: Place)
    requires Partitioned(w)
    ensures Passes(w, e, p)
  {
    hide *;
    SendsNeverFail(w);
    PassesIs(w, e, p);
    QueueIs(w);
    QueueIs(Step(w, e));
    var arriving, leaving := Arriving(w, e, p), Leaving(w, e, p);
    match p
    case AnalyzerHand =>
      AnalyzerHandles(w, e);
      HandlesPass(Inside(w, p), arriving, leaving, Inside(Step(w, e), p));
    case RawQueue =>
      RawMoves(w, e);
      MovesPass(w.raw, arriving, leaving, Step(w, e).raw);
    case PipelineRaw =>
      RawHandles(w, e);
      HandlesPass(Inside(w, p), arriving, leaving, Inside(Step(w, e), p));
    case PipelineOut =>
      OutHandles(w, e);
      HandlesPass(Inside(w, p), arriving, leaving, Inside(Step(w, e), p));
    case LiveQueue =>
      LiveMoves(w, e);
      MovesPass(w.live, arriving, leaving, Step(w, e).live);
    case LogQueue =>
      LogMoves(w, e);
      MovesPass(w.log, arriving, leaving, Step(w, e).log);
    case LoggerHand =>
      LoggerHandles(w, e);
      HandlesPass(Inside(w, p), arriving, leaving, Inside(Step(w, e), p));
    case TelemetryHand =>
      TelemetryHandles(w, e);
      HandlesPass(Inside(w, p), arriving, leaving, Inside(Step(w, e), p));
    case Nowhere =>
      LossesMove(w, e);
      MovesPass(w.abandoned, arriving, leaving, Step(w, e).abandoned);
  }

  /** The slab taken from the pool in this step. */
  function Acquired(w: World, e: Event): seq<nat> {
    if e.TelemetryReceives? then []
    else if e.SlicerAcquires? then Arriving(w, e, AnalyzerHand)
    else if e.PipelineAllocates? then Arriving(w, e, PipelineOut)
    else Arriving(w, e, TelemetryHand)
  }

  /** The slab freed: the raw one once its record is done, a packed one that failed, a stored or a published one. */
  function Released(w: World, e: Event): seq<nat> {
    if e.PipelineDispatches? && !e.packed then Leaving(w, e, PipelineOut)
    else if e.PipelineReleases? then Leaving(w, e, PipelineRaw)
    else if e.LoggerStores? then Leaving(w, e, LoggerHand)
    else Leaving(w, e, TelemetryHand)
  }

  /** The free list: slabs come and go at its front, and nowhere else. */
  lemma FreeListMoves(w: World, e: Event)
    ensures Acquired(w, e) == [] || Released(w, e) == []
    ensures Acquired(w, e) == [] && Released(w, e) == [] ==> Step(w, e).free == w.free
    ensures Acquired(w, e) != [] ==> w.free != [] && Acquired(w, e) == [w.free[0]] && Step(w, e).free == w.free[1..]
    ensures Released(w, e) != [] ==> Step(w, e).free == [Released(w, e)[0]] + w.free
  {
  }

  // ---------- Every run ----------

  function AllArriving(w: World, events: seq<Event>, p: Place): seq<nat>
    decreases |events|
  {
    if events == [] then [] else Arriving(w, events[0], p) + AllArriving(Step(w, events[0]), events[1..], p)
  }

  function AllLeaving(w: World, events: seq<Event>, p: Place): seq<nat>
    decreases |events|
  {
    if events == [] then [] else Leaving(w, events[0], p) + AllLeaving(Step(w, events[0]), events[1..], p)
  }

  lemma PassesIs(w: World, e: Event, p: Place)
    ensures Passes(w, e, p) <==> Inside(w, p) + Arriving(w, e, p) == Leaving(w, e, p) + Inside(Step(w, e), p)
  {
    hide Inside, Arriving, Leaving, Step;
  }

  lemma Chained(a: seq<nat>, x: seq<nat>, y: seq<nat>, l: seq<nat>, m: seq<nat>, b: seq<nat>, c: seq<nat>)
    requires a + x == l + b && b + y == m + c
    ensures a + (x + y) == (l + m) + c
  {
    assert a + (x + y) == (a + x) + y == l + (b + y) == l + (m + c);
  }

  lemma {:induction false} RunPasses(w: World, events: seq<Event>, p: Place)
    requires Partitioned(w)
    ensures Inside(w, p) + AllArriving(w, events, p) == AllLeaving(w, events, p) + Inside(Run(w, events), p)
    decreases |events|
  {
    hide Partitioned, Step, Inside, Arriving, Leaving, Passes;
    if events == [] {
      assert Inside(w, p) + [] == [] + Inside(w, p);
    } else {
      var e, w1 := events[0], Step(w, events[0]);
      StepPasses(w, e, p);
      PassesIs(w, e, p);
      PartitionedStep(w, e);
      RunPasses(w1, events[1..], p);
      Chained(Inside(w, p), Arriving(w, e, p), AllArriving(w1, events[1..], p), Leaving(w, e, p),
              AllLeaving(w1, events[1..], p), Inside(w1, p), Inside(Run(w, events), p));
    }
  }

  /**
   * Over every interleaving from the start: the packed slabs dispatched online while the live queue had room are, in
   * order, those telemetry has received and those still in the live queue; those dispatched offline are the ones the
   * logger has taken off its queue and those still in it; the frames with a good CRC are those the pipeline has
   * received and those still in the raw queue; and the slabs nobody refers to any more are those of frames with a bad
   * CRC, of online records that met a full live queue, and of records past the logger's quota, in the order in which
   * that came about.
   */
  lemma Routes(events: seq<Event>)
    ensures var w := Run(Start(), events);
            && AllArriving(Start(), events, LiveQueue) == AllLeaving(Start(), events, LiveQueue) + w.live
            && AllArriving(Start(), events, LogQueue) == AllLeaving(Start(), events, LogQueue) + w.log
            && AllArriving(Start(), events, RawQueue) == AllLeaving(Start(), events, RawQueue) + w.raw
            && AllArriving(Start(), events, Nowhere) == w.abandoned
  {
    hide AllSlabs, AllArriving, AllLeaving, Run, Partitioned;
    StartPartitioned();
    RunPasses(Start(), events, LiveQueue);
    RunPasses(Start(), events, LogQueue);
    RunPasses(Start(), events, RawQueue);
    RunPasses(Start(), events, Nowhere);
    NothingLeaves(Start(), events);
    assert [] + AllArriving(Start(), events, LiveQueue) == AllArriving(Start(), events, LiveQueue);
    assert [] + AllArriving(Start(), events, LogQueue) == AllArriving(Start(), events, LogQueue);
    assert [] + AllArriving(Start(), events, RawQueue) == AllArriving(Start(), events, RawQueue);
    assert [] + AllArriving(Start(), events, Nowhere) == AllArriving(Start(), events, Nowhere);
    var abandoned := Run(Start(), events).abandoned;
    assert [] + abandoned == abandoned;
  }

  lemma {:induction false} NothingLeaves(w: World, events: seq<Event>)
    ensures AllLeaving(w, events, Nowhere) == []
    decreases |events|
  {
    hide Step;
    if events != [] {
      NothingLeaves(Step(w, events[0]), events[1..]);
    }
  }

  /**
   * The hands: the raw slabs the pipeline has received are those it has freed and the one it holds; the slabs it has
   * taken from the pool are those it has handed on or freed unpacked and the one it holds; the same for the logger and
   * for telemetry.
   */
  lemma Hands(events: seq<Event>, p: Place)
    requires p.PipelineRaw? || p.PipelineOut? || p.LoggerHand? || p.TelemetryHand? || p.AnalyzerHand?
    ensures AllArriving(Start(), events, p) == AllLeaving(Start(), events, p) + Inside(Run(Start(), events), p)
  {
    hide AllSlabs, AllArriving, AllLeaving, Run, Partitioned;
    StartPartitioned();
    RunPasses(Start(), events, p);
    assert [] + AllArriving(Start(), events, p) == AllArriving(Start(), events, p);
  }

  // ---------- One record ----------

  /** The steps of the pipeline for one record. */
  function OneRecord(packed: bool, online: bool): seq<Event> {
    [PipelineReceives, PipelineAllocates, PipelineDispatches(packed, online), PipelineReleases]
  }

  lemma FourSteps(w: World, e: seq<Event>)
    requires |e| == 4
    ensures Run(w, e) == Step(Step(Step(Step(w, e[0]), e[1]), e[2]), e[3])
  {
    hide Step;
    OneStep(w, e);
    OneStep(Step(w, e[0]), e[1..]);
    OneStep(Step(Step(w, e[0]), e[1]), e[2..]);
    OneStep(Step(Step(Step(w, e[0]), e[1]), e[2]), e[3..]);
    assert e[1..][1..] == e[2..] && e[2..][1..] == e[3..] && e[3..][1..] == [];
  }

  /**
   * A record from the raw queue to the router and the pipeline back to where it was: the packed slab is in the live
   * queue if the device was online and there was room, in the logging queue if it was offline; the raw slab is free.
   */
  lemma RecordRouted(w: World, packed: bool, online: bool)
    requires Partitioned(w) && w.pipeline.PipelineIdle? && w.raw != [] && w.free != []
    ensures var w', raw, out := Run(w, OneRecord(packed, online)), w.raw[0], w.free[0];
            && w'.pipeline.PipelineIdle? && w'.raw == w.raw[1..]
            && w'.live == (if packed && online && |w.live| < 16 then w.live + [out] else w.live)
            && w'.log == (if packed && !online then w.log + [out] else w.log)
            && w'.abandoned == (if packed && online && |w.live| >= 16 then w.abandoned + [out] else w.abandoned)
            && w'.free == (if packed then [raw] + w.free[1..] else [raw] + ([out] + w.free[1..]))
  {
    hide *;
    var e := OneRecord(packed, online);
    OneRecordIs(packed, online);
    FourSteps(w, e);
    var w1 := Step(w, e[0]);
    var w2 := Step(w1, e[1]);
    PartitionedStep(w, e[0]);
    PartitionedStep(w1, e[1]);
    SendsNeverFail(w2);
    RecordReceived(w, w1);
    Dispatched(w2, packed, online);
  }

  lemma OneRecordIs(packed: bool, online: bool)
    ensures OneRecord(packed, online) ==
            [PipelineReceives, PipelineAllocates, PipelineDispatches(packed, online), PipelineReleases]
  {
  }

  lemma RecordReceived(w: World, w1: World)
    requires w.pipeline.PipelineIdle? && w.raw != [] && w.free != [] && w1 == Step(w, PipelineReceives)
    ensures Step(w1, PipelineAllocates) ==
            w.(pipeline := Packing(w.raw[0], w.free[0]), raw := w.raw[1..], free := w.free[1..])
  {
  }

  lemma Dispatched(w: World, packed: bool, online: bool)
    requires w.pipeline.Packing? && |w.log| < LOG_QUEUE
    ensures var w', raw, out := Step(Step(w, PipelineDispatches(packed, online)), PipelineReleases), w.pipeline.raw,
              w.pipeline.out;
            && w'.pipeline.PipelineIdle? && w'.raw == w.raw
            && w'.live == (if packed && online && |w.live| < 16 then w.live + [out] else w.live)
            && w'.log == (if packed && !online then w.log + [out] else w.log)
            && w'.abandoned == (if packed && online && |w.live| >= 16 then w.abandoned + [out] else w.abandoned)
            && w'.free == (if packed then [raw] + w.free else [raw] + ([out] + w.free))
  {
  }

  /** With no free slab the record is dropped and its raw slab is freed. */
  lemma RecordDropped(w: World, packed: bool, online: bool)
    requires w.pipeline.PipelineIdle? && w.raw != [] && w.free == []
    ensures Run(w, OneRecord(packed, online)) == w.(raw := w.raw[1..], free := [w.raw[0]])
  {
    FourSteps(w, OneRecord(packed, online));
    hide Run;
  }

  lemma LoggerIdles(w: World)
    ensures w.logger.Waiting? ==> Step(w, LoggerWakes) == w.(logger := Looping(0))
    ensures w.logger.Waiting? ==> Step(w, LoggerReceives) == Step(w, LoggerStores) == w
    ensures w.logger.Looping? && w.log == [] ==> Step(w, LoggerReceives) == w.(logger := Waiting)
  {
  }

  /** A wake-up of the logger with one or two entries queued stores them, frees their slabs and ends. */
  lemma LoggerDrains(w: World)
    requires w.logger.Waiting? && 1 <= |w.log| <= 2
    ensures Run(w, WakeUp()).logger.Waiting? && Run(w, WakeUp()).log == []
    ensures Run(w, WakeUp()).abandoned == w.abandoned
    ensures Run(w, WakeUp()).free ==
            if |w.log| == 2 then [w.log[1]] + ([w.log[0]] + w.free) else [w.log[0]] + w.free
  {
    var e := WakeUp();
    SixSteps(w, e);
    LoggerIdles(w);
    StoreOne(w.(logger := Looping(0)));
    var w3 := w.(logger := Looping(1), log := w.log[1..], free := [w.log[0]] + w.free);
    hide Step, Run;
    if |w.log| == 2 {
      StoreOne(w3);
      var w5 := w3.(logger := Looping(2), log := w3.log[1..], free := [w3.log[0]] + w3.free);
      LoggerIdles(w5);
    } else {
      LoggerIdles(w3);
      LoggerIdles(w3.(logger := Waiting));
    }
  }

  /** Limits of the pool and the queues, and the start: all slabs free, in order. */
  lemma Limits()
    ensures Start().free == AllSlabs() && |AllSlabs()| == 32 && forall i :: 0 <= i < 32 ==> AllSlabs()[i] == i
    ensures Start().raw == Start().live == Start().log == Start().abandoned == []
    ensures Run(Start(), BadFrames(32)).free == [] && |Run(Start(), BadFrames(32)).abandoned| == 32
  {
    ThirtyTwoBadFrames();
    StartPartitioned();
    BadFramesLose(Start(), 32);
    LossesAreAbandoned(Start(), BadFrames(32));
  }

  /** The slab freed last is the first to be taken again. */
  lemma LastFreedFirst(list: seq<nat>, slab: nat)
    ensures Taken(AfterFree(list, slab)) == RecoverySpec.Some(slab) && AfterAlloc(AfterFree(list, slab)) == list
    ensures Taken(list).None? <==> list == []
    ensures list != [] ==> Taken(list) == RecoverySpec.Some(list[0]) && [list[0]] + AfterAlloc(list) == list
  {
  }
}
