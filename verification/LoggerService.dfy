/** The quota loop of the logger task over its queue, the logger and the slab pool, with nothing else running. */
module LoggerService {
  import opened Bytes
  import opened LoggerSpec
  import opened Entry
  import opened Layout
  import opened SlabPool
  import opened SlabProtocol
  import Log = Logger

  /** A queued record: its slab, and what that slab holds. */
  datatype Queued = Queued(slab: nat, payload: seq<Byte>)

  /** Distinct slabs, none of them free, and slab contents of at most 512 bytes. */
  predicate Apart(queue: seq<Queued>, list: seq<nat>) {
    && (forall i :: 0 <= i < |queue| ==>
          queue[i].slab < POOL_SIZE && queue[i].slab !in list && |queue[i].payload| <= SLAB_BYTES)
    && (forall i, j :: 0 <= i < j < |queue| ==> queue[i].slab != queue[j].slab)
  }

  const SLAB_BYTES: nat := 512

  /** The head of the queue freed. */
  lemma HeadFreed(queue: seq<Queued>, list: seq<nat>)
    requires queue != [] && Apart(queue, list)
    ensures queue[0].slab < POOL_SIZE && queue[0].slab !in list && |queue[0].payload| < WORD
    ensures Apart(queue[1..], AfterFree(list, queue[0].slab)) && Apart(queue[1..], list)
    ensures forall i :: 0 <= i < |queue[1..]| ==> queue[1..][i].slab != queue[0].slab
  {
  }

  /** The slabs of the first `k` of `queue` freed in order, on top of `list`. */
  function Freed(queue: seq<Queued>, k: nat, list: seq<nat>): seq<nat>
    requires k <= |queue|
  {
    if k == 0 then list else AfterFree(Freed(queue, k - 1, list), queue[k - 1].slab)
  }

  /** What the first `k` of `queue` hold. */
  function Payloads(queue: seq<Queued>, k: nat): (s: seq<seq<Byte>>)
    requires k <= |queue|
    ensures |s| == k && forall i :: 0 <= i < k ==> s[i] == queue[i].payload
  {
    seq(k, i requires 0 <= i < k => queue[i].payload)
  }

  lemma PayloadsAreSmall(queue: seq<Queued>, k: nat, list: seq<nat>)
    requires Apart(queue, list) && k <= |queue|
    ensures forall i :: 0 <= i < |Payloads(queue, k)| ==> |Payloads(queue, k)[i]| < WORD
  {
  }

  lemma NothingQueued(rest: seq<Queued>, list: seq<nat>)
    requires Apart(rest, list) && rest == []
    ensures Apart([], list)
  {
  }

  lemma QuotaIsTwo()
    ensures STORE_QUOTA == 2
  {
  }

  lemma {:induction false} WriteOneMore(geo: Geometry, s: State, payloads: seq<seq<Byte>>, payload: seq<Byte>)
    requires Sized(geo, s) && (forall i :: 0 <= i < |payloads| ==> |payloads[i]| < WORD) && |payload| < WORD
    ensures forall i :: 0 <= i < |payloads + [payload]| ==> |(payloads + [payload])[i]| < WORD
    ensures var s1, r := WriteAll(geo, s, payloads), WriteOp(geo, WriteAll(geo, s, payloads), payload);
            && WriteAll(geo, s, payloads + [payload]) == r.s
            && WriteErrors(geo, s, payloads + [payload]) == WriteErrors(geo, s, payloads) + if r.err == Ok then 0 else 1
    decreases |payloads|
  {
    hide WriteOp, Sized;
    if payloads == [] {
      assert [payload][1..] == [] && payloads + [payload] == [payload];
    } else {
      assert (payloads + [payload])[1..] == payloads[1..] + [payload];
      WriteOneMore(geo, WriteOp(geo, s, payloads[0]).s, payloads[1..], payload);
    }
  }

  lemma OneMoreStored(queue: seq<Queued>, k: nat, list: seq<nat>)
    requires k < |queue|
    ensures Payloads(queue, k + 1) == Payloads(queue, k) + [queue[k].payload]
    ensures Freed(queue, k + 1, list) == AfterFree(Freed(queue, k, list), queue[k].slab)
  {
  }

  lemma NothingStored(geo: Geometry, s: State, queue: seq<Queued>, list: seq<nat>)
    requires Sized(geo, s)
    ensures Payloads(queue, 0) == [] && Freed(queue, 0, list) == list
    ensures WriteAll(geo, s, []) == s && WriteErrors(geo, s, []) == 0
  {
    hide Sized;
  }

  /** The nodes of the pool are not the buffers of the logger. */
  predicate Unshared(pool: Pool, logger: Log.BlackboxLogger) {
    pool.next as object != logger.batch && pool.next as object != logger.flash.memory
  }

  class Service {
    const pool: Pool
    const logger: Log.BlackboxLogger
    /** Records of the logging queue, oldest first. */
    var queue: seq<Queued>
    /** Write errors reported on the event bus. */
    var errors: nat

    ghost predicate Valid()
      reads this, pool, pool.next, logger, logger.flash, logger.flash.memory, logger.batch
    {
      && pool.Valid() && pool.initialized && logger.Valid() && Unshared(pool, logger)
      && Apart(queue, pool.list)
    }

    constructor (slabPool: Pool, blackbox: Log.BlackboxLogger)
      requires slabPool.Valid() && slabPool.initialized && blackbox.Valid() && Unshared(slabPool, blackbox)
      ensures Valid() && pool == slabPool && logger == blackbox && queue == [] && errors == 0
    {
      pool, logger, queue, errors := slabPool, blackbox, [], 0;
    }

    /** Receive from the queue; `None` if it is empty. */
    method Receive() returns (item: RecoverySpec.Option<Queued>)
      modifies this`queue
      ensures old(queue) == [] ==> item.None? && queue == []
      ensures old(queue) != [] ==> item == RecoverySpec.Some(old(queue)[0]) && queue == old(queue)[1..]
    {
      if queue == [] {
        return RecoverySpec.None;
      }
      item := RecoverySpec.Some(queue[0]);
      queue := queue[1..];
    }

    /** Write what the slab holds to the log, report an error, and free the slab in any case. */
    method Store(item: Queued) returns (stored: bool)
      requires pool.Valid() && pool.initialized && logger.Valid() && Unshared(pool, logger)
      requires item.slab < POOL_SIZE && item.slab !in pool.list && |item.payload| < WORD
      modifies this`errors, pool`freeList, pool`list, pool.next
      modifies logger, logger.flash, logger.flash.memory, logger.batch
      ensures pool.Valid() && pool.initialized && logger.Valid()
      ensures pool.list == AfterFree(old(pool.list), item.slab)
      ensures var r := WriteOp(logger.geo, old(logger.State()), item.payload);
              logger.State() == r.s && stored == (r.err == Ok) && errors == old(errors) + if r.err == Ok then 0 else 1
    {
      hide WriteOp, IsChain;
      stored := true;
      var err := logger.Write(item.payload);
      if err != Ok {
        errors := errors + 1;
        stored := false;
      }
      pool.Free(item.slab);
    }

    /**
     * One wake-up. The loop receives before it looks at its quota: with three or more records queued it stores two,
     * in order, and takes a third one off the queue that is neither stored nor freed.
     */
    method WakeUp() returns (processed: nat)
      requires Valid()
      modifies this`queue, this`errors, pool`freeList, pool`list, pool.next
      modifies logger, logger.flash, logger.flash.memory, logger.batch
      ensures Valid()
      ensures var n := |old(queue)|;
              && processed == (if n < 2 then n else 2)
              && queue == old(queue)[if n <= 2 then n else 3..]
      ensures processed <= |old(queue)| && pool.list == Freed(old(queue), processed, old(pool.list))
      ensures forall i :: 0 <= i < processed ==> |Payloads(old(queue), processed)[i]| < WORD
      ensures logger.State() == WriteAll(logger.geo, old(logger.State()), Payloads(old(queue), processed))
      ensures errors == old(errors) + WriteErrors(logger.geo, old(logger.State()), Payloads(old(queue), processed))
      ensures |old(queue)| > 2 ==> old(queue)[2].slab !in pool.list
    {
      hide *;
      Parts();
      QuotaIsTwo();
      processed := 0;
      ghost var whole, free, rest, s, before := queue, pool.list, queue, logger.State(), errors;
      PayloadsAreSmall(whole, 0, free);
      NothingStored(logger.geo, s, whole, free);
      var item := Receive();
      while item.Some? && processed < STORE_QUOTA
        invariant pool.Valid() && pool.initialized && logger.Valid() && processed <= 2 && processed <= |whole|
        invariant rest == whole[processed..]
        invariant item.Some? <==> rest != []
        invariant item.Some? ==> item.value == rest[0] && queue == rest[1..]
        invariant item.None? ==> queue == []
        invariant Apart(rest, pool.list) && Apart(whole, free) && pool.list == Freed(whole, processed, free)
        invariant forall i :: 0 <= i < processed ==> |Payloads(whole, processed)[i]| < WORD
        invariant logger.State() == WriteAll(logger.geo, s, Payloads(whole, processed))
        invariant errors == before + WriteErrors(logger.geo, s, Payloads(whole, processed))
        decreases 2 - processed
      {
        HeadFreed(rest, pool.list);
        PayloadsAreSmall(whole, processed + 1, free);
        OneMoreStored(whole, processed, free);
        WriteOneMore(logger.geo, s, Payloads(whole, processed), item.value.payload);
        var stored := Store(item.value);
        processed := processed + 1;
        rest := rest[1..];
        item := Receive();
      }
      if item.Some? {
        HeadFreed(rest, pool.list);
      } else {
        NothingQueued(rest, pool.list);
      }
      Parts();
    }

    /** `Valid` in its parts. */
    lemma Parts()
      ensures Valid() <==>
                && pool.Valid() && pool.initialized && logger.Valid() && Unshared(pool, logger)
                && Apart(queue, pool.list)
      ensures logger.Valid() ==> Sized(logger.geo, logger.State())
    {
    }
  }
}
