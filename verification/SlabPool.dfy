/** The fixed pool of slabs: a singly linked free list threaded through a static array of nodes. */
module SlabPool {
  import opened RecoverySpec

  const POOL_SIZE: nat := 32

  /** What the node behind position `i` of a list points to. */
  function Follower(list: seq<nat>, i: nat): Option<nat> {
    if i + 1 < |list| then Some(list[i + 1]) else None
  }

  /** The list that starts at `head`: a chain without repetition that ends in NULL. */
  ghost predicate IsChain(next: seq<Option<nat>>, head: Option<nat>, list: seq<nat>) {
    && |list| <= |next|
    && head == (if list == [] then None else Some(list[0]))
    && (forall i :: 0 <= i < |list| ==> list[i] < |next|)
    && (forall i, j :: 0 <= i < j < |list| ==> list[i] != list[j])
    && (forall i :: 0 <= i < |list| ==> next[list[i]] == Follower(list, i))
  }

  /** Every slab, in the order of the array. */
  function AllSlabs(): (s: seq<nat>)
    ensures |s| == POOL_SIZE && forall i :: 0 <= i < POOL_SIZE ==> s[i] == i
  {
    seq(POOL_SIZE, i => i)
  }

  lemma ChainOfAll(next: seq<Option<nat>>)
    requires |next| == POOL_SIZE && next[POOL_SIZE - 1] == None
    requires forall i :: 0 <= i < POOL_SIZE - 1 ==> next[i] == Some(i + 1)
    ensures IsChain(next, Some(0), AllSlabs())
  {
    assert AllSlabs()[0] == 0;
  }

  /** What is left behind the head. */
  lemma ChainTail(next: seq<Option<nat>>, list: seq<nat>)
    requires list != [] && IsChain(next, Some(list[0]), list)
    ensures IsChain(next, next[list[0]], list[1..])
  {
    var rest := list[1..];
    forall i | 0 <= i < |rest|
      ensures next[rest[i]] == Follower(rest, i)
    {
      var k := i + 1;
      assert rest[i] == list[k];
      assert next[list[k]] == Follower(list, k);
      assert k + 1 < |list| ==> rest[i + 1] == list[k + 1];
    }
  }

  /** A new head in front of a chain it is not part of. */
  lemma ChainPush(next: seq<Option<nat>>, head: Option<nat>, list: seq<nat>, slab: nat)
    requires IsChain(next, head, list) && slab < |next| == POOL_SIZE && slab !in list
    ensures IsChain(next[slab := head], Some(slab), [slab] + list)
  {
    NoRoomForTwice(list, slab);
    var longer, next' := [slab] + list, next[slab := head];
    forall i | 0 <= i < |longer|
      ensures next'[longer[i]] == Follower(longer, i)
    {
      if i > 0 {
        var k := i - 1;
        assert longer[i] == list[k] != slab && (k + 1 < |list| ==> longer[i + 1] == list[k + 1]);
      } else {
        assert list != [] ==> longer[1] == list[0];
      }
    }
  }

  // ---------- The list as the tasks see it ----------

  /** The slab the next allocation returns. */
  function Taken(list: seq<nat>): Option<nat> {
    if list == [] then None else Some(list[0])
  }

  /** The free slabs after an allocation. */
  function AfterAlloc(list: seq<nat>): seq<nat> {
    if list == [] then [] else list[1..]
  }

  /** The free slabs once `slab` is freed. */
  function AfterFree(list: seq<nat>, slab: nat): seq<nat> {
    [slab] + list
  }

  class Pool {
    const next: array<Option<nat>>
    const length: array<nat>
    var freeList: Option<nat>
    var initialized: bool
    /** The free slabs, head first. */
    ghost var list: seq<nat>

    ghost predicate Valid()
      reads this, next
    {
      && next.Length == POOL_SIZE == length.Length
      && (if initialized then IsChain(next[..], freeList, list) else freeList == None && list == [])
    }

    constructor ()
      ensures Valid() && !initialized && fresh(next) && fresh(length)
    {
      next := new Option<nat>[POOL_SIZE](_ => None);
      length := new nat[POOL_SIZE](_ => 0);
      freeList, initialized, list := None, false, [];
    }

    /** Chain all nodes in order; a second call is refused. */
    method Init() returns (ok: bool)
      requires Valid()
      modifies this, next
      ensures Valid() && initialized && ok == !old(initialized)
      ensures ok ==> list == AllSlabs()
      ensures !ok ==> list == old(list) && freeList == old(freeList) && next[..] == old(next[..])
    {
      hide IsChain, AllSlabs;
      if initialized {
        return false;
      }
      freeList := Some(0);
      var idx := 0;
      while idx < POOL_SIZE - 1
        invariant 0 <= idx <= POOL_SIZE - 1
        invariant freeList == Some(0) && !initialized
        invariant forall i :: 0 <= i < idx ==> next[i] == Some(i + 1)
      {
        next[idx] := Some(idx + 1);
        idx := idx + 1;
      }
      next[POOL_SIZE - 1] := None;
      initialized := true;
      list := AllSlabs();
      ChainOfAll(next[..]);
      return true;
    }

    /** Take the head of the free list; its length field is cleared. */
    method Alloc() returns (slab: Option<nat>)
      requires Valid()
      modifies this`freeList, this`list, length
      ensures Valid()
      ensures slab == Taken(old(list)) && list == AfterAlloc(old(list))
      ensures slab.Some? ==> slab.value < POOL_SIZE && slab.value !in list
      ensures length[..] == if slab.Some? then old(length[..])[slab.value := 0] else old(length[..])
    {
      slab := None;
      if initialized && freeList.Some? {
        var node := freeList.value;
        ChainTail(next[..], list);
        freeList := next[node];
        length[node] := 0;
        slab := Some(node);
        list := list[1..];
      }
    }

    /** Put a slab that is not free back at the head of the list. */
    method Free(slab: nat)
      requires Valid() && slab < POOL_SIZE && slab !in list
      modifies this`freeList, this`list, next
      ensures Valid() && list == if initialized then AfterFree(old(list), slab) else old(list)
    {
      if initialized {
        ChainPush(next[..], freeList, list, slab);
        next[slab] := freeList;
        freeList := Some(slab);
        list := AfterFree(list, slab);
      }
    }
  }

  /** A list of distinct slabs that lacks one slab is shorter than the pool. */
  lemma NoRoomForTwice(list: seq<nat>, slab: nat)
    requires slab < POOL_SIZE && slab !in list
    requires forall i :: 0 <= i < |list| ==> list[i] < POOL_SIZE
    requires forall i, j :: 0 <= i < j < |list| ==> list[i] != list[j]
    ensures |list| < POOL_SIZE
  {
    DistinctCount([slab] + list, POOL_SIZE);
  }

  /** Pigeonhole: distinct numbers below `n` are at most `n` many. */
  lemma {:induction false} DistinctCount(list: seq<nat>, n: nat)
    requires forall i :: 0 <= i < |list| ==> list[i] < n
    requires forall i, j :: 0 <= i < j < |list| ==> list[i] != list[j]
    ensures |list| <= n
    decreases n
  {
    if list != [] {
      assert list[0] < n;
      if n - 1 in list {
        var k :| 0 <= k < |list| && list[k] == n - 1;
        DistinctCount(list[..k] + list[k + 1..], n - 1);
      } else {
        DistinctCount(list, n - 1);
      }
    }
  }

  /** Freeing a slab that is already at the head of the list would link it to itself: no chain is left. */
  lemma DoubleFreeLoops(next: seq<Option<nat>>, list: seq<nat>, other: seq<nat>)
    requires list != [] && IsChain(next, Some(list[0]), list)
    ensures !IsChain(next[list[0] := Some(list[0])], Some(list[0]), other)
  {
    var bad := next[list[0] := Some(list[0])];
    assert list[0] < |next|;
    assert other != [] && bad[list[0]] == Follower(other, 0) ==> |other| > 1 && other[1] == list[0];
  }
}
