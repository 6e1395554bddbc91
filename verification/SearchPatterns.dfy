/** The binary search for the head sector on ids that are not rotated: where it ends if the first sector is no guide. */
module SearchPatterns {
  import opened Bytes
  import opened Entry
  import opened RecoverySpec
  import opened Recovery

  /** Sector `k` has a header, and its id is at or after the base. */
  predicate Next(ids: seq<Option<nat>>, base: nat, k: nat)
    requires Words(ids) && base < WORD && k < |ids|
  {
    ids[k].Some? && IsNext(ids[k].value, base)
  }

  /** Sector `k` with its id. */
  function HeadAt(ids: seq<Option<nat>>, k: nat): Head
    requires k < |ids|
  {
    Head(k, if ids[k].Some? then ids[k].value else 0)
  }

  /** One step of the search. */
  lemma SearchStep(ids: seq<Option<nat>>, base: nat, low: nat, mid: nat, high: nat, head: Head)
    requires Words(ids) && base < WORD && low <= high < |ids| && mid == low + (high - low) / 2
    requires head.id < WORD && head.sector < |ids|
    ensures low <= mid <= high
    ensures Next(ids, base, mid) ==>
              ids[mid].Some? && ids[mid].value < WORD
              && SearchFrom(ids, base, low, high, head) ==
                 SearchFrom(ids, base, mid + 1, high, Head(mid, ids[mid].value))
    ensures !Next(ids, base, mid) ==>
              SearchFrom(ids, base, low, high, head) == SearchFrom(ids, base, low, mid - 1, head)
  {
    hide IsNext;
  }

  lemma SearchOver(ids: seq<Option<nat>>, base: nat, low: nat, high: int, head: Head)
    requires Words(ids) && base < WORD && high < low && -1 <= high < |ids|
    requires head.id < WORD && head.sector < |ids|
    ensures SearchFrom(ids, base, low, high, head) == head
  {
  }

  /** From sector `low` on the search knows a sector that is next; it ends at the last one in a row. */
  lemma {:induction false} SearchUp(ids: seq<Option<nat>>, base: nat, c: nat, low: nat, high: int, head: Head)
    requires Words(ids) && base < WORD && 1 <= low <= c + 1 <= high + 1 <= |ids|
    requires forall k: nat | low <= k <= c :: Next(ids, base, k)
    requires forall k: nat | c < k <= high :: !Next(ids, base, k)
    requires ids[low - 1].Some? && head == Head(low - 1, ids[low - 1].value)
    ensures SearchFrom(ids, base, low, high, head) == HeadAt(ids, c)
    decreases high - low + 1
  {
    hide IsNext, SearchFrom;
    if low <= high {
      var mid := low + (high - low) / 2;
      SearchStep(ids, base, low, mid, high, head);
      if Next(ids, base, mid) {
        SearchUp(ids, base, c, mid + 1, high, Head(mid, ids[mid].value));
      } else {
        SearchUp(ids, base, c, low, mid - 1, head);
      }
    } else {
      SearchOver(ids, base, low, high, head);
    }
  }

  /** Where no sector behind the first one is next, the search ends where it began. */
  lemma {:induction false} SearchZero(ids: seq<Option<nat>>, base: nat, low: nat, high: int, head: Head)
    requires Words(ids) && base < WORD && low <= 1 && -1 <= high < |ids| && |ids| > 0 && head == Head(0, base)
    requires forall k: nat | 1 <= k <= high :: !Next(ids, base, k)
    requires ids[0].Some? ==> ids[0].value == base
    ensures SearchFrom(ids, base, low, high, head) == head
    decreases high - low + 1
  {
    if low <= high {
      var mid := low + (high - low) / 2;
      if Next(ids, base, mid) {
        SearchZero(ids, base, 1, high, head);
      } else {
        SearchZero(ids, base, low, mid - 1, head);
      }
    }
  }

  /** The least sector but the first that the search looks at while it goes down from `high`; 0 if there is none. */
  function LeastProbe(high: nat): (p: nat)
    ensures p <= high / 2 && (p == 0 <==> high <= 1)
  {
    var p := high / 2;
    if p <= 2 then p else LeastProbe(p - 1)
  }

  lemma ProbeHit(ids: seq<Option<nat>>, base: nat, p: nat, high: nat, head: Head)
    requires Words(ids) && base < WORD && high < |ids| && p == high / 2 > 0 && Next(ids, base, p)
    requires head.id < WORD && head.sector < |ids|
    ensures ids[p].Some? && ids[p].value < WORD && 0 < LeastProbe(high) <= p
    ensures SearchFrom(ids, base, 0, high, head) == SearchFrom(ids, base, p + 1, high, Head(p, ids[p].value))
  {
    hide IsNext;
  }

  lemma ProbeMissed(ids: seq<Option<nat>>, base: nat, p: nat, high: nat, head: Head)
    requires Words(ids) && base < WORD && high < |ids| && p == high / 2 > 0 && !Next(ids, base, p)
    requires head.id < WORD && head.sector < |ids|
    ensures SearchFrom(ids, base, 0, high, head) == SearchFrom(ids, base, 0, p - 1, head)
    ensures p > 2 ==> LeastProbe(high) == LeastProbe(p - 1)
    ensures p <= 2 ==> LeastProbe(high) == p
  {
    hide IsNext;
  }

  /** Sectors `1..m` are next, the first one has no header: the search gets there if one of its probes hits them. */
  lemma {:induction false} SearchRise(ids: seq<Option<nat>>, base: nat, m: nat, high: nat, head: Head)
    requires Words(ids) && base < WORD && m <= high < |ids| && ids[0] == None && head == Head(0, base)
    requires forall k: nat | 1 <= k <= m :: Next(ids, base, k)
    requires forall k: nat | m < k <= high :: !Next(ids, base, k)
    ensures SearchFrom(ids, base, 0, high, head) ==
            if 0 < LeastProbe(high) <= m then HeadAt(ids, m) else head
    decreases high
  {
    hide IsNext, SearchFrom;
    var p := high / 2;
    if p == 0 {
      SearchDown(ids, base, high, head);
    } else if p <= m {
      ProbeHit(ids, base, p, high, head);
      SearchUp(ids, base, m, p + 1, high, Head(p, ids[p].value));
    } else {
      ProbeMissed(ids, base, p, high, head);
      SearchRise(ids, base, m, p - 1, head);
    }
  }

  lemma SearchDown(ids: seq<Option<nat>>, base: nat, high: nat, head: Head)
    requires Words(ids) && base < WORD && high < |ids| && high <= 1 && ids[0] == None && head == Head(0, base)
    ensures SearchFrom(ids, base, 0, high, head) == head
  {
    assert SearchFrom(ids, base, 0, -1, head) == head;
  }

  /** How many sectors behind the first one are next, one after the other. */
  function LeadingFrom(ids: seq<Option<nat>>, base: nat, k: nat): (m: nat)
    requires Words(ids) && base < WORD && 1 <= k <= |ids|
    ensures k - 1 <= m < |ids| && (forall i: nat | k <= i <= m :: Next(ids, base, i))
    ensures m + 1 < |ids| ==> !Next(ids, base, m + 1)
    decreases |ids| - k
  {
    if k < |ids| && Next(ids, base, k) then LeadingFrom(ids, base, k + 1) else k - 1
  }

  /** Behind the first sector it changes at most once whether a sector is next. */
  predicate OneTurn(ids: seq<Option<nat>>, base: nat)
    requires Words(ids) && base < WORD
  {
    forall i: nat, j: nat, k: nat | 1 <= i < j < k < |ids| && Next(ids, base, i) != Next(ids, base, j) ::
      Next(ids, base, k) == Next(ids, base, j)
  }

  lemma TurnsOnce(ids: seq<Option<nat>>, base: nat, i: nat, j: nat, k: nat)
    requires Words(ids) && base < WORD && OneTurn(ids, base) && 1 <= i < j <= k < |ids|
    requires Next(ids, base, i) != Next(ids, base, j)
    ensures Next(ids, base, k) == Next(ids, base, j)
  {
  }

  /** The head that the search finds, if the ids behind the first sector turn at most once. */
  function FoundHead(ids: seq<Option<nat>>, base: nat): Head
    requires |ids| > 0 && Words(ids) && base < WORD
  {
    var n, m := |ids|, LeadingFrom(ids, base, 1);
    if m > 0 then
      if ids[0].Some? || 0 < LeastProbe(n - 1) <= m then HeadAt(ids, m) else Head(0, base)
    else if (n - 1) / 2 > 0 && Next(ids, base, (n - 1) / 2) then HeadAt(ids, n - 1)
    else Head(0, base)
  }

  lemma HeadOfRise(ids: seq<Option<nat>>, base: nat, m: nat)
    requires |ids| > 0 && Words(ids) && base == BaseId(ids) && OneTurn(ids, base)
    requires m == LeadingFrom(ids, base, 1) > 0
    ensures HeadSearch(ids) == FoundHead(ids, base)
  {
    hide IsNext;
    var n := |ids|;
    forall k: nat | m < k < n
      ensures !Next(ids, base, k)
    {
      if k > m + 1 {
        TurnsOnce(ids, base, m, m + 1, k);
      }
    }
    var head := Head(0, base);
    if ids[0].Some? {
      BaseIsNext(base);
      RotatedIs(ids, base, m);
      HeadFound(ids, m);
    } else {
      SearchRise(ids, base, m, n - 1, head);
    }
  }

  lemma RotatedIs(ids: seq<Option<nat>>, base: nat, m: nat)
    requires Words(ids) && base < WORD && 0 < m < |ids| && ids[0] == Some(base) && IsNext(base, base)
    requires forall k: nat | 1 <= k <= m :: Next(ids, base, k)
    requires forall k: nat | m < k < |ids| :: !Next(ids, base, k)
    ensures Rotated(ids, base, m)
  {
    hide IsNext;
    forall k | 0 <= k < |ids|
      ensures k <= m ==> ids[k].Some? && IsNext(ids[k].value, base)
      ensures k > m ==> ids[k].Some? ==> !IsNext(ids[k].value, base)
    {
      if k > 0 {
        assert Next(ids, base, k) <==> k <= m;
      }
    }
  }

  lemma BaseIsNext(base: nat)
    requires base < WORD
    ensures IsNext(base, base)
  {
  }

  lemma HeadOfFall(ids: seq<Option<nat>>, base: nat)
    requires |ids| > 0 && Words(ids) && base == BaseId(ids) && OneTurn(ids, base)
    requires LeadingFrom(ids, base, 1) == 0
    ensures HeadSearch(ids) == FoundHead(ids, base)
  {
    var n := |ids|;
    var mid := (n - 1) / 2;
    var head := Head(0, base);
    if mid > 0 && Next(ids, base, mid) {
      forall k: nat | mid < k < n
        ensures Next(ids, base, k)
      {
        TurnsOnce(ids, base, 1, mid, k);
      }
      SearchUp(ids, base, n - 1, mid + 1, n - 1, Head(mid, ids[mid].value));
    } else {
      forall k: nat | 1 <= k <= mid
        ensures !Next(ids, base, k)
      {
        if k > 1 && Next(ids, base, k) {
          TurnsOnce(ids, base, 1, k, mid);
        }
      }
      if mid > 0 {
        SearchZero(ids, base, 0, mid - 1, head);
      } else {
        SearchZero(ids, base, 0, n - 1, head);
      }
    }
  }

  /** The search on any ids that turn at most once behind the first sector. */
  lemma HeadOfTurn(ids: seq<Option<nat>>, base: nat)
    requires |ids| > 0 && Words(ids) && base == BaseId(ids) && OneTurn(ids, base)
    ensures HeadSearch(ids) == FoundHead(ids, base)
  {
    hide HeadSearch, FoundHead;
    if LeadingFrom(ids, base, 1) > 0 {
      HeadOfRise(ids, base, LeadingFrom(ids, base, 1));
    } else {
      HeadOfFall(ids, base);
    }
  }

  // ---------- Ids of a window ----------

  lemma ShiftedId(x: nat, base: nat, d: nat)
    requires base < WORD
    ensures ((x + d) % WORD - base) % WORD == ((x % WORD - base) % WORD + d) % WORD
  {
    BaseIsSmall(base);
    ModDifference(x + d, base);
    ModDifference(x, base);
    ModSum(x - base, d);
  }

  lemma BaseIsSmall(base: nat)
    requires base < WORD
    ensures base % WORD == base
  {
  }

  lemma ModSum(a: int, b: int)
    ensures (a % WORD + b) % WORD == (a + b) % WORD
  {
  }

  /** On an arc of less than 2^31 ids the order against a base changes at most once. */
  lemma ArcTurnsOnce(x: nat, base: nat, b: nat, c: nat)
    requires base < WORD && b <= c < 0x1000_0000
    requires IsNext(x % WORD, base) != IsNext((x + b) % WORD, base)
    ensures IsNext((x + c) % WORD, base) == IsNext((x + b) % WORD, base)
  {
    ShiftedId(x, base, b);
    ShiftedId(x, base, c);
  }
}
