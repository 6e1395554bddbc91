/** The linear scan over the current sector, cut short or not, and recovery as a whole. */
module Scanning {
  import opened Bytes
  import opened Entry
  import opened Layout
  import opened LoggerSpec
  import opened Invariant
  import opened Replay
  import opened RecoverySpec
  import opened Recovery

  /** From `at` on the buffer holds entry `i` of the history; its alignment gap may hold anything. */
  predicate EntryAt(geo: Geometry, g: History, buf: seq<Byte>, at: nat, i: nat)
    requires geo.align >= 1
  {
    && i < |g.raw| == |g.payloads| && at + |g.raw[i]| <= |buf|
    && IsEntry(buf[at..at + |g.raw[i]|], Id(g, i), g.payloads[i], geo.align)
  }

  /** The buffer starts with entries `a..b` of the history. */
  predicate EntriesAt(geo: Geometry, g: History, buf: seq<Byte>, a: nat, b: nat)
    requires geo.align >= 1
  {
    Between(g.raw, a, b) && forall i: nat :: a <= i < b ==> EntryAt(geo, g, buf, |Run(g.raw, a, i)|, i)
  }

  /** What the scan does with an entry. */
  lemma ScanOneEntry(align: nat, buf: seq<Byte>, base: nat, at: nat, n: nat, id: nat, payload: seq<Byte>,
                     writeOffset: nat, highest: nat)
    requires Scannable(align, buf) && highest < WORD && at + n <= |buf| && IsEntry(buf[at..at + n], id, payload, align)
    ensures ScanSector(align, buf, base, at, writeOffset, highest) ==
            if IsNext(id, highest) then ScanSector(align, buf, base, at + n, base + at + n, id)
            else Scan(writeOffset, highest, true, false)
  {
    hide WordAt, Validate, Unpadded, EntrySize, IsNext;
    var raw, rest := buf[at..at + n], buf[at + n..];
    assert buf[at..] == raw + rest;
    EntryFields(raw, id, payload, align, rest);
    EntryValidates(raw, id, payload, align, rest, |buf| - at);
  }

  /** What the scan does with anything else. */
  lemma ScanNoEntry(align: nat, buf: seq<Byte>, base: nat, at: nat, writeOffset: nat, highest: nat)
    requires Scannable(align, buf) && highest < WORD && at + HEADER_SIZE <= |buf|
    requires Validate(buf[at..], |buf| - at) != Ok
    ensures ScanSector(align, buf, base, at, writeOffset, highest) ==
            Scan(writeOffset, highest, true, Validate(buf[at..], |buf| - at) == Stray)
  {
    hide Validate;
  }

  lemma EntryAtParts(geo: Geometry, g: History, buf: seq<Byte>, a: nat, b: nat, i: nat)
    requires geo.align >= 1 && EntriesAt(geo, g, buf, a, b) && a <= i < b
    ensures |g.raw| == |g.payloads| && i < b <= |g.raw| && Between(g.raw, a, i) && Between(g.raw, a, b)
    ensures |Run(g.raw, a, i)| + |g.raw[i]| <= |buf| && |Run(g.raw, a, i + 1)| == |Run(g.raw, a, i)| + |g.raw[i]|
    ensures IsEntry(buf[|Run(g.raw, a, i)|..|Run(g.raw, a, i)| + |g.raw[i]|], Id(g, i), g.payloads[i], geo.align)
  {
    hide IsEntry;
    RunSplit(g.raw, a, i, i + 1);
    RunFirst(g.raw, i, i + 1);
    RunEmpty(g.raw, i + 1);
    hide Run;
  }

  /** From an entry that is next in serial order the scan runs to the end of the entries. */
  lemma {:induction false} ScanEntries(geo: Geometry, g: History, buf: seq<Byte>, base: nat, a: nat, e: nat, b: nat,
                                        writeOffset: nat, highest: nat)
    requires geo.align >= 1 && EntriesAt(geo, g, buf, a, b) && a <= e < b <= |g.raw|
    requires Scannable(geo.align, buf) && highest < WORD && IsNext(Id(g, e), highest)
    ensures ScanSector(geo.align, buf, base, |Run(g.raw, a, e)|, writeOffset, highest) ==
            ScanSector(geo.align, buf, base, |Run(g.raw, a, b)|, base + |Run(g.raw, a, b)|, Id(g, b - 1))
    decreases b - e
  {
    hide *;
    EntryAtParts(geo, g, buf, a, b, e);
    var at := |Run(g.raw, a, e)|;
    ScanOneEntry(geo.align, buf, base, at, |g.raw[e]|, Id(g, e), g.payloads[e], writeOffset, highest);
    if e + 1 < b {
      NextIsNext(g, e);
      ScanEntries(geo, g, buf, base, a, e + 1, b, base + at + |g.raw[e]|, Id(g, e));
    }
  }

  lemma NextIsNext(g: History, e: nat)
    ensures IsNext(Id(g, e + 1), Id(g, e)) && IsNext(Id(g, e), Id(g, e))
  {
    SerialOrder(g, e + 1, e);
    SerialOrder(g, e, e);
  }

  // ---------- The current sector ----------

  /** The entry behind the last one of the batch whose tail arrived, counted from entry `i`. */
  function WholeFrom(g: History, i: nat): (w: nat)
    requires g.flushed <= i <= g.tornTo <= |g.raw| == |g.payloads|
    ensures i <= w <= g.tornTo
    decreases g.tornTo - i
  {
    if i < g.tornTo && |Run(g.raw, g.flushed, i)| + OVERHEAD + |g.payloads[i]| <= g.torn then WholeFrom(g, i + 1) else i
  }

  /** The entry behind the last one that lies wholly in the flash. */
  function Whole(g: History): (w: nat)
    requires g.flushed <= g.tornTo <= |g.raw| == |g.payloads|
    ensures g.flushed <= w <= g.tornTo
  {
    WholeFrom(g, g.flushed)
  }

  /** How many bytes of the entry cut short arrived. */
  function CutBytes(g: History): nat
    requires g.flushed <= g.tornTo <= |g.raw| == |g.payloads|
  {
    var d := |Run(g.raw, g.flushed, Whole(g))|;
    if g.torn > d then g.torn - d else 0
  }

  lemma {:induction false} WholeFromLaw(g: History, i: nat, j: nat)
    requires g.flushed <= i <= g.tornTo <= |g.raw| == |g.payloads|
    ensures i <= j < WholeFrom(g, i) ==> |Run(g.raw, g.flushed, j)| + OVERHEAD + |g.payloads[j]| <= g.torn
    ensures WholeFrom(g, i) < g.tornTo ==>
              |Run(g.raw, g.flushed, WholeFrom(g, i))| + OVERHEAD + |g.payloads[WholeFrom(g, i)]| > g.torn
    decreases g.tornTo - i
  {
    hide Run;
    if i < g.tornTo && |Run(g.raw, g.flushed, i)| + OVERHEAD + |g.payloads[i]| <= g.torn {
      WholeFromLaw(g, i + 1, j);
    }
  }

  lemma RunInside(raw: seq<seq<Byte>>, a: nat, i: nat, b: nat)
    requires Between(raw, a, b) && a <= i < b
    ensures var q := |Run(raw, a, i)|;
            q + |raw[i]| <= |Run(raw, a, b)| && Run(raw, a, b)[q..q + |raw[i]|] == raw[i]
  {
    RunSplit(raw, a, i, b);
    RunFirst(raw, i, b);
    hide Run;
  }

  lemma SamePrefixIsEntry(raw: seq<Byte>, x: seq<Byte>, id: nat, payload: seq<Byte>, align: nat)
    requires IsEntry(raw, id, payload, align) && |x| == |raw|
    requires forall k :: 0 <= k < OVERHEAD + |payload| ==> x[k] == raw[k]
    ensures IsEntry(x, id, payload, align)
  {
    hide Unpadded, EntrySize;
    assert x[..OVERHEAD + |payload|] == raw[..OVERHEAD + |payload|];
  }

  /** Entries flushed into the current sector. */
  lemma FlushedEntryAt(geo: Geometry, g: History, i: nat)
    requires Ranges(geo, g) && LogOk(geo, g) && g.lo[g.cur] <= i < g.flushed
    ensures EntryAt(geo, g, Content(geo, g, g.cur), |Run(g.raw, g.lo[g.cur], i)|, i)
  {
    hide LogOk, IsEntry, Content, Run;
    ContentAt(geo, g, g.cur, i);
    EntryIs(geo, g, i);
  }

  /** A sector buffer: the entries `a..f`, the first `torn` bytes of the entries `f..t`, erased flash. */
  function CutBuffer(raw: seq<seq<Byte>>, a: nat, f: nat, t: nat, torn: nat, size: nat): (s: seq<Byte>)
    requires a <= f <= t <= |raw| && torn <= |Run(raw, f, t)| && |Run(raw, a, f)| + torn <= size
    ensures |s| == size
  {
    Run(raw, a, f) + Run(raw, f, t)[..torn] + Blank(size - |Run(raw, a, f)| - torn)
  }

  /** Where an entry behind the flushed ones starts, and which of its bytes arrived. */
  lemma CutBufferEntry(raw: seq<seq<Byte>>, a: nat, f: nat, t: nat, torn: nat, size: nat, i: nat, m: nat)
    requires a <= f <= i < t <= |raw| && torn <= |Run(raw, f, t)| && |Run(raw, a, f)| + |Run(raw, f, t)| <= size
    requires m <= |raw[i]| && |Run(raw, f, i)| + m <= torn
    ensures Between(raw, a, i) && |Run(raw, a, i)| == |Run(raw, a, f)| + |Run(raw, f, i)|
    ensures |Run(raw, a, i)| + |raw[i]| <= size
    ensures forall k :: 0 <= k < m ==> CutBuffer(raw, a, f, t, torn, size)[|Run(raw, a, i)| + k] == raw[i][k]
  {
    RunSplit(raw, a, f, i);
    RunInside(raw, f, i, t);
    hide Run;
    var x, d, q := Run(raw, f, t), |Run(raw, a, f)|, |Run(raw, f, i)|;
    forall k | 0 <= k < m
      ensures CutBuffer(raw, a, f, t, torn, size)[d + q + k] == raw[i][k]
    {
      assert x[..torn][q + k] == x[q + k];
      assert raw[i][k] == x[q..q + |raw[i]|][k];
    }
  }

  /** Behind the bytes that arrived the buffer is erased. */
  lemma CutBufferBlank(raw: seq<seq<Byte>>, a: nat, f: nat, t: nat, torn: nat, size: nat, k: nat)
    requires a <= f <= t <= |raw| && torn <= |Run(raw, f, t)| && |Run(raw, a, f)| + torn <= k < size
    ensures CutBuffer(raw, a, f, t, torn, size)[k] == ERASED
  {
    hide Run;
  }

  /** The current sector as such a buffer. */
  lemma CurrentBuffer(geo: Geometry, g: History)
    requires Ranges(geo, g) && LogOk(geo, g)
    ensures g.cur < geo.sectors == |g.lo| && geo.align >= 1
    ensures g.lo[g.cur] <= g.flushed <= g.tornTo <= |g.raw| == |g.payloads|
    ensures g.torn <= |Run(g.raw, g.flushed, g.tornTo)|
    ensures |Run(g.raw, g.lo[g.cur], g.flushed)| + g.torn <= geo.sector
    ensures g.torn > 0 ==> |Run(g.raw, g.lo[g.cur], g.flushed)| + |Run(g.raw, g.flushed, g.tornTo)| <= geo.sector
    ensures Content(geo, g, g.cur) == CutBuffer(g.raw, g.lo[g.cur], g.flushed, g.tornTo, g.torn, geo.sector)
  {
    hide Run, IsEntry;
  }

  lemma EntryAtFrom(geo: Geometry, g: History, buf: seq<Byte>, at: nat, i: nat)
    requires geo.align >= 1 && i < |g.raw| == |g.payloads| && at + |g.raw[i]| <= |buf|
    requires IsEntry(g.raw[i], Id(g, i), g.payloads[i], geo.align)
    requires forall k :: 0 <= k < OVERHEAD + |g.payloads[i]| ==> at + k < |buf| && buf[at + k] == g.raw[i][k]
    ensures EntryAt(geo, g, buf, at, i)
  {
    hide Unpadded, EntrySize;
    var x := buf[at..at + |g.raw[i]|];
    assert forall k :: 0 <= k < |x| ==> x[k] == buf[at + k];
    SamePrefixIsEntry(g.raw[i], x, Id(g, i), g.payloads[i], geo.align);
  }

  /** Entries of the batch that arrived up to their tail. */
  lemma ArrivedEntryAt(geo: Geometry, g: History, i: nat)
    requires Ranges(geo, g) && LogOk(geo, g) && g.flushed <= i < g.tornTo <= |g.raw| == |g.payloads| && geo.align >= 1
    requires |Run(g.raw, g.flushed, i)| + OVERHEAD + |g.payloads[i]| <= g.torn
    ensures EntryAt(geo, g, Content(geo, g, g.cur), |Run(g.raw, g.lo[g.cur], i)|, i)
  {
    hide *;
    CurrentBuffer(geo, g);
    EntryIs(geo, g, i);
    EntryReaches(g.raw[i], Id(g, i), g.payloads[i], geo.align);
    EntryIsPositive(g.payloads[i]);
    CutBufferEntry(g.raw, g.lo[g.cur], g.flushed, g.tornTo, g.torn, geo.sector, i, OVERHEAD + |g.payloads[i]|);
    EntryAtFrom(geo, g, Content(geo, g, g.cur), |Run(g.raw, g.lo[g.cur], i)|, i);
  }

  lemma EntryIsPositive(payload: seq<Byte>)
    ensures OVERHEAD + |payload| > 0
  {
  }

  lemma EntryReaches(raw: seq<Byte>, id: nat, payload: seq<Byte>, align: nat)
    requires IsEntry(raw, id, payload, align)
    ensures OVERHEAD + |payload| <= |raw| && |payload| > 0 && OVERHEAD + |payload| < WORD && id < WORD
    ensures raw[..OVERHEAD + |payload|] == Unpadded(id, payload)
  {
    hide Unpadded, EntrySize;
  }

  /** The current sector holds, from its start, every entry up to `Whole`. */
  lemma CurrentEntries(geo: Geometry, g: History)
    requires Ranges(geo, g) && LogOk(geo, g) && geo.align >= 1
    ensures g.flushed <= g.tornTo <= |g.raw| == |g.payloads| && g.cur < |g.lo|
    ensures EntriesAt(geo, g, Content(geo, g, g.cur), g.lo[g.cur], Whole(g))
  {
    CurrentBuffer(geo, g);
    hide Run, LogOk, Content, EntryAt, Ranges;
    forall i: nat | g.lo[g.cur] <= i < Whole(g)
      ensures EntryAt(geo, g, Content(geo, g, g.cur), |Run(g.raw, g.lo[g.cur], i)|, i)
    {
      if i < g.flushed {
        FlushedEntryAt(geo, g, i);
      } else {
        WholeFromLaw(g, g.flushed, i);
        ArrivedEntryAt(geo, g, i);
      }
    }
  }

  // ---------- Behind the last whole entry ----------

  /** True iff the scan leaves its buffer at the entry cut short. */
  predicate Strays(g: History)
    requires g.flushed <= g.tornTo <= |g.raw| == |g.payloads|
  {
    CutBytes(g) > 0 && Whole(g) < |g.payloads| && CutStrays(|g.payloads[Whole(g)]|, CutBytes(g))
  }

  lemma CutBytesLaw(g: History)
    requires g.flushed <= g.tornTo <= |g.raw| == |g.payloads| && g.torn <= |Run(g.raw, g.flushed, g.tornTo)|
    ensures CutBytes(g) > 0 ==>
              && Whole(g) < g.tornTo && g.torn == |Run(g.raw, g.flushed, Whole(g))| + CutBytes(g)
              && CutBytes(g) < OVERHEAD + |g.payloads[Whole(g)]|
    ensures CutBytes(g) == 0 ==> g.torn <= |Run(g.raw, g.flushed, Whole(g))|
    ensures forall a | 0 <= a <= g.flushed :: Between(g.raw, a, Whole(g))
  {
    WholeFromLaw(g, g.flushed, 0);
    hide Run;
  }

  lemma RunAdds(raw: seq<seq<Byte>>, a: nat, b: nat, c: nat)
    requires a <= b <= c <= |raw|
    ensures |Run(raw, a, c)| == |Run(raw, a, b)| + |Run(raw, b, c)|
  {
    RunSplit(raw, a, b, c);
    hide Run;
  }

  /** With no entry cut short, everything behind the last whole entry is erased. */
  lemma BlankTail(geo: Geometry, g: History, k: nat)
    requires Ranges(geo, g) && LogOk(geo, g)
    requires g.flushed <= g.tornTo <= |g.raw| == |g.payloads| && g.lo[g.cur] <= g.flushed && CutBytes(g) == 0
    requires |Run(g.raw, g.lo[g.cur], Whole(g))| <= k < geo.sector
    ensures Content(geo, g, g.cur)[k] == ERASED
  {
    hide *;
    CurrentBuffer(geo, g);
    CutBytesLaw(g);
    RunAdds(g.raw, g.lo[g.cur], g.flushed, Whole(g));
    CutBufferBlank(g.raw, g.lo[g.cur], g.flushed, g.tornTo, g.torn, geo.sector, k);
  }

  lemma CutShortFrom(id: nat, payload: seq<Byte>, t: nat, raw: seq<Byte>, align: nat, buf: seq<Byte>, at: nat)
    requires IsEntry(raw, id, payload, align) && t < OVERHEAD + |payload| && at + |raw| <= |buf|
    requires forall k :: 0 <= k < t ==> k < |raw| && buf[at + k] == raw[k]
    requires forall k :: at + t <= k < |buf| ==> buf[k] == ERASED
    ensures |payload| > 0 && OVERHEAD + |payload| < WORD && CutShort(id, payload, t, buf[at..])
  {
    hide Unpadded, EntrySize;
    var data := buf[at..];
    assert forall k :: 0 <= k < |data| ==> data[k] == buf[at + k];
    assert forall k :: 0 <= k < t ==> raw[..OVERHEAD + |payload|][k] == raw[k];
  }

  /** An entry cut short stands behind the last whole one. */
  lemma CutTail(geo: Geometry, g: History)
    requires Ranges(geo, g) && LogOk(geo, g)
    requires g.flushed <= g.tornTo <= |g.raw| == |g.payloads| && g.lo[g.cur] <= g.flushed && CutBytes(g) > 0
    ensures Whole(g) < g.tornTo && Between(g.raw, g.lo[g.cur], Whole(g))
    ensures var p := g.payloads[Whole(g)];
            var at := |Run(g.raw, g.lo[g.cur], Whole(g))|;
            && |p| > 0 && OVERHEAD + |p| < WORD && at <= geo.sector
            && CutShort(Id(g, Whole(g)), p, CutBytes(g), Content(geo, g, g.cur)[at..])
  {
    hide *;
    CurrentBuffer(geo, g);
    CutBytesLaw(g);
    var w, t := Whole(g), CutBytes(g);
    EntryIs(geo, g, w);
    EntryReaches(g.raw[w], Id(g, w), g.payloads[w], geo.align);
    CutBufferEntry(g.raw, g.lo[g.cur], g.flushed, g.tornTo, g.torn, geo.sector, w, t);
    var at, buf := |Run(g.raw, g.lo[g.cur], w)|, Content(geo, g, g.cur);
    forall k | at + t <= k < |buf|
      ensures buf[k] == ERASED
    {
      CutBufferBlank(g.raw, g.lo[g.cur], g.flushed, g.tornTo, g.torn, geo.sector, k);
    }
    CutShortFrom(Id(g, w), g.payloads[w], t, g.raw[w], geo.align, buf, at);
  }

  lemma SectorScannable(geo: Geometry, buf: seq<Byte>)
    requires geo.Valid() && |buf| == geo.sector
    ensures Scannable(geo.align, buf) && geo.align >= 1
  {
    SmallSector(geo);
  }

  lemma BlankValidates(buf: seq<Byte>, at: nat)
    requires at + HEADER_SIZE <= |buf| && buf[at] == ERASED
    ensures Validate(buf[at..], |buf| - at) == InvalidEntry
  {
    BlankIsNoEntry(buf[at..], |buf| - at);
  }

  lemma CutValidates(id: nat, payload: seq<Byte>, t: nat, buf: seq<Byte>, at: nat)
    requires at <= |buf| < 0xFF00_0000 && id < WORD && |payload| > 0 && OVERHEAD + |payload| < WORD
    requires CutShort(id, payload, t, buf[at..])
    ensures Validate(buf[at..], |buf| - at) != Ok
    ensures Validate(buf[at..], |buf| - at) == Stray <==> CutStrays(|payload|, t)
    ensures at + HEADER_SIZE <= |buf|
  {
    CutEntryNeverValidates(id, payload, t, buf[at..]);
  }

  lemma IdIsWord(g: History, i: nat)
    ensures Id(g, i) < WORD
  {
  }

  lemma StraysIs(g: History)
    requires g.flushed <= g.tornTo <= |g.raw| == |g.payloads|
    ensures Strays(g) <==> CutBytes(g) > 0 && Whole(g) < |g.payloads| && CutStrays(|g.payloads[Whole(g)]|, CutBytes(g))
  {
  }

  /** The scan behind the last whole entry stops there, or finds no room for a header and goes on. */
  lemma ScanTail(geo: Geometry, g: History, base: nat, writeOffset: nat, highest: nat)
    requires Ranges(geo, g) && LogOk(geo, g) && geo.Valid() && highest < WORD
    requires g.flushed <= g.tornTo <= |g.raw| == |g.payloads| && g.lo[g.cur] <= g.flushed
    ensures Between(g.raw, g.lo[g.cur], Whole(g)) && Scannable(geo.align, Content(geo, g, g.cur))
    ensures var at := |Run(g.raw, g.lo[g.cur], Whole(g))|;
            ScanSector(geo.align, Content(geo, g, g.cur), base, at, writeOffset, highest) ==
            Scan(writeOffset, highest, at + HEADER_SIZE <= geo.sector, Strays(g))
  {
    hide *;
    CurrentBuffer(geo, g);
    CutBytesLaw(g);
    StraysIs(g);
    var buf, w := Content(geo, g, g.cur), Whole(g);
    SectorScannable(geo, buf);
    var at := |Run(g.raw, g.lo[g.cur], w)|;
    IdIsWord(g, w);
    SmallSectorBound(geo);
    if CutBytes(g) > 0 {
      CutTail(geo, g);
      CutValidates(Id(g, w), g.payloads[w], CutBytes(g), buf, at);
      ScanNoEntry(geo.align, buf, base, at, writeOffset, highest);
    } else if at + HEADER_SIZE <= geo.sector {
      HeaderPositive(at, geo.sector);
      BlankTail(geo, g, at);
      BlankValidates(buf, at);
      ScanNoEntry(geo.align, buf, base, at, writeOffset, highest);
    } else {
      ScanNoRoom(geo.align, buf, base, at, writeOffset, highest);
    }
  }

  lemma HeaderPositive(at: nat, size: nat)
    requires at + HEADER_SIZE <= size
    ensures at < size
  {
  }

  lemma SmallSectorBound(geo: Geometry)
    requires geo.Valid()
    ensures geo.sector < 0xFF00_0000
  {
    SmallSector(geo);
  }

  lemma ScanNoRoom(align: nat, buf: seq<Byte>, base: nat, at: nat, writeOffset: nat, highest: nat)
    requires Scannable(align, buf) && highest < WORD && at + HEADER_SIZE > |buf|
    ensures ScanSector(align, buf, base, at, writeOffset, highest) == Scan(writeOffset, highest, false, false)
  {
  }

  // ---------- The sector behind the current one ----------

  lemma TornCount(geo: Geometry, g: History)
    requires Ranges(geo, g) && geo.Valid() && g.flushed <= g.tornTo <= |g.raw| == |g.payloads|
    ensures Whole(g) < g.flushed + 0x7000_0000
  {
    var w := Whole(g);
    if w > g.flushed {
      WholeFromLaw(g, g.flushed, w - 1);
      RunCount(g.raw, g.flushed, w - 1);
      RunSplit(g.raw, g.flushed, w - 1, g.tornTo);
    }
    hide Run, Whole;
    SmallSector(geo);
  }

  lemma WindowIs(g: History, k: nat)
    requires k < |g.lo| && g.cur < |g.lo| && InWindow(g, k) && k != g.cur && (k < g.cur || g.lapped)
    ensures g.lo[k] < g.lo[g.cur] <= g.flushed < g.lo[k] + 0x1000_0000
  {
  }

  lemma OlderInOrder(g: History, i: nat, j: nat)
    requires i < j < i + 0x8000_0000
    ensures !IsNext(Id(g, i), Id(g, j))
  {
    hide Id, IsNext;
    SerialOrder(g, i, j);
  }

  /** The last whole entry is newer than the first entry of any other sector. */
  lemma NewestIsNewer(geo: Geometry, g: History, k: nat)
    requires Ranges(geo, g) && Ring(geo, g) && geo.Valid()
    requires k < geo.sectors == |g.lo| == |g.hi| && g.cur < |g.lo| && k != g.cur && (k < g.cur || g.lapped)
    requires g.flushed <= g.tornTo <= |g.raw| == |g.payloads| && g.lo[g.cur] < Whole(g)
    ensures Whole(g) >= 1 && !IsNext(Id(g, g.lo[k]), Id(g, Whole(g) - 1))
  {
    hide *;
    Window(geo, g, k);
    WindowIs(g, k);
    TornCount(geo, g);
    OlderInOrder(g, g.lo[k], Whole(g) - 1);
  }

  lemma AfterIsModular(geo: Geometry, k: nat)
    requires geo.Valid() && k < geo.sectors
    ensures (k + 1) % geo.sectors == After(geo, k) < geo.sectors && After(geo, k) != k
  {
  }

  lemma FirstEntryOfContent(geo: Geometry, g: History, k: nat)
    requires Ranges(geo, g) && LogOk(geo, g) && k < geo.sectors && g.lo[k] < g.hi[k]
    ensures g.lo[k] < |g.raw| == |g.payloads| && geo.align >= 1
    ensures |g.raw[g.lo[k]]| <= geo.sector
    ensures IsEntry(Content(geo, g, k)[0..0 + |g.raw[g.lo[k]]|], Id(g, g.lo[k]), g.payloads[g.lo[k]], geo.align)
  {
    hide Run, Content, LogOk, IsEntry;
    ContentAt(geo, g, k, g.lo[k]);
    RunEmpty(g.raw, g.lo[k]);
    EntryIs(geo, g, g.lo[k]);
  }

  lemma EmptyContent(geo: Geometry, g: History, k: nat)
    requires Ranges(geo, g) && k < geo.sectors && k != g.cur && g.lo[k] == g.hi[k]
    ensures |Content(geo, g, k)| >= HEADER_SIZE && Content(geo, g, k)[0] == ERASED
  {
    RunEmpty(g.raw, g.lo[k]);
    hide Run;
  }

  /** Going on to the next sector ends the scan: what stands there is older, or erased. */
  lemma NextSectorStops(geo: Geometry, g: History, k: nat, base: nat, writeOffset: nat)
    requires Ranges(geo, g) && Ring(geo, g) && LogOk(geo, g) && geo.Valid()
    requires k < geo.sectors == |g.lo| == |g.hi| && g.cur < |g.lo| && k != g.cur
    requires g.flushed <= g.tornTo <= |g.raw| == |g.payloads| && g.lo[g.cur] < Whole(g)
    ensures Scannable(geo.align, Content(geo, g, k)) && Whole(g) >= 1
    ensures ScanSector(geo.align, Content(geo, g, k), base, 0, writeOffset, Id(g, Whole(g) - 1)) ==
            Scan(writeOffset, Id(g, Whole(g) - 1), true, false)
  {
    hide *;
    var buf := Content(geo, g, k);
    SectorScannable(geo, buf);
    RingParts(geo, g);
    var h := g.hi[k];
    var newest := Whole(g) - 1;
    IdIsWord(g, newest);
    if k < g.cur || g.lapped {
      NewestIsNewer(geo, g, k);
      FirstEntryOfContent(geo, g, k);
      var e := g.lo[k];
      ScanOneEntry(geo.align, buf, base, 0, |g.raw[e]|, Id(g, e), g.payloads[e], writeOffset, Id(g, newest));
    } else {
      EmptyContent(geo, g, k);
      BlankValidates(buf, 0);
      ScanNoEntry(geo.align, buf, base, 0, writeOffset, Id(g, newest));
    }
  }

  // ---------- Recovery as a whole ----------

  lemma RingScanUnfolds(geo: Geometry, mem: seq<Byte>, sector: nat, pos: nat, processed: nat, writeOffset: nat,
                        highest: nat)
    requires geo.Valid() && |mem| == geo.Size() && sector < geo.sectors && highest < WORD && processed < geo.sectors
    ensures |Sector(geo, mem, sector)| == geo.sector && Scannable(geo.align, Sector(geo, mem, sector))
    ensures var r := ScanSector(geo.align, Sector(geo, mem, sector), sector * geo.sector, pos, writeOffset, highest);
            ScanRing(geo, mem, sector, pos, processed, writeOffset, highest) ==
            if r.done then r
                else ScanRing(geo, mem, (sector + 1) % geo.sectors, 0, processed + 1, r.writeOffset, r.highest)
  {
    SmallSector(geo);
    hide ScanSector, Sector;
  }

  lemma SectorIsContent(geo: Geometry, mem: seq<Byte>, g: History, k: nat)
    requires Ranges(geo, g) && MemOk(geo, mem, g) && k < geo.sectors
    ensures |mem| == geo.Size() && geo.Valid() && Sector(geo, mem, k) == Content(geo, g, k)
  {
    hide Sector, Content, Run;
  }

  lemma TwoSectors(geo: Geometry)
    requires geo.Valid()
    ensures 0 < geo.sectors && 1 < geo.sectors
  {
  }

  lemma CutNeedsRoom(geo: Geometry, g: History)
    requires Ranges(geo, g) && LogOk(geo, g) && geo.Valid()
    requires g.flushed <= g.tornTo <= |g.raw| == |g.payloads| && g.lo[g.cur] <= g.flushed && Strays(g)
    ensures Between(g.raw, g.lo[g.cur], Whole(g)) && |Run(g.raw, g.lo[g.cur], Whole(g))| + HEADER_SIZE <= geo.sector
  {
    hide *;
    StraysIs(g);
    CurrentBuffer(geo, g);
    CutTail(geo, g);
    IdIsWord(g, Whole(g));
    SmallSectorBound(geo);
    var at := |Run(g.raw, g.lo[g.cur], Whole(g))|;
    CutValidates(Id(g, Whole(g)), g.payloads[Whole(g)], CutBytes(g), Content(geo, g, g.cur), at);
  }

  /** Where a scan that gets through the current sector ends. */
  function ScanEnd(geo: Geometry, g: History): (r: Scan)
    requires g.flushed <= g.tornTo <= |g.raw| == |g.payloads| && g.cur < |g.lo|
    requires g.lo[g.cur] <= g.flushed && g.lo[g.cur] < Whole(g)
    ensures r.highest < WORD
  {
    var w := Whole(g);
    Scan(g.cur * geo.sector + |Run(g.raw, g.lo[g.cur], w)|, Id(g, w - 1), true, Strays(g))
  }

  lemma ScanEndIs(geo: Geometry, g: History)
    requires g.flushed <= g.tornTo <= |g.raw| == |g.payloads| && g.cur < |g.lo|
    requires g.lo[g.cur] <= g.flushed && g.lo[g.cur] < Whole(g)
    ensures Between(g.raw, g.lo[g.cur], Whole(g)) && Whole(g) >= 1
    ensures ScanEnd(geo, g) ==
            Scan(g.cur * geo.sector + |Run(g.raw, g.lo[g.cur], Whole(g))|, Id(g, Whole(g) - 1), true, Strays(g))
  {
  }

  /** The current sector holds a whole entry; the last one ends at `end`. */
  predicate EndsAt(g: History, end: nat) {
    && g.flushed <= g.tornTo <= |g.raw| == |g.payloads| && g.cur < |g.lo| && g.lo[g.cur] <= g.flushed
    && g.lo[g.cur] < Whole(g) && Between(g.raw, g.lo[g.cur], Whole(g)) && end == |Run(g.raw, g.lo[g.cur], Whole(g))|
  }

  lemma EndsAtParts(g: History, end: nat)
    requires EndsAt(g, end)
    ensures g.flushed <= g.tornTo <= |g.raw| == |g.payloads| && g.cur < |g.lo| && g.lo[g.cur] <= g.flushed
    ensures g.lo[g.cur] < Whole(g) && Between(g.raw, g.lo[g.cur], Whole(g)) && Whole(g) >= 1
    ensures end == |Run(g.raw, g.lo[g.cur], Whole(g))|
  {
    hide Run, Whole;
  }

  lemma EndsAtFrom(g: History)
    requires g.flushed <= g.tornTo <= |g.raw| == |g.payloads| && g.cur < |g.lo| && g.lo[g.cur] <= g.flushed
    requires g.lo[g.cur] < Whole(g)
    ensures Between(g.raw, g.lo[g.cur], Whole(g)) && EndsAt(g, |Run(g.raw, g.lo[g.cur], Whole(g))|)
  {
    hide Run;
  }

  /** The scan of the current sector from a next entry on. */
  lemma ScanInCurrent(geo: Geometry, mem: seq<Byte>, g: History, e: nat, pos: nat, end: nat, base: nat,
                      writeOffset: nat, highest: nat)
    requires geo.Valid() && |mem| == geo.Size() && g.cur < geo.sectors && highest < WORD && EndsAt(g, end)
    requires g.cur < |g.lo| && g.lo[g.cur] <= e && Between(g.raw, g.lo[g.cur], e) && pos == |Run(g.raw, g.lo[g.cur], e)|
    requires g.flushed <= g.tornTo <= |g.raw| == |g.payloads| && e < Whole(g) && IsNext(Id(g, e), highest)
    requires Ranges(geo, g) && LogOk(geo, g) && MemOk(geo, mem, g)
    ensures Whole(g) >= 1 && Scannable(geo.align, Sector(geo, mem, g.cur))
    ensures ScanSector(geo.align, Sector(geo, mem, g.cur), base, pos, writeOffset, highest) ==
            Scan(base + end, Id(g, Whole(g) - 1), end + HEADER_SIZE <= geo.sector, Strays(g))
  {
    hide *;
    EndsAtParts(g, end);
    var a, w, buf := g.lo[g.cur], Whole(g), Content(geo, g, g.cur);
    SectorScannable(geo, buf);
    SectorIsContent(geo, mem, g, g.cur);
    CurrentEntries(geo, g);
    EntryAtParts(geo, g, buf, a, w, e);
    ScanEntries(geo, g, buf, base, a, e, w, writeOffset, highest);
    IdIsWord(g, w - 1);
    ScanTail(geo, g, base, base + end, Id(g, w - 1));
  }

  /** What comes behind the current sector changes nothing, if the scan gets there at all. */
  lemma ScanBehindCurrent(geo: Geometry, mem: seq<Byte>, g: History, processed: nat, off: nat)
    requires geo.Valid() && |mem| == geo.Size() && g.cur < geo.sectors == |g.lo| == |g.hi|
    requires After(geo, g.cur) < geo.sectors
    requires g.flushed <= g.tornTo <= |g.raw| == |g.payloads| && g.lo[g.cur] < Whole(g)
    requires Ranges(geo, g) && Ring(geo, g) && LogOk(geo, g) && MemOk(geo, mem, g)
    ensures ScanRing(geo, mem, After(geo, g.cur), 0, processed, off, Id(g, Whole(g) - 1)) ==
            Scan(off, Id(g, Whole(g) - 1), processed < geo.sectors, false)
  {
    hide *;
    var q := After(geo, g.cur);
    AfterIsModular(geo, g.cur);
    IdIsWord(g, Whole(g) - 1);
    if processed < geo.sectors {
      SectorIsContent(geo, mem, g, q);
      NextSectorStops(geo, g, q, q * geo.sector, off);
      RingScanUnfolds(geo, mem, q, 0, processed, off, Id(g, Whole(g) - 1));
    } else {
      ScanOver(geo, mem, q, processed, off, Id(g, Whole(g) - 1));
    }
  }

  lemma ScanOver(geo: Geometry, mem: seq<Byte>, sector: nat, processed: nat, writeOffset: nat, highest: nat)
    requires geo.Valid() && |mem| == geo.Size() && sector < geo.sectors && highest < WORD && processed >= geo.sectors
    ensures ScanRing(geo, mem, sector, 0, processed, writeOffset, highest) == Scan(writeOffset, highest, false, false)
  {
  }

  /** A scan that starts in front of a next entry of the current sector ends behind the last whole one. */
  lemma ScanFromEntry(geo: Geometry, mem: seq<Byte>, g: History, e: nat, writeOffset: nat, highest: nat)
    requires Ranges(geo, g) && Ring(geo, g) && LogOk(geo, g) && MemOk(geo, mem, g) && geo.Valid() && |mem| == geo.Size()
    requires g.cur < geo.sectors == |g.lo| == |g.hi| && g.hi[g.cur] == g.flushed
    requires g.flushed <= g.tornTo <= |g.raw| == |g.payloads| && g.lo[g.cur] <= e < Whole(g) && g.lo[g.cur] <= g.flushed
    requires highest < WORD && IsNext(Id(g, e), highest)
    ensures Between(g.raw, g.lo[g.cur], e)
    ensures ScanRing(geo, mem, g.cur, |Run(g.raw, g.lo[g.cur], e)|, 0, writeOffset, highest) == ScanEnd(geo, g)
  {
    hide *;
    ScanEndIs(geo, g);
    EndsAtFrom(g);
    BetweenInside(g.raw, g.lo[g.cur], e, Whole(g));
    TwoSectors(geo);
    AfterIsModular(geo, g.cur);
    IdIsWord(g, Whole(g) - 1);
    var base, end, pos := g.cur * geo.sector, |Run(g.raw, g.lo[g.cur], Whole(g))|, |Run(g.raw, g.lo[g.cur], e)|;
    ScanInCurrent(geo, mem, g, e, pos, end, base, writeOffset, highest);
    RingScanUnfolds(geo, mem, g.cur, pos, 0, writeOffset, highest);
    if end + HEADER_SIZE > geo.sector {
      NoStrayAtEnd(geo, g, end);
      ScanBehindCurrent(geo, mem, g, 1, base + end);
    }
  }

  lemma NoStrayAtEnd(geo: Geometry, g: History, end: nat)
    requires Ranges(geo, g) && LogOk(geo, g) && geo.Valid() && EndsAt(g, end) && end + HEADER_SIZE > geo.sector
    requires g.flushed <= g.tornTo <= |g.raw| == |g.payloads|
    ensures !Strays(g)
  {
    hide *;
    EndsAtParts(g, end);
    if Strays(g) {
      CutNeedsRoom(geo, g);
    }
  }

  lemma BetweenInside(raw: seq<seq<Byte>>, a: nat, e: nat, b: nat)
    requires Between(raw, a, b) && a <= e <= b
    ensures Between(raw, a, e)
  {
  }

  /** A scan that starts in front of an entry older than the id it is given stays where it is. */
  lemma ScanFromOlder(geo: Geometry, mem: seq<Byte>, g: History, e: nat, writeOffset: nat, highest: nat)
    requires Ranges(geo, g) && Ring(geo, g) && LogOk(geo, g) && MemOk(geo, mem, g) && geo.Valid() && |mem| == geo.Size()
    requires g.cur < geo.sectors == |g.lo| == |g.hi| && g.lo[g.cur] <= e < g.flushed && g.hi[g.cur] == g.flushed
    requires g.flushed <= g.tornTo <= |g.raw| == |g.payloads| && highest < WORD && !IsNext(Id(g, e), highest)
    ensures Between(g.raw, g.lo[g.cur], e)
    ensures ScanRing(geo, mem, g.cur, |Run(g.raw, g.lo[g.cur], e)|, 0, writeOffset, highest) ==
            Scan(writeOffset, highest, true, false)
  {
    hide *;
    var a, buf := g.lo[g.cur], Content(geo, g, g.cur);
    TwoSectors(geo);
    SectorScannable(geo, buf);
    SectorIsContent(geo, mem, g, g.cur);
    CurrentEntries(geo, g);
    EntryAtParts(geo, g, buf, a, Whole(g), e);
    var at := |Run(g.raw, a, e)|;
    ScanOneEntry(geo.align, buf, g.cur * geo.sector, at, |g.raw[e]|, Id(g, e), g.payloads[e], writeOffset, highest);
    RingScanUnfolds(geo, mem, g.cur, at, 0, writeOffset, highest);
  }

  lemma LinearUnfolds(geo: Geometry, mem: seq<Byte>, sector: nat, pos: nat, lastId: nat)
    requires geo.Valid() && |mem| == geo.Size() && sector < geo.sectors && pos < geo.sector && lastId < WORD
    ensures sector * geo.sector + pos < geo.Size()
    ensures var r := ScanRing(geo, mem, sector, pos, 0, sector * geo.sector + pos, lastId);
            Linear(geo, mem, sector * geo.sector + pos, lastId) ==
            if r.stray then StrayRead else Recovered(r.writeOffset, r.highest)
  {
    SectorInside(geo, sector);
    SectorOfOffset(geo, sector, pos);
    hide ScanRing;
  }

  lemma FlashParts(geo: Geometry, mem: seq<Byte>, write: nat, lastErased: int, g: History)
    requires FlashOk(geo, mem, write, lastErased, g)
    ensures Ranges(geo, g) && Ring(geo, g) && LogOk(geo, g) && MemOk(geo, mem, g) && WriteOk(geo, write, lastErased, g)
    ensures geo.Valid() && |mem| == geo.Size() && g.cur < geo.sectors == |g.lo| == |g.hi| && g.hi[g.cur] == g.flushed
    ensures g.lo[g.cur] <= g.flushed <= g.tornTo <= |g.raw| == |g.payloads| && geo.sector > 0
  {
    hide Ring, WriteOk, Run, IsEntry, Content, Sector;
  }

  lemma WriteIs(geo: Geometry, write: nat, lastErased: int, g: History)
    requires Ranges(geo, g) && WriteOk(geo, write, lastErased, g) && !g.moved && g.lo[g.cur] <= g.flushed == g.hi[g.cur]
    ensures write == g.cur * geo.sector + |Run(g.raw, g.lo[g.cur], g.flushed)|
  {
    hide Run;
  }

  lemma RecoverUnfolds(geo: Geometry, mem: seq<Byte>, hint: Hint, head: Head, base: nat)
    requires geo.Valid() && |mem| == geo.Size() && hint.lastId < WORD && !HintUsable(geo, mem, hint)
    requires head == HeadSearch(SectorIds(geo, mem)) && base == head.sector * geo.sector
    ensures head.sector < geo.sectors && head.id < WORD && base + 0 < geo.Size()
    ensures Recover(geo, mem, hint) == Linear(geo, mem, base + 0, head.id)
  {
    SectorInside(geo, head.sector);
    hide Linear, HeadSearch, SectorIds, HintUsable;
  }

  /** What recovery returns for the flash of a history whose current sector holds a whole entry. */
  function Expected(write: nat, g: History): Recovered
    requires g.flushed <= g.tornTo <= |g.raw| == |g.payloads| && Between(g.raw, g.flushed, Whole(g)) && Whole(g) >= 1
  {
    if Strays(g) then StrayRead else Recovered(write + |Run(g.raw, g.flushed, Whole(g))|, Id(g, Whole(g) - 1))
  }

  lemma SectorHasHeader(geo: Geometry)
    requires geo.Valid()
    ensures HEADER_SIZE <= geo.sector
  {
  }

  lemma WordOfSector(geo: Geometry, mem: seq<Byte>, k: nat, n: nat)
    requires geo.Valid() && |mem| == geo.Size() && k < geo.sectors && 8 <= n <= geo.sector
    ensures k * geo.sector + n <= |mem|
    ensures mem[k * geo.sector..k * geo.sector + n] == Sector(geo, mem, k)[0..0 + n]
  {
    SectorInside(geo, k);
  }

  lemma HasEight(raw: seq<Byte>)
    ensures |raw| >= OVERHEAD ==> |raw| >= 8
  {
  }

  /** A current sector with a whole entry, flushed or brought there by a torn write, has its first header. */
  lemma WholeIsHeaded(geo: Geometry, mem: seq<Byte>, g: History)
    requires Ranges(geo, g) && LogOk(geo, g) && MemOk(geo, mem, g) && geo.Valid() && |mem| == geo.Size()
    requires g.cur < geo.sectors && g.cur < |g.lo| && g.lo[g.cur] <= g.flushed <= g.tornTo <= |g.raw| == |g.payloads|
    requires g.lo[g.cur] < Whole(g)
    ensures Headed(geo, mem, g)
  {
    hide *;
    HeadedIs(geo, mem, g);
    var e := g.lo[g.cur];
    CurrentBuffer(geo, g);
    CurrentEntries(geo, g);
    EntryAtParts(geo, g, Content(geo, g, g.cur), e, Whole(g), e);
    RunEmpty(g.raw, e);
    SectorIsContent(geo, mem, g, g.cur);
    var raw := Content(geo, g, g.cur)[0..0 + |g.raw[e]|];
    EntryReaches(raw, Id(g, e), g.payloads[e], geo.align);
    HasEight(raw);
    WordOfSector(geo, mem, g.cur, |raw|);
    EntryWords(mem, g.cur * geo.sector, raw, Id(g, e), g.payloads[e], geo.align);
    HeaderHasEight(mem, g.cur * geo.sector);
    SectorIdOfHeader(geo, mem, g.cur, g.cur * geo.sector, Id(g, e));
  }

  /**
   * Recovery without a usable hint on the flash of any reachable logger whose current sector holds a whole entry:
   * the offset behind, and the id of, the last wholly written entry, wherever the last write was cut, with
   * any number of laps and of id wraps. The one exception is a cut inside a length field (`Strays`).
   */
  lemma RecoveryLaw(geo: Geometry, mem: seq<Byte>, write: nat, lastErased: int, g: History, hint: Hint)
    requires FlashOk(geo, mem, write, lastErased, g) && !g.moved
    requires geo.Valid() && |mem| == geo.Size() && hint.lastId < WORD && !HintUsable(geo, mem, hint)
    requires g.cur < |g.lo| && g.flushed <= g.tornTo <= |g.raw| == |g.payloads| && g.lo[g.cur] < Whole(g)
    ensures Between(g.raw, g.flushed, Whole(g)) && Whole(g) >= 1
    ensures Recover(geo, mem, hint) == Expected(write, g)
  {
    hide *;
    FlashParts(geo, mem, write, lastErased, g);
    WriteIs(geo, write, lastErased, g);
    WholeIsHeaded(geo, mem, g);
    HeadIsCurrent(geo, mem, g);
    var head := Head(g.cur, Id(g, g.lo[g.cur]));
    RecoverUnfolds(geo, mem, hint, head, g.cur * geo.sector);
    LinearUnfolds(geo, mem, g.cur, 0, head.id);
    IdIsWord(g, g.lo[g.cur]);
    NextIsNext(g, g.lo[g.cur]);
    RunEmpty(g.raw, g.lo[g.cur]);
    ScanFromEntry(geo, mem, g, g.lo[g.cur], g.cur * geo.sector + 0, head.id);
    ScanEndIs(geo, g);
    BetweenWhole(g);
    RunAdds(g.raw, g.lo[g.cur], g.flushed, Whole(g));
    ExpectedIs(write, g);
  }

  lemma WholeReaches(g: History)
    requires g.flushed <= g.tornTo <= |g.raw| == |g.payloads|
    ensures g.flushed <= Whole(g)
  {
  }

  lemma BetweenWhole(g: History)
    requires g.flushed <= g.tornTo <= |g.raw| == |g.payloads|
    ensures Between(g.raw, g.flushed, Whole(g))
  {
  }

  lemma ExpectedIs(write: nat, g: History)
    requires g.flushed <= g.tornTo <= |g.raw| == |g.payloads| && Between(g.raw, g.flushed, Whole(g)) && Whole(g) >= 1
    ensures Expected(write, g) ==
            if Strays(g) then StrayRead else Recovered(write + |Run(g.raw, g.flushed, Whole(g))|, Id(g, Whole(g) - 1))
  {
  }

  /** With nothing torn, recovery is exact: the write offset in RAM and the id of the last flushed entry. */
  lemma WholeRecovery(geo: Geometry, mem: seq<Byte>, write: nat, lastErased: int, g: History, hint: Hint)
    requires FlashOk(geo, mem, write, lastErased, g) && !g.moved && g.lo[g.cur] < g.hi[g.cur] && g.torn == 0
    requires geo.Valid() && |mem| == geo.Size() && hint.lastId < WORD && !HintUsable(geo, mem, hint)
    ensures g.flushed >= 1 && Recover(geo, mem, hint) == Recovered(write, Id(g, g.flushed - 1))
  {
    hide *;
    FlashParts(geo, mem, write, lastErased, g);
    WholeReaches(g);
    RecoveryLaw(geo, mem, write, lastErased, g, hint);
    ExpectedIs(write, g);
    NothingTorn(g);
    RunEmpty(g.raw, g.flushed);
  }

  lemma NothingTorn(g: History)
    requires g.flushed <= g.tornTo <= |g.raw| == |g.payloads| && g.torn == 0
    ensures Whole(g) == g.flushed && !Strays(g) && Between(g.raw, g.flushed, g.flushed)
  {
    hide Run;
  }
}
