/** Reading the whole flash back, sector by sector in ring order: nothing but the oldest sectors is ever lost. */
module Conservation {
  import opened Bytes
  import opened Entry
  import opened Layout
  import opened Invariant
  import opened Replay
  import opened RecoverySpec
  import opened Recovery
  import opened Scanning

  /** An entry as a reader of the flash gets it. */
  datatype Record = Record(id: nat, payload: seq<Byte>)

  /** The entries a reader of one sector meets from `pos` on, up to the first thing that does not validate. */
  function SectorLog(align: nat, buf: seq<Byte>, pos: nat): seq<Record>
    requires Scannable(align, buf)
    decreases |buf| - pos
  {
    if pos + HEADER_SIZE > |buf| || Validate(buf[pos..], |buf| - pos) != Ok then []
    else
      ValidEntryAdvances(buf[pos..], |buf| - pos, align);
      var length := WordAt(buf[pos..], 8);
      if HEADER_SIZE + length > |buf| - pos then []
      else [Record(WordAt(buf[pos..], 4), buf[pos + HEADER_SIZE..pos + HEADER_SIZE + length])]
           + SectorLog(align, buf, pos + EntrySize(length, align))
  }

  /** The entries of `n` sectors of the ring, from sector `k` on. */
  function RingLog(geo: Geometry, mem: seq<Byte>, k: nat, n: nat): seq<Record>
    requires geo.Valid() && |mem| == geo.Size() && k < geo.sectors
    decreases n
  {
    if n == 0 then []
    else
      SmallSector(geo);
      SectorLog(geo.align, Sector(geo, mem, k), 0) + RingLog(geo, mem, After(geo, k), n - 1)
  }

  /** Entries `a..b` of the history. */
  function Records(g: History, a: nat, b: nat): (s: seq<Record>)
    requires a <= b <= |g.payloads|
    ensures |s| == b - a
  {
    seq(b - a, i requires 0 <= i < b - a => Record(Id(g, a + i), g.payloads[a + i]))
  }

  lemma RecordsSplit(g: History, a: nat, b: nat, c: nat)
    requires a <= b <= c <= |g.payloads|
    ensures Records(g, a, c) == Records(g, a, b) + Records(g, b, c)
    ensures a < c ==> Records(g, a, c) == [Record(Id(g, a), g.payloads[a])] + Records(g, a + 1, c)
    ensures Records(g, a, a) == []
  {
    hide Id;
  }

  lemma LogOneEntry(align: nat, buf: seq<Byte>, at: nat, n: nat, id: nat, payload: seq<Byte>)
    requires Scannable(align, buf) && at + n <= |buf| && IsEntry(buf[at..at + n], id, payload, align)
    ensures SectorLog(align, buf, at) == [Record(id, payload)] + SectorLog(align, buf, at + n)
  {
    hide WordAt, Validate, Unpadded, EntrySize;
    var raw, rest := buf[at..at + n], buf[at + n..];
    assert buf[at..] == raw + rest;
    EntryFields(raw, id, payload, align, rest);
    EntryValidates(raw, id, payload, align, rest, |buf| - at);
    assert (raw + rest)[HEADER_SIZE..HEADER_SIZE + |payload|] == buf[at + HEADER_SIZE..at + HEADER_SIZE + |payload|];
  }

  lemma LogEnds(align: nat, buf: seq<Byte>, at: nat)
    requires Scannable(align, buf)
    requires at + HEADER_SIZE <= |buf| ==> Validate(buf[at..], |buf| - at) != Ok
    ensures SectorLog(align, buf, at) == []
  {
    hide Validate;
  }

  /** Back-to-back entries are read one after the other. */
  lemma {:induction false} LogEntries(geo: Geometry, g: History, buf: seq<Byte>, a: nat, e: nat, b: nat)
    requires geo.align >= 1 && EntriesAt(geo, g, buf, a, b) && a <= e <= b <= |g.raw| == |g.payloads|
    requires Scannable(geo.align, buf) && Between(g.raw, a, e) && Between(g.raw, a, b)
    requires SectorLog(geo.align, buf, |Run(g.raw, a, b)|) == []
    ensures SectorLog(geo.align, buf, |Run(g.raw, a, e)|) == Records(g, e, b)
    decreases b - e
  {
    hide *;
    RecordsSplit(g, e, e, b);
    if e < b {
      EntryAtParts(geo, g, buf, a, b, e);
      InOrder(g.raw, a, e + 1);
      LogOneEntry(geo.align, buf, |Run(g.raw, a, e)|, |g.raw[e]|, Id(g, e), g.payloads[e]);
      LogEntries(geo, g, buf, a, e + 1, b);
    }
  }

  // ---------- Sector by sector ----------

  /** Behind the last whole entry of the current sector nothing validates, torn bytes or not. */
  lemma NothingBehind(geo: Geometry, g: History)
    requires Ranges(geo, g) && LogOk(geo, g) && geo.Valid()
    requires g.flushed <= g.tornTo <= |g.raw| == |g.payloads| && g.lo[g.cur] <= g.flushed
    ensures Between(g.raw, g.lo[g.cur], Whole(g)) && Scannable(geo.align, Content(geo, g, g.cur))
    ensures SectorLog(geo.align, Content(geo, g, g.cur), |Run(g.raw, g.lo[g.cur], Whole(g))|) == []
  {
    hide *;
    CurrentBuffer(geo, g);
    CutBytesLaw(g);
    var buf, w := Content(geo, g, g.cur), Whole(g);
    SectorScannable(geo, buf);
    var at := |Run(g.raw, g.lo[g.cur], w)|;
    IdIsWord(g, w);
    SmallSectorBound(geo);
    if CutBytes(g) > 0 {
      CutTail(geo, g);
      CutValidates(Id(g, w), g.payloads[w], CutBytes(g), buf, at);
    } else if at + HEADER_SIZE <= geo.sector {
      HeaderPositive(at, geo.sector);
      BlankTail(geo, g, at);
      BlankValidates(buf, at);
    }
    LogEnds(geo.align, buf, at);
  }

  lemma OldEntryAt(geo: Geometry, g: History, k: nat, i: nat)
    requires Ranges(geo, g) && LogOk(geo, g) && k < geo.sectors && g.lo[k] <= i < g.hi[k]
    ensures EntryAt(geo, g, Content(geo, g, k), |Run(g.raw, g.lo[k], i)|, i)
  {
    hide LogOk, IsEntry, Content, Run;
    ContentAt(geo, g, k, i);
    EntryIs(geo, g, i);
  }

  lemma OldEntries(geo: Geometry, g: History, k: nat)
    requires Ranges(geo, g) && LogOk(geo, g) && k < geo.sectors && k != g.cur
    ensures g.lo[k] <= g.hi[k] <= |g.raw| == |g.payloads| && Between(g.raw, g.lo[k], g.hi[k])
    ensures EntriesAt(geo, g, Content(geo, g, k), g.lo[k], g.hi[k])
    ensures |Run(g.raw, g.lo[k], g.hi[k])| + HEADER_SIZE <= geo.sector ==>
              Content(geo, g, k)[|Run(g.raw, g.lo[k], g.hi[k])|] == ERASED
  {
    hide Run, LogOk, Content, EntryAt;
    SameCounts(geo, g);
    forall i: nat | g.lo[k] <= i < g.hi[k]
      ensures EntryAt(geo, g, Content(geo, g, k), |Run(g.raw, g.lo[k], i)|, i)
    {
      OldEntryAt(geo, g, k, i);
    }
    if |Run(g.raw, g.lo[k], g.hi[k])| + HEADER_SIZE <= geo.sector {
      ContentBehind(geo, g, k);
    }
  }

  /** Where the entries of sector `k` end, as a reader sees it. */
  function ReadEnd(g: History, k: nat): (e: nat)
    requires k < |g.hi| && g.flushed <= g.tornTo <= |g.raw| == |g.payloads|
  {
    if k == g.cur then Whole(g) else g.hi[k]
  }

  /** One sector read back. */
  lemma SectorReads(geo: Geometry, mem: seq<Byte>, g: History, k: nat)
    requires Ranges(geo, g) && LogOk(geo, g) && MemOk(geo, mem, g) && geo.Valid() && |mem| == geo.Size()
    requires k < geo.sectors == |g.lo| == |g.hi| && g.lo[g.cur] <= g.flushed <= g.tornTo <= |g.raw| == |g.payloads|
    ensures Scannable(geo.align, Sector(geo, mem, k)) && g.lo[k] <= ReadEnd(g, k) <= |g.payloads|
    ensures SectorLog(geo.align, Sector(geo, mem, k), 0) == Records(g, g.lo[k], ReadEnd(g, k))
  {
    hide *;
    SectorIsContent(geo, mem, g, k);
    ReadEndIs(g, k);
    var buf, b := Content(geo, g, k), ReadEnd(g, k);
    SectorScannable(geo, buf);
    if k == g.cur {
      NothingBehind(geo, g);
      CurrentEntries(geo, g);
    } else {
      OldEntries(geo, g, k);
      var at := |Run(g.raw, g.lo[k], b)|;
      if at + HEADER_SIZE <= geo.sector {
        BlankValidates(buf, at);
      }
      LogEnds(geo.align, buf, at);
    }
    InOrder(g.raw, g.lo[k], g.lo[k]);
    RunEmpty(g.raw, g.lo[k]);
    LogEntries(geo, g, buf, g.lo[k], g.lo[k], b);
  }

  lemma ReadEndIs(g: History, k: nat)
    requires k < |g.hi| && g.flushed <= g.tornTo <= |g.raw| == |g.payloads|
    ensures k == g.cur ==> ReadEnd(g, k) == Whole(g) && Whole(g) <= |g.payloads|
    ensures k != g.cur ==> ReadEnd(g, k) == g.hi[k]
  {
  }

  // ---------- The ring ----------

  /** Sectors of the ring from `k` to the current one. */
  function Distance(geo: Geometry, g: History, k: nat): nat
    requires k < geo.sectors && g.cur < geo.sectors
  {
    if k <= g.cur then g.cur - k else geo.sectors - k + g.cur
  }

  /** Each sector continues where the one before it in the ring ends. */
  lemma RingContinues(geo: Geometry, g: History, k: nat)
    requires Ranges(geo, g) && Ring(geo, g) && k < geo.sectors && k != g.cur
    ensures After(geo, k) < geo.sectors && g.hi[k] == g.lo[After(geo, k)]
    ensures Distance(geo, g, k) == Distance(geo, g, After(geo, k)) + 1
  {
    hide Run;
    var h := g.hi[k];
  }

  lemma DistanceZero(geo: Geometry, g: History, k: nat)
    requires k < geo.sectors && g.cur < geo.sectors
    ensures Distance(geo, g, k) == 0 <==> k == g.cur
  {
  }

  lemma RingLogUnfolds(geo: Geometry, mem: seq<Byte>, k: nat, n: nat)
    requires geo.Valid() && |mem| == geo.Size() && k < geo.sectors
    ensures Scannable(geo.align, Sector(geo, mem, k))
    ensures RingLog(geo, mem, k, n + 1) == SectorLog(geo.align, Sector(geo, mem, k), 0)
            + RingLog(geo, mem, After(geo, k), n)
    ensures RingLog(geo, mem, k, 0) == []
  {
    SmallSector(geo);
    hide SectorLog, Sector;
  }

  lemma AfterInRing(geo: Geometry, k: nat)
    requires geo.Valid() && k < geo.sectors
    ensures After(geo, k) < geo.sectors
  {
  }

  /** The sectors from `k` to the current one, read back. */
  lemma {:induction false} RingReads(geo: Geometry, mem: seq<Byte>, g: History, k: nat)
    requires Ranges(geo, g) && Ring(geo, g) && LogOk(geo, g) && MemOk(geo, mem, g) && geo.Valid() && |mem| == geo.Size()
    requires k < geo.sectors == |g.lo| == |g.hi| && g.cur < geo.sectors
    requires g.lo[g.cur] <= g.flushed <= g.tornTo <= |g.raw| == |g.payloads|
    ensures g.lo[k] <= Whole(g) <= |g.payloads|
    ensures RingLog(geo, mem, k, Distance(geo, g, k) + 1) == Records(g, g.lo[k], Whole(g))
    decreases Distance(geo, g, k)
  {
    hide *;
    SectorReads(geo, mem, g, k);
    ReadEndIs(g, k);
    DistanceZero(geo, g, k);
    RingLogUnfolds(geo, mem, k, Distance(geo, g, k));
    if k == g.cur {
      AfterInRing(geo, k);
      RingLogUnfolds(geo, mem, After(geo, k), 0);
    } else {
      RingContinues(geo, g, k);
      RingReads(geo, mem, g, After(geo, k));
      RecordsSplit(g, g.lo[k], g.hi[k], Whole(g));
    }
  }

  /**
   * The partition read back from the sector behind the current one, once around: a consecutive stretch of the
   * history that ends with the last wholly written entry. With the batch, which holds everything from
   * `g.flushed` on, only the oldest entries are missing.
   */
  lemma FlashIsHistory(geo: Geometry, mem: seq<Byte>, write: nat, lastErased: int, g: History)
    requires FlashOk(geo, mem, write, lastErased, g)
    ensures geo.Valid() && |mem| == geo.Size() && g.cur < geo.sectors && After(geo, g.cur) < geo.sectors == |g.lo|
    ensures g.flushed <= g.tornTo <= |g.raw| == |g.payloads|
    ensures g.lo[After(geo, g.cur)] <= Whole(g) <= |g.payloads| && g.flushed <= Whole(g)
    ensures RingLog(geo, mem, After(geo, g.cur), geo.sectors) == Records(g, g.lo[After(geo, g.cur)], Whole(g))
  {
    hide *;
    FlashParts(geo, mem, write, lastErased, g);
    AfterIsModular(geo, g.cur);
    FullCircle(geo, g);
    BetweenWhole(g);
    InOrder(g.raw, g.flushed, Whole(g));
    RingReads(geo, mem, g, After(geo, g.cur));
  }

  lemma InOrder(raw: seq<seq<Byte>>, a: nat, b: nat)
    ensures Between(raw, a, b) <==> a <= b <= |raw|
  {
  }

  lemma FullCircle(geo: Geometry, g: History)
    requires geo.Valid() && g.cur < geo.sectors
    ensures After(geo, g.cur) < geo.sectors && Distance(geo, g, After(geo, g.cur)) + 1 == geo.sectors
  {
  }
}
