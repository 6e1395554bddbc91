/** The offline parser and writer of log dumps. Its integers do not wrap; entries are aligned to 4 bytes. */
module LogParser {
  import opened Bytes
  import opened Crc
  import opened Entry
  import opened Layout
  import opened Invariant
  import opened RecoverySpec
  import opened Scanning
  import opened Conservation
  import opened Operations
  import opened Runs

  const ALIGN: nat := 4

  /** Why the parser stopped, and at which offset. */
  datatype Message =
    | NoMessage
    | NonExistent(offset: nat) | BadMagic(offset: nat) | Corrupted(offset: nat) | BadEndMagic(offset: nat)
    | CrcMismatch(offset: nat)

  datatype Parsed = Entry(record: Record, next: nat) | Rejected(message: Message)

  /** The entry at `off`: header, size, end magic and CRC are checked in this order. */
  function ParseAt(blob: seq<Byte>, off: nat): (r: Parsed)
    ensures r.Entry? ==> off + OVERHEAD <= r.next
  {
    if off + HEADER_SIZE > |blob| then Rejected(NonExistent(off))
    else if WordAt(blob, off) != HEADER_MAGIC then Rejected(BadMagic(off))
    else
      var length := WordAt(blob, off + 8);
      var end := off + HEADER_SIZE + length;
      if end + TAIL_SIZE > |blob| then Rejected(Corrupted(off))
      else if WordAt(blob, end + 2) != TAIL_MAGIC then Rejected(BadEndMagic(off))
      else if Crc16(blob[off..end]) != HalfAt(blob, end) then Rejected(CrcMismatch(off))
      else Entry(Record(WordAt(blob, off + 4), blob[off + HEADER_SIZE..end]), off + AlignUp(OVERHEAD + length, ALIGN))
  }

  /** Everything the iterator yields from `off` on. */
  function ParseFrom(blob: seq<Byte>, off: nat): seq<Record>
    decreases |blob| - off
  {
    var p := ParseAt(blob, off);
    if p.Rejected? then [] else [p.record] + ParseFrom(blob, p.next)
  }

  /** The writer; `None` where packing a field into 32 bits fails. */
  function CreateEntry(id: int, payload: seq<Byte>): (r: Option<seq<Byte>>)
    ensures r.Some? <==> 0 <= id < WORD && |payload| < WORD
  {
    if 0 <= id < WORD && |payload| < WORD then
      var total := OVERHEAD + |payload|;
      Some(Unpadded(id, payload) + seq(AlignUp(total, ALIGN) - total, _ => 0))
    else None
  }

  // ---------- What the parser accepts ----------

  /** The bytes of an entry stand at `off`. */
  predicate StandsAt(blob: seq<Byte>, off: nat, id: nat, payload: seq<Byte>) {
    && id < WORD && |payload| < WORD && off + OVERHEAD + |payload| <= |blob|
    && blob[off..off + OVERHEAD + |payload|] == Unpadded(id, payload)
  }

  lemma WordBytes(s: seq<Byte>, i: nat)
    requires i + 4 <= |s|
    ensures s[i..i + 4] == Word(WordAt(s, i))
  {
    var w := Word(WordAt(s, i));
    hide Word;
    WordDetermines(s, i, w[0], w[1], w[2], w[3]);
  }

  lemma HalfBytes(s: seq<Byte>, i: nat)
    requires i + 2 <= |s|
    ensures s[i..i + 2] == Half(HalfAt(s, i))
  {
    HalfOfBytes(s[i], s[i + 1]);
  }

  lemma HalfOfBytes(lo: Byte, hi: Byte)
    ensures (((lo as bv16) | ((hi as bv16) << 8)) & 0xFF) as bv8 == lo
    ensures (((lo as bv16) | ((hi as bv16) << 8)) >> 8) as bv8 == hi
  {
  }

  lemma EntryParses(blob: seq<Byte>, off: nat, id: nat, payload: seq<Byte>)
    requires StandsAt(blob, off, id, payload)
    ensures ParseAt(blob, off) == Entry(Record(id, payload), off + AlignUp(OVERHEAD + |payload|, ALIGN))
  {
    hide WordAt, HalfAt, Crc16, Header, Tail, AlignUp;
    var c, n := Covered(id, payload), OVERHEAD + |payload|;
    var crc := Crc16(c);
    var x, rest := blob[off..off + n], blob[off + n..];
    assert x == c + Tail(crc);
    assert blob[off..] == x + rest;
    HeaderFields(id, |payload|, payload + Tail(crc) + rest);
    assert x + rest == Header(id, |payload|) + (payload + Tail(crc) + rest);
    TailFields(c, crc, rest);
    WordShift(blob, off, 0);
    WordShift(blob, off, 4);
    WordShift(blob, off, 8);
    WordShift(blob, off, |c| + 2);
    HalfShift(blob, off, |c|);
    assert blob[off..off + |c|] == x[..|c|] == c;
    assert blob[off + HEADER_SIZE..off + |c|] == c[HEADER_SIZE..] == payload;
  }

  lemma WordShift(s: seq<Byte>, off: nat, i: nat)
    requires off + i + 4 <= |s|
    ensures WordAt(s[off..], i) == WordAt(s, off + i)
  {
  }

  lemma HalfShift(s: seq<Byte>, off: nat, i: nat)
    requires off + i + 2 <= |s|
    ensures HalfAt(s[off..], i) == HalfAt(s, off + i)
  {
  }

  lemma ParsedStands(blob: seq<Byte>, off: nat)
    requires ParseAt(blob, off).Entry?
    ensures var p := ParseAt(blob, off);
            StandsAt(blob, off, p.record.id, p.record.payload)
                && p.next == off + AlignUp(OVERHEAD + |p.record.payload|, ALIGN)
  {
    hide WordAt, HalfAt, Crc16, AlignUp, Word, Half;
    var length := WordAt(blob, off + 8);
    var end := off + HEADER_SIZE + length;
    WordBytes(blob, off);
    WordBytes(blob, off + 4);
    WordBytes(blob, off + 8);
    WordBytes(blob, end + 2);
    HalfBytes(blob, end);
    var id, payload := WordAt(blob, off + 4), blob[off + HEADER_SIZE..end];
    assert blob[off..end] == blob[off..off + 4] + blob[off + 4..off + 8] + blob[off + 8..off + 12] + payload ==
        Covered(id, payload);
    assert blob[off..end + TAIL_SIZE] == blob[off..end] + blob[end..end + 2] + blob[end + 2..end + 6];
  }

  /** The parser accepts at an offset exactly the bytes of an entry: nothing else passes, and no entry is refused. */
  lemma ParsesIff(blob: seq<Byte>, off: nat, id: nat, payload: seq<Byte>)
    ensures StandsAt(blob, off, id, payload) <==>
            ParseAt(blob, off).Entry? && ParseAt(blob, off).record == Record(id, payload)
  {
    hide StandsAt, ParseAt;
    if StandsAt(blob, off, id, payload) {
      EntryParses(blob, off, id, payload);
    }
    if ParseAt(blob, off).Entry? {
      ParsedStands(blob, off);
    }
  }

  /**
   * What the parser answers at any offset of any dump: too few bytes for a header, no magic, an entry that runs past
   * the end, a wrong end, a wrong CRC, in this order; or the entry, and the next offset four-byte aligned behind it.
   */
  lemma ParserOutcome(blob: seq<Byte>, off: nat)
    ensures off + 12 > |blob| ==> ParseAt(blob, off) == Rejected(NonExistent(off))
    ensures off + 12 <= |blob| ==>
              var n := WordAt(blob, off + 8);
              if !StartsEntry(blob, off) then ParseAt(blob, off) == Rejected(BadMagic(off))
              else if off + 18 + n > |blob| then ParseAt(blob, off) == Rejected(Corrupted(off))
              else if !EndsEntry(blob, off + 14 + n) then ParseAt(blob, off) == Rejected(BadEndMagic(off))
              else if HalfAt(blob, off + 12 + n) != Crc16(blob[off..off + 12 + n]) then
                ParseAt(blob, off) == Rejected(CrcMismatch(off))
              else
                var p := ParseAt(blob, off);
                && p.Entry? && p.record == Record(WordAt(blob, off + 4), blob[off + 12..off + 12 + n])
                && off + 18 + n <= p.next < off + 22 + n && (p.next - off) % 4 == 0
  {
    hide WordAt, HalfAt, Crc16, AlignUp, StartsEntry, EndsEntry;
    if off + 12 <= |blob| {
      var n := WordAt(blob, off + 8);
      MagicBytes(blob, off);
      if off + 18 + n <= |blob| {
        MagicBytes(blob, off + 14 + n);
        AlignedToFour(18 + n);
      }
    }
  }

  lemma AlignedToFour(x: nat)
    ensures AlignUp(x, 4) % 4 == 0
  {
    hide AlignUp;
    assert Pow2(2) == 4;
    AlignUpIsLeastMultiple(x, 2, 0);
  }

  // ---------- Round trips ----------

  /** One entry of a dump; what pads it to its aligned size is arbitrary. */
  predicate Lays(raw: seq<Byte>, r: Record) {
    |raw| == AlignUp(OVERHEAD + |r.payload|, ALIGN) && StandsAt(raw, 0, r.id, r.payload)
  }

  predicate LaysAll(raws: seq<seq<Byte>>, records: seq<Record>) {
    |raws| == |records| && forall i :: 0 <= i < |raws| ==> Lays(raws[i], records[i])
  }

  lemma StandsInside(pre: seq<Byte>, raw: seq<Byte>, rest: seq<Byte>, r: Record)
    requires Lays(raw, r)
    ensures StandsAt(pre + raw + rest, |pre|, r.id, r.payload)
  {
    hide Unpadded, AlignUp;
    var n := OVERHEAD + |r.payload|;
    assert (pre + raw + rest)[|pre|..|pre| + n] == raw[0..0 + n];
  }

  lemma StopsAtBlank(pre: seq<Byte>, n: nat)
    ensures ParseFrom(pre + Blank(n), |pre|) == []
  {
    hide WordAt;
    if n >= HEADER_SIZE && WordAt(pre + Blank(n), |pre|) == HEADER_MAGIC {
      HeaderMagicBytes(pre + Blank(n), |pre|);
    }
  }

  lemma ParseUnfolds(blob: seq<Byte>, off: nat)
    ensures ParseFrom(blob, off) ==
            if ParseAt(blob, off).Rejected? then []
                else [ParseAt(blob, off).record] + ParseFrom(blob, ParseAt(blob, off).next)
  {
    hide ParseAt;
  }

  lemma FlatUnfolds(pre: seq<Byte>, raws: seq<seq<Byte>>, rest: seq<Byte>)
    requires raws != []
    ensures pre + Flat(raws) + rest == pre + raws[0] + (Flat(raws[1..]) + rest)
    ensures pre + Flat(raws) + rest == (pre + raws[0]) + Flat(raws[1..]) + rest
  {
  }

  lemma {:induction false} RoundTripFrom(pre: seq<Byte>, raws: seq<seq<Byte>>, records: seq<Record>, n: nat)
    requires LaysAll(raws, records)
    ensures ParseFrom(pre + Flat(raws) + Blank(n), |pre|) == records
    decreases |raws|
  {
    hide Lays, ParseFrom, ParseAt, StandsAt, AlignUp;
    if raws == [] {
      assert pre + Flat(raws) == pre;
      StopsAtBlank(pre, n);
    } else {
      var blob := pre + Flat(raws) + Blank(n);
      FlatUnfolds(pre, raws, Blank(n));
      assert Lays(raws[0], records[0]);
      StandsInside(pre, raws[0], Flat(raws[1..]) + Blank(n), records[0]);
      EntryParses(blob, |pre|, records[0].id, records[0].payload);
      LaysLength(raws[0], records[0]);
      ParseUnfolds(blob, |pre|);
      RoundTripFrom(pre + raws[0], raws[1..], records[1..], n);
      assert [records[0]] + records[1..] == records;
    }
  }

  lemma LaysLength(raw: seq<Byte>, r: Record)
    requires Lays(raw, r)
    ensures |raw| == AlignUp(OVERHEAD + |r.payload|, ALIGN)
  {
    hide AlignUp;
  }

  /** Parsing entries laid back to back, then any number of erased bytes, gives back exactly the entries. */
  lemma RoundTrip(raws: seq<seq<Byte>>, records: seq<Record>, n: nat)
    requires LaysAll(raws, records)
    ensures ParseFrom(Flat(raws) + Blank(n), 0) == records
  {
    hide *;
    RoundTripFrom([], raws, records, n);
    assert [] + Flat(raws) + Blank(n) == Flat(raws) + Blank(n);
  }

  /** The writer's output is such an entry. */
  lemma CreatedLays(id: int, payload: seq<Byte>)
    requires CreateEntry(id, payload).Some?
    ensures id >= 0 && Lays(CreateEntry(id, payload).value, Record(id, payload))
    ensures var raw := CreateEntry(id, payload).value;
            && |raw| % 4 == 0 && |raw| < 22 + |payload| && forall i :: 18 + |payload| <= i < |raw| ==> raw[i] == 0
  {
    hide Unpadded, AlignUp;
    assert Pow2(2) == 4;
    AlignUpIsLeastMultiple(OVERHEAD + |payload|, 2, 0);
    var raw := CreateEntry(id, payload).value;
    assert raw[0..0 + OVERHEAD + |payload|] == Unpadded(id, payload);
  }

  /** So is an entry the logger laid down with the same alignment, whatever was in its batch buffer. */
  lemma LoggedLays(raw: seq<Byte>, id: nat, payload: seq<Byte>)
    requires IsEntry(raw, id, payload, ALIGN)
    ensures Lays(raw, Record(id, payload))
  {
    hide Unpadded, AlignUp, BitClear;
    EntrySizeBounds(|payload|, ALIGN);
    assert raw[0..0 + OVERHEAD + |payload|] == raw[..OVERHEAD + |payload|];
  }

  // ---------- Parser and validator ----------

  /**
   * What the parser accepts the logger's validator accepts, and the other way round unless the length field is so
   * close to 2^32 that the validator's 32-bit tail offset wraps; the parser accepts none of those.
   */
  lemma AgreesWithValidator(blob: seq<Byte>, off: nat)
    requires off + HEADER_SIZE <= |blob| < 0xFF00_0000
    ensures ParseAt(blob, off).Entry? <==>
            Validate(blob[off..], |blob| - off) == Ok && WordAt(blob, off + 8) < WORD - HEADER_SIZE
  {
    hide WordAt, HalfAt, Crc16, AlignUp;
    var data := blob[off..];
    if |data| >= OVERHEAD && WordAt(blob, off + 8) < WORD - HEADER_SIZE {
      WordShift(blob, off, 0);
      WordShift(blob, off, 8);
      var tail := HEADER_SIZE + WordAt(data, 8);
      if tail + TAIL_SIZE <= |data| {
        HalfShift(blob, off, tail);
        WordShift(blob, off, tail + 2);
        assert data[..tail] == blob[off..off + tail];
      }
    }
  }

  /** Where the logger's reader finds nothing, the parser stops. */
  lemma StopsAtEnd(buf: seq<Byte>, pos: nat)
    requires |buf| < 0xFF00_0000 && SectorLog(ALIGN, buf, pos) == []
    ensures ParseFrom(buf, pos) == []
  {
    hide WordAt, Validate, EntrySize, ParseAt;
    if pos + HEADER_SIZE > |buf| {
      TooShort(buf, pos);
    } else {
      AgreesWithValidator(buf, pos);
      WordShift(buf, pos, 8);
      if ParseAt(buf, pos).Entry? {
        EntryInside(buf, pos);
      }
    }
  }

  lemma TooShort(buf: seq<Byte>, pos: nat)
    requires pos + HEADER_SIZE > |buf|
    ensures ParseAt(buf, pos).Rejected?
  {
  }

  lemma EntryInside(buf: seq<Byte>, pos: nat)
    requires ParseAt(buf, pos).Entry? && pos + HEADER_SIZE <= |buf|
    ensures HEADER_SIZE + WordAt(buf, pos + 8) <= |buf| - pos
  {
    hide WordAt, HalfAt, Crc16, AlignUp;
  }

  lemma EntryStands(buf: seq<Byte>, at: nat, n: nat, id: nat, payload: seq<Byte>)
    requires at + n <= |buf| && IsEntry(buf[at..at + n], id, payload, ALIGN)
    ensures StandsAt(buf, at, id, payload) && n == AlignUp(OVERHEAD + |payload|, ALIGN)
  {
    hide Unpadded, AlignUp, BitClear;
    EntrySizeBounds(|payload|, ALIGN);
    var x := buf[at..at + n];
    assert buf[at..at + OVERHEAD + |payload|] == x[..OVERHEAD + |payload|];
  }

  lemma AlignIsFour()
    ensures ALIGN == 4
  {
  }

  /** Back-to-back entries are parsed one after the other. */
  lemma {:induction false} ParseEntries(geo: Geometry, g: History, buf: seq<Byte>, a: nat, e: nat, b: nat)
    requires geo.align == ALIGN && EntriesAt(geo, g, buf, a, b) && a <= e <= b <= |g.raw| == |g.payloads|
    requires Between(g.raw, a, e) && Between(g.raw, a, b) && ParseFrom(buf, |Run(g.raw, a, b)|) == []
    ensures ParseFrom(buf, |Run(g.raw, a, e)|) == Records(g, e, b)
    decreases b - e
  {
    hide *;
    RecordsSplit(g, e, e, b);
    if e < b {
      AlignIsFour();
      EntryAtParts(geo, g, buf, a, b, e);
      InOrder(g.raw, a, e + 1);
      var at := |Run(g.raw, a, e)|;
      EntryStands(buf, at, |g.raw[e]|, Id(g, e), g.payloads[e]);
      EntryParses(buf, at, Id(g, e), g.payloads[e]);
      ParseUnfolds(buf, at);
      ParseEntries(geo, g, buf, a, e + 1, b);
    }
  }

  /** A dump of any sector, torn bytes or not, parses to exactly the entries that stand wholly in it. */
  lemma SectorDump(geo: Geometry, mem: seq<Byte>, g: History, k: nat)
    requires Ranges(geo, g) && LogOk(geo, g) && MemOk(geo, mem, g) && geo.align == ALIGN
    requires geo.Valid() && |mem| == geo.Size() && k < geo.sectors == |g.lo| == |g.hi|
    requires g.lo[g.cur] <= g.flushed <= g.tornTo <= |g.raw| == |g.payloads|
    ensures g.lo[k] <= ReadEnd(g, k) <= |g.payloads|
    ensures ParseFrom(Sector(geo, mem, k), 0) == Records(g, g.lo[k], ReadEnd(g, k))
  {
    hide *;
    SectorIsContent(geo, mem, g, k);
    ReadEndIs(g, k);
    var buf, b := Content(geo, g, k), ReadEnd(g, k);
    SectorScannable(geo, buf);
    if k == g.cur {
      NothingBehind(geo, g);
      CurrentEntries(geo, g);
    } else {
      OldEntries(geo, g, k);
      var at := |Run(g.raw, g.lo[k], b)|;
      if at + HEADER_SIZE <= geo.sector {
        BlankValidates(buf, at);
      }
      LogEnds(geo.align, buf, at);
    }
    SmallSectorBound(geo);
    InOrder(g.raw, g.lo[k], g.lo[k]);
    InOrder(g.raw, g.lo[k], b);
    StopsAtEnd(buf, |Run(g.raw, g.lo[k], b)|);
    RunEmpty(g.raw, g.lo[k]);
    ParseEntries(geo, g, buf, g.lo[k], g.lo[k], b);
  }

  /** After any run, torn writes included, a dump of any sector parses to what the logger's own reader finds there. */
  lemma DumpAfterRun(geo: Geometry, batch: seq<Byte>, lastId: nat, ops: seq<Op>, k: nat)
    requires Startable(geo, batch, lastId, ops) && geo.Valid() && geo.align == ALIGN && k < geo.sectors
    ensures var mem := Reached(geo, batch, lastId, ops).s.dev.mem;
            && |mem| == geo.Size() && Scannable(ALIGN, Sector(geo, mem, k))
            && ParseFrom(Sector(geo, mem, k), 0) == SectorLog(ALIGN, Sector(geo, mem, k), 0)
  {
    hide *;
    var g, c, picks := RunHistory(geo, batch, lastId, ops);
    var x := Reached(geo, batch, lastId, ops);
    GoodParts(geo, x, g, c, picks);
    InvParts(geo, x.s, g, c);
    FlashParts(geo, x.s.dev.mem, x.s.writeOffset, x.s.lastErased, g);
    CurrentBuffer(geo, g);
    SectorDump(geo, x.s.dev.mem, g, k);
    SectorReads(geo, x.s.dev.mem, g, k);
  }

  // ---------- The iterator ----------

  class Parser {
    const blob: seq<Byte>
    var curOffset: nat
    var curEntry: Option<Record>
    var lastError: Message

    ghost predicate Valid()
      reads this
    {
      curEntry.None? ==> ParseAt(blob, curOffset).Rejected? && lastError == ParseAt(blob, curOffset).message
    }

    /** What iteration has still to yield. */
    ghost function Remaining(): seq<Record>
      reads this
    {
      if curEntry.None? then [] else [curEntry.value] + ParseFrom(blob, curOffset)
    }

    constructor (data: seq<Byte>)
      ensures Valid() && blob == data && Remaining() == ParseFrom(data, 0)
    {
      blob, curOffset, lastError, curEntry := data, 0, NoMessage, None;
      new;
      curEntry := ParseEntry();
    }

    method ParseEntry() returns (entry: Option<Record>)
      modifies this`curOffset, this`lastError
      ensures match ParseAt(blob, old(curOffset))
              case Entry(record, next) => entry == Some(record) && curOffset == next && lastError == old(lastError)
              case Rejected(message) => entry == None && curOffset == old(curOffset) && lastError == message
    {
      hide WordAt, HalfAt, AlignUp, Crc16;
      entry := None;
      if curOffset + HEADER_SIZE > |blob| {
        lastError := NonExistent(curOffset);
        return;
      }
      var magic, id, length := WordAt(blob, curOffset), WordAt(blob, curOffset + 4), WordAt(blob, curOffset + 8);
      if magic != HEADER_MAGIC {
        lastError := BadMagic(curOffset);
        return;
      }
      var totalSize := HEADER_SIZE + length + TAIL_SIZE;
      var alignedSize := AlignUp(totalSize, ALIGN);
      if curOffset + totalSize > |blob| {
        lastError := Corrupted(curOffset);
        return;
      }
      var payloadStart := curOffset + HEADER_SIZE;
      var payloadEnd := payloadStart + length;
      if WordAt(blob, payloadEnd + 2) != TAIL_MAGIC {
        lastError := BadEndMagic(curOffset);
        return;
      }
      var crc := CalculateBitwise(blob[curOffset..payloadEnd]);
      if crc != HalfAt(blob, payloadEnd) {
        lastError := CrcMismatch(curOffset);
        return;
      }
      curOffset := curOffset + alignedSize;
      entry := Some(Record(id, blob[payloadStart..payloadEnd]));
    }

    /** `None` stands for the end of iteration. */
    method Next() returns (entry: Option<Record>)
      requires Valid()
      modifies this
      ensures Valid()
      ensures entry.None? <==> old(Remaining()) == []
      ensures if entry.None? then Remaining() == [] else old(Remaining()) == [entry.value] + Remaining()
    {
      hide ParseAt;
      if curEntry.None? {
        return None;
      }
      entry := curEntry;
      curEntry := ParseEntry();
    }
  }
}
