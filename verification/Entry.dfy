/** One log entry: header, payload, CRC and tail, and the validator every reader uses. */
module Entry {
  import opened Bytes
  import opened Crc

  const HEADER_MAGIC: nat := 0x5355424D
  const TAIL_MAGIC: nat := 0x4D425553
  const HEADER_SIZE: nat := 12
  const TAIL_SIZE: nat := 6
  const OVERHEAD: nat := 18

  /** The status codes of the logger; `Stray` is not one of them: it marks that the C code reads outside its buffer. */
  datatype Err =
    | Ok | Fail | InvalidArg | NoMem | InvalidCrc | InvalidEntry | EraseFail | WriteFail | ProcessFail | Stray

  /** Total size of an entry in 32-bit arithmetic. */
  function EntrySize(length: nat, align: nat): nat
    requires align >= 1
  {
    BitClear((OVERHEAD + length + (align - 1)) % WORD, align - 1)
  }

  predicate NoWrap(length: nat, align: nat) {
    align >= 1 && OVERHEAD + length + align <= WORD
  }

  lemma EntrySizeBounds(length: nat, align: nat)
    requires NoWrap(length, align)
    ensures EntrySize(length, align) == AlignUp(OVERHEAD + length, align)
    ensures OVERHEAD + length <= EntrySize(length, align) < OVERHEAD + length + align
  {
  }

  /** What fits a buffer that 32 bits can address does not wrap. */
  lemma FitsNoWrap(length: nat, align: nat, size: nat)
    requires 1 <= align <= 255 && OVERHEAD + length <= size <= 0x8000_0000
    ensures NoWrap(length, align)
  {
  }

  function Header(id: nat, length: nat): (s: seq<Byte>)
    requires id < WORD && length < WORD
    ensures |s| == HEADER_SIZE
  {
    Word(HEADER_MAGIC) + Word(id) + Word(length)
  }

  /** The bytes the CRC covers. */
  function Covered(id: nat, payload: seq<Byte>): (s: seq<Byte>)
    requires id < WORD && |payload| < WORD
    ensures |s| == HEADER_SIZE + |payload|
  {
    Header(id, |payload|) + payload
  }

  function Tail(crc: bv16): (s: seq<Byte>)
    ensures |s| == TAIL_SIZE
  {
    Half(crc) + Word(TAIL_MAGIC)
  }

  /** The bytes the writer puts into the batch, without the alignment gap. */
  function Unpadded(id: nat, payload: seq<Byte>): (s: seq<Byte>)
    requires id < WORD && |payload| < WORD
    ensures |s| == OVERHEAD + |payload|
  {
    Covered(id, payload) + Tail(Crc16(Covered(id, payload)))
  }

  /** `raw` is an entry as laid out in the batch; its alignment gap holds whatever the buffer held. */
  predicate IsEntry(raw: seq<Byte>, id: nat, payload: seq<Byte>, align: nat) {
    && id < WORD && |payload| > 0 && NoWrap(|payload|, align)
    && |raw| == EntrySize(|payload|, align) && |raw| >= OVERHEAD + |payload|
    && raw[..OVERHEAD + |payload|] == Unpadded(id, payload)
  }

  /** True iff `candidate` comes at or after `reference` in serial order. */
  predicate IsNext(candidate: nat, reference: nat)
    requires candidate < WORD && reference < WORD
  {
    (candidate - reference) % WORD < 0x8000_0000
  }

  /**
   * The entry validator on `data`, of which `capacity` bytes may be read. The tail offset is 32-bit and
   * wraps; reading the tail or the CRC span past `capacity` is `Stray`.
   */
  function Validate(data: seq<Byte>, capacity: nat): Err
    requires |data| <= capacity
  {
    if |data| < OVERHEAD then InvalidEntry
    else if WordAt(data, 0) != HEADER_MAGIC then InvalidEntry
    else
      var tail := (HEADER_SIZE + WordAt(data, 8)) % WORD;
      if tail + TAIL_SIZE > capacity then Stray
      else if tail + TAIL_SIZE > |data| then NoMem
      else if HalfAt(data, tail) != Crc16(data[..tail]) then InvalidCrc
      else if WordAt(data, tail + 2) != TAIL_MAGIC then InvalidEntry
      else Ok
  }

  /** A scan always moves on past an entry that validates. */
  lemma ValidEntryAdvances(data: seq<Byte>, capacity: nat, align: nat)
    requires |data| <= capacity < 0xFF00_0000 && 1 <= align <= 256
    requires Validate(data, capacity) == Ok
    ensures EntrySize(WordAt(data, 8), align) >= TAIL_SIZE
  {
    hide WordAt, HalfAt, Crc16, BitClear;
    var length := WordAt(data, 8);
    var tail := (HEADER_SIZE + length) % WORD;
    if HEADER_SIZE + length < WORD {
      EntrySizeBounds(length, align);
    } else {
      assert (OVERHEAD + length + (align - 1)) % WORD == tail + TAIL_SIZE + (align - 1);
      BitClearBounds(tail + TAIL_SIZE + (align - 1), align - 1);
    }
  }

  // ---------- Round trip ----------

  lemma WordInside(s: seq<Byte>, w: seq<Byte>, t: seq<Byte>)
    requires |w| == 4
    ensures WordAt(s + w + t, |s|) == WordAt(w, 0)
  {
    var all := s + w + t;
    assert all[|s|] == w[0] && all[|s| + 1] == w[1] && all[|s| + 2] == w[2] && all[|s| + 3] == w[3];
  }

  lemma HalfInside(s: seq<Byte>, w: seq<Byte>, t: seq<Byte>)
    requires |w| == 2
    ensures HalfAt(s + w + t, |s|) == HalfAt(w, 0)
  {
    var all := s + w + t;
    assert all[|s|] == w[0] && all[|s| + 1] == w[1];
  }

  /** Reads of a header that starts the data. */
  lemma HeaderFields(id: nat, length: nat, rest: seq<Byte>)
    requires id < WORD && length < WORD
    ensures WordAt(Header(id, length) + rest, 0) == HEADER_MAGIC
    ensures WordAt(Header(id, length) + rest, 4) == id
    ensures WordAt(Header(id, length) + rest, 8) == length
  {
    hide WordAt, Word;
    var m, i, l := Word(HEADER_MAGIC), Word(id), Word(length);
    WordInside([], m, i + l + rest);
    WordInside(m, i, l + rest);
    WordInside(m + i, l, rest);
    assert Header(id, length) + rest == [] + m + (i + l + rest);
    assert Header(id, length) + rest == m + i + (l + rest);
    assert Header(id, length) + rest == m + i + l + rest;
  }

  lemma EntryFields(raw: seq<Byte>, id: nat, payload: seq<Byte>, align: nat, rest: seq<Byte>)
    requires IsEntry(raw, id, payload, align)
    ensures WordAt(raw + rest, 0) == HEADER_MAGIC
    ensures WordAt(raw + rest, 4) == id
    ensures WordAt(raw + rest, 8) == |payload|
    ensures (raw + rest)[HEADER_SIZE..HEADER_SIZE + |payload|] == payload
  {
    hide WordAt, Crc16, Tail, Header, EntrySize;
    var n := OVERHEAD + |payload|;
    var t := payload + Tail(Crc16(Covered(id, payload))) + raw[n..] + rest;
    HeaderFields(id, |payload|, t);
    assert raw == raw[..n] + raw[n..];
    assert raw + rest == Header(id, |payload|) + t;
  }

  lemma TailFields(c: seq<Byte>, crc: bv16, rest: seq<Byte>)
    ensures HalfAt(c + Tail(crc) + rest, |c|) == crc
    ensures WordAt(c + Tail(crc) + rest, |c| + 2) == TAIL_MAGIC
  {
    hide WordAt, HalfAt, Word, Half;
    var h, m := Half(crc), Word(TAIL_MAGIC);
    HalfInside(c, h, m + rest);
    WordInside(c + h, m, rest);
    assert c + Tail(crc) + rest == c + h + (m + rest);
    assert c + Tail(crc) + rest == c + h + m + rest;
  }

  lemma EntrySplits(raw: seq<Byte>, id: nat, payload: seq<Byte>, align: nat, rest: seq<Byte>)
    requires IsEntry(raw, id, payload, align)
    ensures raw + rest ==
            Covered(id, payload) + Tail(Crc16(Covered(id, payload))) + (raw[OVERHEAD + |payload|..] + rest)
  {
    hide Covered, Tail, Crc16, EntrySize;
    assert raw == raw[..OVERHEAD + |payload|] + raw[OVERHEAD + |payload|..];
  }

  /** What the writer lays down validates, whatever follows it and whatever the alignment gap holds. */
  lemma EntryValidates(raw: seq<Byte>, id: nat, payload: seq<Byte>, align: nat, rest: seq<Byte>, capacity: nat)
    requires IsEntry(raw, id, payload, align)
    requires |raw + rest| <= capacity
    ensures Validate(raw + rest, capacity) == Ok
  {
    hide WordAt, HalfAt, Crc16, Covered, Tail, EntrySize;
    var c := Covered(id, payload);
    var data := raw + rest;
    EntryFields(raw, id, payload, align, rest);
    TailFields(c, Crc16(c), raw[OVERHEAD + |payload|..] + rest);
    EntrySplits(raw, id, payload, align, rest);
    assert data[..|c|] == c;
  }

  // ---------- Detection ----------

  /** Two byte strings that differ at most in the two neighbouring places `i` and `i + 1`. */
  predicate DifferAt(s: seq<Byte>, t: seq<Byte>, i: nat) {
    |s| == |t| && forall k :: 0 <= k < |s| && k != i && k != i + 1 ==> s[k] == t[k]
  }

  lemma CoveredBurst(s: seq<Byte>, t: seq<Byte>, i: nat)
    requires DifferAt(s, t, i) && i + 1 < |s| && s != t
    ensures Crc16(s) != Crc16(t)
  {
    hide Crc16;
    assert s == s[..i] + [s[i], s[i + 1]] + s[i + 2..];
    assert t == s[..i] + [t[i], t[i + 1]] + s[i + 2..];
    BurstDetected(s[..i], s[i], s[i + 1], t[i], t[i + 1], s[i + 2..]);
  }

  /**
   * One wrong byte, or two neighbouring wrong bytes, in the id or the payload of a valid entry of any
   * length always ends in a CRC error. The magic and the length field are unchanged.
   */
  lemma CorruptionDetected(data: seq<Byte>, data': seq<Byte>, i: nat, capacity: nat)
    requires |data| <= capacity < WORD
    requires Validate(data, capacity) == Ok
    requires DifferAt(data, data', i) && data != data'
    requires HEADER_SIZE <= (HEADER_SIZE + WordAt(data, 8)) % WORD
    requires i + 1 < (HEADER_SIZE + WordAt(data, 8)) % WORD
    requires forall k :: 0 <= k < 4 || 8 <= k < 12 ==> data'[k] == data[k]
    ensures Validate(data', capacity) == InvalidCrc
  {
    hide Crc16, WordAt, HalfAt;
    var tail := (HEADER_SIZE + WordAt(data, 8)) % WORD;
    SameWord(data, data', 0);
    SameWord(data, data', 8);
    SameWord(data, data', tail + 2);
    SameHalf(data, data', tail);
    assert data[..tail] != data'[..tail] by {
      var k :| 0 <= k < |data| && data[k] != data'[k];
      assert data[..tail][k] != data'[..tail][k];
    }
    CoveredBurst(data[..tail], data'[..tail], i);
  }

  lemma SameWord(s: seq<Byte>, t: seq<Byte>, i: nat)
    requires i + 4 <= |s| == |t|
    requires forall k :: i <= k < i + 4 ==> s[k] == t[k]
    ensures WordAt(s, i) == WordAt(t, i)
  {
  }

  lemma SameHalf(s: seq<Byte>, t: seq<Byte>, i: nat)
    requires i + 2 <= |s| == |t|
    requires forall k :: i <= k < i + 2 ==> s[k] == t[k]
    ensures HalfAt(s, i) == HalfAt(t, i)
  {
  }

  // ---------- Entries cut short ----------

  lemma DigitsUnique(a0: nat, a1: nat, a2: nat, a3: nat, b0: nat, b1: nat, b2: nat, b3: nat)
    requires a0 < 256 && a1 < 256 && a2 < 256 && b0 < 256 && b1 < 256 && b2 < 256
    requires a0 + 256 * a1 + 65536 * a2 + 16777216 * a3 == b0 + 256 * b1 + 65536 * b2 + 16777216 * b3
    ensures a0 == b0 && a1 == b1 && a2 == b2 && a3 == b3
  {
  }

  lemma WordDetermines(s: seq<Byte>, i: nat, b0: Byte, b1: Byte, b2: Byte, b3: Byte)
    requires i + 4 <= |s|
    requires WordAt(s, i) == Value(b0) + 256 * Value(b1) + 65536 * Value(b2) + 16777216 * Value(b3)
    ensures s[i] == b0 && s[i + 1] == b1 && s[i + 2] == b2 && s[i + 3] == b3
  {
    hide Value;
    DigitsUnique(Value(s[i]), Value(s[i + 1]), Value(s[i + 2]), Value(s[i + 3]),
                 Value(b0), Value(b1), Value(b2), Value(b3));
    SameValue(s[i], b0);
    SameValue(s[i + 1], b1);
    SameValue(s[i + 2], b2);
    SameValue(s[i + 3], b3);
  }

  lemma HeaderMagicBytes(s: seq<Byte>, i: nat)
    requires i + 4 <= |s| && WordAt(s, i) == HEADER_MAGIC
    ensures s[i] == 0x4D && s[i + 1] == 0x42 && s[i + 2] == 0x55 && s[i + 3] == 0x53
  {
    WordDetermines(s, i, 0x4D, 0x42, 0x55, 0x53);
  }

  lemma TailMagicBytes(s: seq<Byte>, i: nat)
    requires i + 4 <= |s| && WordAt(s, i) == TAIL_MAGIC
    ensures s[i] == 0x53 && s[i + 1] == 0x55 && s[i + 2] == 0x42 && s[i + 3] == 0x4D
  {
    WordDetermines(s, i, 0x53, 0x55, 0x42, 0x4D);
  }

  /** Erased flash is never taken for an entry: one erased byte is enough. */
  lemma BlankIsNoEntry(data: seq<Byte>, capacity: nat)
    requires |data| <= capacity
    requires |data| > 0 ==> data[0] == ERASED
    ensures Validate(data, capacity) == InvalidEntry
  {
    hide WordAt, HalfAt, Crc16;
    if |data| >= OVERHEAD && WordAt(data, 0) == HEADER_MAGIC {
      HeaderMagicBytes(data, 0);
    }
  }

  /** `data` starts with the first `t` bytes of the entry and is erased from there on. */
  predicate CutShort(id: nat, payload: seq<Byte>, t: nat, data: seq<Byte>)
    requires id < WORD && |payload| < WORD
  {
    && t < OVERHEAD + |payload| <= |data|
    && (forall k :: 0 <= k < t ==> data[k] == Unpadded(id, payload)[k])
    && (forall k :: t <= k < |data| ==> data[k] == ERASED)
  }

  /** What the length field reads after a cut inside it: the missing high bytes are erased. */
  function LengthAfterCut(length: nat, t: nat): nat
    requires 9 <= t <= 11
  {
    if t == 9 then length % 0x100 + 0xFFFF_FF00
    else if t == 10 then length % 0x1_0000 + 0xFFFF_0000
    else length % 0x100_0000 + 0xFF00_0000
  }

  /** A cut inside the length field whose misread length does not wrap the tail offset. */
  predicate CutStrays(length: nat, t: nat) {
    9 <= t <= 11 && HEADER_SIZE + LengthAfterCut(length, t) < WORD
  }

  lemma {:induction false} CrcOfMagicPrefix()
    ensures Crc16([0x4D]) == 0x757F
    ensures Crc16([0x4D, 0x42]) == 0xD1B4
  {
    PairRegister([], 0x4D, 0x42);
    assert [] + [0x4D, 0x42] == [0x4D as Byte, 0x42 as Byte];
    assert Register(0xFFFF, []) == 0xFFFF;
    assert [0x4D as Byte][..0] == [];
    assert Feed(0xFFFF, 0x4D) == 0x757F;
  }

  /** The tail offset has wrapped into the header: no choice of id lets that validate. */
  lemma WrappedTailNeverValid(data: seq<Byte>, capacity: nat)
    requires OVERHEAD <= |data| <= capacity
    requires WordAt(data, 0) == HEADER_MAGIC && WordAt(data, 8) >= WORD - HEADER_SIZE
    requires forall k :: 9 <= k < OVERHEAD ==> data[k] == ERASED
    ensures Validate(data, capacity) == InvalidCrc || Validate(data, capacity) == InvalidEntry
  {
    hide WordAt, Crc16, HalfAt, Value;
    HeaderMagicBytes(data, 0);
    var tail := (HEADER_SIZE + WordAt(data, 8)) % WORD;
    LowByteOfLength(data);
    if Validate(data, capacity) == Ok {
      TailMagicBytes(data, tail + 2);
      CrcOfMagicPrefix();
      if tail == 1 {
        assert data[..1] == [0x4D];
        ShortHalf(data, 1, 0x42, 0x55);
      } else if tail == 2 {
        assert data[..2] == [0x4D, 0x42];
        ShortHalf(data, 2, 0x55, 0x53);
      }
      ByteIsItsValue(data[8]);
    }
  }

  lemma ShortHalf(data: seq<Byte>, i: nat, lo: Byte, hi: Byte)
    requires i + 2 <= |data| && data[i] == lo && data[i + 1] == hi
    ensures HalfAt(data, i) == (lo as bv16) | ((hi as bv16) << 8)
  {
  }

  lemma LowByteOfLength(data: seq<Byte>)
    requires OVERHEAD <= |data|
    requires WordAt(data, 8) >= WORD - HEADER_SIZE
    requires forall k :: 9 <= k < 12 ==> data[k] == ERASED
    ensures Value(data[8]) == 0xF4 + (HEADER_SIZE + WordAt(data, 8)) % WORD
  {
    hide Value, WordAt;
    ValueOfErased();
    WordOfDigits(data, 8, Value(data[8]), 255, 255, 255);
  }

  lemma DigitsOfWord(x: nat)
    requires x < WORD
    ensures Value(Word(x)[0]) == x % 256
    ensures Value(Word(x)[1]) == x / 256 % 256
    ensures Value(Word(x)[2]) == x / 65536 % 256
  {
  }

  lemma UnpaddedBytes(id: nat, payload: seq<Byte>, k: nat)
    requires id < WORD && |payload| < WORD && k < 4
    ensures Unpadded(id, payload)[k] == Word(HEADER_MAGIC)[k]
    ensures Unpadded(id, payload)[8 + k] == Word(|payload|)[k]
  {
    hide Word, Crc16;
  }

  lemma CutMagic(id: nat, payload: seq<Byte>, t: nat, data: seq<Byte>)
    requires id < WORD && |payload| < WORD && CutShort(id, payload, t, data)
    ensures WordAt(data, 0) == HEADER_MAGIC <==> t >= 4
  {
    hide WordAt, Unpadded, Word;
    var w := Word(HEADER_MAGIC);
    HeaderMagicBytes(w, 0);
    UnpaddedBytes(id, payload, 0);
    UnpaddedBytes(id, payload, 1);
    UnpaddedBytes(id, payload, 2);
    UnpaddedBytes(id, payload, 3);
    if t >= 4 {
      SameWordAs(data, 0, w);
    } else if WordAt(data, 0) == HEADER_MAGIC {
      HeaderMagicBytes(data, 0);
    }
  }

  lemma SameWordAs(s: seq<Byte>, i: nat, w: seq<Byte>)
    requires i + 4 <= |s| && |w| == 4
    requires s[i] == w[0] && s[i + 1] == w[1] && s[i + 2] == w[2] && s[i + 3] == w[3]
    ensures WordAt(s, i) == WordAt(w, 0)
  {
  }

  /** Byte `k` of the length field as read from a cut entry. */
  lemma CutLengthByte(id: nat, payload: seq<Byte>, t: nat, data: seq<Byte>, k: nat)
    requires id < WORD && |payload| < WORD && CutShort(id, payload, t, data) && k < 4
    ensures 8 + k < |data| && Value(data[8 + k]) == if 8 + k < t then Value(Word(|payload|)[k]) else 255
  {
    hide Unpadded, Word, Value;
    UnpaddedBytes(id, payload, k);
    ValueOfErased();
  }

  lemma WordOfDigits(s: seq<Byte>, i: nat, a: nat, b: nat, c: nat, d: nat)
    requires i + 4 <= |s| && Value(s[i]) == a && Value(s[i + 1]) == b && Value(s[i + 2]) == c && Value(s[i + 3]) == d
    ensures WordAt(s, i) == a + 256 * b + 65536 * c + 16777216 * d
  {
  }

  lemma CutLength(id: nat, payload: seq<Byte>, t: nat, data: seq<Byte>)
    requires id < WORD && |payload| < WORD && CutShort(id, payload, t, data)
    ensures t <= 8 ==> WordAt(data, 8) == WORD - 1
    ensures 9 <= t <= 11 ==> WordAt(data, 8) == LengthAfterCut(|payload|, t)
    ensures t >= 12 ==> WordAt(data, 8) == |payload|
  {
    hide Unpadded, Word, Value, WordAt, CutShort;
    var w := Word(|payload|);
    CutLengthByte(id, payload, t, data, 0);
    CutLengthByte(id, payload, t, data, 1);
    CutLengthByte(id, payload, t, data, 2);
    CutLengthByte(id, payload, t, data, 3);
    WordOfDigits(data, 8, Value(data[8]), Value(data[9]), Value(data[10]), Value(data[11]));
    WordOfDigits(w, 0, Value(w[0]), Value(w[1]), Value(w[2]), Value(w[3]));
    DigitsOfWord(|payload|);
    LengthDigits(|payload|);
  }

  lemma ValueOfErased()
    ensures Value(ERASED) == 255
  {
  }

  lemma LengthDigits(x: nat)
    ensures x % 256 + 256 * (x / 256 % 256) == x % 65536
    ensures x % 65536 + 65536 * (x / 65536 % 256) == x % 16777216
  {
    assert x / 65536 == x / 256 / 256;
    assert x / 16777216 == x / 65536 / 256;
  }

  /**
   * An entry cut anywhere before its last tail byte never validates: the magic, the CRC or the tail magic
   * is wrong. The one exception is a cut inside the length field that sends the tail offset out of bounds.
   */
  lemma CutEntryNeverValidates(id: nat, payload: seq<Byte>, t: nat, data: seq<Byte>)
    requires id < WORD && |payload| > 0 && OVERHEAD + |payload| < WORD
    requires CutShort(id, payload, t, data) && |data| < 0xFF00_0000
    ensures Validate(data, |data|) == Stray <==> CutStrays(|payload|, t)
    ensures Validate(data, |data|) != Ok
  {
    hide WordAt, HalfAt, Crc16, Unpadded;
    CutMagic(id, payload, t, data);
    CutLength(id, payload, t, data);
    if t < 4 {
      assert Validate(data, |data|) == InvalidEntry;
    } else if WordAt(data, 8) >= WORD - HEADER_SIZE {
      assert t <= 11;
      CutHeaderRest(id, payload, t, data);
      WrappedTailNeverValid(data, |data|);
    } else if t >= 12 {
      assert data[OVERHEAD + |payload| - 1] == ERASED;
      if WordAt(data, HEADER_SIZE + |payload| + 2) == TAIL_MAGIC {
        TailMagicBytes(data, HEADER_SIZE + |payload| + 2);
      }
    } else {
      assert 9 <= t <= 11;
    }
  }

  lemma CutHeaderRest(id: nat, payload: seq<Byte>, t: nat, data: seq<Byte>)
    requires id < WORD && |payload| > 0 && OVERHEAD + |payload| < WORD
    requires CutShort(id, payload, t, data) && t <= 11
    requires WordAt(data, 8) >= WORD - HEADER_SIZE
    ensures forall k :: 9 <= k < OVERHEAD ==> data[k] == ERASED
  {
    hide Unpadded;
    var d1, d2, d3 := Value(data[9]), Value(data[10]), Value(data[11]);
    assert d1 == 255 && d2 == 255 && d3 == 255;
    SameValue(data[9], ERASED);
    SameValue(data[10], ERASED);
    SameValue(data[11], ERASED);
  }

  // ---------- The format in bytes ----------

  /** The header magic in bytes. */
  predicate StartsEntry(data: seq<Byte>, at: nat)
    requires at + 4 <= |data|
  {
    data[at] == 0x4D && data[at + 1] == 0x42 && data[at + 2] == 0x55 && data[at + 3] == 0x53
  }

  /** The tail magic in bytes: the header magic backwards. */
  predicate EndsEntry(data: seq<Byte>, at: nat)
    requires at + 4 <= |data|
  {
    data[at] == 0x53 && data[at + 1] == 0x55 && data[at + 2] == 0x42 && data[at + 3] == 0x4D
  }

  lemma MagicBytes(s: seq<Byte>, i: nat)
    requires i + 4 <= |s|
    ensures WordAt(s, i) == HEADER_MAGIC <==> StartsEntry(s, i)
    ensures WordAt(s, i) == TAIL_MAGIC <==> EndsEntry(s, i)
  {
    hide WordAt;
    MagicValues();
    if WordAt(s, i) == HEADER_MAGIC {
      HeaderMagicBytes(s, i);
    }
    if WordAt(s, i) == TAIL_MAGIC {
      TailMagicBytes(s, i);
    }
    if StartsEntry(s, i) {
      WordOfDigits(s, i, 0x4D, 0x42, 0x55, 0x53);
    }
    if EndsEntry(s, i) {
      WordOfDigits(s, i, 0x53, 0x55, 0x42, 0x4D);
    }
  }

  lemma MagicValues()
    ensures Value(0x4D) == 0x4D && Value(0x42) == 0x42 && Value(0x55) == 0x55 && Value(0x53) == 0x53
  {
  }

  /**
   * Byte by byte: the magic, id and length with the low byte first, the payload, the CRC of all of these with the low
   * byte first, and the magic backwards; then fewer bytes than the alignment.
   */
  lemma EntryBytes(raw: seq<Byte>, id: nat, payload: seq<Byte>, align: nat)
    requires IsEntry(raw, id, payload, align)
    ensures var n := |payload|;
            && 18 + n <= |raw| < 18 + n + align
            && StartsEntry(raw, 0) && WordAt(raw, 4) == id && WordAt(raw, 8) == n && raw[12..12 + n] == payload
            && HalfAt(raw, 12 + n) == Crc16(raw[..12 + n]) && EndsEntry(raw, 14 + n)
  {
    hide WordAt, HalfAt, Crc16, Covered, Tail, EntrySize, AlignUp, StartsEntry, EndsEntry;
    EntryFields(raw, id, payload, align, []);
    EntrySizeBounds(|payload|, align);
    assert raw + [] == raw;
    var c := Covered(id, payload);
    EntrySplits(raw, id, payload, align, []);
    TailFields(c, Crc16(c), raw[OVERHEAD + |payload|..] + []);
    assert raw[..|c|] == c;
    MagicBytes(raw, 0);
    MagicBytes(raw, 14 + |payload|);
  }

  /**
   * What the validator answers for any bytes whose length field does not make the tail offset wrap: too short or no
   * magic, an entry beyond what may be read, one beyond the data, a wrong CRC, a wrong end, in this order.
   */
  lemma ValidatorOutcome(data: seq<Byte>, capacity: nat)
    requires |data| <= capacity
    ensures |data| < 18 || !StartsEntry(data, 0) ==> Validate(data, capacity) == InvalidEntry
    ensures |data| >= 18 && StartsEntry(data, 0) && WordAt(data, 8) < 0xFFFF_FFF4 ==>
              var n := WordAt(data, 8);
              Validate(data, capacity) ==
              if 18 + n > capacity then Stray
              else if 18 + n > |data| then NoMem
              else if HalfAt(data, 12 + n) != Crc16(data[..12 + n]) then InvalidCrc
              else if !EndsEntry(data, 14 + n) then InvalidEntry
              else Ok
  {
    hide WordAt, HalfAt, Crc16, StartsEntry, EndsEntry;
    if |data| >= 18 {
      MagicBytes(data, 0);
      var n := WordAt(data, 8);
      if n < 0xFFFF_FFF4 && 18 + n <= |data| {
        MagicBytes(data, 14 + n);
      }
    }
  }

  /** The entry with id 1 and the one byte 0x41. */
  lemma SampleEntry()
    ensures Unpadded(1, [0x41]) ==
            [0x4D, 0x42, 0x55, 0x53, 1, 0, 0, 0, 1, 0, 0, 0, 0x41, 0x05, 0x7D, 0x53, 0x55, 0x42, 0x4D]
  {
    hide Crc16, Word, Half, Header, WordAt;
    SampleHeader();
    SampleCrc();
    TailMagicWord();
    var covered: seq<Byte> := [0x4D, 0x42, 0x55, 0x53, 1, 0, 0, 0, 1, 0, 0, 0, 0x41];
    assert Covered(1, [0x41]) == covered;
    assert Tail(0x7D05) == [0x05, 0x7D, 0x53, 0x55, 0x42, 0x4D];
    hide Covered, Tail;
    assert Unpadded(1, [0x41]) == covered + Tail(0x7D05);
  }

  lemma WordFromDigits(w: seq<Byte>, x: nat, b0: Byte, b1: Byte, b2: Byte, b3: Byte)
    requires x < WORD && w == Word(x)
    requires x == Value(b0) + 256 * Value(b1) + 65536 * Value(b2) + 16777216 * Value(b3)
    ensures w == [b0, b1, b2, b3]
  {
    hide Word, Value;
    WordDetermines(w, 0, b0, b1, b2, b3);
  }

  lemma SampleHeader()
    ensures Header(1, 1) == [0x4D, 0x42, 0x55, 0x53, 1, 0, 0, 0, 1, 0, 0, 0]
  {
    MagicValues();
    SmallValues();
    hide Word, Value;
    WordFromDigits(Word(HEADER_MAGIC), HEADER_MAGIC, 0x4D, 0x42, 0x55, 0x53);
    WordFromDigits(Word(1), 1, 1, 0, 0, 0);
  }

  lemma SmallValues()
    ensures Value(0) == 0 && Value(1) == 1
  {
  }

  lemma TailMagicWord()
    ensures Word(TAIL_MAGIC) == [0x53, 0x55, 0x42, 0x4D]
  {
    hide Word;
    TailMagicBytes(Word(TAIL_MAGIC), 0);
  }

  lemma SampleCrc()
    ensures Crc16([0x4D, 0x42, 0x55, 0x53, 1, 0, 0, 0, 1, 0, 0, 0, 0x41]) == 0x7D05 && Half(0x7D05) == [0x05, 0x7D]
  {
    SampleSteps();
    var s: seq<Byte> := [0x4D, 0x42, 0x55, 0x53, 1, 0, 0, 0, 1, 0, 0, 0, 0x41];
    hide Crc16, Feed;
    EmptyMessage();
    OneMoreByte([], 0x4D, 0xFFFF);
    OneMoreByte([] + [0x4D], 0x42, 0x757F);
    var m := [] + [0x4D] + [0x42];
    OneMoreByte(m, 0x55, 0xD1B4);
    OneMoreByte(m + [0x55], 0x53, 0x4811);
    m := m + [0x55] + [0x53];
    OneMoreByte(m, 1, 0x31C8);
    OneMoreByte(m + [1], 0, 0x56F1);
    OneMoreByte(m + [1] + [0], 0, 0x8497);
    OneMoreByte(m + [1] + [0] + [0], 0, 0xAEC5);
    m := m + [1] + [0] + [0] + [0];
    OneMoreByte(m, 1, 0x536E);
    OneMoreByte(m + [1], 0, 0x2C13);
    OneMoreByte(m + [1] + [0], 0, 0xCD6D);
    OneMoreByte(m + [1] + [0] + [0], 0, 0xED0C);
    m := m + [1] + [0] + [0] + [0];
    OneMoreByte(m, 0x41, 0x05ED);
    assert s == m + [0x41];
  }

  lemma SampleSteps()
    ensures Feed(0xFFFF, 0x4D) == 0x757F && Feed(0x757F, 0x42) == 0xD1B4 && Feed(0xD1B4, 0x55) == 0x4811
    ensures Feed(0x4811, 0x53) == 0x31C8 && Feed(0x31C8, 1) == 0x56F1 && Feed(0x56F1, 0) == 0x8497
    ensures Feed(0x8497, 0) == 0xAEC5 && Feed(0xAEC5, 0) == 0x536E && Feed(0x536E, 1) == 0x2C13
    ensures Feed(0x2C13, 0) == 0xCD6D && Feed(0xCD6D, 0) == 0xED0C && Feed(0xED0C, 0) == 0x05ED
    ensures Feed(0x05ED, 0x41) == 0x7D05
  {
  }
}
