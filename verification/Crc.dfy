/** CRC-16/Modbus: the shift register, the two C implementations, and what the code detects. */
module Crc {
  import opened Bytes

  /** One bit of the reflected 0x8005 register. */
  function ShiftBit(x: bv16): bv16 {
    if x & 1 != 0 then (x >> 1) ^ 0xA001 else x >> 1
  }

  function ShiftBits(x: bv16, n: nat): bv16 {
    if n == 0 then x else ShiftBit(ShiftBits(x, n - 1))
  }

  function ShiftByte(x: bv16): bv16 {
    ShiftBit(ShiftBit(ShiftBit(ShiftBit(ShiftBit(ShiftBit(ShiftBit(ShiftBit(x))))))))
  }

  function Mix(crc: bv16, b: Byte): bv16 {
    crc ^ (b as bv16)
  }

  /** The register after it has taken in one byte. */
  function Feed(crc: bv16, b: Byte): bv16 {
    ShiftByte(Mix(crc, b))
  }

  /** The register after a whole message, started from `crc`. */
  function Register(crc: bv16, s: seq<Byte>): bv16 {
    if s == [] then crc else Feed(Register(crc, s[..|s| - 1]), s[|s| - 1])
  }

  /** CRC-16/Modbus of a message. */
  function Crc16(s: seq<Byte>): bv16 {
    Register(0xFFFF, s)
  }

  lemma {:induction false} RegisterConcat(crc: bv16, s: seq<Byte>, t: seq<Byte>)
    ensures Register(crc, s + t) == Register(Register(crc, s), t)
  {
    if t == [] {
      assert s + t == s;
    } else {
      RegisterConcat(crc, s, t[..|t| - 1]);
      assert (s + t)[..|s + t| - 1] == s + t[..|t| - 1];
    }
  }

  // ---------- The table ----------

  /** Picks one of the sixteen entries of a table row. */
  function Nibble(i: Byte, v0: bv16, v1: bv16, v2: bv16, v3: bv16, v4: bv16, v5: bv16, v6: bv16, v7: bv16,
                  v8: bv16, v9: bv16, vA: bv16, vB: bv16, vC: bv16, vD: bv16, vE: bv16, vF: bv16): bv16 {
    match i & 0xF
    case 0 => v0 case 1 => v1 case 2 => v2 case 3 => v3 case 4 => v4 case 5 => v5 case 6 => v6 case 7 => v7
    case 8 => v8 case 9 => v9 case 10 => vA case 11 => vB case 12 => vC case 13 => vD case 14 => vE case _ => vF
  }

  /** The lookup table: entry `i` sits in row `i >> 4`, column `i & 0xF`. */
  function Table(i: Byte): bv16 {
    match i >> 4
    case 0 => Nibble(i, 0x0000, 0xC0C1, 0xC181, 0x0140, 0xC301, 0x03C0, 0x0280, 0xC241,
                        0xC601, 0x06C0, 0x0780, 0xC741, 0x0500, 0xC5C1, 0xC481, 0x0440)
    case 1 => Nibble(i, 0xCC01, 0x0CC0, 0x0D80, 0xCD41, 0x0F00, 0xCFC1, 0xCE81, 0x0E40,
                        0x0A00, 0xCAC1, 0xCB81, 0x0B40, 0xC901, 0x09C0, 0x0880, 0xC841)
    case 2 => Nibble(i, 0xD801, 0x18C0, 0x1980, 0xD941, 0x1B00, 0xDBC1, 0xDA81, 0x1A40,
                        0x1E00, 0xDEC1, 0xDF81, 0x1F40, 0xDD01, 0x1DC0, 0x1C80, 0xDC41)
    case 3 => Nibble(i, 0x1400, 0xD4C1, 0xD581, 0x1540, 0xD701, 0x17C0, 0x1680, 0xD641,
                        0xD201, 0x12C0, 0x1380, 0xD341, 0x1100, 0xD1C1, 0xD081, 0x1040)
    case 4 => Nibble(i, 0xF001, 0x30C0, 0x3180, 0xF141, 0x3300, 0xF3C1, 0xF281, 0x3240,
                        0x3600, 0xF6C1, 0xF781, 0x3740, 0xF501, 0x35C0, 0x3480, 0xF441)
    case 5 => Nibble(i, 0x3C00, 0xFCC1, 0xFD81, 0x3D40, 0xFF01, 0x3FC0, 0x3E80, 0xFE41,
                        0xFA01, 0x3AC0, 0x3B80, 0xFB41, 0x3900, 0xF9C1, 0xF881, 0x3840)
    case 6 => Nibble(i, 0x2800, 0xE8C1, 0xE981, 0x2940, 0xEB01, 0x2BC0, 0x2A80, 0xEA41,
                        0xEE01, 0x2EC0, 0x2F80, 0xEF41, 0x2D00, 0xEDC1, 0xEC81, 0x2C40)
    case 7 => Nibble(i, 0xE401, 0x24C0, 0x2580, 0xE541, 0x2700, 0xE7C1, 0xE681, 0x2640,
                        0x2200, 0xE2C1, 0xE381, 0x2340, 0xE101, 0x21C0, 0x2080, 0xE041)
    case 8 => Nibble(i, 0xA001, 0x60C0, 0x6180, 0xA141, 0x6300, 0xA3C1, 0xA281, 0x6240,
                        0x6600, 0xA6C1, 0xA781, 0x6740, 0xA501, 0x65C0, 0x6480, 0xA441)
    case 9 => Nibble(i, 0x6C00, 0xACC1, 0xAD81, 0x6D40, 0xAF01, 0x6FC0, 0x6E80, 0xAE41,
                        0xAA01, 0x6AC0, 0x6B80, 0xAB41, 0x6900, 0xA9C1, 0xA881, 0x6840)
    case 10 => Nibble(i, 0x7800, 0xB8C1, 0xB981, 0x7940, 0xBB01, 0x7BC0, 0x7A80, 0xBA41,
                        0xBE01, 0x7EC0, 0x7F80, 0xBF41, 0x7D00, 0xBDC1, 0xBC81, 0x7C40)
    case 11 => Nibble(i, 0xB401, 0x74C0, 0x7580, 0xB541, 0x7700, 0xB7C1, 0xB681, 0x7640,
                        0x7200, 0xB2C1, 0xB381, 0x7340, 0xB101, 0x71C0, 0x7080, 0xB041)
    case 12 => Nibble(i, 0x5000, 0x90C1, 0x9181, 0x5140, 0x9301, 0x53C0, 0x5280, 0x9241,
                        0x9601, 0x56C0, 0x5780, 0x9741, 0x5500, 0x95C1, 0x9481, 0x5440)
    case 13 => Nibble(i, 0x9C01, 0x5CC0, 0x5D80, 0x9D41, 0x5F00, 0x9FC1, 0x9E81, 0x5E40,
                        0x5A00, 0x9AC1, 0x9B81, 0x5B40, 0x9901, 0x59C0, 0x5880, 0x9841)
    case 14 => Nibble(i, 0x8801, 0x48C0, 0x4980, 0x8941, 0x4B00, 0x8BC1, 0x8A81, 0x4A40,
                        0x4E00, 0x8EC1, 0x8F81, 0x4F40, 0x8D01, 0x4DC0, 0x4C80, 0x8C41)
    case _ => Nibble(i, 0x4400, 0x84C1, 0x8581, 0x4540, 0x8701, 0x47C0, 0x4680, 0x8641,
                        0x8201, 0x42C0, 0x4380, 0x8341, 0x4100, 0x81C1, 0x8081, 0x4040)
  }

  lemma TableRange0(i: Byte)
    requires 0x00 <= i <= 0x07
    ensures Table(i) == ShiftByte(i as bv16)
  {
  }

  lemma TableRange1(i: Byte)
    requires 0x08 <= i <= 0x0F
    ensures Table(i) == ShiftByte(i as bv16)
  {
  }

  lemma TableRange2(i: Byte)
    requires 0x10 <= i <= 0x1F
    ensures Table(i) == ShiftByte(i as bv16)
  {
  }

  lemma TableRange3(i: Byte)
    requires 0x20 <= i <= 0x3F
    ensures Table(i) == ShiftByte(i as bv16)
  {
  }

  lemma TableRange4(i: Byte)
    requires 0x40 <= i <= 0x5F
    ensures Table(i) == ShiftByte(i as bv16)
  {
  }

  lemma TableRange5(i: Byte)
    requires 0x60 <= i <= 0x7F
    ensures Table(i) == ShiftByte(i as bv16)
  {
  }

  lemma TableRange6(i: Byte)
    requires 0x80 <= i <= 0x9F
    ensures Table(i) == ShiftByte(i as bv16)
  {
  }

  lemma TableRange7(i: Byte)
    requires 0xA0 <= i <= 0xBF
    ensures Table(i) == ShiftByte(i as bv16)
  {
  }

  lemma TableRange8(i: Byte)
    requires 0xC0 <= i <= 0xDF
    ensures Table(i) == ShiftByte(i as bv16)
  {
  }

  lemma TableRange9(i: Byte)
    requires 0xE0 <= i <= 0xFF
    ensures Table(i) == ShiftByte(i as bv16)
  {
  }

  /** Every entry of the table is the register shifted through one byte. */
  lemma TableIsShiftByte(i: Byte)
    ensures Table(i) == ShiftByte(i as bv16)
  {
    hide Table, ShiftByte;
    if i < 0x08 {
      TableRange0(i);
    } else if i < 0x10 {
      TableRange1(i);
    } else if i < 0x20 {
      TableRange2(i);
    } else if i < 0x40 {
      TableRange3(i);
    } else if i < 0x60 {
      TableRange4(i);
    } else if i < 0x80 {
      TableRange5(i);
    } else if i < 0xA0 {
      TableRange6(i);
    } else if i < 0xC0 {
      TableRange7(i);
    } else if i < 0xE0 {
      TableRange8(i);
    } else {
      TableRange9(i);
    }
  }

  function HighPart(x: bv16): bv16 {
    x >> 8
  }

  function LowPart(x: bv16): Byte {
    (x & 0xFF) as bv8
  }

  function Join(x: bv16, y: bv16): bv16 {
    x ^ y
  }

  lemma ShiftBitLinear(x: bv16, y: bv16)
    ensures ShiftBit(Join(x, y)) == Join(ShiftBit(x), ShiftBit(y))
  {
    if x & 1 == 0 {
      if y & 1 == 0 {
        assert (x ^ y) & 1 == 0;
      } else {
        assert (x ^ y) & 1 != 0;
      }
    } else {
      if y & 1 == 0 {
        assert (x ^ y) & 1 != 0;
      } else {
        assert (x ^ y) & 1 == 0;
      }
    }
    assert (x ^ y) >> 1 == (x >> 1) ^ (y >> 1);
  }

  lemma ShiftByteLinear(x: bv16, y: bv16)
    ensures ShiftByte(Join(x, y)) == Join(ShiftByte(x), ShiftByte(y))
  {
    hide ShiftBit, Join;
    var x1, y1 := ShiftBit(x), ShiftBit(y);
    var x2, y2 := ShiftBit(x1), ShiftBit(y1);
    var x3, y3 := ShiftBit(x2), ShiftBit(y2);
    var x4, y4 := ShiftBit(x3), ShiftBit(y3);
    var x5, y5 := ShiftBit(x4), ShiftBit(y4);
    var x6, y6 := ShiftBit(x5), ShiftBit(y5);
    ShiftBitLinear(x, y);
    ShiftBitLinear(x1, y1);
    ShiftBitLinear(x2, y2);
    ShiftBitLinear(x3, y3);
    ShiftBitLinear(x4, y4);
    ShiftBitLinear(x5, y5);
    ShiftBitLinear(x6, y6);
    ShiftBitLinear(ShiftBit(x6), ShiftBit(y6));
  }

  lemma EvenShifts(x: bv16)
    requires x & 1 == 0
    ensures ShiftBit(x) == x >> 1
  {
  }

  /** The upper half moves down unchanged. */
  lemma UpperHalfShifts(x: bv16)
    ensures ShiftByte(x & 0xFF00) == x >> 8
  {
    hide ShiftBit;
    var u := x & 0xFF00;
    EvenShifts(u);
    EvenShifts(u >> 1);
    EvenShifts(u >> 2);
    EvenShifts(u >> 3);
    EvenShifts(u >> 4);
    EvenShifts(u >> 5);
    EvenShifts(u >> 6);
    EvenShifts(u >> 7);
  }

  lemma HalvesOf(x: bv16)
    ensures x == Join(x & 0xFF00, LowPart(x) as bv16)
    ensures HighPart(x) == x >> 8
  {
  }

  lemma ShiftByteSplits(x: bv16)
    ensures ShiftByte(x) == Join(HighPart(x), ShiftByte(LowPart(x) as bv16))
  {
    hide ShiftByte, Join, LowPart, HighPart;
    HalvesOf(x);
    ShiftByteLinear(x & 0xFF00, LowPart(x) as bv16);
    UpperHalfShifts(x);
  }

  function TableIndex(crc: bv16, b: Byte): Byte {
    b ^ LowPart(crc)
  }

  lemma PartsOfMix(crc: bv16, b: Byte)
    ensures HighPart(Mix(crc, b)) == HighPart(crc)
    ensures LowPart(Mix(crc, b)) == TableIndex(crc, b)
  {
  }

  function TableFeed(crc: bv16, b: Byte): bv16 {
    Join(HighPart(crc), Table(TableIndex(crc, b)))
  }

  /** One table step is one bytewise step, for every register and every byte. */
  lemma TableStep(crc: bv16, b: Byte)
    ensures TableFeed(crc, b) == Feed(crc, b)
  {
    hide Table, ShiftByte, Mix, TableIndex, HighPart, LowPart, Join;
    PartsOfMix(crc, b);
    ShiftByteSplits(Mix(crc, b));
    TableIsShiftByte(TableIndex(crc, b));
  }

  // ---------- The two builds of the C function ----------

  /** The build with the lookup table. */
  method CalculateWithTable(data: seq<Byte>) returns (crc: bv16)
    ensures crc == Crc16(data)
  {
    hide Table, Feed, TableIndex;
    crc := 0xFFFF;
    for i := 0 to |data|
      invariant crc == Crc16(data[..i])
    {
      var lutIndex := TableIndex(crc, data[i]);
      TableStep(crc, data[i]);
      assert data[..i + 1][..i] == data[..i];
      crc := crc >> 8;
      crc := crc ^ Table(lutIndex);
    }
    assert data[..|data|] == data;
  }

  /** The build without the table. */
  method CalculateBitwise(data: seq<Byte>) returns (crc: bv16)
    ensures crc == Crc16(data)
  {
    hide Feed, ShiftBit;
    crc := 0xFFFF;
    for i := 0 to |data|
      invariant crc == Crc16(data[..i])
    {
      assert data[..i + 1][..i] == data[..i];
      ghost var start := Mix(crc, data[i]);
      EightBits(start);
      assert Crc16(data[..i + 1]) == Feed(crc, data[i]);
      FeedIsShift(crc, data[i]);
      crc := crc ^ (data[i] as bv16);
      for bit := 0 to 8
        invariant crc == ShiftBits(start, bit)
      {
        OneBit(crc);
        if crc & 1 != 0 {
          crc := crc >> 1;
          crc := crc ^ 0xA001;
        } else {
          crc := crc >> 1;
        }
      }
    }
    assert data[..|data|] == data;
  }

  lemma OneBit(x: bv16)
    ensures ShiftBit(x) == if x & 1 != 0 then (x >> 1) ^ 0xA001 else x >> 1
  {
  }

  lemma FeedIsShift(crc: bv16, b: Byte)
    ensures Feed(crc, b) == ShiftByte(Mix(crc, b))
  {
  }

  lemma EightBits(x: bv16)
    ensures ShiftBits(x, 8) == ShiftByte(x)
  {
    hide ShiftBit;
    assert ShiftBits(x, 1) == ShiftBit(x);
    assert ShiftBits(x, 2) == ShiftBit(ShiftBits(x, 1));
    assert ShiftBits(x, 3) == ShiftBit(ShiftBits(x, 2));
    assert ShiftBits(x, 4) == ShiftBit(ShiftBits(x, 3));
    assert ShiftBits(x, 5) == ShiftBit(ShiftBits(x, 4));
    assert ShiftBits(x, 6) == ShiftBit(ShiftBits(x, 5));
    assert ShiftBits(x, 7) == ShiftBit(ShiftBits(x, 6));
  }

  // ---------- What a wrong byte does ----------

  lemma ShiftByteInjective(x: bv16, y: bv16)
    requires ShiftByte(x) == ShiftByte(y)
    ensures x == y
  {
  }

  lemma MixInjective(c: bv16, d: bv16, b: Byte)
    requires Mix(c, b) == Mix(d, b)
    ensures c == d
  {
  }

  lemma FeedInjective(c: bv16, d: bv16, b: Byte)
    requires Feed(c, b) == Feed(d, b)
    ensures c == d
  {
    hide ShiftByte, Mix;
    ShiftByteInjective(Mix(c, b), Mix(d, b));
    MixInjective(c, d, b);
  }

  /** Registers that differ stay different however the message goes on. */
  lemma {:induction false} DifferenceSurvives(c: bv16, d: bv16, s: seq<Byte>)
    requires c != d
    ensures Register(c, s) != Register(d, s)
  {
    hide Feed;
    if s != [] {
      var init, last := s[..|s| - 1], s[|s| - 1];
      DifferenceSurvives(c, d, init);
      if Register(c, s) == Register(d, s) {
        FeedInjective(Register(c, init), Register(d, init), last);
      }
    }
  }

  function HighByte(x: bv16): bv16 {
    x & 0xFF00
  }

  lemma HighByteOfJoin(x: bv16, y: bv16)
    ensures HighByte(Join(HighPart(x), y)) == HighByte(y)
  {
  }

  lemma HighByteOfShift(x: bv16)
    ensures HighByte(ShiftByte(x)) == HighByte(ShiftByte(LowPart(x) as bv16))
  {
    hide ShiftByte, HighByte, HighPart, LowPart, Join;
    ShiftByteSplits(x);
    HighByteOfJoin(x, ShiftByte(LowPart(x) as bv16));
  }

  /** Below the length of the polynomial a burst never shifts out without a trace. */
  lemma HighByteInjective(i: Byte, j: Byte)
    requires HighByte(ShiftByte(i as bv16)) == HighByte(ShiftByte(j as bv16))
    ensures i == j
  {
  }

  lemma TableIndexInjective(c: bv16, a: Byte, a': Byte)
    requires TableIndex(c, a) == TableIndex(c, a')
    ensures a == a'
  {
  }

  lemma HighByteDiffers(c: bv16, a: Byte, a': Byte)
    requires a != a'
    ensures HighByte(Feed(c, a)) != HighByte(Feed(c, a'))
  {
    hide ShiftByte, Mix, TableIndex, HighByte, HighPart, LowPart;
    PartsOfMix(c, a);
    PartsOfMix(c, a');
    HighByteOfShift(Mix(c, a));
    HighByteOfShift(Mix(c, a'));
    if HighByte(Feed(c, a)) == HighByte(Feed(c, a')) {
      HighByteInjective(TableIndex(c, a), TableIndex(c, a'));
      TableIndexInjective(c, a, a');
    }
  }

  lemma SecondByteCannotRepair(p: bv16, q: bv16, b: Byte, b': Byte)
    requires Mix(p, b) == Mix(q, b')
    ensures HighByte(p) == HighByte(q)
    ensures p == q ==> b == b'
  {
  }

  /** Two different byte pairs never leave the same register behind. */
  lemma BurstOfTwo(c: bv16, a: Byte, b: Byte, a': Byte, b': Byte)
    requires a != a' || b != b'
    ensures Feed(Feed(c, a), b) != Feed(Feed(c, a'), b')
  {
    hide ShiftByte, Mix, HighByte;
    var p, q := Feed(c, a), Feed(c, a');
    if Feed(p, b) == Feed(q, b') {
      ShiftByteInjective(Mix(p, b), Mix(q, b'));
      SecondByteCannotRepair(p, q, b, b');
      if a != a' {
        HighByteDiffers(c, a, a');
      }
    }
  }

  lemma PairRegister(before: seq<Byte>, a: Byte, b: Byte)
    ensures Crc16(before + [a, b]) == Feed(Feed(Crc16(before), a), b)
  {
    hide Feed;
    var one := before + [a];
    var two := before + [a, b];
    assert one[..|one| - 1] == before;
    assert two[..|two| - 1] == one;
    assert Register(0xFFFF, one) == Feed(Register(0xFFFF, before), a);
  }

  /**
   * Changing one byte, or two neighbouring bytes, of a message of any length changes its CRC:
   * `a, b` stands where `a', b'` was, and at least one of the two is different.
   */
  lemma BurstDetected(before: seq<Byte>, a: Byte, b: Byte, a': Byte, b': Byte, after: seq<Byte>)
    requires a != a' || b != b'
    ensures Crc16(before + [a, b] + after) != Crc16(before + [a', b'] + after)
  {
    hide Feed;
    var c := Crc16(before);
    PairRegister(before, a, b);
    PairRegister(before, a', b');
    BurstOfTwo(c, a, b, a', b');
    RegisterConcat(0xFFFF, before + [a, b], after);
    RegisterConcat(0xFFFF, before + [a', b'], after);
    DifferenceSurvives(Feed(Feed(c, a), b), Feed(Feed(c, a'), b'), after);
  }

  // ---------- The Modbus frame check ----------

  datatype FrameCheck = FrameOk | FrameInvalidSize | FrameInvalidCrc

  const MINIMUM_FRAME_LENGTH: nat := 4

  /** The frame check of the parser; a null frame is not a sequence and has no case here. */
  function CheckFrame(data: seq<Byte>): FrameCheck {
    if |data| < MINIMUM_FRAME_LENGTH then FrameInvalidSize
    else
      var computed := Crc16(data[..|data| - 2]);
      var received := ((data[|data| - 1] as bv16) << 8) | (data[|data| - 2] as bv16);
      if computed == received then FrameOk else FrameInvalidCrc
  }

  lemma ShiftByteOfHighByte(h: Byte)
    ensures ShiftByte((h as bv16) << 8) == h as bv16
  {
  }

  lemma ShiftByteOfZero(x: bv16)
    ensures ShiftByte(x) == 0 <==> x == 0
  {
    if ShiftByte(x) == 0 {
      ShiftByteInjective(x, 0);
    }
  }

  /** The register value whose two bytes, low one first, are `lo` and `hi`. */
  function LowFirst(lo: Byte, hi: Byte): bv16 {
    ((hi as bv16) << 8) | (lo as bv16)
  }

  lemma MixOfLowFirst(lo: Byte, hi: Byte)
    ensures Mix(LowFirst(lo, hi), lo) == (hi as bv16) << 8
  {
  }

  lemma MixIsZero(c: bv16, b: Byte)
    ensures Mix(c, b) == 0 <==> c == b as bv16
  {
  }

  lemma ZeroAfterOwnCrc(c: bv16, lo: Byte, hi: Byte)
    ensures Feed(Feed(c, lo), hi) == 0 <==> c == LowFirst(lo, hi)
  {
    hide ShiftByte, Mix, LowFirst;
    ShiftByteOfZero(Mix(Feed(c, lo), hi));
    MixIsZero(Feed(c, lo), hi);
    ShiftByteOfHighByte(hi);
    MixOfLowFirst(lo, hi);
    if Feed(c, lo) == hi as bv16 {
      ShiftByteInjective(Mix(c, lo), (hi as bv16) << 8);
      MixInjective(c, LowFirst(lo, hi), lo);
    }
  }

  /**
   * A frame of fewer than four bytes is too short; any other passes exactly when the register run over all of it, CRC
   * bytes included, ends at zero.
   */
  lemma FramePassesIffRegisterIsZero(data: seq<Byte>)
    ensures CheckFrame(data) == FrameInvalidSize <==> |data| < 4
    ensures CheckFrame(data) == FrameOk <==> |data| >= 4 && Crc16(data) == 0
    ensures CheckFrame(data) == FrameInvalidCrc <==> |data| >= 4 && Crc16(data) != 0
  {
    hide Feed;
    if |data| >= MINIMUM_FRAME_LENGTH {
      var body, lo, hi := data[..|data| - 2], data[|data| - 2], data[|data| - 1];
      assert data == body + [lo, hi];
      PairRegister(body, lo, hi);
      ZeroAfterOwnCrc(Crc16(body), lo, hi);
    }
  }

  // ---------- Known values ----------

  lemma OneMoreByte(s: seq<Byte>, b: Byte, c: bv16)
    requires Crc16(s) == c
    ensures Crc16(s + [b]) == Feed(c, b)
  {
    hide Feed;
    assert (s + [b])[..|s|] == s;
  }

  lemma EmptyMessage()
    ensures Crc16([]) == 0xFFFF
  {
  }

  /** The check value of CRC-16/Modbus: nine bytes, the digits 1 to 9 in ASCII. */
  lemma CheckValue()
    ensures Crc16([0x31, 0x32, 0x33, 0x34, 0x35, 0x36, 0x37, 0x38, 0x39]) == 0x4B37
  {
    var s: seq<Byte> := [0x31, 0x32, 0x33, 0x34, 0x35, 0x36, 0x37, 0x38, 0x39];
    ConcreteSteps();
    hide *;
    EmptyMessage();
    OneMoreByte([], 0x31, 0xFFFF);
    OneMoreByte([] + [0x31], 0x32, 0x947E);
    OneMoreByte([] + [0x31] + [0x32], 0x33, 0xF595);
    OneMoreByte([] + [0x31] + [0x32] + [0x33], 0x34, 0x7A75);
    OneMoreByte([] + [0x31] + [0x32] + [0x33] + [0x34], 0x35, 0x30BA);
    OneMoreByte([] + [0x31] + [0x32] + [0x33] + [0x34] + [0x35], 0x36, 0xA471);
    OneMoreByte([] + [0x31] + [0x32] + [0x33] + [0x34] + [0x35] + [0x36], 0x37, 0x32E4);
    OneMoreByte([] + [0x31] + [0x32] + [0x33] + [0x34] + [0x35] + [0x36] + [0x37], 0x38, 0x9D73);
    OneMoreByte([] + [0x31] + [0x32] + [0x33] + [0x34] + [0x35] + [0x36] + [0x37] + [0x38], 0x39, 0x37DD);
    assert s == [] + [0x31] + [0x32] + [0x33] + [0x34] + [0x35] + [0x36] + [0x37] + [0x38] + [0x39];
  }

  lemma ConcreteSteps()
    ensures Feed(0xFFFF, 0x31) == 0x947E && Feed(0x947E, 0x32) == 0xF595 && Feed(0xF595, 0x33) == 0x7A75
    ensures Feed(0x7A75, 0x34) == 0x30BA && Feed(0x30BA, 0x35) == 0xA471 && Feed(0xA471, 0x36) == 0x32E4
    ensures Feed(0x32E4, 0x37) == 0x9D73 && Feed(0x9D73, 0x38) == 0x37DD && Feed(0x37DD, 0x39) == 0x4B37
  {
  }

  /** The request to read ten holding registers of device 1 passes. */
  lemma RequestPasses()
    ensures CheckFrame([0x01, 0x03, 0x00, 0x00, 0x00, 0x0A, 0xC5, 0xCD]) == FrameOk
  {
    var s: seq<Byte> := [0x01, 0x03, 0x00, 0x00, 0x00, 0x0A, 0xC5, 0xCD];
    FramePassesIffRegisterIsZero(s);
    RequestSteps();
    hide *;
    EmptyMessage();
    OneMoreByte([], 0x01, 0xFFFF);
    OneMoreByte([] + [0x01], 0x03, 0x807E);
    OneMoreByte([] + [0x01] + [0x03], 0x00, 0x2140);
    OneMoreByte([] + [0x01] + [0x03] + [0x00], 0x00, 0xF020);
    OneMoreByte([] + [0x01] + [0x03] + [0x00] + [0x00], 0x00, 0xD8F1);
    OneMoreByte([] + [0x01] + [0x03] + [0x00] + [0x00] + [0x00], 0x0A, 0x8419);
    OneMoreByte([] + [0x01] + [0x03] + [0x00] + [0x00] + [0x00] + [0x0A], 0xC5, 0xCDC5);
    OneMoreByte([] + [0x01] + [0x03] + [0x00] + [0x00] + [0x00] + [0x0A] + [0xC5], 0xCD, 0x00CD);
    assert s == [] + [0x01] + [0x03] + [0x00] + [0x00] + [0x00] + [0x0A] + [0xC5] + [0xCD];
  }

  lemma RequestSteps()
    ensures Feed(0xFFFF, 0x01) == 0x807E && Feed(0x807E, 0x03) == 0x2140 && Feed(0x2140, 0x00) == 0xF020
    ensures Feed(0xF020, 0x00) == 0xD8F1 && Feed(0xD8F1, 0x00) == 0x8419 && Feed(0x8419, 0x0A) == 0xCDC5
    ensures Feed(0xCDC5, 0xC5) == 0x00CD && Feed(0x00CD, 0xCD) == 0
  {
  }
}
