/** Bytes, little-endian words and the power-of-two rounding used by the entry layout. */
module Bytes {

  type Byte = bv8

  /** One past the largest 32-bit word. */
  const WORD: nat := 0x1_0000_0000

  /** What a NOR cell reads after an erase. */
  const ERASED: Byte := 0xFF

  function Value(b: Byte): (v: nat)
    ensures v < 256
  {
    b as int
  }

  lemma ByteAfter(b: Byte)
    requires b != 255
    ensures Value(b + 1) == Value(b) + 1
  {
  }

  lemma ByteIsItsValue(b: Byte)
    ensures Value(b) as Byte == b
  {
  }

  lemma SameValue(a: Byte, b: Byte)
    requires Value(a) == Value(b)
    ensures a == b
  {
    ByteIsItsValue(a);
    ByteIsItsValue(b);
  }

  lemma {:induction false} EveryValueIsAByte(x: nat) returns (b: Byte)
    requires x < 256
    ensures Value(b) == x
  {
    if x == 0 {
      b := 0;
    } else {
      var p := EveryValueIsAByte(x - 1);
      ByteAfter(p);
      b := p + 1;
    }
  }

  lemma ByteOfNat(x: nat)
    requires x < 256
    ensures Value(x as Byte) == x
  {
    var b := EveryValueIsAByte(x);
    ByteIsItsValue(b);
  }

  function ToByte(x: nat): (b: Byte)
    requires x < 256
    ensures Value(b) == x
  {
    ByteOfNat(x);
    x as Byte
  }

  lemma WordDigits(x: nat)
    requires x < WORD
    ensures x % 256 + 256 * (x / 256 % 256) + 65536 * (x / 65536 % 256) + 16777216 * (x / 16777216) == x
  {
    assert x / 65536 == x / 256 / 256;
    assert x / 16777216 == x / 65536 / 256;
  }

  /** The four bytes of a 32-bit word, low byte first; reading them back gives the word. */
  function Word(x: nat): (s: seq<Byte>)
    requires x < WORD
    ensures |s| == 4 && WordAt(s, 0) == x
  {
    WordDigits(x);
    [ToByte(x % 256), ToByte(x / 256 % 256), ToByte(x / 65536 % 256), ToByte(x / 16777216)]
  }

  /** The 32-bit word stored low byte first at offset `i`. */
  function WordAt(s: seq<Byte>, i: nat): (x: nat)
    requires i + 4 <= |s|
    ensures x < WORD
  {
    Value(s[i]) + 256 * Value(s[i + 1]) + 65536 * Value(s[i + 2]) + 16777216 * Value(s[i + 3])
  }

  /** A 16-bit register, low byte first. */
  function Half(c: bv16): (s: seq<Byte>)
    ensures |s| == 2 && HalfAt(s, 0) == c
  {
    [(c & 0xFF) as bv8, (c >> 8) as bv8]
  }

  /** The 16-bit register stored low byte first at offset `i`. */
  function HalfAt(s: seq<Byte>, i: nat): bv16
    requires i + 2 <= |s|
  {
    (s[i] as bv16) | ((s[i + 1] as bv16) << 8)
  }

  /** `n` erased bytes. */
  function Blank(n: nat): (s: seq<Byte>)
    ensures |s| == n && forall i :: 0 <= i < n ==> s[i] == ERASED
  {
    seq(n, _ => ERASED)
  }

  /** The bitwise `x & ~mask` on naturals. */
  function BitClear(x: nat, mask: nat): nat {
    if x == 0 then 0
    else 2 * BitClear(x / 2, mask / 2) + (if x % 2 == 1 && mask % 2 == 0 then 1 else 0)
  }

  lemma {:induction false} BitClearBounds(x: nat, mask: nat)
    ensures x - mask <= BitClear(x, mask) <= x
  {
    if x != 0 {
      BitClearBounds(x / 2, mask / 2);
    }
  }

  /** The mask form of rounding up: `(x + (align - 1)) & ~(align - 1)`. */
  function AlignUp(x: nat, align: nat): (r: nat)
    requires align >= 1
    ensures x <= r < x + align
  {
    BitClearBounds(x + (align - 1), align - 1);
    BitClear(x + (align - 1), align - 1)
  }

  function Pow2(k: nat): (p: nat)
    ensures p >= 1
  {
    if k == 0 then 1 else 2 * Pow2(k - 1)
  }

  lemma BitClearOddMask(x: nat, p: nat)
    requires p >= 1
    ensures BitClear(x, 2 * p - 1) == 2 * BitClear(x / 2, p - 1)
  {
    assert (2 * p - 1) / 2 == p - 1 && (2 * p - 1) % 2 == 1;
  }

  lemma RoundHalved(x: nat, p: nat, q: nat)
    requires p >= 1 && q == x / 2 / p
    ensures x / (2 * p) * (2 * p) == 2 * (q * p)
  {
    HalvedQuotient(x, p);
    assert x / (2 * p) == q;
  }

  lemma {:induction false} BitClearLowBits(x: nat, k: nat)
    ensures BitClear(x, Pow2(k) - 1) == x / Pow2(k) * Pow2(k)
  {
    if k == 0 {
      BitClearNothing(x);
    } else {
      hide BitClear;
      var p := Pow2(k - 1);
      BitClearLowBits(x / 2, k - 1);
      BitClearOddMask(x, p);
      RoundHalved(x, p, x / 2 / p);
    }
  }

  lemma {:induction false} BitClearNothing(x: nat)
    ensures BitClear(x, 0) == x
  {
    if x != 0 {
      BitClearNothing(x / 2);
    }
  }

  lemma HalvedQuotient(x: nat, p: nat)
    requires p >= 1
    ensures x / (2 * p) == x / 2 / p
  {
    var q, r := x / 2 / p, x / 2 % p;
    assert x / 2 == q * p + r;
    assert x == q * (2 * p) + (2 * r + x % 2);
    assert 2 * r + x % 2 < 2 * p;
    DivUnique(x, 2 * p, q, 2 * r + x % 2);
  }

  lemma MulLe(a: nat, b: nat, c: nat)
    requires a <= b
    ensures a * c <= b * c
  {
  }

  lemma DivUnique(x: nat, d: nat, q: nat, r: nat)
    requires d >= 1 && x == q * d + r && r < d
    ensures x / d == q && x % d == r
  {
    var q', r' := x / d, x % d;
    assert x == q' * d + r';
    if q + 1 <= q' {
      MulLe(q + 1, q', d);
    } else if q' + 1 <= q {
      MulLe(q' + 1, q, d);
    }
  }

  /** For an alignment that is a power of two, rounding up gives the least multiple not below `x`. */
  lemma AlignUpIsLeastMultiple(x: nat, k: nat, m: nat)
    ensures AlignUp(x, Pow2(k)) % Pow2(k) == 0
    ensures m * Pow2(k) >= x ==> m * Pow2(k) >= AlignUp(x, Pow2(k))
  {
    hide BitClear;
    var p := Pow2(k);
    var q := (x + (p - 1)) / p;
    BitClearLowBits(x + (p - 1), k);
    assert AlignUp(x, p) == q * p;
    DivUnique(q * p, p, q, 0);
    if m + 1 <= q {
      MulLe(m + 1, q, p);
      assert q * p <= x + (p - 1);
      assert (m + 1) * p == m * p + p;
    } else {
      MulLe(q, m, p);
    }
  }
}
