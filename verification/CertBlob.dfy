/** The certificate blob: packed by the provisioning script, loaded by the firmware. */
module CertBlob {
  import opened Bytes
  import opened Crc
  import opened Entry
  import opened RecoverySpec

  const BLOB_MAGIC: nat := 0x43455254
  const BLOB_HEADER: nat := 32

  // ---------- Packing ----------

  /** ASCII white space, as stripped from byte strings. */
  predicate IsSpace(b: Byte) {
    b == 0x20 || 0x09 <= b <= 0x0D
  }

  function StripLeft(s: seq<Byte>): (r: seq<Byte>)
    ensures r == [] || !IsSpace(r[0])
    ensures |r| <= |s| && s[|s| - |r|..] == r && forall i :: 0 <= i < |s| - |r| ==> IsSpace(s[i])
  {
    if s == [] || !IsSpace(s[0]) then s else StripLeft(s[1..])
  }

  function StripRight(s: seq<Byte>): (r: seq<Byte>)
    ensures r == [] || !IsSpace(r[|r| - 1])
    ensures |r| <= |s| && s[..|r|] == r && forall i :: |r| <= i < |s| ==> IsSpace(s[i])
  {
    if s == [] || !IsSpace(s[|s| - 1]) then s else StripRight(s[..|s| - 1])
  }

  function Strip(s: seq<Byte>): seq<Byte> {
    StripRight(StripLeft(s))
  }

  /** The six bytes that are stripped. */
  predicate White(b: Byte) {
    b == 0x09 || b == 0x0A || b == 0x0B || b == 0x0C || b == 0x0D || b == 0x20
  }

  /** Only white space stands in front of `a` and from `b` on, and none stands at the ends of what is between. */
  predicate TrimsAt(file: seq<Byte>, a: nat, b: nat) {
    && a <= b <= |file|
    && (forall i :: 0 <= i < a ==> White(file[i])) && (forall i :: b <= i < |file| ==> White(file[i]))
    && (a < b ==> !White(file[a]) && !White(file[b - 1]))
  }

  /** `core` is the file without the white space at its ends. */
  ghost predicate Trims(file: seq<Byte>, core: seq<Byte>) {
    exists a: nat, b: nat :: TrimsAt(file, a, b) && core == file[a..b]
  }

  lemma SpaceIsWhite()
    ensures forall b :: IsSpace(b) <==> White(b)
  {
  }

  lemma LeftTrims(file: seq<Byte>)
    ensures var left := StripLeft(file);
            && |left| <= |file| && file[|file| - |left|..] == left && (left != [] ==> !White(left[0]))
            && forall i :: 0 <= i < |file| - |left| ==> White(file[i])
  {
    SpaceIsWhite();
    hide White, IsSpace;
  }

  lemma RightTrims(file: seq<Byte>)
    ensures var core := StripRight(file);
            && |core| <= |file| && file[..|core|] == core && (core != [] ==> !White(core[|core| - 1]))
            && forall i :: |core| <= i < |file| ==> White(file[i])
  {
    SpaceIsWhite();
    hide White, IsSpace;
  }

  lemma TrimsBoth(file: seq<Byte>, left: seq<Byte>, core: seq<Byte>)
    requires |core| <= |left| <= |file| && file[|file| - |left|..] == left && left[..|core|] == core
    requires forall i :: 0 <= i < |file| - |left| ==> White(file[i])
    requires forall i :: |core| <= i < |left| ==> White(left[i])
    requires core != [] ==> !White(left[0]) && !White(core[|core| - 1])
    ensures Trims(file, core)
  {
    hide White;
    var a := |file| - |left|;
    var b := a + |core|;
    assert forall i :: a <= i < |file| ==> file[i] == left[i - a];
    assert file[a..b] == core;
    assert TrimsAt(file, a, b);
  }

  /** Stripping leaves the file without the white space at its ends. */
  lemma StripTrims(file: seq<Byte>)
    ensures Trims(file, Strip(file))
  {
    LeftTrims(file);
    RightTrims(StripLeft(file));
    hide White, IsSpace, StripLeft, StripRight, Trims;
    TrimsBoth(file, StripLeft(file), Strip(file));
  }

  /** There is only one such part. */
  lemma TrimsOnce(file: seq<Byte>, core: seq<Byte>, other: seq<Byte>)
    requires Trims(file, core) && Trims(file, other)
    ensures core == other
  {
    hide White;
    var a: nat, b: nat :| TrimsAt(file, a, b) && core == file[a..b];
    var x: nat, y: nat :| TrimsAt(file, x, y) && other == file[x..y];
    if a < b {
      assert !White(file[a]) && !White(file[b - 1]);
    }
    if x < y {
      assert !White(file[x]) && !White(file[y - 1]);
    }
  }

  /** A byte more at either end: it is stripped if it is one of the six, and kept if not. */
  lemma StripOneMore(file: seq<Byte>, b: Byte)
    ensures White(b) ==> Strip(file + [b]) == Strip(file) == Strip([b] + file)
    ensures !White(b) ==> Strip(file + [b]) != [] && Strip(file + [b])[|Strip(file + [b])| - 1] == b
    ensures !White(b) ==> Strip([b] + file) != [] && Strip([b] + file)[0] == b
  {
    StripTrims(file);
    StripTrims(file + [b]);
    StripTrims([b] + file);
    hide White, Strip, Trims, TrimsAt;
    if White(b) {
      TrimsMore(file, Strip(file), b);
      TrimsOnce(file + [b], Strip(file + [b]), Strip(file));
      TrimsOnce([b] + file, Strip([b] + file), Strip(file));
    } else {
      TrimsKeeps(file, Strip(file + [b]), Strip([b] + file), b);
    }
  }

  lemma TrimsMore(file: seq<Byte>, core: seq<Byte>, b: Byte)
    requires Trims(file, core) && White(b)
    ensures Trims(file + [b], core) && Trims([b] + file, core)
  {
    hide White;
    var x: nat, y: nat :| TrimsAt(file, x, y) && core == file[x..y];
    assert TrimsAt(file + [b], x, y) && (file + [b])[x..y] == core;
    var more := [b] + file;
    assert forall i :: 0 < i < |more| ==> more[i] == file[i - 1];
    assert TrimsAt(more, x + 1, y + 1) && more[x + 1..y + 1] == core;
  }

  lemma TrimsKeeps(file: seq<Byte>, right: seq<Byte>, left: seq<Byte>, b: Byte)
    requires Trims(file + [b], right) && Trims([b] + file, left) && !White(b)
    ensures right != [] && right[|right| - 1] == b && left != [] && left[0] == b
  {
    hide White;
    var x: nat, y: nat :| TrimsAt(file + [b], x, y) && right == (file + [b])[x..y];
    assert y == |file| + 1 && (file + [b])[|file|] == b;
    var u: nat, v: nat :| TrimsAt([b] + file, u, v) && left == ([b] + file)[u..v];
    var more := [b] + file;
    assert more[0] == b;
    assert u == 0 && v > 0;
  }

  /** A file as it stands in the blob. */
  function Terminated(file: seq<Byte>): seq<Byte> {
    Strip(file) + [0]
  }

  function Zeros(n: nat): (s: seq<Byte>)
    ensures |s| == n
  {
    seq(n, _ => 0)
  }

  /** What is missing to make the payload and the two CRC bytes a multiple of 32. */
  function Padding(size: nat): (p: nat)
    ensures (size + p + 2) % 32 == 0 && p < 32
  {
    (32 - (size + 2) % 32) % 32
  }

  function BlobHeader(cli: nat, key: nat, ca: nat): (s: seq<Byte>)
    requires BLOB_HEADER + cli + key < WORD && ca < WORD
    ensures |s| == BLOB_HEADER
  {
    Word(BLOB_MAGIC) + Word(BLOB_HEADER) + Word(cli) + Word(BLOB_HEADER + cli) + Word(key)
    + Word(BLOB_HEADER + cli + key) + Word(ca) + Zeros(4)
  }

  /** Header and files, padded; the part the CRC covers. */
  function Body(cli: seq<Byte>, key: seq<Byte>, ca: seq<Byte>): seq<Byte>
    requires BLOB_HEADER + |cli| + |key| < WORD && |ca| < WORD
  {
    BlobHeader(|cli|, |key|, |ca|) + cli + key + ca + Zeros(Padding(BLOB_HEADER + |cli| + |key| + |ca|))
  }

  /** Body and CRC. */
  function Packed(cli: seq<Byte>, key: seq<Byte>, ca: seq<Byte>): seq<Byte>
    requires BLOB_HEADER + |cli| + |key| < WORD && |ca| < WORD
  {
    Body(cli, key, ca) + Half(Crc16(Body(cli, key, ca)))
  }

  /** The blob of three files; empty if one is missing or a field does not fit 32 bits. */
  function CreateBlob(client: Option<seq<Byte>>, clientKey: Option<seq<Byte>>, caFile: Option<seq<Byte>>): seq<Byte> {
    if client.None? || clientKey.None? || caFile.None? then []
    else
      var cli, key, ca := Terminated(client.value), Terminated(clientKey.value), Terminated(caFile.value);
      if BLOB_HEADER + |cli| + |key| >= WORD || |ca| >= WORD then [] else Packed(cli, key, ca)
  }

  // ---------- Loading ----------

  /** A stretch of the mapped partition. */
  datatype Span = Span(offset: nat, length: nat)

  datatype LoadErr = LoadOk | LoadInvalidState | LoadInvalidCrc | LoadOutOfRange

  /** Where the loader expects the CRC, in 32-bit arithmetic. */
  function CrcOffset(image: seq<Byte>): nat
    requires |image| >= BLOB_HEADER
  {
    var unpadded := (WordAt(image, 20) + WordAt(image, 24)) % WORD;
    var total := (unpadded + 2) % WORD;
    (unpadded + (32 - total % 32) % 32) % WORD
  }

  /** The first four bytes of a blob. */
  predicate HasMagic(image: seq<Byte>)
    requires |image| >= 4
  {
    image[0] == 0x54 && image[1] == 0x52 && image[2] == 0x45 && image[3] == 0x43
  }

  lemma MagicDigits()
    ensures Value(0x54) == 0x54 && Value(0x52) == 0x52 && Value(0x45) == 0x45 && Value(0x43) == 0x43
  {
  }

  lemma MagicIs(image: seq<Byte>)
    requires |image| >= 4
    ensures WordAt(image, 0) == BLOB_MAGIC <==> HasMagic(image)
  {
    hide WordAt, Value;
    MagicDigits();
    if WordAt(image, 0) == BLOB_MAGIC {
      WordDetermines(image, 0, 0x54, 0x52, 0x45, 0x43);
    }
    if HasMagic(image) {
      WordOfDigits(image, 0, 0x54, 0x52, 0x45, 0x43);
    }
  }

  /** An image that has a header is refused for its state if and only if it does not start with the magic. */
  lemma MagicIff(image: seq<Byte>)
    ensures |image| < 32 ==> Check(image) == LoadOutOfRange
    ensures |image| >= 32 ==> (Check(image) == LoadInvalidState <==> !HasMagic(image))
  {
    hide WordAt, HalfAt, Crc16, CrcOffset, HasMagic;
    if |image| >= 32 {
      MagicIs(image);
    }
  }

  /** The erased partition of a device that was never provisioned. */
  lemma BlankIsRefused(size: nat)
    requires size >= 32
    ensures Check(Blank(size)) == LoadInvalidState
  {
    hide Check;
    MagicIff(Blank(size));
  }

  /**
   * Everything the loader answers for an image with the magic whose end does not wrap: `at` is the first offset behind
   * the third file from which two bytes reach a multiple of 32.
   */
  lemma LoaderOutcome(image: seq<Byte>, size: nat, at: nat)
    requires |image| >= 32 && HasMagic(image) && size == WordAt(image, 20) + WordAt(image, 24)
    requires size <= at < size + 32 && (at + 2) % 32 == 0 && at + 2 <= WORD
    ensures Check(image) ==
            if at + 2 > |image| then LoadOutOfRange
            else if HalfAt(image, at) != Crc16(image[..at]) then LoadInvalidCrc
            else LoadOk
  {
    hide WordAt, HalfAt, Crc16, CrcOffset, HasMagic;
    MagicIs(image);
    PaddingIsUnique(size, at);
    SameCrcOffset(image, size);
  }

  lemma PaddingIsUnique(size: nat, at: nat)
    requires size <= at < size + 32 && (at + 2) % 32 == 0
    ensures at == size + Padding(size)
  {
    hide Padding;
    SameMultiple(at + 2, size + Padding(size) + 2);
  }

  lemma SameMultiple(a: nat, b: nat)
    requires a % 32 == 0 && b % 32 == 0 && a < b + 32 && b < a + 32
    ensures a == b
  {
  }

  /** The checks of the loader; `LoadOutOfRange` marks a read outside the mapping. */
  function Check(image: seq<Byte>): LoadErr {
    if |image| < BLOB_HEADER then LoadOutOfRange
    else if WordAt(image, 0) != BLOB_MAGIC then LoadInvalidState
    else if CrcOffset(image) + 2 > |image| then LoadOutOfRange
    else if Crc16(image[..CrcOffset(image)]) != HalfAt(image, CrcOffset(image)) then LoadInvalidCrc
    else LoadOk
  }

  /** The part of the configuration that points into the mapped certificates. */
  class Config {
    var isMapped: bool
    var certificate: Span
    var key: Span
    var caCertificate: Span

    constructor ()
      ensures !isMapped
    {
      isMapped := false;
    }

    /** A CRC failure keeps the mapping, so that the next call is refused; a wrong magic gives it back. */
    method LoadMqttCerts(image: seq<Byte>) returns (err: LoadErr)
      modifies this
      ensures err == if old(isMapped) then LoadInvalidState else Check(image)
      ensures err != LoadOk ==>
              certificate == old(certificate) && key == old(key) && caCertificate == old(caCertificate)
      ensures err == LoadOk ==>
                && certificate == Span(WordAt(image, 4), WordAt(image, 8))
                && key == Span(WordAt(image, 12), WordAt(image, 16))
                && caCertificate == Span(WordAt(image, 20), WordAt(image, 24))
      ensures !old(isMapped) && |image| >= 32 && !HasMagic(image) ==> err == LoadInvalidState && !isMapped
      ensures isMapped <==>
              old(isMapped) || Check(image) == LoadOk || Check(image) == LoadInvalidCrc
                  || Check(image) == LoadOutOfRange
    {
      hide WordAt, HalfAt, Crc16;
      MagicIff(image);
      if isMapped {
        return LoadInvalidState;
      }
      isMapped := true;
      if |image| < BLOB_HEADER {
        return LoadOutOfRange;
      }
      if WordAt(image, 0) != BLOB_MAGIC {
        isMapped := false;
        return LoadInvalidState;
      }
      var unpadded := (WordAt(image, 20) + WordAt(image, 24)) % WORD;
      var total := (unpadded + 2) % WORD;
      var padding := (32 - total % 32) % 32;
      var crcOffset := (unpadded + padding) % WORD;
      if crcOffset + 2 > |image| {
        return LoadOutOfRange;
      }
      var calculated := CalculateWithTable(image[..crcOffset]);
      if calculated != HalfAt(image, crcOffset) {
        return LoadInvalidCrc;
      }
      certificate := Span(WordAt(image, 4), WordAt(image, 8));
      key := Span(WordAt(image, 12), WordAt(image, 16));
      caCertificate := Span(WordAt(image, 20), WordAt(image, 24));
      return LoadOk;
    }
  }

  // ---------- Round trip ----------

  lemma HeaderWords(cli: nat, key: nat, ca: nat, rest: seq<Byte>)
    requires BLOB_HEADER + cli + key < WORD && ca < WORD
    ensures var m := BlobHeader(cli, key, ca) + rest;
            && WordAt(m, 0) == BLOB_MAGIC && WordAt(m, 4) == BLOB_HEADER && WordAt(m, 8) == cli
            && WordAt(m, 12) == BLOB_HEADER + cli && WordAt(m, 16) == key
            && WordAt(m, 20) == BLOB_HEADER + cli + key && WordAt(m, 24) == ca
  {
    hide WordAt, Word;
    var m := BlobHeader(cli, key, ca) + rest;
    var w0, w1, w2, w3 := Word(BLOB_MAGIC), Word(BLOB_HEADER), Word(cli), Word(BLOB_HEADER + cli);
    var w4, w5, w6 := Word(key), Word(BLOB_HEADER + cli + key), Word(ca);
    var t := Zeros(4) + rest;
    assert m == [] + w0 + (w1 + w2 + w3 + w4 + w5 + w6 + t);
    WordInside([], w0, w1 + w2 + w3 + w4 + w5 + w6 + t);
    assert m == w0 + w1 + (w2 + w3 + w4 + w5 + w6 + t);
    WordInside(w0, w1, w2 + w3 + w4 + w5 + w6 + t);
    assert m == w0 + w1 + w2 + (w3 + w4 + w5 + w6 + t);
    WordInside(w0 + w1, w2, w3 + w4 + w5 + w6 + t);
    assert m == w0 + w1 + w2 + w3 + (w4 + w5 + w6 + t);
    WordInside(w0 + w1 + w2, w3, w4 + w5 + w6 + t);
    assert m == w0 + w1 + w2 + w3 + w4 + (w5 + w6 + t);
    WordInside(w0 + w1 + w2 + w3, w4, w5 + w6 + t);
    assert m == w0 + w1 + w2 + w3 + w4 + w5 + (w6 + t);
    WordInside(w0 + w1 + w2 + w3 + w4, w5, w6 + t);
    assert m == w0 + w1 + w2 + w3 + w4 + w5 + w6 + t;
    WordInside(w0 + w1 + w2 + w3 + w4 + w5, w6, t);
  }

  /** The loader recomputes the packer's CRC offset. */
  lemma SameCrcOffset(image: seq<Byte>, size: nat)
    requires |image| >= BLOB_HEADER && WordAt(image, 20) + WordAt(image, 24) == size && size + Padding(size) + 2 <= WORD
    ensures CrcOffset(image) == size + Padding(size)
  {
    hide WordAt;
    SameOffset(size);
  }

  /** A word is a multiple of 32 bytes, so wrapping does not change a remainder. */
  lemma WrapKeepsRemainder(x: nat)
    requires x <= WORD
    ensures x % WORD % 32 == x % 32
  {
    if x < WORD {
      assert x % WORD == x;
    } else {
      assert x % WORD == 0 && x % 32 == 0;
    }
  }

  lemma NoWrapBelow(x: nat)
    requires x < WORD
    ensures x % WORD == x
  {
  }

  lemma SameOffset(size: nat)
    requires size + Padding(size) + 2 <= WORD
    ensures size < WORD && (size % WORD + (32 - (size % WORD + 2) % WORD % 32) % 32) % WORD == size + Padding(size)
  {
    NoWrapBelow(size);
    WrapKeepsRemainder(size + 2);
    NoWrapBelow(size + Padding(size));
  }

  lemma BodyLaw(cli: seq<Byte>, key: seq<Byte>, ca: seq<Byte>, rest: seq<Byte>)
    requires BLOB_HEADER + |cli| + |key| < WORD && |ca| < WORD
    ensures var m := Body(cli, key, ca) + rest;
            var size := BLOB_HEADER + |cli| + |key| + |ca|;
            && |Body(cli, key, ca)| == size + Padding(size) && m[..size + Padding(size)] == Body(cli, key, ca)
            && m[BLOB_HEADER..BLOB_HEADER + |cli|] == cli
            && m[BLOB_HEADER + |cli|..BLOB_HEADER + |cli| + |key|] == key
            && m[BLOB_HEADER + |cli| + |key|..size] == ca
  {
    hide BlobHeader;
  }

  /** The blob is empty if a file is missing, and it is made of any files that fit 32 bits together. */
  lemma BlobIsMade(client: Option<seq<Byte>>, clientKey: Option<seq<Byte>>, caFile: Option<seq<Byte>>)
    ensures client.None? || clientKey.None? || caFile.None? ==> CreateBlob(client, clientKey, caFile) == []
    ensures client.Some? && clientKey.Some? && caFile.Some?
            && |client.value| + |clientKey.value| + |caFile.value| + 69 <= 0x1_0000_0000 ==>
              0 < |CreateBlob(client, clientKey, caFile)| <= WORD
  {
    hide Body, Crc16, Half, StripLeft, StripRight, Packed;
    if client.Some? && clientKey.Some? && caFile.Some?
       && |client.value| + |clientKey.value| + |caFile.value| + 69 <= WORD {
      var cli, key, ca := Terminated(client.value), Terminated(clientKey.value), Terminated(caFile.value);
      StripShortens(client.value);
      StripShortens(clientKey.value);
      StripShortens(caFile.value);
      hide Strip;
      PackedSpans(cli, key, ca, []);
      assert Packed(cli, key, ca) + [] == Packed(cli, key, ca);
    }
  }

  lemma StripShortens(file: seq<Byte>)
    ensures |Strip(file)| <= |file|
  {
    hide IsSpace;
  }

  /** `span` is the file without the white space at its ends, and a NUL behind it. */
  ghost predicate Holds(span: seq<Byte>, file: seq<Byte>) {
    span != [] && span[|span| - 1] == 0 && Trims(file, span[..|span| - 1])
  }

  lemma TerminatedHolds(file: seq<Byte>)
    ensures Holds(Terminated(file), file)
  {
    StripTrims(file);
    hide Strip, Trims;
    assert Terminated(file)[..|Terminated(file)| - 1] == Strip(file);
  }

  /** The format of the blob: seven words and four zero bytes, the three files back to back, zeros, the CRC. */
  ghost predicate Formed(blob: seq<Byte>) {
    && |blob| >= 34 && |blob| % 32 == 0 && HasMagic(blob)
    && WordAt(blob, 4) == 32 && WordAt(blob, 12) == 32 + WordAt(blob, 8)
    && WordAt(blob, 20) == WordAt(blob, 12) + WordAt(blob, 16)
    && (forall i :: 28 <= i < 32 ==> blob[i] == 0)
    && var size := WordAt(blob, 20) + WordAt(blob, 24);
       && size + 2 <= |blob| < size + 34 && (forall i :: size <= i < |blob| - 2 ==> blob[i] == 0)
       && HalfAt(blob, |blob| - 2) == Crc16(blob[..|blob| - 2])
  }

  /**
   * Round trip: for any three files, and whatever follows the blob in the partition, the loader accepts the
   * blob, and the three spans it stores hold the files without the white space at their ends and with a NUL behind
   * each. The blob must fit the 32-bit address space.
   */
  lemma BlobLoads(client: seq<Byte>, clientKey: seq<Byte>, caFile: seq<Byte>, rest: seq<Byte>)
    requires CreateBlob(Some(client), Some(clientKey), Some(caFile)) != []
    requires |CreateBlob(Some(client), Some(clientKey), Some(caFile))| <= WORD
    ensures var blob := CreateBlob(Some(client), Some(clientKey), Some(caFile));
            var m := blob + rest;
            && Formed(blob) && |m| >= 32 && Check(m) == LoadOk
            && WordAt(m, 4) + WordAt(m, 8) <= |m| && Holds(m[WordAt(m, 4)..WordAt(m, 4) + WordAt(m, 8)], client)
            && WordAt(m, 12) + WordAt(m, 16) <= |m|
            && Holds(m[WordAt(m, 12)..WordAt(m, 12) + WordAt(m, 16)], clientKey)
            && WordAt(m, 20) + WordAt(m, 24) <= |m|
            && Holds(m[WordAt(m, 20)..WordAt(m, 20) + WordAt(m, 24)], caFile)
  {
    hide *;
    HeaderIs32();
    BlobIs(client, clientKey, caFile);
    var cli, key, ca := Terminated(client), Terminated(clientKey), Terminated(caFile);
    PackedLoads(cli, key, ca, rest);
    TerminatedHolds(client);
    TerminatedHolds(clientKey);
    TerminatedHolds(caFile);
    PackedForm(cli, key, ca);
  }

  lemma HeaderIs32()
    ensures BLOB_HEADER == 32
  {
  }

  lemma HeaderZeros(cli: nat, key: nat, ca: nat, rest: seq<Byte>)
    requires BLOB_HEADER + cli + key < WORD && ca < WORD
    ensures forall i :: 28 <= i < 32 ==> (BlobHeader(cli, key, ca) + rest)[i] == 0
  {
    hide Word, WordAt;
  }

  lemma BodyZeros(cli: seq<Byte>, key: seq<Byte>, ca: seq<Byte>)
    requires BLOB_HEADER + |cli| + |key| < WORD && |ca| < WORD
    ensures var size := BLOB_HEADER + |cli| + |key| + |ca|;
            && |Body(cli, key, ca)| == size + Padding(size)
            && forall i :: size <= i < |Body(cli, key, ca)| ==> Body(cli, key, ca)[i] == 0
  {
    hide BlobHeader, Padding;
  }

  lemma FormedFrom(blob: seq<Byte>, body: seq<Byte>, size: nat)
    requires |blob| == |body| + 2 && blob[..|body|] == body && |body| == size + Padding(size) && size >= 32
    requires WordAt(blob, 0) == BLOB_MAGIC && WordAt(blob, 4) == 32 && WordAt(blob, 12) == 32 + WordAt(blob, 8)
    requires WordAt(blob, 20) == WordAt(blob, 12) + WordAt(blob, 16) && size == WordAt(blob, 20) + WordAt(blob, 24)
    requires forall i :: 28 <= i < 32 ==> blob[i] == 0
    requires forall i :: size <= i < |body| ==> body[i] == 0
    requires HalfAt(blob, |body|) == Crc16(body)
    ensures Formed(blob)
  {
    hide WordAt, HalfAt, Crc16, HasMagic, Padding, Formed;
    MagicIs(blob);
    forall i | size <= i < |blob| - 2
      ensures blob[i] == 0
    {
      assert blob[i] == blob[..|body|][i];
    }
    var pad := Padding(size);
    assert |blob| == size + pad + 2 && pad < 32;
    FormedIs(blob, size);
  }

  lemma FormedIs(blob: seq<Byte>, size: nat)
    requires |blob| >= 34 && |blob| % 32 == 0 && HasMagic(blob)
    requires WordAt(blob, 4) == 32 && WordAt(blob, 12) == 32 + WordAt(blob, 8)
    requires WordAt(blob, 20) == WordAt(blob, 12) + WordAt(blob, 16) && size == WordAt(blob, 20) + WordAt(blob, 24)
    requires forall i :: 28 <= i < 32 ==> blob[i] == 0
    requires size + 2 <= |blob| < size + 34 && forall i :: size <= i < |blob| - 2 ==> blob[i] == 0
    requires HalfAt(blob, |blob| - 2) == Crc16(blob[..|blob| - 2])
    ensures Formed(blob)
  {
    hide WordAt, HalfAt, Crc16, HasMagic;
  }

  lemma PackedForm(cli: seq<Byte>, key: seq<Byte>, ca: seq<Byte>)
    requires BLOB_HEADER + |cli| + |key| < WORD && |ca| < WORD
    ensures Formed(Packed(cli, key, ca))
  {
    hide WordAt, HalfAt, Half, Crc16, Body, BlobHeader, Padding, Formed;
    var blob, body, size := Packed(cli, key, ca), Body(cli, key, ca), BLOB_HEADER + |cli| + |key| + |ca|;
    assert blob + [] == blob;
    PackedHeader(cli, key, ca, []);
    PackedSpans(cli, key, ca, []);
    BodyZeros(cli, key, ca);
    PackedIsHeader(cli, key, ca);
    FormedFrom(blob, body, size);
  }

  lemma PackedIsHeader(cli: seq<Byte>, key: seq<Byte>, ca: seq<Byte>)
    requires BLOB_HEADER + |cli| + |key| < WORD && |ca| < WORD
    ensures |Packed(cli, key, ca)| >= 32 && forall i :: 28 <= i < 32 ==> Packed(cli, key, ca)[i] == 0
  {
    hide Half, Crc16, BlobHeader;
    var t := cli + key + ca + Zeros(Padding(BLOB_HEADER + |cli| + |key| + |ca|)) + Half(Crc16(Body(cli, key, ca)));
    HeaderZeros(|cli|, |key|, |ca|, t);
    assert Packed(cli, key, ca) == BlobHeader(|cli|, |key|, |ca|) + t;
  }

  lemma BlobIs(client: seq<Byte>, clientKey: seq<Byte>, caFile: seq<Byte>)
    requires CreateBlob(Some(client), Some(clientKey), Some(caFile)) != []
    ensures var cli, key, ca := Terminated(client), Terminated(clientKey), Terminated(caFile);
            && BLOB_HEADER + |cli| + |key| < WORD && |ca| < WORD
            && CreateBlob(Some(client), Some(clientKey), Some(caFile)) == Packed(cli, key, ca)
  {
    hide Strip, Body, Crc16, Half;
  }

  lemma PackedHeader(cli: seq<Byte>, key: seq<Byte>, ca: seq<Byte>, rest: seq<Byte>)
    requires BLOB_HEADER + |cli| + |key| < WORD && |ca| < WORD
    ensures var m := Packed(cli, key, ca) + rest;
            && |m| >= BLOB_HEADER && WordAt(m, 0) == BLOB_MAGIC && WordAt(m, 4) == BLOB_HEADER && WordAt(m, 8) == |cli|
            && WordAt(m, 12) == BLOB_HEADER + |cli| && WordAt(m, 16) == |key|
            && WordAt(m, 20) == BLOB_HEADER + |cli| + |key| && WordAt(m, 24) == |ca|
  {
    hide WordAt, Half, Crc16, BlobHeader;
    var t := cli + key + ca + Zeros(Padding(BLOB_HEADER + |cli| + |key| + |ca|)) + Half(Crc16(Body(cli, key, ca)))
        + rest;
    HeaderWords(|cli|, |key|, |ca|, t);
    assert Packed(cli, key, ca) + rest == BlobHeader(|cli|, |key|, |ca|) + t;
  }

  lemma PackedSpans(cli: seq<Byte>, key: seq<Byte>, ca: seq<Byte>, rest: seq<Byte>)
    requires BLOB_HEADER + |cli| + |key| < WORD && |ca| < WORD
    ensures var m, size, body := Packed(cli, key, ca) + rest, BLOB_HEADER + |cli| + |key| + |ca|, Body(cli, key, ca);
            && |body| == size + Padding(size) && |m| >= |body| + 2 && m[..|body|] == body
               && HalfAt(m, |body|) == Crc16(body)
            && |Packed(cli, key, ca)| == |body| + 2
            && m[BLOB_HEADER..BLOB_HEADER + |cli|] == cli
            && m[BLOB_HEADER + |cli|..BLOB_HEADER + |cli| + |key|] == key
            && m[BLOB_HEADER + |cli| + |key|..size] == ca
  {
    hide HalfAt, Half, Crc16, Body;
    var body := Body(cli, key, ca);
    var crc := Half(Crc16(body));
    BodyLaw(cli, key, ca, crc + rest);
    assert Packed(cli, key, ca) + rest == body + (crc + rest);
    HalfInside(body, crc, rest);
    assert Packed(cli, key, ca) + rest == body + crc + rest;
  }

  lemma PackedLoads(cli: seq<Byte>, key: seq<Byte>, ca: seq<Byte>, rest: seq<Byte>)
    requires BLOB_HEADER + |cli| + |key| < WORD && |ca| < WORD && |Packed(cli, key, ca)| <= WORD
    ensures var m := Packed(cli, key, ca) + rest;
            && |Packed(cli, key, ca)| % 32 == 0 && |m| >= BLOB_HEADER && Check(m) == LoadOk
            && WordAt(m, 4) + WordAt(m, 8) <= WordAt(m, 12) && WordAt(m, 12) + WordAt(m, 16) <= WordAt(m, 20)
            && WordAt(m, 20) + WordAt(m, 24) <= |Packed(cli, key, ca)|
            && m[WordAt(m, 4)..WordAt(m, 4) + WordAt(m, 8)] == cli
            && m[WordAt(m, 12)..WordAt(m, 12) + WordAt(m, 16)] == key
            && m[WordAt(m, 20)..WordAt(m, 20) + WordAt(m, 24)] == ca
  {
    hide WordAt, HalfAt, Crc16, Packed, Body, CrcOffset;
    var m, size := Packed(cli, key, ca) + rest, BLOB_HEADER + |cli| + |key| + |ca|;
    PackedHeader(cli, key, ca, rest);
    PackedSpans(cli, key, ca, rest);
    SameCrcOffset(m, size);
  }

  /**
   * One wrong byte, or two neighbouring wrong bytes, anywhere in front of the CRC of a loadable image are
   * always refused, as long as the three header words the loader computes with are intact.
   */
  lemma CorruptBlobRefused(image: seq<Byte>, image': seq<Byte>, i: nat)
    requires Check(image) == LoadOk && DifferAt(image, image', i) && image != image' && |image| >= BLOB_HEADER
    requires i + 1 < CrcOffset(image)
    requires forall k :: 0 <= k < 4 || 20 <= k < 28 ==> image'[k] == image[k]
    ensures Check(image') == LoadInvalidCrc
  {
    hide WordAt, HalfAt, Crc16;
    SameWord(image, image', 0);
    SameWord(image, image', 20);
    SameWord(image, image', 24);
    var at := CrcOffset(image);
    SameHalf(image, image', at);
    var k :| 0 <= k < |image| && image[k] != image'[k];
    assert image[..at][k] != image'[..at][k];
    CoveredBurst(image[..at], image'[..at], i);
  }
}
