/**
 packages/security/src/image-dimensions.ts: magic-byte sniffing and header parsing. The JPEG walk is
 compared with the grammar it accepts (a restriction of ITU-T T.81 section B.2 that has no fill
 bytes); the PNG and WebP fields, computed in 32-bit integer arithmetic, with the numbers the
 formats store (ISO/IEC 15948 section 11.2.2, RFC 9649 section 2, RFC 6386 section 9.1).
 */
module ImageDimensions {
  import opened Results
  import opened JsStrings
  import opened Int32
  import Collections

  type Bytes = seq<Byte>

  datatype Format = Jpeg | Png | Webp

  datatype Dimensions = Dimensions(width: int, height: int)

  const PNG_SIGNATURE: Bytes := [0x89, 0x50, 0x4E, 0x47, 0x0D, 0x0A, 0x1A, 0x0A]
  const IHDR: Bytes := [0x49, 0x48, 0x44, 0x52]
  const RIFF: Bytes := [0x52, 0x49, 0x46, 0x46]
  const WEBP: Bytes := [0x57, 0x45, 0x42, 0x50]
  const VP8: Bytes := [0x56, 0x50, 0x38]

  /** The bytes of `tag` stand at offset `off`. */
  predicate TagAt(buf: Bytes, off: nat, tag: Bytes) {
    off + |tag| <= |buf| && buf[off..off + |tag|] == tag
  }

  function SniffFormat(buf: Bytes): Option<Format> {
    if TagAt(buf, 0, PNG_SIGNATURE) then Some(Png)
    else if TagAt(buf, 0, [0xFF, 0xD8, 0xFF]) then Some(Jpeg)
    else if TagAt(buf, 0, RIFF) && TagAt(buf, 8, WEBP) then Some(Webp)
    else None
  }

  // ----- Readers, as the source computes them -----

  function ReadU16BE(buf: Bytes, off: nat): Option<int> {
    if off + 1 >= |buf| then None
    else Some(Or(ShiftLeft(buf[off] as int, 8), buf[off + 1] as int))
  }

  function ReadU32BE(buf: Bytes, off: nat): Option<int> {
    if off + 3 >= |buf| then None
    else Some(BigWord(buf[off] as int, buf[off + 1] as int, buf[off + 2] as int, buf[off + 3] as int))
  }

  function BigWord(b0: int, b1: int, b2: int, b3: int): int {
    ToUint32(Or(Or(b0 * 0x100_0000 + ShiftLeft(b1, 16), ShiftLeft(b2, 8)), b3))
  }

  function ReadU24LE(buf: Bytes, off: nat): Option<int> {
    if off + 2 >= |buf| then None
    else Some(Or(Or(buf[off] as int, ShiftLeft(buf[off + 1] as int, 8)), ShiftLeft(buf[off + 2] as int, 16)))
  }

  function Packed(b0: int, b1: int, b2: int, b3: int): int {
    Or(Or(Or(b0, ShiftLeft(b1, 8)), ShiftLeft(b2, 16)), ShiftLeft(b3, 24))
  }

  /** A dimension pair is refused when either side is missing or zero. */
  function NonZero(width: Option<int>, height: Option<int>): Option<Dimensions> {
    if width.None? || height.None? || width.value == 0 || height.value == 0 then None
    else Some(Dimensions(width.value, height.value))
  }

  function ParsePng(buf: Bytes): Option<Dimensions> {
    if |buf| < 24 || !TagAt(buf, 12, IHDR) then None
    else NonZero(ReadU32BE(buf, 16), ReadU32BE(buf, 20))
  }

  /** Lossy: 14-bit width and height in the key-frame header. */
  function ParseVp8(buf: Bytes): Option<Dimensions> {
    if |buf| < 30 then None
    else NonZero(Some(Low14(buf[26] as int, buf[27] as int)), Some(Low14(buf[28] as int, buf[29] as int)))
  }

  function Low14(b0: int, b1: int): int {
    And(Or(b0, ShiftLeft(b1, 8)), 0x3FFF)
  }

  /** Lossless: a signature byte, then two 14-bit fields packed into one word. */
  function ParseVp8l(buf: Bytes): Option<Dimensions> {
    if |buf| < 25 || buf[20] != 0x2F then None
    else Some(SplitPacked(Packed(buf[21] as int, buf[22] as int, buf[23] as int, buf[24] as int)))
  }

  function SplitPacked(packed: int): Dimensions {
    Dimensions(And(packed, 0x3FFF) + 1, And(ShiftRight(packed, 14), 0x3FFF) + 1)
  }

  /** Extended: the canvas size minus one, 24 bits each. */
  function ParseVp8x(buf: Bytes): Option<Dimensions> {
    var w, h := ReadU24LE(buf, 24), ReadU24LE(buf, 27);
    if w.None? || h.None? then None else Some(Dimensions(w.value + 1, h.value + 1))
  }

  function ParseWebp(buf: Bytes): Option<Dimensions> {
    if |buf| < 16 then None
    else if TagAt(buf, 12, VP8 + [0x20]) then ParseVp8(buf)
    else if TagAt(buf, 12, VP8 + [0x4C]) then ParseVp8l(buf)
    else if TagAt(buf, 12, VP8 + [0x58]) then ParseVp8x(buf)
    else None
  }

  // ----- The numbers the formats store -----

  function BE16(b0: Byte, b1: Byte): int { 0x100 * b0 as int + b1 as int }

  function BE32(b0: Byte, b1: Byte, b2: Byte, b3: Byte): int {
    0x100_0000 * b0 as int + 0x1_0000 * b1 as int + 0x100 * b2 as int + b3 as int
  }

  function LE16(b0: Byte, b1: Byte): int { b0 as int + 0x100 * b1 as int }

  function LE24(b0: Byte, b1: Byte, b2: Byte): int {
    b0 as int + 0x100 * b1 as int + 0x1_0000 * b2 as int
  }

  function LE32(b0: Byte, b1: Byte, b2: Byte, b3: Byte): int {
    b0 as int + 0x100 * b1 as int + 0x1_0000 * b2 as int + 0x100_0000 * b3 as int
  }

  lemma U16Value(buf: Bytes, off: nat)
    requires off + 1 < |buf|
    ensures ReadU16BE(buf, off) == Some(BE16(buf[off], buf[off + 1]))
  {
    Pow2Values();
    var b0, b1 := buf[off] as int, buf[off + 1] as int;
    ShiftedByte(b0, 8, 0x100);
    OrAdds(ShiftLeft(b0, 8), b0, b1, 8, 0x100);
  }

  lemma U32Value(buf: Bytes, off: nat)
    requires off + 3 < |buf|
    ensures ReadU32BE(buf, off) == Some(BE32(buf[off], buf[off + 1], buf[off + 2], buf[off + 3]))
  {
    BytesWord(buf[off], buf[off + 1], buf[off + 2], buf[off + 3]);
  }

  lemma BytesWord(b0: Byte, b1: Byte, b2: Byte, b3: Byte)
    ensures BigWord(b0 as int, b1 as int, b2 as int, b3 as int) == BE32(b0, b1, b2, b3)
  {
    Word32(b0 as int, b1 as int, b2 as int, b3 as int);
  }

  /** The multiplied, shifted and or-ed bytes make the unsigned word, also when the first byte is 0x80 or more. */
  lemma Word32(b0: int, b1: int, b2: int, b3: int)
    requires 0 <= b0 < 0x100 && 0 <= b1 < 0x100 && 0 <= b2 < 0x100 && 0 <= b3 < 0x100
    ensures BigWord(b0, b1, b2, b3)
         == 0x100_0000 * b0 + 0x1_0000 * b1 + 0x100 * b2 + b3
  {
    ShiftedBytes(b1, b2);
    WordOfParts(b0, b1, b2, b3, b0 * 0x100_0000 + ShiftLeft(b1, 16), ShiftLeft(b2, 8));
  }

  lemma WordOfParts(b0: int, b1: int, b2: int, b3: int, top: int, middle: int)
    requires 0 <= b0 < 0x100 && 0 <= b1 < 0x100 && 0 <= b2 < 0x100 && 0 <= b3 < 0x100
    requires top == b0 * 0x100_0000 + b1 * 0x1_0000 && middle == b2 * 0x100
    ensures ToUint32(Or(Or(top, middle), b3)) == 0x100_0000 * b0 + 0x1_0000 * b1 + 0x100 * b2 + b3
  {
    OrTwoLow(top, b0 * 0x100 + b1, middle, b2, b3);
  }

  lemma ShiftedBytes(b1: int, b2: int)
    requires 0 <= b1 < 0x100 && 0 <= b2 < 0x100
    ensures ShiftLeft(b1, 16) == b1 * 0x1_0000 && ShiftLeft(b2, 8) == b2 * 0x100
  {
    Pow2Values();
    ShiftedByte(b1, 16, 0x1_0000);
    ShiftedByte(b2, 8, 0x100);
  }

  lemma OrTwoLow(top: int, high: int, middle: int, b2: int, b3: int)
    requires 0 <= high < 0x1_0000 && top == high * 0x1_0000 && 0 <= b2 < 0x100 && 0 <= b3 < 0x100
    requires middle == b2 * 0x100
    ensures ToUint32(Or(Or(top, middle), b3)) == top + middle + b3
  {
    OrAddsHalf(top, high, middle);
    OrAddsByte(Or(top, middle), high * 0x100 + b2, b3);
  }

  lemma U24Value(buf: Bytes, off: nat)
    requires off + 2 < |buf|
    ensures ReadU24LE(buf, off) == Some(LE24(buf[off], buf[off + 1], buf[off + 2]))
  {
    Word24(buf[off] as int, buf[off + 1] as int, buf[off + 2] as int);
  }

  lemma Word24(b0: int, b1: int, b2: int)
    requires 0 <= b0 < 0x100 && 0 <= b1 < 0x100 && 0 <= b2 < 0x100
    ensures Or(Or(b0, ShiftLeft(b1, 8)), ShiftLeft(b2, 16)) == b0 + 0x100 * b1 + 0x1_0000 * b2
  {
    Word16(b0, b1);
    AddByte2(Or(b0, ShiftLeft(b1, 8)), b2);
  }

  lemma AddByte2(low: int, b2: int)
    requires 0 <= low < 0x1_0000 && 0 <= b2 < 0x100
    ensures Or(low, ShiftLeft(b2, 16)) == low + 0x1_0000 * b2
  {
    Pow2Values();
    ShiftedByte(b2, 16, 0x1_0000);
    SmallUnsigned(low);
    OrAddsHigh(low, b2 * 0x1_0000, b2, low, 16, 0x1_0000);
    FromUnsigned(Or(low, b2 * 0x1_0000), low + 0x1_0000 * b2);
  }

  lemma Word16(b0: int, b1: int)
    requires 0 <= b0 < 0x100 && 0 <= b1 < 0x100
    ensures Or(b0, ShiftLeft(b1, 8)) == b0 + 0x100 * b1
  {
    Pow2Values();
    ShiftedByte(b1, 8, 0x100);
    OrAddsHigh(b0, b1 * 0x100, b1, b0, 8, 0x100);
  }

  /** The packed VP8L word is the little-endian number, taken as a signed integer. */
  lemma PackedWord(b0: int, b1: int, b2: int, b3: int)
    requires 0 <= b0 < 0x100 && 0 <= b1 < 0x100 && 0 <= b2 < 0x100 && 0 <= b3 < 0x100
    ensures ToUint32(Packed(b0, b1, b2, b3)) == b0 + 0x100 * b1 + 0x1_0000 * b2 + 0x100_0000 * b3
  {
    Pow2Values();
    Word24(b0, b1, b2);
    ShiftedByte(b3, 24, 0x100_0000);
    var low := b0 + 0x100 * b1 + 0x1_0000 * b2;
    OrAddsHigh(low, ShiftLeft(b3, 24), b3, low, 24, 0x100_0000);
  }

  /** Shifting a negative word right and masking gives the same bits as shifting the unsigned word. */
  lemma ShiftedField(word: int)
    requires -TWO_31 <= word < TWO_31
    ensures And(ShiftRight(word, 14), 0x3FFF) == ToUint32(word) / 0x4000 % 0x4000
  {
    ShiftRight14(word);
    MaskQuotient(word / 0x4000);
    SignedQuotient(word);
  }

  lemma ShiftRight14(word: int)
    requires -TWO_31 <= word < TWO_31
    ensures ShiftRight(word, 14) == word / 0x4000
  {
    Pow2Values();
    assert ToInt32(word) == word;
  }

  lemma MaskQuotient(q: int)
    ensures And(q, 0x3FFF) == ToUint32(q) % 0x4000
  {
    Pow2Values();
    AndUnsigned(q, 0x3FFF, 14, 0x4000);
  }

  lemma SignedQuotient(word: int)
    requires -TWO_31 <= word < TWO_31
    ensures ToUint32(word / 0x4000) % 0x4000 == ToUint32(word) / 0x4000 % 0x4000
  {
    var u: int := ToUint32(word);
    assert word / 0x4000 == if word < 0 then u / 0x4000 - 0x4_0000 else u / 0x4000;
  }

  // ----- PNG and WebP fields -----

  /** Four given bytes stand at `off`. */
  predicate FourAt(buf: Bytes, off: nat, b0: Byte, b1: Byte, b2: Byte, b3: Byte) {
    off + 4 <= |buf| && buf[off] == b0 && buf[off + 1] == b1 && buf[off + 2] == b2 && buf[off + 3] == b3
  }

  lemma TagOfFour(buf: Bytes, off: nat, tag: Bytes)
    requires |tag| == 4
    ensures TagAt(buf, off, tag) <==> FourAt(buf, off, tag[0], tag[1], tag[2], tag[3])
  {
    if off + 4 <= |buf| {
      var part := buf[off..off + 4];
      assert part == [buf[off], buf[off + 1], buf[off + 2], buf[off + 3]];
      assert tag == [tag[0], tag[1], tag[2], tag[3]];
    }
  }

  /** Each format is told by its magic bytes and by nothing else. */
  lemma SniffExact(buf: Bytes)
    ensures SniffFormat(buf) == Some(Png)
       <==> FourAt(buf, 0, 0x89, 0x50, 0x4E, 0x47) && FourAt(buf, 4, 0x0D, 0x0A, 0x1A, 0x0A)
    ensures SniffFormat(buf) == Some(Jpeg) <==> |buf| >= 3 && buf[0] == 0xFF && buf[1] == 0xD8 && buf[2] == 0xFF
    ensures SniffFormat(buf) == Some(Webp)
       <==> FourAt(buf, 0, 0x52, 0x49, 0x46, 0x46) && FourAt(buf, 8, 0x57, 0x45, 0x42, 0x50)
  {
    PngMagic(buf);
    JpegMagic(buf);
    TagOfFour(buf, 0, RIFF);
    TagOfFour(buf, 8, WEBP);
  }

  lemma PngMagic(buf: Bytes)
    ensures TagAt(buf, 0, PNG_SIGNATURE)
       <==> FourAt(buf, 0, 0x89, 0x50, 0x4E, 0x47) && FourAt(buf, 4, 0x0D, 0x0A, 0x1A, 0x0A)
  {
    if |buf| >= 8 {
      assert buf[0..8] == buf[0..4] + buf[4..8];
      assert PNG_SIGNATURE == PNG_SIGNATURE[..4] + PNG_SIGNATURE[4..];
      TagOfFour(buf, 0, PNG_SIGNATURE[..4]);
      TagOfFour(buf, 4, PNG_SIGNATURE[4..]);
    }
  }

  lemma JpegMagic(buf: Bytes)
    ensures TagAt(buf, 0, [0xFF, 0xD8, 0xFF]) <==> |buf| >= 3 && buf[0] == 0xFF && buf[1] == 0xD8 && buf[2] == 0xFF
  {
    if |buf| >= 3 {
      assert buf[0..3] == [buf[0], buf[1], buf[2]];
    }
  }

  /** The four characters at offset 12 decide which WebP header is read, and no other has dimensions. */
  lemma WebpExact(buf: Bytes)
    ensures ParseWebp(buf)
         == if FourAt(buf, 12, 0x56, 0x50, 0x38, 0x20) then ParseVp8(buf)
            else if FourAt(buf, 12, 0x56, 0x50, 0x38, 0x4C) then ParseVp8l(buf)
            else if FourAt(buf, 12, 0x56, 0x50, 0x38, 0x58) then ParseVp8x(buf)
            else None
  {
    TagOfFour(buf, 12, VP8 + [0x20]);
    TagOfFour(buf, 12, VP8 + [0x4C]);
    TagOfFour(buf, 12, VP8 + [0x58]);
  }

  /** A PNG header gives exactly the two stored words, when neither is zero. */
  lemma PngExact(buf: Bytes, d: Dimensions)
    ensures ParsePng(buf) == Some(d)
       <==> |buf| >= 24 && FourAt(buf, 12, 0x49, 0x48, 0x44, 0x52) && d.width != 0 && d.height != 0
            && d.width == BE32(buf[16], buf[17], buf[18], buf[19])
            && d.height == BE32(buf[20], buf[21], buf[22], buf[23])
  {
    TagOfFour(buf, 12, IHDR);
    if |buf| >= 24 {
      U32Value(buf, 16);
      U32Value(buf, 20);
    }
  }

  /** A lossy header gives the low 14 bits of the two stored words, when neither is zero. */
  lemma Vp8Exact(buf: Bytes, d: Dimensions)
    ensures ParseVp8(buf) == Some(d)
       <==> |buf| >= 30 && d.width != 0 && d.height != 0
            && d.width == LE16(buf[26], buf[27]) % 0x4000 && d.height == LE16(buf[28], buf[29]) % 0x4000
  {
    if |buf| >= 30 {
      Vp8Fields(buf);
    }
  }

  lemma Vp8Fields(buf: Bytes)
    requires |buf| >= 30
    ensures ParseVp8(buf) == NonZero(Some(LE16(buf[26], buf[27]) % 0x4000), Some(LE16(buf[28], buf[29]) % 0x4000))
  {
    Low14Value(buf[26], buf[27]);
    Low14Value(buf[28], buf[29]);
  }

  lemma Low14Value(b0: Byte, b1: Byte)
    ensures Low14(b0 as int, b1 as int) == LE16(b0, b1) % 0x4000
  {
    var n := LE16(b0, b1);
    Word16(b0 as int, b1 as int);
    MaskQuotient(n);
    assert ToUint32(n) == n;
  }

  /** A lossless header gives the two adjacent 14-bit fields of the stored word, each plus one. */
  lemma Vp8lExact(buf: Bytes, d: Dimensions)
    ensures ParseVp8l(buf) == Some(d)
       <==> |buf| >= 25 && buf[20] == 0x2F
            && d.width == LE32(buf[21], buf[22], buf[23], buf[24]) % 0x4000 + 1
            && d.height == LE32(buf[21], buf[22], buf[23], buf[24]) / 0x4000 % 0x4000 + 1
  {
    if |buf| >= 25 {
      Vp8lFields(buf, LE32(buf[21], buf[22], buf[23], buf[24]));
    }
  }

  lemma Vp8lFields(buf: Bytes, word: int)
    requires |buf| >= 25 && word == LE32(buf[21], buf[22], buf[23], buf[24])
    ensures ParseVp8l(buf)
         == if buf[20] == 0x2F then Some(Dimensions(word % 0x4000 + 1, word / 0x4000 % 0x4000 + 1)) else None
  {
    var packed := Packed(buf[21] as int, buf[22] as int, buf[23] as int, buf[24] as int);
    PackedWord(buf[21] as int, buf[22] as int, buf[23] as int, buf[24] as int);
    SplitValue(packed, word);
  }

  lemma SplitValue(packed: int, w: int)
    requires -TWO_31 <= packed < TWO_31 && ToUint32(packed) == w
    ensures SplitPacked(packed) == Dimensions(w % 0x4000 + 1, w / 0x4000 % 0x4000 + 1)
  {
    SplitWord(packed);
  }

  lemma SplitWord(packed: int)
    requires -TWO_31 <= packed < TWO_31
    ensures SplitPacked(packed)
         == Dimensions(ToUint32(packed) % 0x4000 + 1, ToUint32(packed) / 0x4000 % 0x4000 + 1)
  {
    MaskQuotient(packed);
    ShiftedField(packed);
  }

  /** An extended header gives the two stored 24-bit numbers, each plus one. */
  lemma Vp8xExact(buf: Bytes, d: Dimensions)
    ensures ParseVp8x(buf) == Some(d)
       <==> |buf| >= 30
            && d.width == LE24(buf[24], buf[25], buf[26]) + 1 && d.height == LE24(buf[27], buf[28], buf[29]) + 1
  {
    if |buf| >= 30 {
      U24Value(buf, 24);
      U24Value(buf, 27);
    }
  }

  // ----- Printing headers -----

  function U16(n: int): Bytes
    requires 0 <= n < 0x1_0000
  {
    [(n / 0x100) as Byte, (n % 0x100) as Byte]
  }

  function U32(n: int): Bytes
    requires 0 <= n < TWO_32
  {
    [(n / 0x100_0000) as Byte, (n / 0x1_0000 % 0x100) as Byte, (n / 0x100 % 0x100) as Byte, (n % 0x100) as Byte]
  }

  function L16(n: int): Bytes
    requires 0 <= n < 0x1_0000
  {
    [(n % 0x100) as Byte, (n / 0x100) as Byte]
  }

  function L24(n: int): Bytes
    requires 0 <= n < 0x100_0000
  {
    [(n % 0x100) as Byte, (n / 0x100 % 0x100) as Byte, (n / 0x1_0000) as Byte]
  }

  function L32(n: int): Bytes
    requires 0 <= n < TWO_32
  {
    [(n % 0x100) as Byte, (n / 0x100 % 0x100) as Byte, (n / 0x1_0000 % 0x100) as Byte, (n / 0x100_0000) as Byte]
  }

  function ParseDimensions(format: Format, buf: Bytes): Option<Dimensions> {
    match format
    case Png => ParsePng(buf)
    case Jpeg => ParseJpegSpec(buf)
    case Webp => ParseWebp(buf)
  }

  /** Sniff, then parse what was sniffed. */
  function Inspect(buf: Bytes): Option<(Format, Dimensions)> {
    var format :- SniffFormat(buf);
    var d :- ParseDimensions(format, buf);
    Some((format, d))
  }

  // ----- The JPEG marker walk -----

  predicate Standalone(marker: Byte) {
    marker == 0xD8 || marker == 0xD9 || marker == 0x01 || 0xD0 <= marker <= 0xD7
  }

  predicate StartsFrame(marker: Byte) {
    marker in {0xC0, 0xC1, 0xC2, 0xC3, 0xC5, 0xC6, 0xC7, 0xC9, 0xCA, 0xCB, 0xCD, 0xCE, 0xCF}
  }

  /** The walk over what is left of the buffer at a marker. */
  function Walk(t: Bytes): Option<Dimensions>
    decreases |t|
  {
    if |t| < 2 || t[0] != 0xFF then None
    else if Standalone(t[1]) then Walk(t[2..])
    else
      var segLen := ReadU16BE(t, 2);
      if segLen.None? || segLen.value < 2 then None
      else if StartsFrame(t[1]) then NonZero(ReadU16BE(t, 7), ReadU16BE(t, 5))
      else if 2 + segLen.value > |t| then None
      else Walk(t[2 + segLen.value..])
  }

  function ParseJpegSpec(buf: Bytes): Option<Dimensions> {
    if |buf| < 2 then None else Walk(buf[2..])
  }

  lemma ReadShifted(buf: Bytes, off: nat, k: nat)
    requires off <= |buf|
    ensures ReadU16BE(buf[off..], k) == ReadU16BE(buf, off + k)
  {
  }

  method ParseJpeg(buf: Bytes) returns (r: Option<Dimensions>)
    ensures r == ParseJpegSpec(buf)
  {
    var off := 2;
    while off + 1 < |buf|
      invariant off >= 2
      invariant ParseJpegSpec(buf) == if off <= |buf| then Walk(buf[off..]) else None
      decreases |buf| - off
    {
      var t := buf[off..];
      if buf[off] != 0xFF {
        return None;
      }
      var marker := buf[off + 1];
      if Standalone(marker) {
        assert t[2..] == buf[off + 2..];
        off := off + 2;
        continue;
      }
      ReadShifted(buf, off, 2);
      ReadShifted(buf, off, 5);
      ReadShifted(buf, off, 7);
      var segLen := ReadU16BE(buf, off + 2);
      if segLen.None? || segLen.value < 2 {
        return None;
      }
      if StartsFrame(marker) {
        var height := ReadU16BE(buf, off + 5);
        var width := ReadU16BE(buf, off + 7);
        return NonZero(width, height);
      }
      assert 2 + segLen.value <= |t| ==> t[2 + segLen.value..] == buf[off + 2 + segLen.value..];
      off := off + 2 + segLen.value;
    }
    r := None;
  }

  // ----- The grammar the walk accepts -----

  /** A marker without a body, or a marker with a length-prefixed body that is not a frame header. */
  datatype Segment = Bare(marker: Byte) | Block(marker: Byte, payload: Bytes)

  /** The frame header up to the width; `segLen` is the length it declares. */
  datatype Frame = Frame(marker: Byte, segLen: int, precision: Byte, height: int, width: int)

  /** The markers of T.81 table B.1 that stand alone: TEM, RSTm, SOI and EOI. */
  predicate BareMarker(m: int) {
    m == 0x01 || 0xD0 <= m <= 0xD9
  }

  /** SOF0 to SOF15: the markers from 0xC0 to 0xCF but DHT, JPG and DAC. */
  predicate FrameMarker(m: int) {
    0xC0 <= m <= 0xCF && m != 0xC4 && m != 0xC8 && m != 0xCC
  }

  /** The walk tells markers apart as the standard does. */
  lemma MarkersAgree(marker: Byte)
    ensures Standalone(marker) <==> BareMarker(marker as int)
    ensures StartsFrame(marker) <==> FrameMarker(marker as int)
  {
  }

  predicate ValidSegment(s: Segment) {
    match s
    case Bare(marker) => BareMarker(marker as int)
    case Block(marker, payload) =>
      !BareMarker(marker as int) && !FrameMarker(marker as int) && |payload| + 2 < 0x1_0000
  }

  predicate ValidFrame(f: Frame) {
    FrameMarker(f.marker as int) && 2 <= f.segLen < 0x1_0000 && 0 < f.height < 0x1_0000 && 0 < f.width < 0x1_0000
  }

  function PrintSegment(s: Segment): (r: Bytes)
    requires ValidSegment(s)
  {
    match s
    case Bare(marker) => [0xFF, marker]
    case Block(marker, payload) => [0xFF, marker] + U16(|payload| + 2) + payload
  }

  function PrintSegments(segs: seq<Segment>): Bytes
    requires forall i | 0 <= i < |segs| :: ValidSegment(segs[i])
  {
    if segs == [] then [] else PrintSegment(segs[0]) + PrintSegments(segs[1..])
  }

  function PrintFrame(f: Frame): Bytes
    requires ValidFrame(f)
  {
    [0xFF, f.marker] + U16(f.segLen) + [f.precision] + U16(f.height) + U16(f.width)
  }

  /** `t` is any number of segments, a frame header with these dimensions, and anything after it. */
  ghost predicate Grammar(t: Bytes, d: Dimensions) {
    exists segs: seq<Segment>, f: Frame, tail: Bytes ::
      (forall i | 0 <= i < |segs| :: ValidSegment(segs[i])) && ValidFrame(f)
      && t == PrintSegments(segs) + PrintFrame(f) + tail && d == Dimensions(f.width, f.height)
  }

  lemma U16RoundTrip(t: Bytes, off: nat, n: int)
    requires 0 <= n < 0x1_0000 && off + 2 <= |t| && t[off..off + 2] == U16(n)
    ensures ReadU16BE(t, off) == Some(n)
  {
    U16Value(t, off);
    assert t[off] == U16(n)[0] && t[off + 1] == U16(n)[1];
  }

  lemma U16Back(t: Bytes, off: nat)
    requires off + 1 < |t|
    ensures ReadU16BE(t, off).Some? && 0 <= ReadU16BE(t, off).value < 0x1_0000
    ensures U16(ReadU16BE(t, off).value) == [t[off], t[off + 1]]
  {
    U16Value(t, off);
    var n := BE16(t[off], t[off + 1]);
    assert n / 0x100 == t[off] as int && n % 0x100 == t[off + 1] as int;
  }

  lemma StartsFrameNotStandalone(marker: Byte)
    requires StartsFrame(marker)
    ensures !Standalone(marker)
  {
  }

  lemma WalkFrame(f: Frame, tail: Bytes)
    requires ValidFrame(f)
    ensures Walk(PrintFrame(f) + tail) == Some(Dimensions(f.width, f.height))
  {
    var t := PrintFrame(f) + tail;
    MarkersAgree(f.marker);
    assert t[2..4] == U16(f.segLen) && t[5..7] == U16(f.height) && t[7..9] == U16(f.width);
    U16RoundTrip(t, 2, f.segLen);
    U16RoundTrip(t, 5, f.height);
    U16RoundTrip(t, 7, f.width);
  }

  lemma WalkSegment(s: Segment, rest: Bytes)
    requires ValidSegment(s)
    ensures Walk(PrintSegment(s) + rest) == Walk(rest)
  {
    var t := PrintSegment(s) + rest;
    MarkersAgree(s.marker);
    if s.Bare? {
      assert t[2..] == rest;
    } else {
      assert t[2..4] == U16(|s.payload| + 2);
      U16RoundTrip(t, 2, |s.payload| + 2);
      assert t[2 + (|s.payload| + 2)..] == rest;
    }
  }

  lemma {:induction false} WalkSegments(segs: seq<Segment>, after: Bytes)
    requires forall i | 0 <= i < |segs| :: ValidSegment(segs[i])
    ensures Walk(PrintSegments(segs) + after) == Walk(after)
  {
    if segs == [] {
      assert PrintSegments(segs) + after == after;
    } else {
      var rest := PrintSegments(segs[1..]) + after;
      WalkSegments(segs[1..], after);
      WalkSegment(segs[0], rest);
      FirstSegmentText(segs, after);
    }
  }

  lemma FirstSegmentText(segs: seq<Segment>, after: Bytes)
    requires segs != [] && forall i | 0 <= i < |segs| :: ValidSegment(segs[i])
    ensures PrintSegments(segs) + after == PrintSegment(segs[0]) + (PrintSegments(segs[1..]) + after)
  {
    Collections.Associative(PrintSegment(segs[0]), PrintSegments(segs[1..]), after);
  }

  /** Completeness: whatever the grammar prints, the walk reads back. */
  lemma WalkPrinted(segs: seq<Segment>, f: Frame, tail: Bytes)
    requires (forall i | 0 <= i < |segs| :: ValidSegment(segs[i])) && ValidFrame(f)
    ensures Walk(PrintSegments(segs) + PrintFrame(f) + tail) == Some(Dimensions(f.width, f.height))
  {
    WalkSegments(segs, PrintFrame(f) + tail);
    WalkFrame(f, tail);
    assert PrintSegments(segs) + PrintFrame(f) + tail == PrintSegments(segs) + (PrintFrame(f) + tail);
  }

  /** Soundness: whatever the walk reads was printed by the grammar. */
  lemma {:induction false} WalkReads(t: Bytes) returns (segs: seq<Segment>, f: Frame, tail: Bytes)
    requires Walk(t).Some?
    ensures (forall i | 0 <= i < |segs| :: ValidSegment(segs[i])) && ValidFrame(f)
    ensures t == PrintSegments(segs) + PrintFrame(f) + tail && Walk(t) == Some(Dimensions(f.width, f.height))
    decreases |t|
  {
    if StartsFrame(t[1]) {
      segs, f, tail := FrameRead(t);
    } else {
      var s, k := SegmentRead(t);
      segs, f, tail := WalkReads(t[k..]);
      segs := PrependSegment(s, t, t[k..], segs, f, tail);
    }
  }

  lemma SegmentRead(t: Bytes) returns (s: Segment, k: nat)
    requires Walk(t).Some? && !StartsFrame(t[1])
    ensures 0 < k <= |t| && ValidSegment(s) && t == PrintSegment(s) + t[k..] && Walk(t) == Walk(t[k..])
  {
    MarkersAgree(t[1]);
    if Standalone(t[1]) {
      s, k := Bare(t[1]), 2;
    } else {
      U16Back(t, 2);
      k := 2 + ReadU16BE(t, 2).value;
      s := Block(t[1], t[4..k]);
      assert t == [t[0], t[1]] + [t[2], t[3]] + t[4..k] + t[k..];
    }
  }

  lemma PrependSegment(s: Segment, t: Bytes, rest: Bytes, segs: seq<Segment>, f: Frame, tail: Bytes)
    returns (all: seq<Segment>)
    requires ValidSegment(s) && (forall i | 0 <= i < |segs| :: ValidSegment(segs[i])) && ValidFrame(f)
    requires t == PrintSegment(s) + rest && rest == PrintSegments(segs) + PrintFrame(f) + tail
    ensures all == [s] + segs && forall i | 0 <= i < |all| :: ValidSegment(all[i])
    ensures t == PrintSegments(all) + PrintFrame(f) + tail
  {
    all := [s] + segs;
    assert all[1..] == segs;
    assert PrintSegments(all) == PrintSegment(s) + PrintSegments(segs);
  }

  lemma FrameRead(t: Bytes) returns (segs: seq<Segment>, f: Frame, tail: Bytes)
    requires Walk(t).Some? && StartsFrame(t[1])
    ensures segs == [] && ValidFrame(f)
    ensures t == PrintSegments(segs) + PrintFrame(f) + tail && Walk(t) == Some(Dimensions(f.width, f.height))
  {
    FrameFields(t);
    MarkersAgree(t[1]);
    segs := [];
    f := Frame(t[1], BE16(t[2], t[3]), t[4], BE16(t[5], t[6]), BE16(t[7], t[8]));
    tail := t[9..];
    BytesBack(t[2], t[3]);
    BytesBack(t[5], t[6]);
    BytesBack(t[7], t[8]);
    FrameText(t, f);
    NineAndRest(t);
  }

  lemma BytesBack(b0: Byte, b1: Byte)
    ensures 0 <= BE16(b0, b1) < 0x1_0000 && U16(BE16(b0, b1)) == [b0, b1]
  {
  }

  lemma FrameFields(t: Bytes)
    requires Walk(t).Some? && StartsFrame(t[1])
    ensures |t| >= 9 && t[0] == 0xFF
    ensures BE16(t[2], t[3]) >= 2 && BE16(t[5], t[6]) != 0 && BE16(t[7], t[8]) != 0
    ensures Walk(t) == Some(Dimensions(BE16(t[7], t[8]), BE16(t[5], t[6])))
  {
    StartsFrameNotStandalone(t[1]);
    U16Value(t, 2);
    U16Value(t, 5);
    U16Value(t, 7);
  }

  lemma FrameText(t: Bytes, f: Frame)
    requires ValidFrame(f) && |t| >= 9 && t[0] == 0xFF && t[1] == f.marker && t[4] == f.precision
    requires U16(f.segLen) == [t[2], t[3]] && U16(f.height) == [t[5], t[6]] && U16(f.width) == [t[7], t[8]]
    ensures PrintFrame(f) == t[..9]
  {
  }

  lemma NineAndRest(t: Bytes)
    requires |t| >= 9
    ensures t == [] + t[..9] + t[9..]
  {
  }

  /** The parser returns a pair exactly when the bytes after the first two are a sentence of the grammar with it. */
  lemma JpegExact(buf: Bytes, d: Dimensions)
    ensures ParseJpegSpec(buf) == Some(d) <==> |buf| >= 2 && Grammar(buf[2..], d)
  {
    if ParseJpegSpec(buf) == Some(d) {
      var segs, f, tail := WalkReads(buf[2..]);
    }
    if |buf| >= 2 && Grammar(buf[2..], d) {
      var segs: seq<Segment>, f: Frame, tail: Bytes :|
        (forall i | 0 <= i < |segs| :: ValidSegment(segs[i])) && ValidFrame(f)
        && buf[2..] == PrintSegments(segs) + PrintFrame(f) + tail && d == Dimensions(f.width, f.height);
      WalkPrinted(segs, f, tail);
    }
  }

  // ----- Printing a header, sniffing it and parsing it -----

  lemma TagFound(buf: Bytes, off: nat, tag: Bytes)
    requires off + |tag| <= |buf| && forall i | 0 <= i < |tag| :: buf[off + i] == tag[i]
    ensures TagAt(buf, off, tag)
  {
  }

  lemma TagMissing(buf: Bytes, off: nat, tag: Bytes)
    requires off < |buf| && tag != [] && buf[off] != tag[0]
    ensures !TagAt(buf, off, tag)
  {
    if off + |tag| <= |buf| {
      assert buf[off..off + |tag|][0] == buf[off];
    }
  }

  /** A JPEG file: the start-of-image marker, any segments, a frame header, and the rest. */
  lemma JpegRoundTrip(segs: seq<Segment>, f: Frame, tail: Bytes)
    requires (forall i | 0 <= i < |segs| :: ValidSegment(segs[i])) && ValidFrame(f)
    ensures Inspect([0xFF, 0xD8] + (PrintSegments(segs) + PrintFrame(f) + tail))
         == Some((Jpeg, Dimensions(f.width, f.height)))
  {
    WalkPrinted(segs, f, tail);
    InspectJpeg(PrintSegments(segs) + PrintFrame(f) + tail, Dimensions(f.width, f.height));
  }

  /** After the two bytes of a start of image, whatever the walk accepts is taken for a JPEG. */
  lemma InspectJpeg(body: Bytes, d: Dimensions)
    requires Walk(body) == Some(d)
    ensures Inspect([0xFF, 0xD8] + body) == Some((Jpeg, d))
  {
    var buf := [0xFF, 0xD8] + body;
    assert body[0] == 0xFF && buf[2..] == body;
    SniffedJpeg(buf);
  }

  lemma SniffedJpeg(buf: Bytes)
    requires |buf| >= 3 && buf[0] == 0xFF && buf[1] == 0xD8 && buf[2] == 0xFF
    ensures SniffFormat(buf) == Some(Jpeg)
  {
    TagFound(buf, 0, [0xFF, 0xD8, 0xFF]);
    TagMissing(buf, 0, PNG_SIGNATURE);
  }

  /** The signature, an IHDR chunk with its length word, the two sizes, and the rest. */
  function PrintPng(chunkLength: Bytes, width: int, height: int, tail: Bytes): Bytes
    requires |chunkLength| == 4 && 0 <= width < TWO_32 && 0 <= height < TWO_32
  {
    PNG_SIGNATURE + chunkLength + IHDR + U32(width) + U32(height) + tail
  }

  lemma PngRoundTrip(chunkLength: Bytes, width: int, height: int, tail: Bytes)
    requires |chunkLength| == 4 && 0 < width < TWO_32 && 0 < height < TWO_32
    ensures Inspect(PrintPng(chunkLength, width, height, tail)) == Some((Png, Dimensions(width, height)))
  {
    var buf := PrintPng(chunkLength, width, height, tail);
    assert buf[0..8] == PNG_SIGNATURE && buf[12..16] == IHDR;
    assert buf[16..20] == U32(width) && buf[20..24] == U32(height);
    assert buf[16] == U32(width)[0] && buf[17] == U32(width)[1] && buf[18] == U32(width)[2] && buf[19] == U32(width)[3];
    assert buf[20] == U32(height)[0] && buf[21] == U32(height)[1] && buf[22] == U32(height)[2]
      && buf[23] == U32(height)[3];
    U32Sum(width);
    U32Sum(height);
    PngExact(buf, Dimensions(width, height));
  }

  lemma U32Sum(n: int)
    requires 0 <= n < TWO_32
    ensures BE32(U32(n)[0], U32(n)[1], U32(n)[2], U32(n)[3]) == n
    ensures LE32(L32(n)[0], L32(n)[1], L32(n)[2], L32(n)[3]) == n
  {
    assert n / 0x1_0000 == n / 0x100_0000 * 0x100 + n / 0x1_0000 % 0x100;
    assert n / 0x100 == n / 0x1_0000 * 0x100 + n / 0x100 % 0x100;
  }

  /** The container header with a chunk tag, then the chunk's bytes. */
  function PrintWebp(size: Bytes, kind: Byte, chunk: Bytes): Bytes
    requires |size| == 4
  {
    RIFF + size + WEBP + VP8 + [kind] + chunk
  }

  lemma WebpSniffed(size: Bytes, kind: Byte, chunk: Bytes)
    requires |size| == 4
    ensures SniffFormat(PrintWebp(size, kind, chunk)) == Some(Webp)
    ensures |PrintWebp(size, kind, chunk)| == 16 + |chunk| && PrintWebp(size, kind, chunk)[16..] == chunk
    ensures PrintWebp(size, kind, chunk)[12..16] == VP8 + [kind]
  {
    var buf := PrintWebp(size, kind, chunk);
    assert buf[0..4] == RIFF && buf[8..12] == WEBP;
    TagMissing(buf, 0, PNG_SIGNATURE);
    TagMissing(buf, 0, [0xFF, 0xD8, 0xFF]);
  }

  lemma WebpKinds(size: Bytes, kind: Byte, chunk: Bytes)
    requires |size| == 4
    ensures var buf := PrintWebp(size, kind, chunk);
      (kind == 0x20 ==> ParseWebp(buf) == ParseVp8(buf))
      && (kind == 0x4C ==> ParseWebp(buf) == ParseVp8l(buf))
      && (kind == 0x58 ==> ParseWebp(buf) == ParseVp8x(buf))
  {
    var buf := PrintWebp(size, kind, chunk);
    WebpSniffed(size, kind, chunk);
    assert buf[12..16][3] == kind;
    assert (VP8 + [0x20])[3] == 0x20 && (VP8 + [0x4C])[3] == 0x4C;
  }

  lemma InspectWebp(size: Bytes, kind: Byte, chunk: Bytes, d: Dimensions)
    requires |size| == 4 && ParseWebp(PrintWebp(size, kind, chunk)) == Some(d)
    ensures Inspect(PrintWebp(size, kind, chunk)) == Some((Webp, d))
  {
    WebpSniffed(size, kind, chunk);
  }

  lemma WebpByte(size: Bytes, kind: Byte, chunk: Bytes, i: nat)
    requires |size| == 4 && i < |chunk|
    ensures |PrintWebp(size, kind, chunk)| == 16 + |chunk| && PrintWebp(size, kind, chunk)[16 + i] == chunk[i]
  {
  }

  lemma L16Sum(scale: int, n: int)
    requires 0 <= n < 0x4000 && 0 <= scale < 4
    ensures LE16(L16(scale * 0x4000 + n)[0], L16(scale * 0x4000 + n)[1]) % 0x4000 == n
  {
  }

  lemma L24Sum(n: int)
    requires 0 <= n < 0x100_0000
    ensures LE24(L24(n)[0], L24(n)[1], L24(n)[2]) == n
  {
    assert n / 0x100 == n / 0x1_0000 * 0x100 + n / 0x100 % 0x100;
  }

  lemma Vp8Parsed(size: Bytes, chunk: Bytes, width: int, height: int)
    requires |size| == 4 && |chunk| >= 14 && width != 0 && height != 0
    requires width == LE16(chunk[10], chunk[11]) % 0x4000 && height == LE16(chunk[12], chunk[13]) % 0x4000
    ensures Inspect(PrintWebp(size, 0x20, chunk)) == Some((Webp, Dimensions(width, height)))
  {
    WebpKinds(size, 0x20, chunk);
    WebpByte(size, 0x20, chunk, 10);
    WebpByte(size, 0x20, chunk, 11);
    WebpByte(size, 0x20, chunk, 12);
    WebpByte(size, 0x20, chunk, 13);
    Vp8Exact(PrintWebp(size, 0x20, chunk), Dimensions(width, height));
    InspectWebp(size, 0x20, chunk, Dimensions(width, height));
  }

  /** Lossy: ten bytes of chunk and frame header, then each size under two bits of scale. */
  lemma Vp8RoundTrip(
      size: Bytes, header: Bytes, width: int, widthScale: int, height: int, heightScale: int, tail: Bytes)
    requires |size| == 4 && |header| == 10
    requires 0 < width < 0x4000 && 0 < height < 0x4000 && 0 <= widthScale < 4 && 0 <= heightScale < 4
    ensures Inspect(PrintWebp(size, 0x20,
              header + L16(widthScale * 0x4000 + width) + L16(heightScale * 0x4000 + height) + tail))
         == Some((Webp, Dimensions(width, height)))
  {
    L16Sum(widthScale, width);
    L16Sum(heightScale, height);
    Vp8Parsed(
      size, header + L16(widthScale * 0x4000 + width) + L16(heightScale * 0x4000 + height) + tail, width, height);
  }

  lemma Vp8lParsed(size: Bytes, chunk: Bytes, width: int, height: int)
    requires |size| == 4 && |chunk| >= 9 && chunk[4] == 0x2F
    requires width == LE32(chunk[5], chunk[6], chunk[7], chunk[8]) % 0x4000 + 1
    requires height == LE32(chunk[5], chunk[6], chunk[7], chunk[8]) / 0x4000 % 0x4000 + 1
    ensures Inspect(PrintWebp(size, 0x4C, chunk)) == Some((Webp, Dimensions(width, height)))
  {
    WebpKinds(size, 0x4C, chunk);
    WebpByte(size, 0x4C, chunk, 4);
    WebpByte(size, 0x4C, chunk, 5);
    WebpByte(size, 0x4C, chunk, 6);
    WebpByte(size, 0x4C, chunk, 7);
    WebpByte(size, 0x4C, chunk, 8);
    Vp8lExact(PrintWebp(size, 0x4C, chunk), Dimensions(width, height));
    InspectWebp(size, 0x4C, chunk, Dimensions(width, height));
  }

  /** Two 14-bit sizes in one word, under four flag bits. */
  function PackSizes(flags: int, h: int, w: int): (word: int)
    requires 0 <= w < 0x4000 && 0 <= h < 0x4000 && 0 <= flags < 16
    ensures 0 <= word < TWO_32 && word % 0x4000 == w && word / 0x4000 % 0x4000 == h
  {
    flags * 0x1000_0000 + h * 0x4000 + w
  }

  /** Lossless: four bytes of chunk length, the signature, the packed word with four bits on top. */
  lemma Vp8lRoundTrip(size: Bytes, length: Bytes, width: int, height: int, flags: int, word: int, tail: Bytes)
    requires |size| == 4 && |length| == 4 && 0 < width <= 0x4000 && 0 < height <= 0x4000 && 0 <= flags < 16
    requires word == PackSizes(flags, height - 1, width - 1)
    ensures Inspect(PrintWebp(size, 0x4C, length + [0x2F] + L32(word) + tail))
         == Some((Webp, Dimensions(width, height)))
  {
    PackedRoundTrip(size, length, word, width, height, tail);
  }

  lemma PackedRoundTrip(size: Bytes, length: Bytes, word: int, width: int, height: int, tail: Bytes)
    requires |size| == 4 && |length| == 4 && 0 <= word < TWO_32
    requires width == word % 0x4000 + 1 && height == word / 0x4000 % 0x4000 + 1
    ensures Inspect(PrintWebp(size, 0x4C, length + [0x2F] + L32(word) + tail))
         == Some((Webp, Dimensions(width, height)))
  {
    var stored := L32(word);
    U32Sum(word);
    Vp8lChunk(length, stored, tail);
    Vp8lParsed(size, length + [0x2F] + stored + tail, width, height);
  }

  lemma Vp8lChunk(length: Bytes, word: Bytes, tail: Bytes)
    requires |length| == 4 && |word| == 4
    ensures var chunk := length + [0x2F] + word + tail;
      chunk[4] == 0x2F && chunk[5] == word[0] && chunk[6] == word[1] && chunk[7] == word[2] && chunk[8] == word[3]
  {
  }

  lemma Vp8xParsed(size: Bytes, chunk: Bytes, width: int, height: int)
    requires |size| == 4 && |chunk| >= 14
    requires width == LE24(chunk[8], chunk[9], chunk[10]) + 1 && height == LE24(chunk[11], chunk[12], chunk[13]) + 1
    ensures Inspect(PrintWebp(size, 0x58, chunk)) == Some((Webp, Dimensions(width, height)))
  {
    WebpKinds(size, 0x58, chunk);
    forall i | 8 <= i < 14 ensures PrintWebp(size, 0x58, chunk)[16 + i] == chunk[i] {
      WebpByte(size, 0x58, chunk, i);
    }
    Vp8xBytes(PrintWebp(size, 0x58, chunk), chunk);
    Vp8xExact(PrintWebp(size, 0x58, chunk), Dimensions(width, height));
    InspectWebp(size, 0x58, chunk, Dimensions(width, height));
  }

  lemma Vp8xBytes(buf: Bytes, chunk: Bytes)
    requires |chunk| >= 14 && |buf| == 16 + |chunk| && forall i | 8 <= i < 14 :: buf[16 + i] == chunk[i]
    ensures buf[24] == chunk[8] && buf[25] == chunk[9] && buf[26] == chunk[10]
    ensures buf[27] == chunk[11] && buf[28] == chunk[12] && buf[29] == chunk[13]
  {
    assert buf[16 + 8] == chunk[8] && buf[16 + 9] == chunk[9] && buf[16 + 10] == chunk[10];
    assert buf[16 + 11] == chunk[11] && buf[16 + 12] == chunk[12] && buf[16 + 13] == chunk[13];
  }

  /** Extended: eight bytes of chunk length and flags, then each canvas size minus one. */
  lemma Vp8xRoundTrip(size: Bytes, header: Bytes, width: int, height: int, tail: Bytes)
    requires |size| == 4 && |header| == 8 && 0 < width <= 0x100_0000 && 0 < height <= 0x100_0000
    ensures Inspect(PrintWebp(size, 0x58, header + L24(width - 1) + L24(height - 1) + tail))
         == Some((Webp, Dimensions(width, height)))
  {
    L24Sum(width - 1);
    L24Sum(height - 1);
    Vp8xParsed(size, header + L24(width - 1) + L24(height - 1) + tail, width, height);
  }
}
