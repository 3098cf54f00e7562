/**
 Literal inputs with their literal results: what the general statements say up to a choice of constants is
 fixed here.
 */
module KnownAnswers {
  import opened Results
  import opened JsStrings
  import opened Decimals
  import opened JsNumbers
  import opened CanonicalJson
  import Int32
  import Sorting
  import StableRequestHash
  import CacheKey

  // ----- Text -----

  /** UTF-8 of `a`, an accented letter, the euro sign, a smiling face, and a lone surrogate. */
  lemma Bytes()
    ensures Utf8Unit(0x61) == [0x61] && Utf8Unit(0xE9) == [0xC3, 0xA9] && Utf8Unit(0x20AC) == [0xE2, 0x82, 0xAC]
    ensures Utf8Pair(0xD83D, 0xDE00) == [0xF0, 0x9F, 0x98, 0x80]
    ensures Utf8Unit(0xD800) == [0xEF, 0xBF, 0xBD] == Utf8Unit(0xDC00)
  {
  }

  /** A percent sign becomes `%25` and a colon `%3A`; any other code unit stays. */
  lemma EscapedPrefix(u: CodeUnit)
    ensures CacheKey.PrefixSafe([u])
         == if u == 0x25 then [0x25, 0x32, 0x35] else if u == 0x3A then [0x25, 0x33, 0x41] else [u]
  {
    CacheKey.PrefixSafeStep(u, []);
    assert [u] + [] == [u];
    assert CacheKey.PrefixSafe([]) == [];
  }

  /** The fingerprint's text has `null` for what JSON cannot say. */
  lemma NullTexts()
    ensures StableRequestHash.Canonicalize(NonFinite) == [0x6E, 0x75, 0x6C, 0x6C]
    ensures StableRequestHash.Canonicalize(Undefined) == StableRequestHash.Canonicalize(NonFinite)
    ensures StableRequestHash.Canonicalize(Opaque) == StableRequestHash.Canonicalize(NonFinite)
  {
  }

  // ----- Canonical JSON -----

  /** The short escapes, a control character, and characters printed as they are. */
  lemma Escapes()
    ensures Quote([0x08, 0x09, 0x0A]) == [0x22, 0x5C, 0x62, 0x5C, 0x74, 0x5C, 0x6E, 0x22]
    ensures Quote([0x0C, 0x0D]) == [0x22, 0x5C, 0x66, 0x5C, 0x72, 0x22]
    ensures Quote([0x22, 0x5C, 0x2F]) == [0x22, 0x5C, 0x22, 0x5C, 0x5C, 0x2F, 0x22]
    ensures Quote([0x1F, 0x7F]) == [0x22, 0x5C, 0x75, 0x30, 0x30, 0x31, 0x66, 0x7F, 0x22]
  {
    QuoteThree(0x08, 0x09, 0x0A);
    QuoteTwo(0x09, 0x0A);
    QuoteThree(0x22, 0x5C, 0x2F);
    QuoteTwo(0x5C, 0x2F);
    QuoteTwo(0x0C, 0x0D);
    QuoteTwo(0x1F, 0x7F);
  }

  lemma EscapeCons(u: CodeUnit, s: JsString)
    requires !IsSurrogate(u)
    ensures Escape([u] + s) == EscapeUnit(u) + Escape(s)
  {
    assert ([u] + s)[1..] == s;
  }

  lemma QuoteTwo(a: CodeUnit, b: CodeUnit)
    requires !IsSurrogate(a) && !IsSurrogate(b)
    ensures Escape([a, b]) == EscapeUnit(a) + EscapeUnit(b)
    ensures Quote([a, b]) == [0x22] + (EscapeUnit(a) + EscapeUnit(b)) + [0x22]
  {
    EscapeCons(a, [b] + []);
    EscapeCons(b, []);
    assert [a, b] == [a] + ([b] + []);
  }

  lemma QuoteThree(a: CodeUnit, b: CodeUnit, c: CodeUnit)
    requires !IsSurrogate(a) && !IsSurrogate(b) && !IsSurrogate(c)
    ensures Quote([a, b, c]) == [0x22] + (EscapeUnit(a) + Escape([b, c])) + [0x22]
  {
    EscapeCons(a, [b, c]);
    assert [a, b, c] == [a] + [b, c];
  }

  lemma QuoteOne(u: CodeUnit)
    requires 0x61 <= u <= 0x7A
    ensures Quote([u]) == [0x22, u, 0x22]
  {
    EscapeCons(u, []);
    assert [u] == [u] + [];
  }

  /** The literals, and what has no text. */
  lemma Literals()
    ensures Encode(Null) == Ok([0x6E, 0x75, 0x6C, 0x6C])
    ensures Encode(Bool(true)) == Ok([0x74, 0x72, 0x75, 0x65])
    ensures Encode(Bool(false)) == Ok([0x66, 0x61, 0x6C, 0x73, 0x65])
    ensures Encode(NonFinite) == Err(NonFiniteNumber)
    ensures Encode(Undefined) == Err(UnsupportedType) == Encode(Opaque)
  {
  }

  lemma ItemsCons(v: Json, text: JsString, items: seq<Json>, texts: seq<JsString>)
    requires Encode(v) == Ok(text) && EncodeItems(items) == Ok(texts)
    ensures EncodeItems([v] + items) == Ok([text] + texts)
  {
    assert ([v] + items)[0] == v && ([v] + items)[1..] == items;
  }

  lemma JoinTwo(a: JsString, b: JsString)
    ensures Join([a] + ([b] + [])) == a + [0x2C] + b
  {
    assert ([a] + ([b] + []))[1..] == [b] + [] == [b];
  }

  /** `[null,true]` */
  lemma ArrayText()
    ensures Encode(Arr([Null, Bool(true)]))
         == Ok([0x5B, 0x6E, 0x75, 0x6C, 0x6C, 0x2C, 0x74, 0x72, 0x75, 0x65, 0x5D])
  {
    Literals();
    ItemsCons(Bool(true), TRUE_TEXT, [], []);
    ItemsCons(Null, NULL_TEXT, [Bool(true)] + [], [TRUE_TEXT] + []);
    JoinTwo(NULL_TEXT, TRUE_TEXT);
    assert [Null, Bool(true)] == [Null] + ([Bool(true)] + []);
    assert [LBRACKET] + (NULL_TEXT + [0x2C] + TRUE_TEXT) + [RBRACKET]
        == [0x5B, 0x6E, 0x75, 0x6C, 0x6C, 0x2C, 0x74, 0x72, 0x75, 0x65, 0x5D];
  }

  /** The object with `b` before `a` is printed as `{"a":null,"b":true}`. */
  lemma SortedObject()
    ensures Encode(Obj([Member([0x62], Bool(true)), Member([0x61], Null)]))
         == Ok([0x7B, 0x22, 0x61, 0x22, 0x3A, 0x6E, 0x75, 0x6C, 0x6C, 0x2C,
                0x22, 0x62, 0x22, 0x3A, 0x74, 0x72, 0x75, 0x65, 0x7D])
  {
    var a, b := Member([0x61], Null), Member([0x62], Bool(true));
    SortedPair(a, b);
    QuoteOne(0x61);
    QuoteOne(0x62);
    Literals();
    PairText(Obj([b, a]), a, b, [0x22, 0x61, 0x22], NULL_TEXT, [0x22, 0x62, 0x22], TRUE_TEXT);
    PairSpelled();
  }

  lemma PairSpelled()
    ensures [0x7B as CodeUnit] + (([0x22, 0x61, 0x22] + [0x3A] + NULL_TEXT) + [0x2C]
                                  + ([0x22, 0x62, 0x22] + [0x3A] + TRUE_TEXT)) + [0x7D]
         == [0x7B, 0x22, 0x61, 0x22, 0x3A, 0x6E, 0x75, 0x6C, 0x6C, 0x2C,
             0x22, 0x62, 0x22, 0x3A, 0x74, 0x72, 0x75, 0x65, 0x7D]
  {
  }

  lemma SortedPair(a: Member, b: Member)
    requires a.key == [0x61] && b.key == [0x62]
    ensures SortMembers([b, a]) == [a] + ([b] + [])
  {
    LessIsAscending(a.key, b.key);
    assert AscendsAt(a.key, b.key, 0);
    LessTotal(a.key, b.key);
    assert [b, a][1..] == [a] && [a][1..] == [];
    assert Sorting.Sort(KeyLess, [a]) == [a];
    assert Sorting.Insert(KeyLess, b, [a]) == [a] + [b];
  }

  lemma MembersCons(parent: Json, m: Member, text: JsString, members: seq<Member>, texts: seq<JsString>)
    requires m.value < parent && (forall x | x in members :: x.value < parent) && !m.value.Undefined?
    requires Encode(m.value) == Ok(text) && EncodeMembers(parent, members) == Ok(texts)
    ensures forall x | x in [m] + members :: x.value < parent
    ensures EncodeMembers(parent, [m] + members) == Ok([Quote(m.key) + [0x3A] + text] + texts)
  {
    assert ([m] + members)[0] == m && ([m] + members)[1..] == members;
  }

  lemma PairText(v: Json, a: Member, b: Member, ka: JsString, ta: JsString, kb: JsString, tb: JsString)
    requires v == Obj([b, a]) && SortMembers([b, a]) == [a] + ([b] + [])
    requires Quote(a.key) == ka && Encode(a.value) == Ok(ta)
    requires Quote(b.key) == kb && Encode(b.value) == Ok(tb)
    ensures Encode(v) == Ok([0x7B] + ((ka + [0x3A] + ta) + [0x2C] + (kb + [0x3A] + tb)) + [0x7D])
  {
    assert a in v.members && b in v.members;
    MembersCons(v, b, tb, [], []);
    MembersCons(v, a, ta, [b] + [], [kb + [0x3A] + tb] + []);
    JoinTwo(ka + [0x3A] + ta, kb + [0x3A] + tb);
  }

  /** -1.5, 1e20, 1e21, 0.000001 and 1e-7. */
  lemma Numbers()
    ensures PrintNumber(Decimal(true, 15, -1)) == [0x2D, 0x31, 0x2E, 0x35]
    ensures PrintNumber(Decimal(false, 1, 21)) == [0x31, 0x65, 0x2B, 0x32, 0x31]
    ensures PrintNumber(Decimal(false, 1, -6)) == [0x30, 0x2E, 0x30, 0x30, 0x30, 0x30, 0x30, 0x31]
    ensures PrintNumber(Decimal(false, 1, -7)) == [0x31, 0x65, 0x2D, 0x37]
    ensures PrintNumber(Decimal(false, 0, 0)) == [0x30]
  {
    assert Digits(15) == [0x31, 0x35] && Digits(21) == [0x32, 0x31];
    assert Digits(15)[..1] == [0x31] && Digits(15)[1..] == [0x35];
    assert Zeros(5) == [0x30, 0x30, 0x30, 0x30, 0x30];
    assert Digits(1)[..1] == [0x31] && Digits(1)[1..] == [];
  }

  // ----- FNV-1a -----

  /** 0x811C9DC5 with the bits of `a`, 0x61, flipped. */
  lemma FlippedBasis()
    ensures Int32.BitXor(0x811C_9DC5, 0x61) == 0x811C_9DA4
  {
    Int32.XorZero(0x102_393B);
    Int32.XorStep(0x204_7277, 1, 0x102_393B, 0);
    Int32.XorStep(0x408_E4EE, 3, 0x204_7277, 1);
    Int32.XorStep(0x811_C9DC, 6, 0x408_E4EE, 3);
    Int32.XorStep(0x1023_93B8, 12, 0x811_C9DC, 6);
    Int32.XorStep(0x2047_2771, 24, 0x1023_93B8, 12);
    Int32.XorStep(0x408E_4EE2, 48, 0x2047_2771, 24);
    Int32.XorStep(0x811C_9DC5, 97, 0x408E_4EE2, 48);
  }

  /** The hashes of the empty string and of `a`. */
  lemma Hashes(a: JsString)
    requires |a| == 1 && a[0] == 0x61
    ensures StableRequestHash.Fnv([]) == 0x811C_9DC5
    ensures StableRequestHash.Fnv(a) == 0xE40C_292C
  {
    FirstStep();
    HashOne(a, StableRequestHash.FNV_OFFSET_BASIS, 0x61, 0xE40C_292C);
  }

  lemma FirstStep()
    ensures StableRequestHash.FnvStep(StableRequestHash.FNV_OFFSET_BASIS, 0x61) == 0xE40C_292C
  {
    FlippedBasis();
    FlippedTimesPrime();
    StepFlips(0x811C_9DC5, 0x61, 0x811C_9DA4, 0xE40C_292C);
  }

  lemma FlippedTimesPrime()
    ensures 0x811C_9DA4 * 0x0100_0193 % 0x1_0000_0000 == 0xE40C_292C
  {
  }

  lemma HashOne(s: JsString, basis: nat, byte: nat, hash: nat)
    requires |s| == 1 && s[0] as int == byte && byte < 0x80 && basis == StableRequestHash.FNV_OFFSET_BASIS
    requires StableRequestHash.FnvStep(basis, byte) == hash
    ensures StableRequestHash.Fnv(s) == hash
  {
    assert s[..0] == [];
    LowByteIs(s[0]);
  }

  lemma LowByteIs(u: CodeUnit)
    requires u < 0x80
    ensures StableRequestHash.LowByte(u) == u as int
  {
  }

  lemma StepFlips(h: nat, byte: nat, flipped: nat, hash: nat)
    requires Int32.BitXor(h, byte) == flipped && flipped * 0x0100_0193 % 0x1_0000_0000 == hash
    ensures StableRequestHash.FnvStep(h, byte) == hash
  {
  }

  lemma HexStep(n: nat, high: nat, low: nat)
    requires n == 16 * high + low && low < 16 && high > 0
    ensures StableRequestHash.ToHex(n) == StableRequestHash.ToHex(high) + [HexDigit(low)]
  {
    assert n / 16 == high && n % 16 == low;
  }

  lemma BasisInHex()
    ensures StableRequestHash.ToHex(0x811C_9DC5) == [0x38, 0x31, 0x31, 0x63, 0x39, 0x64, 0x63, 0x35]
  {
    HexStep(0x81, 8, 1);
    HexStep(0x811, 0x81, 1);
    HexStep(0x811C, 0x811, 12);
    HexStep(0x8_11C9, 0x811C, 9);
    HexStep(0x81_1C9D, 0x8_11C9, 13);
    HexStep(0x811_C9DC, 0x81_1C9D, 12);
    HexStep(0x811C_9DC5, 0x811_C9DC, 5);
  }

  /** The digest of the empty text is the offset basis twice, in lower-case hexadecimal. */
  lemma EmptyDigest()
    ensures StableRequestHash.Digest([])
         == [0x38, 0x31, 0x31, 0x63, 0x39, 0x64, 0x63, 0x35, 0x38, 0x31, 0x31, 0x63, 0x39, 0x64, 0x63, 0x35]
  {
    BasisInHex();
    EmptyHalves(StableRequestHash.ToHex(0x811C_9DC5));
  }

  lemma EmptyHalves(half: JsString)
    requires half == StableRequestHash.ToHex(0x811C_9DC5) && |half| == 8
    ensures StableRequestHash.Digest([]) == half + half
  {
    assert StableRequestHash.Fnv([]) == 0x811C_9DC5;
    assert StableRequestHash.Reverse([]) == [];
  }
}
