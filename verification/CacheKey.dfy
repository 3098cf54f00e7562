/**
 packages/cache/src/cache-key.ts: the tenant-namespaced cache key. SHA-256 with its hex output is a
 parameter `sha`; nothing about it is assumed except, in one lemma, that two given inputs do not
 collide.
 */
module CacheKey {
  import opened Results
  import opened JsStrings
  import opened Decimals
  import opened CanonicalJson
  import Collections

  const PERCENT: CodeUnit := 0x25
  const PERCENT_25: JsString := [0x25, 0x32, 0x35]
  const PERCENT_3A: JsString := [0x25, 0x33, 0x41]
  // 'tryit/cache/v1'
  const KEY_DOMAIN: JsString := [0x74, 0x72, 0x79, 0x69, 0x74, 0x2F, 0x63, 0x61, 0x63, 0x68, 0x65, 0x2F, 0x76, 0x31]

  datatype CacheKeyParts =
    CacheKeyParts(tenantId: JsString, personImageHash: JsString, productId: JsString, params: Json)

  type Sha = seq<Byte> -> JsString

  // ----- The key as a function -----

  /** `s.replace(/u/g, text)` for a single code unit `u`. */
  function ReplaceAll(s: JsString, u: CodeUnit, text: JsString): JsString {
    if s == [] then []
    else (if s[0] == u then text else [s[0]]) + ReplaceAll(s[1..], u, text)
  }

  function PrefixSafe(tenantId: JsString): JsString {
    ReplaceAll(ReplaceAll(tenantId, PERCENT, PERCENT_25), COLON, PERCENT_3A)
  }

  /** One field as it enters the digest: its byte length, a colon, its UTF-8 bytes. */
  function FieldBytes(field: JsString): seq<Byte> {
    Utf8(Digits(|Utf8(field)|) + [COLON]) + Utf8(field)
  }

  /** What is hashed, with `text` the canonical form of the params. */
  function Preimage(parts: CacheKeyParts, text: JsString): seq<Byte> {
    FieldBytes(KEY_DOMAIN) + FieldBytes(parts.tenantId) + FieldBytes(parts.personImageHash)
    + FieldBytes(parts.productId) + FieldBytes(text)
  }

  function Key(sha: Sha, parts: CacheKeyParts): Result<JsString, EncodeError> {
    var text :- Encode(parts.params);
    Ok(PrefixSafe(parts.tenantId) + [COLON] + sha(Preimage(parts, text)))
  }

  // ----- The key as it is computed, feeding a digest step by step -----

  class Hash {
    var fed: seq<Byte>

    constructor ()
      ensures fed == []
    {
      fed := [];
    }

    method Update(bytes: seq<Byte>)
      modifies this
      ensures fed == old(fed) + bytes
    {
      fed := fed + bytes;
    }

    method HashField(field: JsString)
      modifies this
      ensures fed == old(fed) + FieldBytes(field)
    {
      var bytes := Utf8(field);
      Update(Utf8(Digits(|bytes|) + [COLON]));
      Update(bytes);
    }

    method Digest(sha: Sha) returns (hex: JsString)
      ensures hex == sha(fed)
    {
      hex := sha(fed);
    }
  }

  method DeriveCacheKey(sha: Sha, parts: CacheKeyParts) returns (r: Result<JsString, EncodeError>)
    ensures r == Key(sha, parts)
  {
    var canonicalParams := Encode(parts.params);
    if canonicalParams.Err? {
      return Err(canonicalParams.error);
    }
    var hash := new Hash();
    hash.HashField(KEY_DOMAIN);
    assert hash.fed == FieldBytes(KEY_DOMAIN);
    hash.HashField(parts.tenantId);
    hash.HashField(parts.personImageHash);
    hash.HashField(parts.productId);
    hash.HashField(canonicalParams.value);
    var digest := hash.Digest(sha);
    r := Ok(PrefixSafe(parts.tenantId) + [COLON] + digest);
  }

  // ----- The prefix names the tenant -----

  /** Undo `PrefixSafe`: %25 is a percent sign and %3A a colon. */
  function Unescape(s: JsString): JsString {
    if s == [] then []
    else if PERCENT_25 <= s then [PERCENT] + Unescape(s[3..])
    else if PERCENT_3A <= s then [COLON] + Unescape(s[3..])
    else [s[0]] + Unescape(s[1..])
  }

  lemma {:induction false} ReplaceAllConcat(a: JsString, b: JsString, u: CodeUnit, text: JsString)
    ensures ReplaceAll(a + b, u, text) == ReplaceAll(a, u, text) + ReplaceAll(b, u, text)
  {
    if a == [] {
      assert a + b == b;
    } else {
      var first := if a[0] == u then text else [a[0]];
      ReplaceAllConcat(a[1..], b, u, text);
      assert (a + b)[1..] == a[1..] + b && (a + b)[0] == a[0];
      Collections.Associative(first, ReplaceAll(a[1..], u, text), ReplaceAll(b, u, text));
    }
  }

  /** The two passes of `PrefixSafe` act on each code unit by itself. */
  lemma PrefixSafeStep(u: CodeUnit, s: JsString)
    ensures PrefixSafe([u] + s)
         == (if u == PERCENT then PERCENT_25 else if u == COLON then PERCENT_3A else [u]) + PrefixSafe(s)
  {
    var first := if u == PERCENT then PERCENT_25 else [u];
    assert ([u] + s)[1..] == s;
    ReplaceAllConcat(first, ReplaceAll(s, PERCENT, PERCENT_25), COLON, PERCENT_3A);
    if u == PERCENT {
      ReplaceAllAbsent(PERCENT_25, COLON, PERCENT_3A);
    } else {
      assert [u][1..] == [];
      assert ReplaceAll([u], COLON, PERCENT_3A) == if u == COLON then PERCENT_3A else [u];
    }
  }

  lemma {:induction false} ReplaceAllAbsent(s: JsString, u: CodeUnit, text: JsString)
    requires u !in s
    ensures ReplaceAll(s, u, text) == s
  {
    if s != [] {
      ReplaceAllAbsent(s[1..], u, text);
    }
  }

  lemma UnescapeStep(u: CodeUnit, s: JsString)
    ensures Unescape((if u == PERCENT then PERCENT_25 else if u == COLON then PERCENT_3A else [u]) + s)
         == [u] + Unescape(s)
  {
    if u == PERCENT {
      UnescapePercent(s);
    } else if u == COLON {
      UnescapeColon(s);
    } else {
      var t := [u] + s;
      assert t[0] == u && t[1..] == s;
    }
  }

  lemma UnescapePercent(s: JsString)
    ensures Unescape(PERCENT_25 + s) == [PERCENT] + Unescape(s)
  {
    var t := PERCENT_25 + s;
    assert t[..3] == PERCENT_25 && t[3..] == s;
  }

  lemma UnescapeColon(s: JsString)
    ensures Unescape(PERCENT_3A + s) == [COLON] + Unescape(s)
  {
    var t := PERCENT_3A + s;
    assert t[..3] == PERCENT_3A && t[3..] == s;
    assert t[2] != PERCENT_25[2];
  }

  lemma {:induction false} PrefixRoundTrip(tenantId: JsString)
    ensures Unescape(PrefixSafe(tenantId)) == tenantId
    ensures COLON !in PrefixSafe(tenantId)
  {
    if tenantId != [] {
      var u, rest := tenantId[0], tenantId[1..];
      PrefixRoundTrip(rest);
      assert tenantId == [u] + rest;
      PrefixSafeStep(u, rest);
      UnescapeStep(u, PrefixSafe(rest));
    }
  }

  /** The part of a key before its first colon. */
  function BeforeColon(s: JsString): JsString {
    if s == [] || s[0] == COLON then [] else [s[0]] + BeforeColon(s[1..])
  }

  lemma {:induction false} BeforeFirstColon(p: JsString, digest: JsString)
    requires COLON !in p
    ensures BeforeColon(p + [COLON] + digest) == p
  {
    var s := p + [COLON] + digest;
    if p != [] {
      BeforeFirstColon(p[1..], digest);
      assert s[1..] == p[1..] + [COLON] + digest;
    }
  }

  /** The tenant id can be read back from the key, whatever the hash function. */
  lemma KeyNamesTenant(sha: Sha, parts: CacheKeyParts)
    ensures Key(sha, parts).Ok? ==> Unescape(BeforeColon(Key(sha, parts).value)) == parts.tenantId
  {
    if Key(sha, parts).Ok? {
      PrefixRoundTrip(parts.tenantId);
      var text := Encode(parts.params).value;
      BeforeFirstColon(PrefixSafe(parts.tenantId), sha(Preimage(parts, text)));
    }
  }

  /** Tenants never share a key, even under different or colliding hash functions. */
  lemma TenantsNeverShareKeys(sha: Sha, a: CacheKeyParts, sha': Sha, b: CacheKeyParts)
    ensures Key(sha, a).Ok? && Key(sha, a) == Key(sha', b) ==> a.tenantId == b.tenantId
  {
    KeyNamesTenant(sha, a);
    KeyNamesTenant(sha', b);
  }

  // ----- The hashed bytes determine the fields -----

  /** Read one length-prefixed field. */
  function ReadField(t: seq<Byte>): Option<(seq<Byte>, seq<Byte>)> {
    var header := AsciiPrefix(t);
    var (n, rest) :- ParseNat(header);
    if rest == [] || rest[0] != COLON then None
    else
      var body := t[|header| - |rest| + 1..];
      if n <= |body| then Some((body[..n], body[n..])) else None
  }

  /** The longest run of ASCII bytes `t` starts with, as code units. */
  function AsciiPrefix(t: seq<Byte>): (r: JsString)
    ensures |r| <= |t|
  {
    if t == [] || t[0] >= 0x80 then [] else [t[0] as CodeUnit] + AsciiPrefix(t[1..])
  }

  lemma Utf8Ascii(u: CodeUnit, s: JsString)
    requires u < 0x80
    ensures Utf8([u] + s) == [u as Byte] + Utf8(s)
  {
    assert ([u] + s)[1..] == s;
  }

  lemma {:induction false} AsciiRoundTrip(s: JsString, rest: seq<Byte>)
    requires forall i | 0 <= i < |s| :: s[i] < 0x80
    ensures |Utf8(s)| == |s|
    ensures AsciiPrefix(Utf8(s) + rest) == s + AsciiPrefix(rest)
  {
    if s == [] {
      assert Utf8(s) + rest == rest;
    } else {
      AsciiRoundTrip(s[1..], rest);
      assert s == [s[0]] + s[1..];
      AsciiCons(s[0], s[1..], rest);
    }
  }

  lemma AsciiCons(u: CodeUnit, s: JsString, rest: seq<Byte>)
    requires u < 0x80 && AsciiPrefix(Utf8(s) + rest) == s + AsciiPrefix(rest)
    ensures |Utf8([u] + s)| == 1 + |Utf8(s)|
    ensures AsciiPrefix(Utf8([u] + s) + rest) == [u] + s + AsciiPrefix(rest)
  {
    var b := u as Byte;
    Utf8Ascii(u, s);
    Collections.Associative([b], Utf8(s), rest);
    AsciiPrefixStep(b, Utf8(s) + rest);
    Collections.Associative([u], s, AsciiPrefix(rest));
  }

  lemma AsciiPrefixStep(b: Byte, t: seq<Byte>)
    requires b < 0x80
    ensures AsciiPrefix([b] + t) == [b as CodeUnit] + AsciiPrefix(t)
  {
    assert ([b] + t)[1..] == t;
  }

  lemma ReadFieldBytes(field: JsString, rest: seq<Byte>)
    ensures ReadField(FieldBytes(field) + rest) == Some((Utf8(field), rest))
  {
    var bytes := Utf8(field);
    ReadLengthPrefixed(Digits(|bytes|), bytes, rest);
  }

  lemma ReadLengthPrefixed(digits: JsString, bytes: seq<Byte>, rest: seq<Byte>)
    requires digits == Digits(|bytes|)
    ensures ReadField(Utf8(digits + [COLON]) + bytes + rest) == Some((bytes, rest))
  {
    var head := digits + [COLON];
    AsciiRoundTrip(head, bytes + rest);
    ReadHeader(Utf8(head), digits, bytes, rest);
  }

  lemma ReadHeader(h: seq<Byte>, digits: JsString, bytes: seq<Byte>, rest: seq<Byte>)
    requires digits == Digits(|bytes|) && |h| == |digits| + 1
    requires AsciiPrefix(h + (bytes + rest)) == digits + [COLON] + AsciiPrefix(bytes + rest)
    ensures ReadField(h + bytes + rest) == Some((bytes, rest))
  {
    var body := bytes + rest;
    var after := [COLON] + AsciiPrefix(body);
    Collections.Associative(h, bytes, rest);
    Collections.Associative(digits, [COLON], AsciiPrefix(body));
    ParseDigits(|bytes|, after);
    SplitAfter(h, body);
    SplitAfter(bytes, rest);
  }

  lemma SplitAfter(a: seq<Byte>, b: seq<Byte>)
    ensures (a + b)[..|a|] == a && (a + b)[|a|..] == b
  {
  }

  lemma FieldsAgree(a: JsString, ra: seq<Byte>, b: JsString, rb: seq<Byte>)
    ensures FieldBytes(a) + ra == FieldBytes(b) + rb <==> Scrub(a) == Scrub(b) && ra == rb
  {
    ReadFieldBytes(a, ra);
    ReadFieldBytes(b, rb);
    Utf8Separates(a, b);
  }

  /** The fields that reach the digest agree; lone surrogates reach it as U+FFFD. */
  ghost predicate SameRequest(a: CacheKeyParts, b: CacheKeyParts) {
    && Scrub(a.tenantId) == Scrub(b.tenantId)
    && Scrub(a.personImageHash) == Scrub(b.personImageHash)
    && Scrub(a.productId) == Scrub(b.productId)
    && SameValue(a.params, b.params)
  }

  ghost predicate ValidParams(v: Json) {
    UniqueKeys(v) && Representable(v)
  }

  lemma PreimageAsFields(parts: CacheKeyParts, text: JsString)
    ensures Preimage(parts, text)
         == FieldBytes(KEY_DOMAIN) + (FieldBytes(parts.tenantId) + (FieldBytes(parts.personImageHash)
            + (FieldBytes(parts.productId) + (FieldBytes(text) + []))))
  {
    RightNested(FieldBytes(KEY_DOMAIN), FieldBytes(parts.tenantId), FieldBytes(parts.personImageHash),
      FieldBytes(parts.productId), FieldBytes(text));
  }

  lemma RightNested<T>(a: seq<T>, b: seq<T>, c: seq<T>, d: seq<T>, e: seq<T>)
    ensures a + b + c + d + e == a + (b + (c + (d + (e + []))))
  {
    assert e + [] == e;
    Collections.Associative(a + b + c, d, e);
    Collections.Associative(a + b, c, d + e);
    Collections.Associative(a, b, c + (d + e));
  }

  lemma PreimageFields(a: CacheKeyParts, ta: JsString, b: CacheKeyParts, tb: JsString)
    ensures Preimage(a, ta) == Preimage(b, tb)
       <==> Scrub(a.tenantId) == Scrub(b.tenantId) && Scrub(a.personImageHash) == Scrub(b.personImageHash)
            && Scrub(a.productId) == Scrub(b.productId) && Scrub(ta) == Scrub(tb)
  {
    PreimageAsFields(a, ta);
    PreimageAsFields(b, tb);
    var a4, b4 := FieldBytes(ta) + [], FieldBytes(tb) + [];
    var a3, b3 := FieldBytes(a.productId) + a4, FieldBytes(b.productId) + b4;
    var a2, b2 := FieldBytes(a.personImageHash) + a3, FieldBytes(b.personImageHash) + b3;
    var a1, b1 := FieldBytes(a.tenantId) + a2, FieldBytes(b.tenantId) + b2;
    FieldsAgree(KEY_DOMAIN, a1, KEY_DOMAIN, b1);
    FieldsAgree(a.tenantId, a2, b.tenantId, b2);
    FieldsAgree(a.personImageHash, a3, b.personImageHash, b3);
    FieldsAgree(a.productId, a4, b.productId, b4);
    FieldsAgree(ta, [], tb, []);
  }

  /** Equal hashed bytes are exactly equal requests, wherever the field boundaries fall. */
  lemma PreimageSeparates(a: CacheKeyParts, b: CacheKeyParts)
    requires ValidParams(a.params) && ValidParams(b.params)
    ensures Encode(a.params).Ok? && Encode(b.params).Ok?
    ensures Preimage(a, Encode(a.params).value) == Preimage(b, Encode(b.params).value) <==> SameRequest(a, b)
  {
    Faithful(a.params, b.params);
    var ta, tb := Encode(a.params).value, Encode(b.params).value;
    EncodeIsWellFormed(a.params);
    EncodeIsWellFormed(b.params);
    ScrubWellFormed(ta);
    ScrubWellFormed(tb);
    PreimageFields(a, ta, b, tb);
  }

  /** `sha` does not map the two hashed inputs of `a` and `b` to one digest unless they are one input. */
  ghost predicate NoCollision(sha: Sha, a: CacheKeyParts, b: CacheKeyParts)
    requires Encode(a.params).Ok? && Encode(b.params).Ok?
  {
    var x, y := Preimage(a, Encode(a.params).value), Preimage(b, Encode(b.params).value);
    sha(x) == sha(y) ==> x == y
  }

  /**
   Two requests share a key exactly when they are the same request: same tenant id to the last code
   unit, the other strings equal once lone surrogates merge, params equal up to member order.
   */
  lemma KeySeparates(sha: Sha, a: CacheKeyParts, b: CacheKeyParts)
    requires ValidParams(a.params) && ValidParams(b.params)
    requires Encode(a.params).Ok? && Encode(b.params).Ok? ==> NoCollision(sha, a, b)
    ensures Key(sha, a).Ok? && Key(sha, b).Ok?
    ensures Key(sha, a) == Key(sha, b) <==> a.tenantId == b.tenantId && SameRequest(a, b)
  {
    PreimageSeparates(a, b);
    var x, y := Preimage(a, Encode(a.params).value), Preimage(b, Encode(b.params).value);
    if Key(sha, a) == Key(sha, b) {
      TenantsNeverShareKeys(sha, a, sha, b);
      var p := PrefixSafe(a.tenantId) + [COLON];
      assert (p + sha(x))[|p|..] == sha(x) && (p + sha(y))[|p|..] == sha(y);
    }
  }

  /** Well-formed strings merge only when equal, so for them the key is exact on every field. */
  lemma KeySeparatesWellFormed(sha: Sha, a: CacheKeyParts, b: CacheKeyParts)
    requires ValidParams(a.params) && ValidParams(b.params)
    requires Encode(a.params).Ok? && Encode(b.params).Ok? ==> NoCollision(sha, a, b)
    requires WellFormed(a.personImageHash) && WellFormed(b.personImageHash)
    requires WellFormed(a.productId) && WellFormed(b.productId)
    ensures Key(sha, a) == Key(sha, b)
       <==> a.tenantId == b.tenantId && a.personImageHash == b.personImageHash
            && a.productId == b.productId && SameValue(a.params, b.params)
  {
    KeySeparates(sha, a, b);
    ScrubWellFormed(a.personImageHash);
    ScrubWellFormed(b.personImageHash);
    ScrubWellFormed(a.productId);
    ScrubWellFormed(b.productId);
  }

  /** Why well-formedness is needed: two product ids that differ only in a lone surrogate share a key. */
  lemma LoneSurrogatesMerge(sha: Sha, tenantId: JsString, imageHash: JsString)
    ensures Key(sha, CacheKeyParts(tenantId, imageHash, [0xD800], Obj([])))
         == Key(sha, CacheKeyParts(tenantId, imageHash, [0xD801], Obj([])))
  {
    var a := CacheKeyParts(tenantId, imageHash, [0xD800], Obj([]));
    var b := a.(productId := [0xD801]);
    if Encode(Obj([])).Ok? {
      assert Scrub([0xD800]) == [0xFFFD] == Scrub([0xD801]);
      PreimageFields(a, Encode(Obj([])).value, b, Encode(Obj([])).value);
    }
  }

  // ----- What is hashed, field by field -----

  /** What the fields read off the front of some bytes are, one after the other. */
  ghost predicate ReadsAs(bytes: seq<Byte>, fields: seq<seq<Byte>>) {
    if fields == [] then bytes == []
    else
      var r := ReadField(bytes);
      r.Some? && r.value.0 == fields[0] && ReadsAs(r.value.1, fields[1..])
  }

  lemma ReadsOne(field: JsString, rest: seq<Byte>, fields: seq<seq<Byte>>)
    requires ReadsAs(rest, fields)
    ensures ReadsAs(FieldBytes(field) + rest, [Utf8(field)] + fields)
  {
    ReadFieldBytes(field, rest);
    assert ([Utf8(field)] + fields)[1..] == fields;
  }

  lemma ReadsTwo(a: JsString, b: JsString, rest: seq<Byte>, fields: seq<seq<Byte>>)
    requires ReadsAs(rest, fields)
    ensures ReadsAs(FieldBytes(a) + (FieldBytes(b) + rest), [Utf8(a)] + ([Utf8(b)] + fields))
  {
    ReadsOne(b, rest, fields);
    ReadsOne(a, FieldBytes(b) + rest, [Utf8(b)] + fields);
  }

  lemma ReadsThree(a: JsString, b: JsString, c: JsString)
    ensures ReadsAs(FieldBytes(a) + (FieldBytes(b) + (FieldBytes(c) + [])),
              [Utf8(a)] + ([Utf8(b)] + ([Utf8(c)] + [])))
  {
    ReadsOne(c, [], []);
    ReadsTwo(a, b, FieldBytes(c) + [], [Utf8(c)] + []);
  }

  lemma ReadsFive(a: JsString, b: JsString, c: JsString, d: JsString, e: JsString)
    ensures ReadsAs(FieldBytes(a) + (FieldBytes(b) + (FieldBytes(c) + (FieldBytes(d) + (FieldBytes(e) + [])))),
              [Utf8(a)] + ([Utf8(b)] + ([Utf8(c)] + ([Utf8(d)] + ([Utf8(e)] + [])))))
  {
    ReadsThree(c, d, e);
    ReadsTwo(a, b, FieldBytes(c) + (FieldBytes(d) + (FieldBytes(e) + [])), [Utf8(c)] + ([Utf8(d)] + ([Utf8(e)] + [])));
  }

  lemma FiveInARow(a: seq<Byte>, b: seq<Byte>, c: seq<Byte>, d: seq<Byte>, e: seq<Byte>)
    ensures [a] + ([b] + ([c] + ([d] + ([e] + [])))) == [a, b, c, d, e]
  {
  }

  /** The hashed bytes are the domain tag, the tenant, the image hash, the product and the params, in this order. */
  lemma PreimageReads(parts: CacheKeyParts, text: JsString)
    ensures ReadsAs(Preimage(parts, text),
              [Utf8(KEY_DOMAIN), Utf8(parts.tenantId), Utf8(parts.personImageHash), Utf8(parts.productId), Utf8(text)])
    ensures KEY_DOMAIN == [0x74, 0x72, 0x79, 0x69, 0x74, 0x2F, 0x63, 0x61, 0x63, 0x68, 0x65, 0x2F, 0x76, 0x31]
  {
    PreimageAsFields(parts, text);
    ReadsFive(KEY_DOMAIN, parts.tenantId, parts.personImageHash, parts.productId, text);
    FiveInARow(
      Utf8(KEY_DOMAIN), Utf8(parts.tenantId), Utf8(parts.personImageHash), Utf8(parts.productId), Utf8(text));
  }

  /** The key is the escaped tenant, which has no colon, a colon, and the hash of those bytes. */
  lemma KeyText(sha: Sha, parts: CacheKeyParts)
    requires Encode(parts.params).Ok?
    ensures var key := Key(sha, parts);
      key.Ok? && BeforeColon(key.value) == PrefixSafe(parts.tenantId)
      && |key.value| > |BeforeColon(key.value)| && key.value[|BeforeColon(key.value)|] == 0x3A
      && key.value[|BeforeColon(key.value)| + 1..] == sha(Preimage(parts, Encode(parts.params).value))
  {
    PrefixRoundTrip(parts.tenantId);
    var prefix, digest := PrefixSafe(parts.tenantId), sha(Preimage(parts, Encode(parts.params).value));
    BeforeFirstColon(prefix, digest);
    assert (prefix + [COLON] + digest)[|prefix| + 1..] == digest;
  }
}
