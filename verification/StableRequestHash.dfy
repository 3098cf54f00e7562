/**
 packages/engine/src/internal/stable_request_hash.ts: the canonical text of a request and its two
 FNV-1a passes, computed in signed 32-bit arithmetic.
 */
module StableRequestHash {
  import opened Results
  import opened JsStrings
  import opened CanonicalJson
  import opened JsNumbers
  import opened Int32
  import Sorting

  // ----- canonicalize -----

  /** Unlike the cache's encoder this one is total: what JSON cannot say becomes `null`. */
  function Canonicalize(v: Json): JsString
    decreases v
  {
    match v
    case Str(s) => Quote(s)
    case Num(x) => PrintNumber(x)
    case Bool(b) => if b then TRUE_TEXT else FALSE_TEXT
    case Arr(items) => [LBRACKET] + Join(CanonicalItems(items)) + [RBRACKET]
    case Obj(members) => [LBRACE] + Join(CanonicalMembers(v, SortMembers(members))) + [RBRACE]
    case _ => NULL_TEXT
  }

  function CanonicalItems(items: seq<Json>): seq<JsString>
    decreases items
  {
    if items == [] then [] else [Canonicalize(items[0])] + CanonicalItems(items[1..])
  }

  function CanonicalMembers(parent: Json, members: seq<Member>): seq<JsString>
    requires forall m | m in members :: m.value < parent
    decreases parent, |members|
  {
    if members == [] then []
    else [Quote(members[0].key) + [COLON] + Canonicalize(members[0].value)] + CanonicalMembers(parent, members[1..])
  }

  /** The value with `null` wherever JSON has no form. */
  function Nullify(v: Json): Json
    decreases v
  {
    match v
    case NonFinite => Null
    case Undefined => Null
    case Opaque => Null
    case Arr(items) => Arr(NullifyItems(items))
    case Obj(members) => Obj(NullifyMembers(v, members))
    case _ => v
  }

  function NullifyItems(items: seq<Json>): (r: seq<Json>)
    ensures |r| == |items| && forall i | 0 <= i < |r| :: r[i] == Nullify(items[i])
    decreases items
  {
    if items == [] then [] else [Nullify(items[0])] + NullifyItems(items[1..])
  }

  function NullifyMembers(parent: Json, members: seq<Member>): (r: seq<Member>)
    requires forall m | m in members :: m.value < parent
    ensures |r| == |members|
    ensures forall i | 0 <= i < |r| :: r[i] == Member(members[i].key, Nullify(members[i].value))
    decreases parent, |members|
  {
    if members == [] then []
    else [Member(members[0].key, Nullify(members[0].value))] + NullifyMembers(parent, members[1..])
  }

  /** `r` is `s` with every value nullified. */
  ghost predicate Nullified(s: seq<Member>, r: seq<Member>) {
    |r| == |s| && forall i | 0 <= i < |s| :: r[i] == Member(s[i].key, Nullify(s[i].value))
  }

  lemma NullifiedCons(m: Member, n: Member, s: seq<Member>, r: seq<Member>)
    requires n == Member(m.key, Nullify(m.value)) && Nullified(s, r)
    ensures Nullified([m] + s, [n] + r)
  {
  }

  lemma NullifiedTail(s: seq<Member>, r: seq<Member>)
    requires s != [] && Nullified(s, r)
    ensures r[0] == Member(s[0].key, Nullify(s[0].value)) && Nullified(s[1..], r[1..])
  {
  }

  lemma {:induction false} InsertNullified(m: Member, n: Member, s: seq<Member>, r: seq<Member>)
    requires n == Member(m.key, Nullify(m.value)) && Nullified(s, r)
    ensures Nullified(Sorting.Insert(KeyLess, m, s), Sorting.Insert(KeyLess, n, r))
  {
    if s == [] || KeyLess(m, s[0]) {
      NullifiedCons(m, n, s, r);
    } else {
      NullifiedTail(s, r);
      InsertNullified(m, n, s[1..], r[1..]);
      NullifiedCons(s[0], r[0], Sorting.Insert(KeyLess, m, s[1..]), Sorting.Insert(KeyLess, n, r[1..]));
    }
  }

  lemma {:induction false} SortNullified(s: seq<Member>, r: seq<Member>)
    requires Nullified(s, r)
    ensures Nullified(SortMembers(s), SortMembers(r))
  {
    if s != [] {
      NullifiedTail(s, r);
      SortNullified(s[1..], r[1..]);
      InsertNullified(s[0], r[0], SortMembers(s[1..]), SortMembers(r[1..]));
    }
  }

  /** The text is the cache encoder's text of the nullified value. */
  lemma {:induction false} CanonicalIsEncoded(v: Json)
    ensures Encode(Nullify(v)) == Ok(Canonicalize(v))
    decreases v
  {
    match v
    case Arr(items) => ItemsEncoded(items);
    case Obj(members) =>
      SortNullified(members, NullifyMembers(v, members));
      MembersEncoded(v, SortMembers(members), Nullify(v), SortMembers(NullifyMembers(v, members)));
    case _ =>
  }

  lemma {:induction false} ItemsEncoded(items: seq<Json>)
    ensures EncodeItems(NullifyItems(items)) == Ok(CanonicalItems(items))
    decreases items
  {
    if items != [] {
      CanonicalIsEncoded(items[0]);
      ItemsEncoded(items[1..]);
      assert NullifyItems(items)[1..] == NullifyItems(items[1..]);
    }
  }

  lemma {:induction false} MembersEncoded(p: Json, s: seq<Member>, q: Json, r: seq<Member>)
    requires (forall m | m in s :: m.value < p) && (forall m | m in r :: m.value < q) && Nullified(s, r)
    ensures EncodeMembers(q, r) == Ok(CanonicalMembers(p, s))
    decreases p, |s|
  {
    if s != [] {
      CanonicalIsEncoded(s[0].value);
      MembersEncoded(p, s[1..], q, r[1..]);
    }
  }

  lemma {:induction false} NullifyKeepsKeys(v: Json)
    requires UniqueKeys(v)
    ensures UniqueKeys(Nullify(v)) && Representable(Nullify(v))
    decreases v
  {
    match v
    case Arr(items) =>
      forall i | 0 <= i < |items| ensures UniqueKeys(Nullify(items[i])) && Representable(Nullify(items[i])) {
        assert items[i] in items;
        NullifyKeepsKeys(items[i]);
      }
    case Obj(members) =>
      forall i | 0 <= i < |members|
        ensures UniqueKeys(Nullify(members[i].value)) && Representable(Nullify(members[i].value))
      {
        assert members[i] in members;
        NullifyKeepsKeys(members[i].value);
      }
    case _ =>
  }

  /** Two requests have the same text exactly when they are equal up to member order and nullification. */
  lemma CanonicalTextDecides(a: Json, b: Json)
    requires UniqueKeys(a) && UniqueKeys(b)
    ensures Canonicalize(a) == Canonicalize(b) <==> SameValue(Nullify(a), Nullify(b))
  {
    NullifyKeepsKeys(a);
    NullifyKeepsKeys(b);
    CanonicalIsEncoded(a);
    CanonicalIsEncoded(b);
    Faithful(Nullify(a), Nullify(b));
  }

  // ----- FNV-1a -----

  const FNV_OFFSET_BASIS: int := 0x811C_9DC5
  const FNV_PRIME: int := 0x0100_0193
  const FNV_INVERSE: int := 0x359C_449B

  function LowByte(u: CodeUnit): nat {
    u as int % 0x100
  }

  /** FNV-1a over the low bytes, in unsigned arithmetic modulo 2^32. */
  function Fnv(s: JsString): (h: nat)
    ensures h < TWO_32
  {
    if s == [] then FNV_OFFSET_BASIS
    else FnvStep(Fnv(s[..|s| - 1]), LowByte(s[|s| - 1]))
  }

  function FnvStep(h: nat, byte: nat): (r: nat)
    ensures r < TWO_32
  {
    BitXor(h, byte) * FNV_PRIME % TWO_32
  }

  lemma ModMul(x: int, y: int)
    ensures x % TWO_32 * y % TWO_32 == x * y % TWO_32
  {
    var q, r := x / TWO_32, x % TWO_32;
    assert x * y == TWO_32 * (q * y) + r * y;
    ModShift(r * y, q * y);
  }

  lemma ModShift(n: int, k: int)
    ensures (TWO_32 * k + n) % TWO_32 == n % TWO_32
  {
    ModUnique(TWO_32 * k + n, TWO_32, k + n / TWO_32, n % TWO_32);
  }

  lemma LowBytes(u: CodeUnit)
    ensures And(u as int, 0xFF) == LowByte(u)
  {
    var n := u as int;
    assert ToUint32(n) == n;
    Pow2Values();
    AndUnsigned(n, 0xFF, 8, 0x100);
  }

  /** The signed xor and multiply agree with the unsigned step. */
  lemma SignedStep(hash: int, byte: nat)
    requires byte < 0x100
    ensures ToUint32(Imul(Xor(hash, byte), FNV_PRIME)) == FnvStep(ToUint32(hash), byte)
  {
    var u := ToUint32(hash);
    Pow2Values();
    XorBound(u, byte, 32);
    var x := Xor(hash, byte);
    assert x % TWO_32 == BitXor(u, byte);
    ModMul(x, FNV_PRIME);
  }

  method Fnv1a32(input: JsString) returns (r: int)
    ensures r == Fnv(input)
  {
    var hash := FNV_OFFSET_BASIS;
    for i := 0 to |input|
      invariant ToUint32(hash) == Fnv(input[..i])
    {
      LowBytes(input[i]);
      SignedStep(hash, LowByte(input[i]));
      assert input[..i + 1][..i] == input[..i];
      hash := Xor(hash, And(input[i] as int, 0xFF));
      hash := Imul(hash, FNV_PRIME);
    }
    assert input[..|input|] == input;
    r := ToUint32(hash);
  }

  // ----- Each step can be undone -----

  lemma MultiplyUndone(u: nat)
    requires u < TWO_32
    ensures u * FNV_PRIME % TWO_32 * FNV_INVERSE % TWO_32 == u
  {
    ModMul(u * FNV_PRIME, FNV_INVERSE);
    assert FNV_PRIME * FNV_INVERSE == TWO_32 * 3513497 + 1;
    assert u * FNV_PRIME * FNV_INVERSE == TWO_32 * (3513497 * u) + u;
    ModShift(u, 3513497 * u);
  }

  /** From one hash, different bytes; or with one byte, different hashes: the results differ. */
  lemma StepInjective(g: nat, x: nat, h: nat, y: nat)
    requires g < TWO_32 && h < TWO_32 && x < 0x100 && y < 0x100
    requires FnvStep(g, x) == FnvStep(h, y)
    ensures g == h <==> x == y
  {
    Pow2Values();
    XorBound(g, x, 32);
    XorBound(h, y, 32);
    MultiplyUndone(BitXor(g, x));
    MultiplyUndone(BitXor(h, y));
    XorTwice(g, x);
    XorTwice(h, y);
    XorTwice(x, g);
    XorTwice(y, h);
    XorCommutes(g, x);
    XorCommutes(h, y);
  }

  /** The low bytes of `a` and `b` agree everywhere but at `i`. */
  ghost predicate DifferOnlyAt(a: JsString, b: JsString, i: nat) {
    |a| == |b| && i < |a| && LowByte(a[i]) != LowByte(b[i])
    && forall j | 0 <= j < |a| && j != i :: LowByte(a[j]) == LowByte(b[j])
  }

  lemma {:induction false} SameBytesSameHash(a: JsString, b: JsString)
    requires |a| == |b| && forall j | 0 <= j < |a| :: LowByte(a[j]) == LowByte(b[j])
    ensures Fnv(a) == Fnv(b)
  {
    if a != [] {
      SameBytesSameHash(a[..|a| - 1], b[..|b| - 1]);
    }
  }

  /** Changing a single byte changes the hash. */
  lemma {:induction false} OneByteChangesHash(a: JsString, b: JsString, i: nat)
    requires DifferOnlyAt(a, b, i)
    ensures Fnv(a) != Fnv(b)
  {
    var n := |a| - 1;
    var g, h := Fnv(a[..n]), Fnv(b[..n]);
    if i == n {
      SameBytesSameHash(a[..n], b[..n]);
    } else {
      OneByteChangesHash(a[..n], b[..n], i);
    }
    if Fnv(a) == Fnv(b) {
      StepInjective(g, LowByte(a[n]), h, LowByte(b[n]));
    }
  }

  // ----- The digest -----

  /** `n.toString(16)` */
  function ToHex(n: nat): (r: JsString)
    ensures |r| >= 1
  {
    if n < 16 then [HexDigit(n)] else ToHex(n / 16) + [HexDigit(n % 16)]
  }

  function PadStart(s: JsString, length: nat): JsString
    decreases length - |s|
  {
    if |s| >= length then s else PadStart([0x30] + s, length)
  }

  function FromHex(s: JsString): int {
    if s == [] then 0
    else
      var d := HexValue(s[|s| - 1]);
      16 * FromHex(s[..|s| - 1]) + if d.Some? then d.value else 0
  }

  function Reverse(s: JsString): (r: JsString)
    ensures |r| == |s| && forall i | 0 <= i < |s| :: r[i] == s[|s| - 1 - i]
  {
    seq(|s|, i requires 0 <= i < |s| => s[|s| - 1 - i])
  }

  function Digest(canonical: JsString): JsString {
    PadStart(ToHex(Fnv(canonical)), 8) + PadStart(ToHex(Fnv(Reverse(canonical))), 8)
  }

  function StableRequestHash(req: Json): JsString {
    Digest(Canonicalize(req))
  }

  method ComputeStableRequestHash(req: Json) returns (digest: JsString)
    ensures digest == StableRequestHash(req)
  {
    var canonical := Canonicalize(req);
    var reversed := Reverse(canonical);
    var high := Fnv1a32(canonical);
    var low := Fnv1a32(reversed);
    digest := PadStart(ToHex(high), 8) + PadStart(ToHex(low), 8);
  }

  lemma {:induction false} HexLength(n: nat, k: nat)
    requires n < Pow2(4 * k) && k >= 1
    ensures |ToHex(n)| <= k
  {
    if n >= 16 {
      assert Pow2(4 * k) == 16 * Pow2(4 * k - 4) by {
        assert Pow2(4 * k - 3) == 2 * Pow2(4 * k - 4);
        assert Pow2(4 * k - 2) == 4 * Pow2(4 * k - 4);
      }
      HexLength(n / 16, k - 1);
    }
  }

  lemma {:induction false} HexRoundTrip(n: nat)
    ensures FromHex(ToHex(n)) == n
  {
    var r := ToHex(n);
    ReadHexDigit(n % 16);
    if n >= 16 {
      HexRoundTrip(n / 16);
      assert r[..|r| - 1] == ToHex(n / 16);
    } else {
      assert r[..0] == [];
    }
  }

  lemma {:induction false} LeadingZero(s: JsString)
    ensures FromHex([0x30] + s) == FromHex(s)
  {
    if s != [] {
      LeadingZero(s[..|s| - 1]);
      assert ([0x30] + s)[..|s|] == [0x30] + s[..|s| - 1];
    } else {
      assert ([0x30] + s)[..0] == [];
    }
  }

  lemma {:induction false} PadKeepsValue(s: JsString, length: nat)
    ensures FromHex(PadStart(s, length)) == FromHex(s)
    ensures |s| <= length ==> |PadStart(s, length)| == length
    decreases length - |s|
  {
    if |s| < length {
      LeadingZero(s);
      PadKeepsValue([0x30] + s, length);
    }
  }

  lemma HalfDigest(h: nat)
    requires h < TWO_32
    ensures |PadStart(ToHex(h), 8)| == 8 && FromHex(PadStart(ToHex(h), 8)) == h
  {
    Pow2Values();
    HexLength(h, 8);
    HexRoundTrip(h);
    PadKeepsValue(ToHex(h), 8);
  }

  /** The digest is sixteen digits, eight for each pass, and the digits give the two hashes back. */
  lemma DigestHalves(text: JsString)
    ensures |Digest(text)| == 16
    ensures FromHex(Digest(text)[..8]) == Fnv(text)
    ensures FromHex(Digest(text)[8..]) == Fnv(Reverse(text))
  {
    HalfDigest(Fnv(text));
    HalfDigest(Fnv(Reverse(text)));
    var high := PadStart(ToHex(Fnv(text)), 8);
    var low := PadStart(ToHex(Fnv(Reverse(text))), 8);
    assert (high + low)[..8] == high && (high + low)[8..] == low;
  }

  /** Texts that differ in a single low byte differ in both halves of their digests. */
  lemma OneByteChangesDigest(s: JsString, t: JsString, i: nat)
    requires DifferOnlyAt(s, t, i)
    ensures |Digest(s)| == 16 == |Digest(t)|
    ensures Digest(s)[..8] != Digest(t)[..8] && Digest(s)[8..] != Digest(t)[8..]
  {
    OneByteChangesHash(s, t, i);
    ReversedDiffer(s, t, i);
    OneByteChangesHash(Reverse(s), Reverse(t), |s| - 1 - i);
    DigestHalves(s);
    DigestHalves(t);
  }

  lemma ReversedDiffer(s: JsString, t: JsString, i: nat)
    requires DifferOnlyAt(s, t, i)
    ensures DifferOnlyAt(Reverse(s), Reverse(t), |s| - 1 - i)
  {
    MirrorDiffer(s, t, i, Reverse(s), Reverse(t));
  }

  lemma MirrorDiffer(s: JsString, t: JsString, i: nat, r: JsString, q: JsString)
    requires DifferOnlyAt(s, t, i) && |r| == |q| == |s|
    requires forall j | 0 <= j < |s| :: r[j] == s[|s| - 1 - j] && q[j] == t[|s| - 1 - j]
    ensures DifferOnlyAt(r, q, |s| - 1 - i)
  {
    forall j | 0 <= j < |s| && j != |s| - 1 - i ensures LowByte(r[j]) == LowByte(q[j]) {
      var k := |s| - 1 - j;
      assert r[j] == s[k] && q[j] == t[k] && LowByte(s[k]) == LowByte(t[k]);
    }
  }

  /** Requests that are equal up to member order have one digest. */
  lemma SameRequestSameDigest(a: Json, b: Json)
    requires UniqueKeys(a) && UniqueKeys(b) && SameValue(Nullify(a), Nullify(b))
    ensures StableRequestHash(a) == StableRequestHash(b)
  {
    CanonicalTextDecides(a, b);
  }
}
