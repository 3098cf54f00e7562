/**
 JavaScript strings as sequences of UTF-16 code units, with the parts of the language runtime the
 cache relies on: the sort order of `Array.prototype.sort`, and `Buffer.from(s, 'utf8')`.
 */
module JsStrings {
  import opened Results

  newtype CodeUnit = u: int | 0 <= u < 0x1_0000
  type JsString = seq<CodeUnit>
  newtype Byte = b: int | 0 <= b < 0x100

  predicate IsHigh(u: CodeUnit) { 0xD800 <= u < 0xDC00 }

  predicate IsLow(u: CodeUnit) { 0xDC00 <= u < 0xE000 }

  predicate IsSurrogate(u: CodeUnit) { IsHigh(u) || IsLow(u) }

  /** `s` starts with a surrogate pair, one code point above U+FFFF. */
  predicate StartsWithPair(s: JsString) {
    |s| >= 2 && IsHigh(s[0]) && IsLow(s[1])
  }

  /** No lone surrogates. */
  predicate WellFormed(s: JsString) {
    s == [] ||
    if StartsWithPair(s) then WellFormed(s[2..])
    else !IsSurrogate(s[0]) && WellFormed(s[1..])
  }

  lemma {:induction false} WellFormedConcat(a: JsString, b: JsString)
    requires WellFormed(a) && WellFormed(b)
    ensures WellFormed(a + b)
  {
    if a == [] {
      assert a + b == b;
    } else if StartsWithPair(a) {
      WellFormedConcat(a[2..], b);
      assert (a + b)[2..] == a[2..] + b;
    } else {
      WellFormedConcat(a[1..], b);
      assert (a + b)[1..] == a[1..] + b;
    }
  }

  // ----- Order by UTF-16 code unit -----

  predicate Less(a: JsString, b: JsString) {
    b != [] && (a == [] || a[0] < b[0] || (a[0] == b[0] && Less(a[1..], b[1..])))
  }

  lemma {:induction false} LessTotal(a: JsString, b: JsString)
    ensures a == b ==> !Less(a, b)
    ensures a != b ==> Less(a, b) != Less(b, a)
  {
    if a != [] && b != [] && a[0] == b[0] {
      LessTotal(a[1..], b[1..]);
      assert a == [a[0]] + a[1..] && b == [b[0]] + b[1..];
    }
  }

  lemma {:induction false} LessTransitive(a: JsString, b: JsString, c: JsString)
    requires Less(a, b) && Less(b, c)
    ensures Less(a, c)
  {
    if a != [] && a[0] == b[0] == c[0] {
      LessTransitive(a[1..], b[1..], c[1..]);
    }
  }

  /** Up to `k` they agree; there `a` has ended and `b` goes on, or the code unit of `a` is the smaller one. */
  ghost predicate AscendsAt(a: JsString, b: JsString, k: nat) {
    k <= |a| && k < |b| && a[..k] == b[..k] && (k == |a| || a[k] as int < b[k] as int)
  }

  /** `a` is a proper prefix of `b`, or has the smaller code unit where they first differ. */
  ghost predicate Ascends(a: JsString, b: JsString) {
    exists k: nat :: AscendsAt(a, b, k)
  }

  /** The order is by the code unit at the first difference, a prefix going first. */
  lemma {:induction false} LessIsAscending(a: JsString, b: JsString)
    ensures Less(a, b) <==> Ascends(a, b)
  {
    if a == [] || b == [] || a[0] != b[0] {
      if Ascends(a, b) {
        var k: nat :| AscendsAt(a, b, k);
        assert k > 0 ==> a[..k][0] == b[..k][0];
      }
      assert Less(a, b) ==> AscendsAt(a, b, 0);
    } else {
      LessIsAscending(a[1..], b[1..]);
      AscendsFromTails(a, b);
    }
  }

  lemma AscendsFromTails(a: JsString, b: JsString)
    requires a != [] && b != [] && a[0] == b[0]
    ensures Ascends(a, b) <==> Ascends(a[1..], b[1..])
  {
    if Ascends(a[1..], b[1..]) {
      var k: nat :| AscendsAt(a[1..], b[1..], k);
      assert a[..k + 1] == [a[0]] + a[1..][..k] && b[..k + 1] == [b[0]] + b[1..][..k];
      assert AscendsAt(a, b, k + 1);
    }
    if Ascends(a, b) {
      var k: nat :| AscendsAt(a, b, k);
      assert k > 0 ==> a[1..][..k - 1] == a[..k][1..] && b[1..][..k - 1] == b[..k][1..];
      assert k > 0 ==> AscendsAt(a[1..], b[1..], k - 1);
    }
  }

  // ----- UTF-8 -----

  /** The code point a surrogate pair stands for. */
  function PairPoint(high: CodeUnit, low: CodeUnit): (p: int)
    requires IsHigh(high) && IsLow(low)
    ensures 0x1_0000 <= p < 0x11_0000
  {
    0x1_0000 + (high as int - 0xD800) * 0x400 + (low as int - 0xDC00)
  }

  /** A continuation byte with payload `bits % 0x40`. */
  function Continuation(bits: nat): Byte {
    (0x80 + bits % 0x40) as Byte
  }

  /** The UTF-8 bytes of a code point from U+0000 to U+FFFF; a lone surrogate becomes U+FFFD. */
  function Utf8Unit(u: CodeUnit): seq<Byte> {
    var p := u as int;
    if IsSurrogate(u) then [0xEF, 0xBF, 0xBD]
    else if p < 0x80 then [p as Byte]
    else if p < 0x800 then [(0xC0 + p / 0x40) as Byte, Continuation(p)]
    else [(0xE0 + p / 0x1000) as Byte, Continuation(p / 0x40), Continuation(p)]
  }

  /** The UTF-8 bytes of a code point above U+FFFF. */
  function Utf8Pair(high: CodeUnit, low: CodeUnit): seq<Byte>
    requires IsHigh(high) && IsLow(low)
  {
    var p := PairPoint(high, low);
    [(0xF0 + p / 0x4_0000) as Byte, Continuation(p / 0x1000), Continuation(p / 0x40), Continuation(p)]
  }

  function Utf8(s: JsString): seq<Byte> {
    if s == [] then []
    else if StartsWithPair(s) then Utf8Pair(s[0], s[1]) + Utf8(s[2..])
    else Utf8Unit(s[0]) + Utf8(s[1..])
  }

  /** `s` with every lone surrogate replaced by U+FFFD. */
  function Scrub(s: JsString): JsString {
    if s == [] then []
    else if StartsWithPair(s) then s[..2] + Scrub(s[2..])
    else [if IsSurrogate(s[0]) then 0xFFFD else s[0]] + Scrub(s[1..])
  }

  predicate Continues(t: seq<Byte>, i: nat) {
    i < |t| && 0x80 <= t[i] < 0xC0
  }

  /** The six payload bits of the continuation byte `t[i]`. */
  function Payload(t: seq<Byte>, i: nat): (bits: int)
    requires Continues(t, i)
    ensures 0 <= bits < 0x40
  {
    t[i] as int - 0x80
  }

  /** Read one encoded code point back as code units. */
  function ReadPoint(t: seq<Byte>): (r: Option<(JsString, seq<Byte>)>)
    ensures r.Some? ==> |r.value.1| < |t|
  {
    if t == [] then None
    else
      var lead := t[0] as int;
      if lead < 0x80 then Some(([lead as CodeUnit], t[1..]))
      else if lead < 0xC0 || lead >= 0xF5 || !Continues(t, 1) then None
      else if lead < 0xE0 then Some(([((lead - 0xC0) * 0x40 + Payload(t, 1)) as CodeUnit], t[2..]))
      else if !Continues(t, 2) then None
      else if lead < 0xF0 then
        Some(([((lead - 0xE0) * 0x1000 + Payload(t, 1) * 0x40 + Payload(t, 2)) as CodeUnit], t[3..]))
      else if !Continues(t, 3) then None
      else
        var q := (lead - 0xF0) * 0x4_0000 + Payload(t, 1) * 0x1000 + Payload(t, 2) * 0x40
                 + Payload(t, 3) - 0x1_0000;
        if q < 0 || q >= 0x10_0000 then None
        else Some(([(0xD800 + q / 0x400) as CodeUnit, (0xDC00 + q % 0x400) as CodeUnit], t[4..]))
  }

  function FromUtf8(t: seq<Byte>): Option<JsString>
    decreases |t|
  {
    if t == [] then Some([])
    else
      var (units, rest) :- ReadPoint(t);
      var tail :- FromUtf8(rest);
      Some(units + tail)
  }

  lemma ReadUnit(u: CodeUnit, rest: seq<Byte>)
    ensures ReadPoint(Utf8Unit(u) + rest) == Some(([if IsSurrogate(u) then 0xFFFD else u], rest))
  {
    var t := Utf8Unit(u) + rest;
    assert t[|Utf8Unit(u)|..] == rest;
  }

  lemma SplitPoint(p: nat)
    ensures p == p / 0x4_0000 * 0x4_0000 + p / 0x1000 % 0x40 * 0x1000 + p / 0x40 % 0x40 * 0x40 + p % 0x40
  {
    assert p / 0x1000 == p / 0x4_0000 * 0x40 + p / 0x1000 % 0x40;
    assert p / 0x40 == p / 0x1000 * 0x40 + p / 0x40 % 0x40;
  }

  lemma ReadPair(high: CodeUnit, low: CodeUnit, rest: seq<Byte>)
    requires IsHigh(high) && IsLow(low)
    ensures ReadPoint(Utf8Pair(high, low) + rest) == Some(([high, low], rest))
  {
    var p := PairPoint(high, low);
    SplitPoint(p);
    var t := Utf8Pair(high, low) + rest;
    assert t[0] as int == 0xF0 + p / 0x4_0000;
    assert Payload(t, 1) == p / 0x1000 % 0x40 && Payload(t, 2) == p / 0x40 % 0x40 && Payload(t, 3) == p % 0x40;
    assert t[4..] == rest;
  }

  /** Decoding gives back the string with its lone surrogates replaced, and nothing else changed. */
  lemma {:induction false} Utf8RoundTrip(s: JsString)
    ensures FromUtf8(Utf8(s)) == Some(Scrub(s))
  {
    if s == [] {
    } else if StartsWithPair(s) {
      ReadPair(s[0], s[1], Utf8(s[2..]));
      Utf8RoundTrip(s[2..]);
      assert s[..2] == [s[0], s[1]];
    } else {
      ReadUnit(s[0], Utf8(s[1..]));
      Utf8RoundTrip(s[1..]);
    }
  }

  lemma ScrubWellFormed(s: JsString)
    requires WellFormed(s)
    ensures Scrub(s) == s
  {
  }

  lemma {:induction false} Utf8OfScrub(s: JsString)
    ensures Utf8(Scrub(s)) == Utf8(s)
  {
    var r := Scrub(s);
    if s == [] {
    } else if StartsWithPair(s) {
      Utf8OfScrub(s[2..]);
      assert r[2..] == Scrub(s[2..]);
    } else {
      Utf8OfScrub(s[1..]);
      assert r[1..] == Scrub(s[1..]);
      assert !StartsWithPair(r);
    }
  }

  /** Two strings have the same UTF-8 bytes exactly when they agree once lone surrogates merge. */
  lemma Utf8Separates(a: JsString, b: JsString)
    ensures Utf8(a) == Utf8(b) <==> Scrub(a) == Scrub(b)
  {
    Utf8RoundTrip(a);
    Utf8RoundTrip(b);
    Utf8OfScrub(a);
    Utf8OfScrub(b);
  }
}
