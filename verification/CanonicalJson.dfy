/**
 packages/cache/src/canonical-json.ts: the sorted-key JSON printer, and a parser for its output.
 Objects keep their members in construction order, so "equal up to member order" is a real relation
 here and not the equality of a map.
 */
module CanonicalJson {
  import opened Results
  import opened JsStrings
  import opened Decimals
  import opened JsNumbers
  import Sorting
  import Collections

  /**
   A JavaScript value as the encoder tells them apart. `Num` is a finite number; `NonFinite` is NaN
   or an infinity; `Opaque` is a function or a symbol.
   */
  datatype Json =
    | Null
    | Bool(b: bool)
    | Num(x: JsNumber)
    | NonFinite
    | Str(s: JsString)
    | Arr(items: seq<Json>)
    | Obj(members: seq<Member>)
    | Undefined
    | Opaque

  datatype Member = Member(key: JsString, value: Json)

  datatype EncodeError = NonFiniteNumber | UndefinedMember(key: JsString) | UnsupportedType

  const QUOTE: CodeUnit := 0x22
  const COMMA: CodeUnit := 0x2C
  const COLON: CodeUnit := 0x3A
  const LBRACKET: CodeUnit := 0x5B
  const BACKSLASH: CodeUnit := 0x5C
  const RBRACKET: CodeUnit := 0x5D
  const LBRACE: CodeUnit := 0x7B
  const RBRACE: CodeUnit := 0x7D
  const NULL_TEXT: JsString := [0x6E, 0x75, 0x6C, 0x6C]
  const TRUE_TEXT: JsString := [0x74, 0x72, 0x75, 0x65]
  const FALSE_TEXT: JsString := [0x66, 0x61, 0x6C, 0x73, 0x65]

  // ----- JSON.stringify on strings and numbers -----

  function HexDigit(d: int): (u: CodeUnit)
    requires 0 <= d < 16
  {
    (if d < 10 then 0x30 + d else 0x61 + d - 10) as CodeUnit
  }

  function UnicodeEscape(u: CodeUnit): JsString {
    var n := u as int;
    [BACKSLASH, 0x75, HexDigit(n / 0x1000), HexDigit(n / 0x100 % 0x10), HexDigit(n / 0x10 % 0x10), HexDigit(n % 0x10)]
  }

  /** One code unit that is not half of a surrogate pair. */
  function EscapeUnit(u: CodeUnit): (r: JsString)
    ensures r != []
  {
    if u == QUOTE || u == BACKSLASH then [BACKSLASH, u]
    else if u == 0x08 then [BACKSLASH, 0x62]
    else if u == 0x09 then [BACKSLASH, 0x74]
    else if u == 0x0A then [BACKSLASH, 0x6E]
    else if u == 0x0C then [BACKSLASH, 0x66]
    else if u == 0x0D then [BACKSLASH, 0x72]
    else if u < 0x20 || IsSurrogate(u) then UnicodeEscape(u)
    else [u]
  }

  function Escape(s: JsString): JsString {
    if s == [] then []
    else if StartsWithPair(s) then s[..2] + Escape(s[2..])
    else EscapeUnit(s[0]) + Escape(s[1..])
  }

  function Quote(s: JsString): JsString {
    [QUOTE] + Escape(s) + [QUOTE]
  }

  // ----- The encoder -----

  predicate KeyLess(a: Member, b: Member) {
    Less(a.key, b.key)
  }

  function Encode(v: Json): Result<JsString, EncodeError>
    decreases v
  {
    match v
    case Null => Ok(NULL_TEXT)
    case Str(s) => Ok(Quote(s))
    case NonFinite => Err(NonFiniteNumber)
    case Num(x) => Ok(PrintNumber(x))
    case Bool(b) => Ok(if b then TRUE_TEXT else FALSE_TEXT)
    case Arr(items) =>
      var parts :- EncodeItems(items);
      Ok([LBRACKET] + Join(parts) + [RBRACKET])
    case Obj(members) =>
      var sorted := SortMembers(members);
      var parts :- EncodeMembers(v, sorted);
      Ok([LBRACE] + Join(parts) + [RBRACE])
    case Undefined => Err(UnsupportedType)
    case Opaque => Err(UnsupportedType)
  }

  /** `Object.keys(obj).sort()`, each key with its member. */
  function SortMembers(members: seq<Member>): (sorted: seq<Member>)
    ensures |sorted| == |members| && forall m :: m in sorted <==> m in members
  {
    Sorting.SameElements(Sorting.Sort(KeyLess, members), members);
    Sorting.Sort(KeyLess, members)
  }

  function EncodeItems(items: seq<Json>): (r: Result<seq<JsString>, EncodeError>)
    ensures r.Ok? ==> |r.value| == |items|
    decreases items
  {
    if items == [] then Ok([])
    else
      var first :- Encode(items[0]);
      var others :- EncodeItems(items[1..]);
      Ok([first] + others)
  }

  function EncodeMembers(parent: Json, members: seq<Member>): (r: Result<seq<JsString>, EncodeError>)
    requires forall m | m in members :: m.value < parent
    ensures r.Ok? ==> |r.value| == |members|
    decreases parent, |members|
  {
    if members == [] then Ok([])
    else if members[0].value.Undefined? then Err(UndefinedMember(members[0].key))
    else
      var text :- Encode(members[0].value);
      var others :- EncodeMembers(parent, members[1..]);
      Ok([Quote(members[0].key) + [COLON] + text] + others)
  }

  /** `parts.join(',')` */
  function Join(parts: seq<JsString>): JsString {
    if parts == [] then []
    else if |parts| == 1 then parts[0]
    else parts[0] + [COMMA] + Join(parts[1..])
  }

  // ----- When values are the same -----

  function Keys(members: seq<Member>): set<JsString> {
    set m | m in members :: m.key
  }

  ghost predicate DistinctKeys(members: seq<Member>) {
    forall i, j | 0 <= i < j < |members| :: members[i].key != members[j].key
  }

  /** What every JavaScript value satisfies: an object has each key once. */
  ghost predicate UniqueKeys(v: Json)
    decreases v
  {
    match v
    case Arr(items) => forall x | x in items :: UniqueKeys(x)
    case Obj(members) => DistinctKeys(members) && forall m | m in members :: UniqueKeys(m.value)
    case _ => true
  }

  /** Equality up to the order of object members, at every depth. */
  ghost predicate SameValue(a: Json, b: Json)
    decreases a
  {
    match a
    case Arr(items) =>
      b.Arr? && |items| == |b.items| && forall i | 0 <= i < |items| :: SameValue(items[i], b.items[i])
    case Obj(members) =>
      b.Obj? && Keys(members) == Keys(b.members)
      && forall m, m' | m in members && m' in b.members && m.key == m'.key :: SameValue(m.value, m'.value)
    case _ => a == b
  }

  /** Every part of the value has a JSON form. */
  ghost predicate Representable(v: Json)
    decreases v
  {
    match v
    case Arr(items) => forall x | x in items :: Representable(x)
    case Obj(members) => forall m | m in members :: Representable(m.value)
    case NonFinite => false
    case Undefined => false
    case Opaque => false
    case _ => true
  }

  /** The value with the members of every object in key order. */
  function Normal(v: Json): Json
    decreases v
  {
    match v
    case Arr(items) => Arr(NormalItems(items))
    case Obj(members) => Obj(NormalMembers(v, SortMembers(members)))
    case _ => v
  }

  function NormalItems(items: seq<Json>): (r: seq<Json>)
    ensures |r| == |items| && forall i | 0 <= i < |r| :: r[i] == Normal(items[i])
    decreases items
  {
    if items == [] then [] else [Normal(items[0])] + NormalItems(items[1..])
  }

  function NormalMembers(parent: Json, members: seq<Member>): (r: seq<Member>)
    requires forall m | m in members :: m.value < parent
    ensures |r| == |members|
    ensures forall i | 0 <= i < |r| :: r[i] == Member(members[i].key, Normal(members[i].value))
    decreases parent, |members|
  {
    if members == [] then []
    else [Member(members[0].key, Normal(members[0].value))] + NormalMembers(parent, members[1..])
  }

  // ----- A parser for the printed form -----

  function HexValue(u: CodeUnit): (r: Option<int>)
    ensures r.Some? ==> 0 <= r.value < 16
  {
    if 0x30 <= u <= 0x39 then Some(u as int - 0x30)
    else if 0x61 <= u <= 0x66 then Some(u as int - 0x61 + 10)
    else None
  }

  function ParseHex4(t: JsString): Option<CodeUnit>
    requires |t| >= 4
  {
    var a :- HexValue(t[0]);
    var b :- HexValue(t[1]);
    var c :- HexValue(t[2]);
    var d :- HexValue(t[3]);
    Some((a * 0x1000 + b * 0x100 + c * 0x10 + d) as CodeUnit)
  }

  /** One possibly escaped code unit, and how many code units of text it took. */
  function ParseUnit(t: JsString): (r: Option<(CodeUnit, nat)>)
    ensures r.Some? ==> 1 <= r.value.1 <= |t|
  {
    if t == [] || t[0] == QUOTE then None
    else if t[0] != BACKSLASH then Some((t[0], 1))
    else if |t| < 2 then None
    else if t[1] == QUOTE || t[1] == BACKSLASH then Some((t[1], 2))
    else if t[1] == 0x62 then Some((0x08, 2))
    else if t[1] == 0x74 then Some((0x09, 2))
    else if t[1] == 0x6E then Some((0x0A, 2))
    else if t[1] == 0x66 then Some((0x0C, 2))
    else if t[1] == 0x72 then Some((0x0D, 2))
    else if t[1] == 0x75 && |t| >= 6 then
      var u :- ParseHex4(t[2..6]);
      Some((u, 6))
    else None
  }

  /** The rest of a string literal whose opening quote has been read. */
  function ParseString(t: JsString): (r: Option<(JsString, JsString)>)
    ensures r.Some? ==> |r.value.1| < |t|
    decreases |t|
  {
    if t != [] && t[0] == QUOTE then Some(([], t[1..]))
    else
      var (u, used) :- ParseUnit(t);
      var (units, rest) :- ParseString(t[used..]);
      Some(([u] + units, rest))
  }

  function Expect(t: JsString, text: JsString): (r: Option<JsString>)
    ensures r.Some? ==> |r.value| + |text| == |t|
  {
    if text <= t then Some(t[|text|..]) else None
  }

  function ParseNumber(t: JsString): (r: Option<(Json, JsString)>)
    ensures r.Some? ==> |r.value.1| < |t|
  {
    match ParseJsNumber(t)
    case None => None
    case Some(p) => Some((Num(p.0), p.1))
  }

  function ParseValue(t: JsString): (r: Option<(Json, JsString)>)
    ensures r.Some? ==> |r.value.1| < |t|
    decreases |t|, 1
  {
    if t == [] then None
    else if IsDigit(t[0]) || t[0] == MINUS then ParseNumber(t)
    else if t[0] == QUOTE then
      var (s, rest) :- ParseString(t[1..]);
      Some((Str(s), rest))
    else if t[0] == LBRACKET then
      if |t| >= 2 && t[1] == RBRACKET then Some((Arr([]), t[2..]))
      else
        var (items, rest) :- ParseItems(t[1..]);
        Some((Arr(items), rest))
    else if t[0] == LBRACE then
      if |t| >= 2 && t[1] == RBRACE then Some((Obj([]), t[2..]))
      else
        var (members, rest) :- ParseMembers(t[1..]);
        Some((Obj(members), rest))
    else if t[0] == NULL_TEXT[0] then
      var rest :- Expect(t, NULL_TEXT);
      Some((Null, rest))
    else if t[0] == TRUE_TEXT[0] then
      var rest :- Expect(t, TRUE_TEXT);
      Some((Bool(true), rest))
    else if t[0] == FALSE_TEXT[0] then
      var rest :- Expect(t, FALSE_TEXT);
      Some((Bool(false), rest))
    else None
  }

  /** One or more comma-separated values up to and including the closing bracket. */
  function ParseItems(t: JsString): (r: Option<(seq<Json>, JsString)>)
    ensures r.Some? ==> |r.value.1| < |t|
    decreases |t|, 2
  {
    var (v, rest) :- ParseValue(t);
    if rest == [] then None
    else if rest[0] == RBRACKET then Some(([v], rest[1..]))
    else if rest[0] == COMMA then
      var (items, rest') :- ParseItems(rest[1..]);
      Some(([v] + items, rest'))
    else None
  }

  function ParseMembers(t: JsString): (r: Option<(seq<Member>, JsString)>)
    ensures r.Some? ==> |r.value.1| < |t|
    decreases |t|, 2
  {
    var afterQuote :- Expect(t, [QUOTE]);
    var (key, afterKey) :- ParseString(afterQuote);
    var afterColon :- Expect(afterKey, [COLON]);
    var (v, rest) :- ParseValue(afterColon);
    if rest == [] then None
    else if rest[0] == RBRACE then Some(([Member(key, v)], rest[1..]))
    else if rest[0] == COMMA then
      var (members, rest') :- ParseMembers(rest[1..]);
      Some(([Member(key, v)] + members, rest'))
    else None
  }

  // ----- Printing then parsing -----

  lemma ReadHexDigit(d: int)
    requires 0 <= d < 16
    ensures HexValue(HexDigit(d)) == Some(d)
  {
  }

  lemma HexSum(n: int)
    requires 0 <= n < 0x1_0000
    ensures n / 0x1000 < 0x10
    ensures n == n / 0x1000 * 0x1000 + n / 0x100 % 0x10 * 0x100 + n / 0x10 % 0x10 * 0x10 + n % 0x10
  {
    assert n / 0x100 == n / 0x1000 * 0x10 + n / 0x100 % 0x10;
    assert n / 0x10 == n / 0x100 * 0x10 + n / 0x10 % 0x10;
  }

  lemma ParseHexDigits(u: CodeUnit)
    ensures ParseHex4(UnicodeEscape(u)[2..]) == Some(u)
  {
    var n := u as int;
    HexSum(n);
    ReadHexDigit(n / 0x1000);
    ReadHexDigit(n / 0x100 % 0x10);
    ReadHexDigit(n / 0x10 % 0x10);
    ReadHexDigit(n % 0x10);
    var t := UnicodeEscape(u)[2..];
    assert t == [HexDigit(n / 0x1000), HexDigit(n / 0x100 % 0x10), HexDigit(n / 0x10 % 0x10), HexDigit(n % 0x10)];
  }

  lemma ParseUnicodeEscape(u: CodeUnit, rest: JsString)
    ensures ParseUnit(UnicodeEscape(u) + rest) == Some((u, 6))
  {
    ParseHexDigits(u);
    assert (UnicodeEscape(u) + rest)[2..6] == UnicodeEscape(u)[2..];
  }

  lemma ParseEscapedUnit(u: CodeUnit, rest: JsString)
    ensures EscapeUnit(u)[0] != QUOTE
    ensures ParseUnit(EscapeUnit(u) + rest) == Some((u, |EscapeUnit(u)|))
  {
    if |EscapeUnit(u)| == 6 {
      ParseUnicodeEscape(u, rest);
    }
  }

  lemma ParseStringStep(t: JsString, u: CodeUnit, used: nat, units: JsString, rest: JsString)
    requires ParseUnit(t) == Some((u, used)) && ParseString(t[used..]) == Some((units, rest))
    ensures ParseString(t) == Some(([u] + units, rest))
  {
  }

  lemma ParseRawUnit(u: CodeUnit, inner: JsString, units: JsString, rest: JsString)
    requires u != QUOTE && u != BACKSLASH && ParseString(inner) == Some((units, rest))
    ensures ParseString([u] + inner) == Some(([u] + units, rest))
  {
    assert ([u] + inner)[1..] == inner;
    ParseStringStep([u] + inner, u, 1, units, rest);
  }

  lemma ParsePair(high: CodeUnit, low: CodeUnit, inner: JsString, units: JsString, rest: JsString)
    requires IsHigh(high) && IsLow(low) && ParseString(inner) == Some((units, rest))
    ensures ParseString([high, low] + inner) == Some(([high, low] + units, rest))
  {
    ParseRawUnit(low, inner, units, rest);
    ParseRawUnit(high, [low] + inner, [low] + units, rest);
    assert [high, low] + inner == [high] + ([low] + inner);
    assert [high, low] + units == [high] + ([low] + units);
  }

  lemma ParseEscape(u: CodeUnit, inner: JsString, units: JsString, rest: JsString)
    requires ParseString(inner) == Some((units, rest))
    ensures ParseString(EscapeUnit(u) + inner) == Some(([u] + units, rest))
  {
    var e := EscapeUnit(u);
    ParseEscapedUnit(u, inner);
    assert (e + inner)[|e|..] == inner;
    ParseStringStep(e + inner, u, |e|, units, rest);
  }

  lemma {:induction false} ParseEscaped(s: JsString, rest: JsString)
    ensures ParseString(Escape(s) + ([QUOTE] + rest)) == Some((s, rest))
  {
    var after := [QUOTE] + rest;
    if s == [] {
      assert Escape(s) + after == after;
    } else {
      var k := if StartsWithPair(s) then 2 else 1;
      var inner := Escape(s[k..]) + after;
      ParseEscaped(s[k..], rest);
      if k == 2 {
        ParsePair(s[0], s[1], inner, s[2..], rest);
      } else {
        ParseEscape(s[0], inner, s[1..], rest);
      }
      EscapeSplit(s, after);
    }
  }

  lemma EscapeSplit(s: JsString, after: JsString)
    requires s != []
    ensures StartsWithPair(s) ==> Escape(s) + after == [s[0], s[1]] + (Escape(s[2..]) + after)
    ensures !StartsWithPair(s) ==> Escape(s) + after == EscapeUnit(s[0]) + (Escape(s[1..]) + after)
    ensures StartsWithPair(s) ==> s == [s[0], s[1]] + s[2..]
    ensures s == [s[0]] + s[1..]
  {
    if StartsWithPair(s) {
      assert s[..2] == [s[0], s[1]];
      Collections.Associative([s[0], s[1]], Escape(s[2..]), after);
    } else {
      Collections.Associative(EscapeUnit(s[0]), Escape(s[1..]), after);
    }
  }

  /** The first code unit of a printed value is never a closing bracket or brace. */
  lemma FirstUnit(v: Json)
    requires Encode(v).Ok?
    ensures Encode(v).value != [] && Encode(v).value[0] != RBRACKET && Encode(v).value[0] != RBRACE
  {
    if v.Num? {
      NumberRoundTrip(v.x, []);
    }
  }

  lemma ParseLastItem(t: JsString, v: Json, rest: JsString)
    requires ParseValue(t) == Some((v, [RBRACKET] + rest))
    ensures ParseItems(t) == Some(([v], rest))
  {
    assert ([RBRACKET] + rest)[1..] == rest;
  }

  lemma ParseMoreItems(t: JsString, v: Json, inner: JsString, items: seq<Json>, rest: JsString)
    requires ParseValue(t) == Some((v, [COMMA] + inner)) && ParseItems(inner) == Some((items, rest))
    ensures ParseItems(t) == Some(([v] + items, rest))
  {
    assert ([COMMA] + inner)[1..] == inner;
  }

  lemma ParseLastMember(key: JsString, t: JsString, v: Json, rest: JsString)
    requires ParseValue(t) == Some((v, [RBRACE] + rest))
    ensures ParseMembers(Quote(key) + ([COLON] + t)) == Some(([Member(key, v)], rest))
  {
    ParseKey(key, t);
    assert ([RBRACE] + rest)[1..] == rest;
  }

  lemma ParseMoreMembers(key: JsString, t: JsString, v: Json, inner: JsString, members: seq<Member>, rest: JsString)
    requires ParseValue(t) == Some((v, [COMMA] + inner)) && ParseMembers(inner) == Some((members, rest))
    ensures ParseMembers(Quote(key) + ([COLON] + t)) == Some(([Member(key, v)] + members, rest))
  {
    ParseKey(key, t);
    assert ([COMMA] + inner)[1..] == inner;
  }

  lemma ParseKey(key: JsString, t: JsString)
    ensures Expect(Quote(key) + ([COLON] + t), [QUOTE]).Some?
    ensures ParseString(Expect(Quote(key) + ([COLON] + t), [QUOTE]).value) == Some((key, [COLON] + t))
    ensures Expect([COLON] + t, [COLON]) == Some(t)
  {
    ParseEscaped(key, [COLON] + t);
    QuotedText(key, [COLON] + t);
    ExpectFirst(QUOTE, Escape(key) + ([QUOTE] + ([COLON] + t)));
    ExpectFirst(COLON, t);
  }

  lemma ExpectFirst(u: CodeUnit, t: JsString)
    ensures Expect([u] + t, [u]) == Some(t)
  {
    assert ([u] + t)[1..] == t;
  }

  lemma QuotedText(s: JsString, rest: JsString)
    ensures Quote(s) + rest == [QUOTE] + (Escape(s) + ([QUOTE] + rest))
  {
  }

  lemma ParseArray(inner: JsString, items: seq<Json>, rest: JsString)
    requires inner != [] && inner[0] != RBRACKET && ParseItems(inner) == Some((items, rest))
    ensures ParseValue([LBRACKET] + inner) == Some((Arr(items), rest))
  {
    assert ([LBRACKET] + inner)[1..] == inner;
  }

  lemma ParseObject(inner: JsString, members: seq<Member>, rest: JsString)
    requires inner != [] && inner[0] != RBRACE && ParseMembers(inner) == Some((members, rest))
    ensures ParseValue([LBRACE] + inner) == Some((Obj(members), rest))
  {
    assert ([LBRACE] + inner)[1..] == inner;
  }

  lemma ParseLiteral(v: Json, rest: JsString)
    requires v.Null? || v.Bool?
    ensures ParseValue(Encode(v).value + rest) == Some((v, rest))
  {
    var text := Encode(v).value;
    assert (text + rest)[|text|..] == rest;
    assert text <= text + rest;
  }

  lemma ParseQuoted(s: JsString, rest: JsString)
    ensures ParseValue(Quote(s) + rest) == Some((Str(s), rest))
  {
    ParseEscaped(s, rest);
    QuotedText(s, rest);
    ParseOpenQuote(Escape(s) + ([QUOTE] + rest), s, rest);
  }

  lemma ParseOpenQuote(inner: JsString, s: JsString, rest: JsString)
    requires ParseString(inner) == Some((s, rest))
    ensures ParseValue([QUOTE] + inner) == Some((Str(s), rest))
  {
    assert ([QUOTE] + inner)[1..] == inner;
  }

  lemma JoinFirst(parts: seq<JsString>, after: JsString)
    requires parts != []
    ensures |parts| == 1 ==> Join(parts) + after == parts[0] + after
    ensures |parts| > 1 ==> Join(parts) + after == parts[0] + ([COMMA] + (Join(parts[1..]) + after))
  {
    if |parts| > 1 {
      Collections.Associative(parts[0] + [COMMA], Join(parts[1..]), after);
      Collections.Associative(parts[0], [COMMA], Join(parts[1..]) + after);
    }
  }

  /** Parsing what was printed gives the value back, its members in key order, and the text after it. */
  lemma {:induction false} ParsePrinted(v: Json, rest: JsString)
    requires Encode(v).Ok? && EndsNumber(rest)
    ensures ParseValue(Encode(v).value + rest) == Some((Normal(v), rest))
    decreases v
  {
    match v
    case Str(s) => ParseQuoted(s, rest);
    case Num(x) => ParsePrintedNumber(x, rest);
    case Arr(items) => ParsePrintedArray(v, rest);
    case Obj(members) => ParsePrintedObject(v, rest);
    case _ => ParseLiteral(v, rest);
  }

  lemma ParsePrintedNumber(x: JsNumber, rest: JsString)
    requires EndsNumber(rest)
    ensures ParseValue(PrintNumber(x) + rest) == Some((Num(x), rest))
  {
    NumberRoundTrip(x, rest);
    ParseUnquoted(PrintNumber(x) + rest);
  }

  lemma ParseUnquoted(t: JsString)
    requires t != [] && (IsDigit(t[0]) || t[0] == MINUS)
    ensures ParseValue(t) == ParseNumber(t)
  {
  }

  lemma {:induction false} ParsePrintedArray(v: Json, rest: JsString)
    requires v.Arr? && Encode(v).Ok?
    ensures ParseValue(Encode(v).value + rest) == Some((Normal(v), rest))
    decreases v, 0
  {
    var parts := EncodeItems(v.items).value;
    var after := [RBRACKET] + rest;
    assert Encode(v).value + rest == [LBRACKET] + (Join(parts) + after);
    if v.items == [] {
      assert ([LBRACKET] + (Join(parts) + after))[2..] == rest;
    } else {
      ParsePrintedItems(v.items, rest);
      FirstUnit(v.items[0]);
      JoinFirst(parts, after);
      ParseArray(Join(parts) + after, NormalItems(v.items), rest);
    }
  }

  lemma {:induction false} ParsePrintedObject(v: Json, rest: JsString)
    requires v.Obj? && Encode(v).Ok?
    ensures ParseValue(Encode(v).value + rest) == Some((Normal(v), rest))
    decreases v, |v.members| + 1
  {
    var sorted := SortMembers(v.members);
    var parts := EncodeMembers(v, sorted).value;
    var after := [RBRACE] + rest;
    assert Encode(v).value + rest == [LBRACE] + (Join(parts) + after);
    if sorted == [] {
      assert ([LBRACE] + (Join(parts) + after))[2..] == rest;
    } else {
      ParsePrintedMembers(v, sorted, rest);
      JoinFirst(parts, after);
      ParseObject(Join(parts) + after, NormalMembers(v, sorted), rest);
    }
  }

  lemma {:induction false} ParsePrintedItems(items: seq<Json>, rest: JsString)
    requires items != [] && EncodeItems(items).Ok?
    ensures ParseItems(Join(EncodeItems(items).value) + ([RBRACKET] + rest)) == Some((NormalItems(items), rest))
    decreases items
  {
    var parts := EncodeItems(items).value;
    var after := [RBRACKET] + rest;
    JoinFirst(parts, after);
    if |items| == 1 {
      ParsePrinted(items[0], after);
      ParseLastItem(parts[0] + after, Normal(items[0]), rest);
      assert NormalItems(items) == [Normal(items[0])];
    } else {
      var inner := Join(parts[1..]) + after;
      assert EncodeItems(items[1..]) == Ok(parts[1..]);
      ParsePrintedItems(items[1..], rest);
      ParsePrinted(items[0], [COMMA] + inner);
      ParseMoreItems(parts[0] + ([COMMA] + inner), Normal(items[0]), inner, NormalItems(items[1..]), rest);
    }
  }

  lemma {:induction false} ParsePrintedMembers(parent: Json, members: seq<Member>, rest: JsString)
    requires members != [] && (forall m | m in members :: m.value < parent)
    requires EncodeMembers(parent, members).Ok?
    ensures EncodeMembers(parent, members).value[0][0] == QUOTE
    ensures ParseMembers(Join(EncodeMembers(parent, members).value) + ([RBRACE] + rest))
         == Some((NormalMembers(parent, members), rest))
    decreases parent, |members|
  {
    var m, parts := members[0], EncodeMembers(parent, members).value;
    var text := Encode(m.value).value;
    var after := [RBRACE] + rest;
    FirstMember(parent, members);
    JoinFirst(parts, after);
    if |members| == 1 {
      ParsePrinted(m.value, after);
      ParseLastMember(m.key, text + after, Normal(m.value), rest);
      MemberText(m.key, text, after);
    } else {
      var inner := Join(parts[1..]) + after;
      var next := [COMMA] + inner;
      ParsePrintedMembers(parent, members[1..], rest);
      ParsePrinted(m.value, next);
      ParseMoreMembers(m.key, text + next, Normal(m.value), inner, NormalMembers(parent, members[1..]), rest);
      MemberText(m.key, text, next);
    }
  }

  lemma MemberText(key: JsString, text: JsString, after: JsString)
    ensures (Quote(key) + [COLON] + text) + after == Quote(key) + ([COLON] + (text + after))
  {
  }

  lemma FirstMember(parent: Json, members: seq<Member>)
    requires members != [] && (forall m | m in members :: m.value < parent)
    requires EncodeMembers(parent, members).Ok?
    ensures Encode(members[0].value).Ok?
    ensures forall m | m in members[1..] :: m.value < parent
    ensures EncodeMembers(parent, members[1..]) == Ok(EncodeMembers(parent, members).value[1..])
    ensures EncodeMembers(parent, members).value[0]
         == Quote(members[0].key) + [COLON] + Encode(members[0].value).value
    ensures NormalMembers(parent, members)
         == [Member(members[0].key, Normal(members[0].value))] + NormalMembers(parent, members[1..])
    ensures |members| == 1
        ==> NormalMembers(parent, members) == [Member(members[0].key, Normal(members[0].value))]
  {
  }

  // ----- Which values have a printed form -----

  lemma {:induction false} EncodesRepresentable(v: Json)
    ensures Encode(v).Ok? <==> Representable(v)
    decreases v
  {
    match v
    case Arr(items) =>
      forall x | x in items ensures Encode(x).Ok? <==> Representable(x) {
        EncodesRepresentable(x);
      }
      EncodesItems(items);
    case Obj(members) =>
      forall m | m in members ensures Encode(m.value).Ok? <==> Representable(m.value) {
        EncodesRepresentable(m.value);
      }
      EncodesMembers(v, SortMembers(members));
    case _ =>
  }

  lemma {:induction false} EncodesItems(items: seq<Json>)
    ensures EncodeItems(items).Ok? <==> forall i | 0 <= i < |items| :: Encode(items[i]).Ok?
  {
    if items != [] {
      var rest := items[1..];
      EncodesItems(rest);
      assert forall i | 0 <= i < |rest| :: rest[i] == items[i + 1];
      assert forall i | 1 <= i < |items| :: items[i] == rest[i - 1];
    }
  }

  lemma {:induction false} EncodesMembers(parent: Json, members: seq<Member>)
    requires forall m | m in members :: m.value < parent
    ensures EncodeMembers(parent, members).Ok? <==> forall m | m in members :: Encode(m.value).Ok?
    decreases |members|
  {
    if members != [] {
      assert forall m :: m in members <==> m == members[0] || m in members[1..];
      EncodesMembers(parent, members[1..]);
    }
  }

  // ----- Equal normal forms are equality up to member order -----

  function KeySeq(members: seq<Member>): (r: seq<JsString>)
    ensures |r| == |members|
  {
    seq(|members|, i requires 0 <= i < |members| => members[i].key)
  }

  lemma SortedKeys(members: seq<Member>)
    requires DistinctKeys(members)
    ensures Sorting.StrictlySorted(Less, KeySeq(SortMembers(members)))
  {
    forall x, y | x in members && y in members && x != y ensures KeyLess(x, y) != KeyLess(y, x) {
      LessTotal(x.key, y.key);
    }
    forall x | x in members ensures !KeyLess(x, x) {
      LessTotal(x.key, x.key);
    }
    forall x, y, z | KeyLess(x, y) && KeyLess(y, z) ensures KeyLess(x, z) {
      LessTransitive(x.key, y.key, z.key);
    }
    Sorting.SortIsStrict(KeyLess, members);
  }

  lemma StringsOrdered(keys: seq<JsString>)
    ensures Sorting.OrdersElements(Less, keys)
  {
    forall x, y | x != y ensures Less(x, y) != Less(y, x) {
      LessTotal(x, y);
    }
    forall x ensures !Less(x, x) {
      LessTotal(x, x);
    }
    forall x, y, z | Less(x, y) && Less(y, z) ensures Less(x, z) {
      LessTransitive(x, y, z);
    }
  }

  lemma KeySeqElements(members: seq<Member>)
    ensures forall k :: k in KeySeq(SortMembers(members)) <==> k in Keys(members)
  {
    var sorted := SortMembers(members);
    var ks := KeySeq(sorted);
    forall k | k in ks ensures k in Keys(members) {
      var i :| 0 <= i < |ks| && ks[i] == k;
      assert sorted[i] in members;
    }
    forall k | k in Keys(members) ensures k in ks {
      var m :| m in members && m.key == k;
      assert m in sorted;
      var i :| 0 <= i < |sorted| && sorted[i] == m;
      assert ks[i] == k;
    }
  }

  /** Objects with the same keys sort them into the same list. */
  lemma SameKeysSortAlike(a: seq<Member>, b: seq<Member>)
    requires DistinctKeys(a) && DistinctKeys(b)
    ensures Keys(a) == Keys(b) <==> KeySeq(SortMembers(a)) == KeySeq(SortMembers(b))
  {
    SortedKeys(a);
    SortedKeys(b);
    KeySeqElements(a);
    KeySeqElements(b);
    var ka, kb := KeySeq(SortMembers(a)), KeySeq(SortMembers(b));
    if Keys(a) == Keys(b) {
      StringsOrdered(ka);
      Sorting.StrictlySortedUnique(Less, ka, kb);
    }
  }

  lemma StrictIndex(keys: seq<JsString>, i: nat, j: nat)
    requires Sorting.StrictlySorted(Less, keys) && i < |keys| && j < |keys| && keys[i] == keys[j]
    ensures i == j
  {
    LessTotal(keys[i], keys[i]);
  }

  /** `m` and `m'` with one key stand at the same place in their sorted member lists. */
  lemma SamePlace(a: seq<Member>, b: seq<Member>, m: Member, m': Member) returns (i: nat)
    requires DistinctKeys(a) && KeySeq(SortMembers(a)) == KeySeq(SortMembers(b))
    requires m in a && m' in b && m.key == m'.key
    ensures i < |a| == |b| && SortMembers(a)[i] == m && SortMembers(b)[i] == m'
  {
    var sa, sb := SortMembers(a), SortMembers(b);
    assert |KeySeq(sa)| == |KeySeq(sb)|;
    assert m in sa && m' in sb;
    i :| 0 <= i < |sa| && sa[i] == m;
    var j :| 0 <= j < |sb| && sb[j] == m';
    SortedKeys(a);
    assert KeySeq(sa)[i] == m.key && KeySeq(sa)[j] == KeySeq(sb)[j] == m'.key;
    StrictIndex(KeySeq(sa), i, j);
  }

  lemma {:induction false} NormalDecides(a: Json, b: Json)
    requires UniqueKeys(a) && UniqueKeys(b)
    ensures SameValue(a, b) <==> Normal(a) == Normal(b)
    decreases a
  {
    if a.Arr? && b.Arr? && |a.items| == |b.items| {
      forall i | 0 <= i < |a.items|
        ensures SameValue(a.items[i], b.items[i]) <==> Normal(a.items[i]) == Normal(b.items[i])
      {
        NormalDecides(a.items[i], b.items[i]);
      }
      NormalItemsEqual(a.items, b.items);
    } else if a.Obj? && b.Obj? {
      forall m, m' | m in a.members && m' in b.members
        ensures SameValue(m.value, m'.value) <==> Normal(m.value) == Normal(m'.value)
      {
        NormalDecides(m.value, m'.value);
      }
      SameKeysSortAlike(a.members, b.members);
      NormalMembersEqual(a, b);
    }
  }

  lemma NormalItemsEqual(a: seq<Json>, b: seq<Json>)
    requires |a| == |b|
    ensures NormalItems(a) == NormalItems(b) <==> forall i | 0 <= i < |a| :: Normal(a[i]) == Normal(b[i])
  {
    var na, nb := NormalItems(a), NormalItems(b);
    if na == nb {
      forall i | 0 <= i < |a| ensures Normal(a[i]) == Normal(b[i]) {
        assert na[i] == nb[i];
      }
    }
  }

  lemma NormalMembersEqual(a: Json, b: Json)
    requires a.Obj? && b.Obj? && DistinctKeys(a.members) && DistinctKeys(b.members)
    ensures Normal(a) == Normal(b)
       <==> KeySeq(SortMembers(a.members)) == KeySeq(SortMembers(b.members))
            && forall m, m' | m in a.members && m' in b.members && m.key == m'.key ::
                 Normal(m.value) == Normal(m'.value)
  {
    var sa, sb := SortMembers(a.members), SortMembers(b.members);
    if Normal(a) == Normal(b) {
      NormalMembersAgree(a, b);
      forall m, m' | m in a.members && m' in b.members && m.key == m'.key
        ensures Normal(m.value) == Normal(m'.value)
      {
        var i := SamePlace(a.members, b.members, m, m');
      }
    } else if KeySeq(sa) == KeySeq(sb) {
      NormalMembersDiffer(a, b);
    }
  }

  /** `na` is `sa` with its values in normal form. */
  ghost predicate NormalizedTo(sa: seq<Member>, na: seq<Member>) {
    |na| == |sa| && forall i | 0 <= i < |na| :: na[i] == Member(sa[i].key, Normal(sa[i].value))
  }

  lemma NormalizedAgree(sa: seq<Member>, sb: seq<Member>, n: seq<Member>)
    requires NormalizedTo(sa, n) && NormalizedTo(sb, n)
    ensures KeySeq(sa) == KeySeq(sb)
    ensures forall i | 0 <= i < |sa| :: Normal(sa[i].value) == Normal(sb[i].value)
  {
    forall i | 0 <= i < |n| ensures sa[i].key == sb[i].key && Normal(sa[i].value) == Normal(sb[i].value) {
      assert n[i] == Member(sa[i].key, Normal(sa[i].value));
    }
  }

  lemma NormalizedDiffer(sa: seq<Member>, na: seq<Member>, sb: seq<Member>, nb: seq<Member>) returns (i: nat)
    requires NormalizedTo(sa, na) && NormalizedTo(sb, nb) && na != nb && KeySeq(sa) == KeySeq(sb)
    ensures i < |sa| == |sb| && sa[i].key == sb[i].key && Normal(sa[i].value) != Normal(sb[i].value)
  {
    assert |sa| == |KeySeq(sa)| == |KeySeq(sb)| == |sb|;
    i :| 0 <= i < |na| && na[i] != nb[i];
    assert KeySeq(sa)[i] == KeySeq(sb)[i];
  }

  lemma NormalMembersAgree(a: Json, b: Json)
    requires a.Obj? && b.Obj? && Normal(a) == Normal(b)
    ensures KeySeq(SortMembers(a.members)) == KeySeq(SortMembers(b.members))
    ensures forall i | 0 <= i < |a.members| && i < |b.members| ::
              Normal(SortMembers(a.members)[i].value) == Normal(SortMembers(b.members)[i].value)
  {
    NormalizedAgree(SortMembers(a.members), SortMembers(b.members), Normal(a).members);
  }

  lemma NormalMembersDiffer(a: Json, b: Json)
    requires a.Obj? && b.Obj? && Normal(a) != Normal(b)
    requires KeySeq(SortMembers(a.members)) == KeySeq(SortMembers(b.members))
    ensures exists m, m' :: m in a.members && m' in b.members && m.key == m'.key
              && Normal(m.value) != Normal(m'.value)
  {
    var sa, sb := SortMembers(a.members), SortMembers(b.members);
    NormalIsNormalized(a);
    NormalIsNormalized(b);
    var i := NormalizedDiffer(sa, Normal(a).members, sb, Normal(b).members);
    MemberBehind(a.members, i);
    MemberBehind(b.members, i);
  }

  lemma NormalIsNormalized(v: Json)
    requires v.Obj?
    ensures Normal(v).Obj? && NormalizedTo(SortMembers(v.members), Normal(v).members)
  {
  }

  lemma MemberBehind(members: seq<Member>, i: nat)
    requires i < |SortMembers(members)|
    ensures SortMembers(members)[i] in members
  {
  }

  // ----- Equal normal forms print alike -----

  lemma {:induction false} ItemsPrintAlike(a: seq<Json>, b: seq<Json>)
    requires |a| == |b| && forall i | 0 <= i < |a| :: Encode(a[i]) == Encode(b[i])
    ensures EncodeItems(a) == EncodeItems(b)
  {
    if a != [] {
      ItemsPrintAlike(a[1..], b[1..]);
    }
  }

  lemma {:induction false} MembersPrintAlike(p: Json, a: seq<Member>, q: Json, b: seq<Member>)
    requires (forall m | m in a :: m.value < p) && (forall m | m in b :: m.value < q)
    requires |a| == |b| && EncodeMembers(p, a).Ok? && EncodeMembers(q, b).Ok?
    requires forall i | 0 <= i < |a| :: a[i].key == b[i].key && Encode(a[i].value) == Encode(b[i].value)
    ensures EncodeMembers(p, a) == EncodeMembers(q, b)
  {
    if a != [] {
      MembersCons(p, a);
      MembersCons(q, b);
      TailsAlike(a, b, a[1..], b[1..]);
      MembersPrintAlike(p, a[1..], q, b[1..]);
    }
  }

  lemma TailsAlike(a: seq<Member>, b: seq<Member>, a': seq<Member>, b': seq<Member>)
    requires |a| == |b| > 0 && a' == a[1..] && b' == b[1..]
    requires forall i | 0 <= i < |a| :: a[i].key == b[i].key && Encode(a[i].value) == Encode(b[i].value)
    ensures forall i | 0 <= i < |a'| :: a'[i].key == b'[i].key && Encode(a'[i].value) == Encode(b'[i].value)
  {
    forall i | 0 <= i < |a'| ensures a'[i].key == b'[i].key && Encode(a'[i].value) == Encode(b'[i].value) {
      assert a'[i] == a[i + 1] && b'[i] == b[i + 1];
    }
  }

  lemma MembersCons(parent: Json, members: seq<Member>)
    requires members != [] && (forall m | m in members :: m.value < parent)
    requires EncodeMembers(parent, members).Ok?
    ensures Encode(members[0].value).Ok?
    ensures (forall m | m in members[1..] :: m.value < parent) && EncodeMembers(parent, members[1..]).Ok?
    ensures EncodeMembers(parent, members)
         == Ok([Quote(members[0].key) + [COLON] + Encode(members[0].value).value]
               + EncodeMembers(parent, members[1..]).value)
  {
  }

  lemma {:induction false} NormalPrintsAlike(a: Json, b: Json)
    requires Encode(a).Ok? && Encode(b).Ok? && Normal(a) == Normal(b)
    ensures Encode(a) == Encode(b)
    decreases a
  {
    EncodesRepresentable(a);
    EncodesRepresentable(b);
    if a.Arr? {
      assert |NormalItems(a.items)| == |NormalItems(b.items)|;
      NormalItemsEqual(a.items, b.items);
      forall i | 0 <= i < |a.items| ensures Encode(a.items[i]) == Encode(b.items[i]) {
        EncodesRepresentable(a.items[i]);
        EncodesRepresentable(b.items[i]);
        NormalPrintsAlike(a.items[i], b.items[i]);
      }
      ItemsPrintAlike(a.items, b.items);
    } else if a.Obj? {
      ObjectsPrintAlike(a, b);
    }
  }

  lemma {:induction false} ObjectsPrintAlike(a: Json, b: Json)
    requires a.Obj? && b.Obj? && Encode(a).Ok? && Encode(b).Ok? && Normal(a) == Normal(b)
    ensures Encode(a) == Encode(b)
    decreases a, 0
  {
    EncodesRepresentable(a);
    EncodesRepresentable(b);
    var sa, sb := SortMembers(a.members), SortMembers(b.members);
    NormalMembersAgree(a, b);
    assert |sa| == |KeySeq(sa)| == |KeySeq(sb)| == |sb|;
    forall i | 0 <= i < |sa| ensures sa[i].key == sb[i].key && Encode(sa[i].value) == Encode(sb[i].value) {
      assert KeySeq(sa)[i] == KeySeq(sb)[i];
      assert sa[i] in a.members && sb[i] in b.members;
      EncodesRepresentable(sa[i].value);
      EncodesRepresentable(sb[i].value);
      NormalPrintsAlike(sa[i].value, sb[i].value);
    }
    MembersPrintAlike(a, sa, b, sb);
  }

  // ----- Main results -----

  /** The parser recovers every printed value, members in key order and nothing left over. */
  lemma RoundTrip(v: Json)
    requires Encode(v).Ok?
    ensures ParseValue(Encode(v).value) == Some((Normal(v), []))
  {
    ParsePrinted(v, []);
    assert Encode(v).value + [] == Encode(v).value;
  }

  ghost predicate KeysAscend(members: seq<Member>) {
    forall i, j | 0 <= i < j < |members| :: Ascends(members[i].key, members[j].key)
  }

  /** Sorting puts the keys in ascending order of their UTF-16 code units. */
  lemma SortedKeysAscend(members: seq<Member>)
    requires DistinctKeys(members)
    ensures KeysAscend(SortMembers(members))
  {
    var sorted := SortMembers(members);
    SortedKeys(members);
    forall i, j | 0 <= i < j < |sorted| ensures Ascends(sorted[i].key, sorted[j].key) {
      assert KeySeq(sorted)[i] == sorted[i].key && KeySeq(sorted)[j] == sorted[j].key;
      LessIsAscending(sorted[i].key, sorted[j].key);
    }
  }

  /** Read back from its text, an object has the keys of the value in ascending order, and nothing follows it. */
  lemma PrintedKeysAscend(v: Json)
    requires v.Obj? && DistinctKeys(v.members) && Encode(v).Ok?
    ensures var read := ParseValue(Encode(v).value);
      read.Some? && read.value.1 == [] && read.value.0.Obj?
      && Keys(read.value.0.members) == Keys(v.members) && KeysAscend(read.value.0.members)
  {
    RoundTrip(v);
    SortedKeysAscend(v.members);
    NormalIsNormalized(v);
    KeySeqElements(v.members);
    SameKeys(SortMembers(v.members), Normal(v).members, v.members);
  }

  lemma SameKeys(sorted: seq<Member>, normal: seq<Member>, members: seq<Member>)
    requires NormalizedTo(sorted, normal) && forall m :: m in sorted <==> m in members
    ensures Keys(normal) == Keys(members)
  {
    forall k | k in Keys(normal) ensures k in Keys(members) {
      var i :| 0 <= i < |normal| && normal[i].key == k;
      assert sorted[i] in members;
    }
    forall k | k in Keys(members) ensures k in Keys(normal) {
      var m :| m in members && m.key == k;
      var i :| 0 <= i < |sorted| && sorted[i] == m;
      assert normal[i] in normal;
    }
  }

  /** The printed form is a faithful name: equal texts are exactly equal values, up to member order. */
  lemma Faithful(a: Json, b: Json)
    requires UniqueKeys(a) && UniqueKeys(b) && Representable(a) && Representable(b)
    ensures Encode(a).Ok? && Encode(b).Ok?
    ensures Encode(a) == Encode(b) <==> SameValue(a, b)
  {
    EncodesRepresentable(a);
    EncodesRepresentable(b);
    RoundTrip(a);
    RoundTrip(b);
    NormalDecides(a, b);
    if Normal(a) == Normal(b) {
      NormalPrintsAlike(a, b);
    }
  }

  // ----- The text has no lone surrogates, whatever the value's strings hold -----

  lemma {:induction false} PlainIsWellFormed(s: JsString)
    requires forall i | 0 <= i < |s| :: !IsSurrogate(s[i])
    ensures WellFormed(s)
  {
    if s != [] {
      PlainIsWellFormed(s[1..]);
    }
  }

  lemma {:induction false} EscapeIsWellFormed(s: JsString)
    ensures WellFormed(Escape(s))
  {
    if s == [] {
    } else if StartsWithPair(s) {
      EscapeIsWellFormed(s[2..]);
      assert Escape(s)[2..] == Escape(s[2..]);
    } else {
      EscapeIsWellFormed(s[1..]);
      PlainIsWellFormed(EscapeUnit(s[0]));
      WellFormedConcat(EscapeUnit(s[0]), Escape(s[1..]));
    }
  }

  lemma QuoteIsWellFormed(s: JsString)
    ensures WellFormed(Quote(s))
  {
    EscapeIsWellFormed(s);
    PlainIsWellFormed([QUOTE]);
    WellFormedConcat([QUOTE], Escape(s));
    WellFormedConcat([QUOTE] + Escape(s), [QUOTE]);
  }

  lemma {:induction false} JoinIsWellFormed(parts: seq<JsString>)
    requires forall p | p in parts :: WellFormed(p)
    ensures WellFormed(Join(parts))
  {
    if |parts| > 1 {
      JoinIsWellFormed(parts[1..]);
      PlainIsWellFormed([COMMA]);
      WellFormedConcat(parts[0], [COMMA]);
      WellFormedConcat(parts[0] + [COMMA], Join(parts[1..]));
    }
  }

  lemma BracketedIsWellFormed(left: CodeUnit, text: JsString, right: CodeUnit)
    requires !IsSurrogate(left) && !IsSurrogate(right) && WellFormed(text)
    ensures WellFormed([left] + text + [right])
  {
    PlainIsWellFormed([left]);
    PlainIsWellFormed([right]);
    WellFormedConcat([left], text);
    WellFormedConcat([left] + text, [right]);
  }

  lemma {:induction false} EncodeIsWellFormed(v: Json)
    requires Encode(v).Ok?
    ensures WellFormed(Encode(v).value)
    decreases v
  {
    match v
    case Str(s) => QuoteIsWellFormed(s);
    case Arr(items) =>
      ItemsAreWellFormed(items);
      JoinIsWellFormed(EncodeItems(items).value);
      BracketedIsWellFormed(LBRACKET, Join(EncodeItems(items).value), RBRACKET);
    case Obj(members) =>
      var parts := EncodeMembers(v, SortMembers(members)).value;
      MembersAreWellFormed(v, SortMembers(members));
      JoinIsWellFormed(parts);
      BracketedIsWellFormed(LBRACE, Join(parts), RBRACE);
    case Null => PlainIsWellFormed(NULL_TEXT);
    case Bool(b) => PlainIsWellFormed(if b then TRUE_TEXT else FALSE_TEXT);
    case Num(x) =>
      NumberIsPlain(x);
      PlainIsWellFormed(PrintNumber(x));
    case _ =>
  }

  lemma {:induction false} ItemsAreWellFormed(items: seq<Json>)
    requires EncodeItems(items).Ok?
    ensures forall p | p in EncodeItems(items).value :: WellFormed(p)
    decreases items
  {
    if items != [] {
      EncodeIsWellFormed(items[0]);
      ItemsAreWellFormed(items[1..]);
    }
  }

  lemma {:induction false} MembersAreWellFormed(parent: Json, members: seq<Member>)
    requires (forall m | m in members :: m.value < parent) && EncodeMembers(parent, members).Ok?
    ensures forall p | p in EncodeMembers(parent, members).value :: WellFormed(p)
    decreases parent, |members|
  {
    if members != [] {
      var m := members[0];
      var text := Encode(m.value).value;
      EncodeIsWellFormed(m.value);
      QuoteIsWellFormed(m.key);
      PlainIsWellFormed([COLON]);
      WellFormedConcat(Quote(m.key), [COLON]);
      WellFormedConcat(Quote(m.key) + [COLON], text);
      MembersAreWellFormed(parent, members[1..]);
    }
  }
}
