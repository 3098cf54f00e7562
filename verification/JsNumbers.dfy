/**
 Finite JavaScript numbers and the text `Number::toString` prints for them (ECMA-262 section
 6.1.6.1.20). A number is named by its sign and the shortest decimal `digits * 10^exponent` that the
 language picks for it, with no trailing zero; -0 prints as 0 and is not told apart from it.
 */
module JsNumbers {
  import opened Results
  import opened JsStrings
  import opened Decimals

  datatype Decimal = Decimal(negative: bool, digits: nat, exponent: int)

  /** The one way to name a number: zero is plain, and other digits do not end in 0. */
  predicate Canonical(x: Decimal) {
    if x.digits == 0 then !x.negative && x.exponent == 0 else x.digits % 10 != 0
  }

  type JsNumber = x: Decimal | Canonical(x) witness Decimal(false, 0, 0)

  const PLUS: CodeUnit := 0x2B
  const DOT: CodeUnit := 0x2E
  const ZERO: CodeUnit := 0x30
  const LETTER_E: CodeUnit := 0x65

  function Zeros(n: nat): (r: JsString)
    ensures |r| == n && forall i | 0 <= i < n :: r[i] == ZERO
  {
    if n == 0 then [] else Zeros(n - 1) + [ZERO]
  }

  /** A decimal point and the digits after it, when there are any. */
  function PointText(fraction: JsString): JsString {
    if fraction == [] then [] else [DOT] + fraction
  }

  function ExponentText(x: int): JsString {
    [LETTER_E] + (if x < 0 then [MINUS] + Digits(-x) else [PLUS] + Digits(x))
  }

  /** The four layouts, by the place `n` of the decimal point after the first digit of `ds`. */
  function Layout(ds: JsString, n: int): JsString
    requires ds != []
  {
    if |ds| <= n <= 21 then ds + Zeros(n - |ds|)
    else if 0 < n <= 21 then ds[..n] + [DOT] + ds[n..]
    else if -6 < n <= 0 then [ZERO, DOT] + Zeros(-n) + ds
    else ds[..1] + PointText(ds[1..]) + ExponentText(n - 1)
  }

  function PrintUnsigned(digits: nat, exponent: int): JsString {
    Layout(Digits(digits), exponent + |Digits(digits)|)
  }

  function PrintNumber(x: JsNumber): JsString {
    (if x.negative then [MINUS] else []) + PrintUnsigned(x.digits, x.exponent)
  }

  // ----- Reading a number back -----

  /** What may follow a number: nothing that could be part of one. */
  predicate EndsNumber(rest: JsString) {
    rest == [] || !(IsDigit(rest[0]) || rest[0] == DOT || rest[0] == LETTER_E)
  }

  function ParseFraction(t: JsString): (r: (JsString, JsString))
    ensures |r.1| <= |t| && forall i | 0 <= i < |r.0| :: IsDigit(r.0[i])
  {
    if t != [] && t[0] == DOT then
      var c := DigitCount(t[1..]);
      (t[1..][..c], t[1..][c..])
    else ([], t)
  }

  function ParseExponent(t: JsString): (r: (int, JsString))
    ensures |r.1| <= |t|
  {
    if |t| >= 2 && t[0] == LETTER_E && (t[1] == PLUS || t[1] == MINUS) then
      var c := DigitCount(t[2..]);
      var x := Value(t[2..][..c]);
      (if t[1] == MINUS then 0 - x else x, t[2..][c..])
    else (0, t)
  }

  /** What was read so far: a significand, an exponent, and the text that is left. */
  datatype Parts = Parts(digits: nat, exponent: int, rest: JsString)

  ghost predicate AllDigits(ds: JsString) {
    forall i | 0 <= i < |ds| :: IsDigit(ds[i])
  }

  /** The number with these integer digits, continued by `t`. */
  function AfterWhole(whole: JsString, t: JsString): (r: Parts)
    requires AllDigits(whole)
    ensures |r.rest| <= |t|
  {
    var (fraction, t1) := ParseFraction(t);
    var (x, rest) := ParseExponent(t1);
    Parts(Value(whole + fraction), x - |fraction|, rest)
  }

  function ParseUnsigned(t: JsString): (r: Option<Parts>)
    ensures r.Some? ==> |r.value.rest| < |t|
  {
    var k := DigitCount(t);
    if k == 0 then None else Some(AfterWhole(t[..k], t[k..]))
  }

  /** Move trailing zeros of the significand into the exponent. */
  function Normalize(negative: bool, digits: nat, exponent: int): JsNumber {
    if digits == 0 then Decimal(false, 0, 0)
    else if digits % 10 == 0 then Normalize(negative, digits / 10, exponent + 1)
    else Decimal(negative, digits, exponent)
  }

  function ParseJsNumber(t: JsString): (r: Option<(JsNumber, JsString)>)
    ensures r.Some? ==> |r.value.1| < |t|
  {
    var negative := t != [] && t[0] == MINUS;
    var parts :- ParseUnsigned(if negative then t[1..] else t);
    Some((Normalize(negative, parts.digits, parts.exponent), parts.rest))
  }

  // ----- Printing then reading -----

  lemma TakeDigits(ds: JsString, rest: JsString)
    requires (forall i | 0 <= i < |ds| :: IsDigit(ds[i])) && EndsNumeral(rest)
    ensures DigitCount(ds + rest) == |ds| && (ds + rest)[..|ds|] == ds && (ds + rest)[|ds|..] == rest
  {
    DigitCountOf(ds, rest);
  }

  lemma ReadFraction(fraction: JsString, rest: JsString)
    requires forall i | 0 <= i < |fraction| :: IsDigit(fraction[i])
    requires rest == [] || !(IsDigit(rest[0]) || rest[0] == DOT)
    ensures ParseFraction(PointText(fraction) + rest) == (fraction, rest)
  {
    if fraction == [] {
      assert PointText(fraction) + rest == rest;
    } else {
      ConsText(DOT, fraction, rest);
      TakeDigits(fraction, rest);
      FractionAfterDot(fraction + rest);
    }
  }

  lemma FractionAfterDot(t: JsString)
    ensures ParseFraction([DOT] + t) == (t[..DigitCount(t)], t[DigitCount(t)..])
  {
    assert ([DOT] + t)[1..] == t;
  }

  lemma ReadExponent(x: int, rest: JsString)
    requires EndsNumber(rest)
    ensures ParseExponent(ExponentText(x) + rest) == (x, rest)
  {
    var t := ExponentText(x) + rest;
    var ds := Digits(if x < 0 then -x else x);
    assert t[2..] == ds + rest;
    TakeDigits(ds, rest);
    ValueOfDigits(if x < 0 then -x else x);
  }

  lemma ReadSteps(whole: JsString, t: JsString)
    requires |whole| >= 1 && AllDigits(whole) && EndsNumeral(t)
    ensures ParseUnsigned(whole + t) == Some(AfterWhole(whole, t))
  {
    TakeDigits(whole, t);
  }

  /** Integer digits and fraction digits are read as they were written. */
  lemma ReadPlain(whole: JsString, fraction: JsString, rest: JsString)
    requires |whole| >= 1 && AllDigits(whole) && AllDigits(fraction) && EndsNumber(rest)
    ensures ParseUnsigned(whole + (PointText(fraction) + rest))
         == Some(Parts(Value(whole + fraction), 0 - |fraction|, rest))
  {
    ReadFraction(fraction, rest);
    NoExponent(rest);
    ReadSteps(whole, PointText(fraction) + rest);
    WholeParts(whole, PointText(fraction) + rest, fraction, rest, 0, rest);
  }

  lemma NoExponent(rest: JsString)
    requires EndsNumber(rest)
    ensures ParseExponent(rest) == (0, rest)
  {
  }

  /** So are those before an exponent, and the exponent. */
  lemma ReadScaled(whole: JsString, fraction: JsString, x: int, rest: JsString)
    requires |whole| >= 1 && AllDigits(whole) && AllDigits(fraction) && EndsNumber(rest)
    ensures ParseUnsigned(whole + (PointText(fraction) + (ExponentText(x) + rest)))
         == Some(Parts(Value(whole + fraction), x - |fraction|, rest))
  {
    var tail := ExponentText(x) + rest;
    ReadExponent(x, rest);
    ReadTail(whole, fraction, tail, x, rest);
  }

  lemma ReadTail(whole: JsString, fraction: JsString, tail: JsString, x: int, rest: JsString)
    requires |whole| >= 1 && AllDigits(whole) && AllDigits(fraction)
    requires tail != [] && tail[0] == LETTER_E && ParseExponent(tail) == (x, rest)
    ensures ParseUnsigned(whole + (PointText(fraction) + tail))
         == Some(Parts(Value(whole + fraction), x - |fraction|, rest))
  {
    ReadFraction(fraction, tail);
    ReadSteps(whole, PointText(fraction) + tail);
    WholeParts(whole, PointText(fraction) + tail, fraction, tail, x, rest);
  }

  lemma WholeParts(whole: JsString, t: JsString, fraction: JsString, tail: JsString, x: int, rest: JsString)
    requires AllDigits(whole) && AllDigits(fraction)
    requires ParseFraction(t) == (fraction, tail) && ParseExponent(tail) == (x, rest)
    ensures AfterWhole(whole, t) == Parts(Value(whole + fraction), x - |fraction|, rest)
  {
  }

  lemma {:induction false} LeadingZeros(n: nat, ds: JsString)
    requires forall i | 0 <= i < |ds| :: IsDigit(ds[i])
    ensures Value(Zeros(n) + ds) == Value(ds)
    decreases |ds|
  {
    var t := Zeros(n) + ds;
    if ds == [] {
      ZerosAreZero(n);
      assert t == Zeros(n);
    } else {
      LeadingZeros(n, ds[..|ds| - 1]);
      assert t[..|t| - 1] == Zeros(n) + ds[..|ds| - 1];
    }
  }

  lemma {:induction false} ZerosAreZero(n: nat)
    ensures Value(Zeros(n)) == 0
  {
    if n > 0 {
      ZerosAreZero(n - 1);
      assert Zeros(n)[..n - 1] == Zeros(n - 1);
    }
  }

  lemma {:induction false} TrailingZeros(negative: bool, ds: JsString, n: nat, exponent: int)
    requires (forall i | 0 <= i < |ds| :: IsDigit(ds[i])) && Value(ds) % 10 != 0
    ensures Normalize(negative, Value(ds + Zeros(n)), exponent) == Decimal(negative, Value(ds), exponent + n)
  {
    var t := ds + Zeros(n);
    if n == 0 {
      assert t == ds;
    } else {
      assert t[..|t| - 1] == ds + Zeros(n - 1);
      assert Value(t) == 10 * Value(ds + Zeros(n - 1));
      TrailingZeros(negative, ds, n - 1, exponent + 1);
      NormalizeTen(negative, Value(ds + Zeros(n - 1)), exponent);
    }
  }

  lemma NormalizeTen(negative: bool, v: nat, exponent: int)
    ensures Normalize(negative, 10 * v, exponent) == Normalize(negative, v, exponent + 1)
  {
  }

  /** The parts are those of this significand and exponent, up to trailing zeros, with `rest` left. */
  ghost predicate Names(r: Option<Parts>, rest: JsString, negative: bool, digits: nat, exponent: int) {
    r.Some? && r.value.rest == rest
    && Normalize(negative, r.value.digits, r.value.exponent)
       == (if digits == 0 then Decimal(false, 0, 0) else Decimal(negative, digits, exponent))
  }

  lemma Regroup(a: JsString, b: JsString, c: JsString, d: JsString)
    ensures a + b + c + d == a + ((b + c) + d)
    ensures a + b + c + d == a + (b + (c + d))
  {
  }

  lemma Rejoin(ds: JsString, n: nat)
    requires n <= |ds|
    ensures ds[..n] + ds[n..] == ds
  {
  }

  lemma ReadWhole(negative: bool, digits: nat, zeros: nat, rest: JsString)
    requires EndsNumber(rest) && (if digits == 0 then zeros == 0 else digits % 10 != 0)
    ensures Names(ParseUnsigned(Digits(digits) + Zeros(zeros) + rest), rest, negative, digits, zeros)
  {
    var ds := Digits(digits);
    ValueOfDigits(digits);
    ReadInteger(ds + Zeros(zeros), rest);
    if digits == 0 {
      assert ds + Zeros(zeros) == ds;
      return;
    }
    TrailingZeros(negative, ds, zeros, 0);
  }

  lemma ReadInteger(whole: JsString, rest: JsString)
    requires |whole| >= 1 && AllDigits(whole) && EndsNumber(rest)
    ensures ParseUnsigned(whole + rest) == Some(Parts(Value(whole), 0, rest))
  {
    NoFraction(whole, rest);
    ReadPlainAs(whole, [], 0, rest, rest, whole);
  }

  lemma ReadPlainAs(whole: JsString, fraction: JsString, x: int, rest: JsString, text: JsString, all: JsString)
    requires |whole| >= 1 && AllDigits(whole) && AllDigits(fraction) && EndsNumber(rest)
    requires text == PointText(fraction) + rest && all == whole + fraction && x == 0 - |fraction|
    ensures ParseUnsigned(whole + text) == Some(Parts(Value(all), x, rest))
  {
    ReadPlain(whole, fraction, rest);
  }

  lemma NoFraction(whole: JsString, rest: JsString)
    ensures PointText([]) + rest == rest && whole + [] == whole
  {
  }

  lemma ReadPointed(negative: bool, digits: nat, n: nat, rest: JsString)
    requires EndsNumber(rest) && digits % 10 != 0 && 0 < n < |Digits(digits)|
    ensures Names(ParseUnsigned(Digits(digits)[..n] + [DOT] + Digits(digits)[n..] + rest), rest, negative, digits,
              n - |Digits(digits)|)
  {
    var ds := Digits(digits);
    ValueOfDigits(digits);
    ReadPlain(ds[..n], ds[n..], rest);
    Regroup(ds[..n], [DOT], ds[n..], rest);
    Rejoin(ds, n);
  }

  lemma ReadSmall(negative: bool, digits: nat, zeros: nat, exponent: int, text: JsString, rest: JsString)
    requires EndsNumber(rest) && digits % 10 != 0 && exponent == 0 - (zeros + |Digits(digits)|)
    requires text == [ZERO, DOT] + Zeros(zeros) + Digits(digits)
    ensures Names(ParseUnsigned(text + rest), rest, negative, digits, exponent)
  {
    var ds := Digits(digits);
    SmallText(zeros, ds, rest);
    ReadPlain([ZERO], Zeros(zeros) + ds, rest);
    SmallValue(digits, zeros);
  }

  lemma SmallValue(digits: nat, zeros: nat)
    ensures AllDigits([ZERO] + (Zeros(zeros) + Digits(digits)))
    ensures Value([ZERO] + (Zeros(zeros) + Digits(digits))) == digits
  {
    var ds := Digits(digits);
    ValueOfDigits(digits);
    LeadingZeros(1 + zeros, ds);
    ZerosCons(zeros);
    ConsText(ZERO, Zeros(zeros), ds);
  }

  lemma ConsText(u: CodeUnit, a: JsString, b: JsString)
    ensures [u] + (a + b) == ([u] + a) + b
  {
  }

  lemma SmallText(zeros: nat, ds: JsString, rest: JsString)
    requires ds != []
    ensures [ZERO, DOT] + Zeros(zeros) + ds + rest == [ZERO] + (PointText(Zeros(zeros) + ds) + rest)
  {
    assert [ZERO, DOT] == [ZERO] + [DOT];
  }

  lemma ReadScientific(negative: bool, digits: nat, x: int, rest: JsString)
    requires EndsNumber(rest) && digits % 10 != 0
    ensures Names(ParseUnsigned(Digits(digits)[..1] + PointText(Digits(digits)[1..]) + ExponentText(x) + rest), rest,
              negative, digits, x + 1 - |Digits(digits)|)
  {
    var ds := Digits(digits);
    ValueOfDigits(digits);
    ReadScaled(ds[..1], ds[1..], x, rest);
    Regroup(ds[..1], PointText(ds[1..]), ExponentText(x), rest);
    Rejoin(ds, 1);
  }

  lemma LayoutWhole(ds: JsString, n: int)
    requires ds != [] && |ds| <= n <= 21
    ensures Layout(ds, n) == ds + Zeros(n - |ds|)
  {
  }

  lemma LayoutPointed(ds: JsString, n: int)
    requires 0 < n < |ds| && n <= 21
    ensures Layout(ds, n) == ds[..n] + [DOT] + ds[n..]
  {
  }

  lemma LayoutSmall(ds: JsString, n: int)
    requires ds != [] && -6 < n <= 0
    ensures Layout(ds, n) == [ZERO, DOT] + Zeros(-n) + ds
  {
  }

  lemma LayoutScientific(ds: JsString, n: int)
    requires ds != [] && (n <= -6 || 21 < n)
    ensures Layout(ds, n) == ds[..1] + PointText(ds[1..]) + ExponentText(n - 1)
  {
  }

  lemma ReadFixed(digits: nat, n: int, rest: JsString, negative: bool)
    requires EndsNumber(rest) && (if digits == 0 then n == 1 else digits % 10 != 0)
    requires 0 < n <= 21
    ensures Names(ParseUnsigned(Layout(Digits(digits), n) + rest), rest, negative, digits, n - |Digits(digits)|)
  {
    var ds := Digits(digits);
    if |ds| <= n {
      LayoutWhole(ds, n);
      ReadWhole(negative, digits, n - |ds|, rest);
    } else {
      LayoutPointed(ds, n);
      ReadPointed(negative, digits, n, rest);
    }
  }

  lemma ReadFractional(digits: nat, n: int, rest: JsString, negative: bool)
    requires EndsNumber(rest) && digits % 10 != 0 && -6 < n <= 0
    ensures Names(ParseUnsigned(Layout(Digits(digits), n) + rest), rest, negative, digits, n - |Digits(digits)|)
  {
    LayoutSmall(Digits(digits), n);
    ReadSmall(negative, digits, -n, n - |Digits(digits)|, Layout(Digits(digits), n), rest);
  }

  lemma ReadWithExponent(digits: nat, n: int, rest: JsString, negative: bool)
    requires EndsNumber(rest) && digits % 10 != 0 && (n <= -6 || 21 < n)
    ensures Names(ParseUnsigned(Layout(Digits(digits), n) + rest), rest, negative, digits, n - |Digits(digits)|)
  {
    var ds := Digits(digits);
    LayoutScientific(ds, n);
    ReadScientific(negative, digits, n - 1, rest);
    assert n - 1 + 1 - |ds| == n - |ds|;
  }

  /** The laid-out text is read back as the same significand and exponent. */
  lemma ReadLayout(digits: nat, n: int, rest: JsString, negative: bool)
    requires EndsNumber(rest) && (if digits == 0 then n == 1 else digits % 10 != 0)
    ensures Names(ParseUnsigned(Layout(Digits(digits), n) + rest), rest, negative, digits, n - |Digits(digits)|)
  {
    if 0 < n <= 21 {
      ReadFixed(digits, n, rest, negative);
    } else if -6 < n <= 0 {
      ReadFractional(digits, n, rest, negative);
    } else {
      ReadWithExponent(digits, n, rest, negative);
    }
  }

  lemma ZerosCons(n: nat)
    ensures Zeros(1 + n) == [ZERO] + Zeros(n)
  {
  }

  lemma StartsWithDigit(digits: nat, exponent: int)
    ensures PrintUnsigned(digits, exponent) != [] && IsDigit(PrintUnsigned(digits, exponent)[0])
  {
  }

  /** Printing and reading gives the number back, and with it that different numbers print differently. */
  lemma NumberRoundTrip(x: JsNumber, rest: JsString)
    requires EndsNumber(rest)
    ensures PrintNumber(x) != [] && (IsDigit(PrintNumber(x)[0]) || PrintNumber(x)[0] == MINUS)
    ensures ParseJsNumber(PrintNumber(x) + rest) == Some((x, rest))
  {
    var text := PrintUnsigned(x.digits, x.exponent);
    StartsWithDigit(x.digits, x.exponent);
    ReadLayout(x.digits, x.exponent + |Digits(x.digits)|, rest, x.negative);
    SignText(x.negative, text, rest);
    ReadSigned(x.negative, text + rest);
  }

  lemma SignText(negative: bool, text: JsString, rest: JsString)
    ensures (if negative then [MINUS] else []) + text + rest
         == if negative then [MINUS] + (text + rest) else text + rest
  {
    assert [] + text == text;
  }

  lemma ReadSigned(negative: bool, t: JsString)
    requires t != [] && t[0] != MINUS
    ensures ParseJsNumber(if negative then [MINUS] + t else t)
         == match ParseUnsigned(t)
            case None => None
            case Some(p) => Some((Normalize(negative, p.digits, p.exponent), p.rest))
  {
    assert ([MINUS] + t)[1..] == t;
  }

  /** A printed number has no half of a surrogate pair in it. */
  lemma NumberIsPlain(x: JsNumber)
    ensures forall i | 0 <= i < |PrintNumber(x)| :: !IsSurrogate(PrintNumber(x)[i])
  {
    LayoutIsPlain(Digits(x.digits), x.exponent + |Digits(x.digits)|);
  }

  ghost predicate Plain(s: JsString) {
    forall u | u in s :: !IsSurrogate(u)
  }

  lemma DigitsArePlain(ds: JsString)
    requires AllDigits(ds)
    ensures Plain(ds)
  {
  }

  lemma LayoutIsPlain(ds: JsString, n: int)
    requires ds != [] && AllDigits(ds)
    ensures Plain(Layout(ds, n))
  {
    DigitsArePlain(ds);
    if |ds| <= n <= 21 {
      LayoutWhole(ds, n);
    } else if 0 < n <= 21 {
      LayoutPointed(ds, n);
    } else if -6 < n <= 0 {
      LayoutSmall(ds, n);
    } else {
      LayoutScientific(ds, n);
    }
  }

  // ----- Which layout a number gets -----

  /** The place of the decimal point: a nonzero number is 0.d1d2... times ten to this power. */
  function PointPlace(x: JsNumber): int {
    x.exponent + |Digits(x.digits)|
  }

  lemma NoLetters(ds: JsString)
    requires AllDigits(ds)
    ensures LETTER_E !in ds && DOT !in ds
  {
  }

  /** An exponent is printed exactly for numbers from 1e21 on and below 1e-6. */
  lemma ExponentIff(x: JsNumber)
    ensures 0x65 in PrintNumber(x) <==> PointPlace(x) > 21 || PointPlace(x) <= -6
  {
    LayoutExponent(Digits(x.digits), PointPlace(x));
  }

  lemma LayoutExponent(ds: JsString, n: int)
    requires ds != [] && AllDigits(ds)
    ensures LETTER_E in Layout(ds, n) <==> n > 21 || n <= -6
  {
    NoLetters(ds);
    if |ds| <= n <= 21 {
      LayoutWhole(ds, n);
    } else if 0 < n <= 21 {
      LayoutPointed(ds, n);
    } else if -6 < n <= 0 {
      LayoutSmall(ds, n);
    } else {
      LayoutScientific(ds, n);
      assert ExponentText(n - 1)[0] == LETTER_E;
    }
  }

  /** A decimal point is printed exactly where digits follow it. */
  lemma PointIff(x: JsNumber)
    ensures 0x2E in PrintNumber(x)
       <==> if 0x65 in PrintNumber(x) then |Digits(x.digits)| > 1 else PointPlace(x) < |Digits(x.digits)|
  {
    ExponentIff(x);
    LayoutPoint(Digits(x.digits), PointPlace(x));
  }

  lemma LayoutPoint(ds: JsString, n: int)
    requires ds != [] && AllDigits(ds)
    ensures DOT in Layout(ds, n) <==> if n > 21 || n <= -6 then |ds| > 1 else n < |ds|
  {
    NoLetters(ds);
    if |ds| <= n <= 21 {
      LayoutWhole(ds, n);
    } else if 0 < n <= 21 {
      LayoutPointed(ds, n);
    } else if -6 < n <= 0 {
      LayoutSmall(ds, n);
    } else {
      LayoutScientific(ds, n);
      NoPoint(n - 1);
      assert |ds| > 1 ==> PointText(ds[1..])[0] == DOT;
    }
  }

  lemma NoPoint(x: int)
    ensures DOT !in ExponentText(x)
  {
    NoLetters(Digits(if x < 0 then -x else x));
  }
}
