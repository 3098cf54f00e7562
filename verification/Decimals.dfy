/** Decimal numerals as JavaScript prints them, read back by a parser that takes every digit it sees. */
module Decimals {
  import opened Results
  import opened JsStrings

  const MINUS: CodeUnit := 0x2D

  predicate IsDigit(u: CodeUnit) { 0x30 <= u <= 0x39 }

  /** The numeral of a natural number, without leading zeros. */
  function Digits(n: nat): (r: JsString)
    ensures |r| >= 1 && forall i | 0 <= i < |r| :: IsDigit(r[i])
  {
    if n < 10 then [(0x30 + n) as CodeUnit] else Digits(n / 10) + [(0x30 + n % 10) as CodeUnit]
  }

  function Value(ds: JsString): nat
    requires forall i | 0 <= i < |ds| :: IsDigit(ds[i])
  {
    if ds == [] then 0
    else
      assert IsDigit(ds[|ds| - 1]);
      10 * Value(ds[..|ds| - 1]) + (ds[|ds| - 1] as int - 0x30)
  }

  /** How many digits `t` starts with. */
  function DigitCount(t: JsString): (k: nat)
    ensures k <= |t| && forall i | 0 <= i < k :: IsDigit(t[i])
  {
    if t == [] || !IsDigit(t[0]) then 0 else 1 + DigitCount(t[1..])
  }

  function ParseNat(t: JsString): Option<(nat, JsString)> {
    var k := DigitCount(t);
    if k == 0 then None else Some((Value(t[..k]), t[k..]))
  }

  /** What may follow a numeral: anything but another digit. */
  predicate EndsNumeral(rest: JsString) {
    rest == [] || !IsDigit(rest[0])
  }

  lemma {:induction false} ValueOfDigits(n: nat)
    ensures Value(Digits(n)) == n
  {
    if n >= 10 {
      ValueOfDigits(n / 10);
      var ds := Digits(n);
      assert ds[..|ds| - 1] == Digits(n / 10);
    }
  }

  lemma {:induction false} DigitCountOf(ds: JsString, rest: JsString)
    requires forall i | 0 <= i < |ds| :: IsDigit(ds[i])
    requires EndsNumeral(rest)
    ensures DigitCount(ds + rest) == |ds|
  {
    if ds == [] {
      assert ds + rest == rest;
    } else {
      DigitCountOf(ds[1..], rest);
      assert (ds + rest)[1..] == ds[1..] + rest;
    }
  }

  lemma ParseDigits(n: nat, rest: JsString)
    requires EndsNumeral(rest)
    ensures ParseNat(Digits(n) + rest) == Some((n, rest))
  {
    var ds := Digits(n);
    DigitCountOf(ds, rest);
    ValueOfDigits(n);
    assert (ds + rest)[..|ds|] == ds && (ds + rest)[|ds|..] == rest;
  }
}
