/** JavaScript's 32-bit integer operators over mathematical integers. */
module Int32 {

  const TWO_31: int := 0x8000_0000
  const TWO_32: int := 0x1_0000_0000

  function Pow2(k: nat): (p: nat)
    ensures p >= 1
  {
    if k == 0 then 1 else 2 * Pow2(k - 1)
  }

  function ToUint32(x: int): (u: nat)
    ensures u < TWO_32
  {
    x % TWO_32
  }

  function ToInt32(x: int): (n: int)
    ensures -TWO_31 <= n < TWO_31 && n % TWO_32 == x % TWO_32
  {
    var u := x % TWO_32;
    if u >= TWO_31 then u - TWO_32 else u
  }

  // ----- Bitwise operators on natural numbers, bit by bit -----

  function BitOr(a: nat, b: nat): nat {
    if a == 0 && b == 0 then 0
    else 2 * BitOr(a / 2, b / 2) + if a % 2 == 1 || b % 2 == 1 then 1 else 0
  }

  function BitAnd(a: nat, b: nat): nat {
    if a == 0 && b == 0 then 0
    else 2 * BitAnd(a / 2, b / 2) + if a % 2 == 1 && b % 2 == 1 then 1 else 0
  }

  function BitXor(a: nat, b: nat): nat {
    if a == 0 && b == 0 then 0
    else 2 * BitXor(a / 2, b / 2) + if a % 2 != b % 2 then 1 else 0
  }

  // ----- The operators of the language -----

  function Or(a: int, b: int): int { ToInt32(BitOr(ToUint32(a), ToUint32(b))) }

  function And(a: int, b: int): int { ToInt32(BitAnd(ToUint32(a), ToUint32(b))) }

  function Xor(a: int, b: int): int { ToInt32(BitXor(ToUint32(a), ToUint32(b))) }

  function ShiftLeft(a: int, k: nat): int { ToInt32(a * Pow2(k)) }

  /** `a >> k`: the sign is kept, so the quotient is rounded down. */
  function ShiftRight(a: int, k: nat): int { ToInt32(a) / Pow2(k) }

  function Imul(a: int, b: int): int { ToInt32(a * b) }

  // ----- Facts -----

  lemma {:induction false} OrZero(a: nat)
    ensures BitOr(a, 0) == a
  {
    if a != 0 {
      OrZero(a / 2);
    }
  }

  /** Fields that do not overlap are added. */
  lemma {:induction false} OrDisjoint(high: nat, low: nat, k: nat)
    requires low < Pow2(k)
    ensures BitOr(high * Pow2(k), low) == high * Pow2(k) + low
  {
    if k == 0 {
      OrZero(high);
    } else {
      var a := high * Pow2(k);
      var half := high * Pow2(k - 1);
      assert a == 2 * half;
      OrDisjoint(high, low / 2, k - 1);
    }
  }

  lemma {:induction false} AndMask(x: nat, k: nat)
    ensures BitAnd(x, Pow2(k) - 1) == x % Pow2(k)
  {
    if k == 0 {
      AndZero(x);
    } else {
      AndMask(x / 2, k - 1);
      AndTwice(x, Pow2(k - 1), Pow2(k));
    }
  }

  lemma {:induction false} AndZero(a: nat)
    ensures BitAnd(a, 0) == 0
  {
    if a != 0 {
      AndZero(a / 2);
    }
  }

  lemma AndTwice(x: nat, p: nat, m: nat)
    requires p >= 1 && m == 2 * p && BitAnd(x / 2, p - 1) == x / 2 % p
    ensures BitAnd(x, m - 1) == x % m
  {
    AndStep(x, p - 1, m - 1);
    ModTwice(x, p, m);
  }

  lemma AndStep(x: nat, half: nat, mask: nat)
    requires mask == 2 * half + 1
    ensures BitAnd(x, mask) == 2 * BitAnd(x / 2, half) + x % 2
  {
    assert mask / 2 == half && mask % 2 == 1;
  }

  lemma ModTwice(x: nat, p: nat, m: nat)
    requires p >= 1 && m == 2 * p
    ensures x % m == 2 * (x / 2 % p) + x % 2
  {
    var q, r := x / 2 / p, x / 2 % p;
    HalfQuotient(x, p, q, r);
    ModUnique(x, m, q, 2 * r + x % 2);
  }

  lemma HalfQuotient(x: nat, p: nat, q: nat, r: nat)
    requires p >= 1 && q == x / 2 / p && r == x / 2 % p
    ensures x == 2 * p * q + (2 * r + x % 2) && 2 * r + x % 2 < 2 * p
  {
    assert x / 2 == p * q + r;
    assert x == 2 * (p * q + r) + x % 2;
  }

  lemma MultipleAbove(m: int, d: int)
    requires m > 0 && d >= 1
    ensures m * d >= m
  {
  }

  lemma ModUnique(x: int, m: int, q: int, r: int)
    requires m > 0 && x == m * q + r && 0 <= r < m
    ensures x % m == r && x / m == q
  {
    var q', r' := x / m, x % m;
    assert x == m * q' + r';
    assert m * (q - q') == m * q - m * q' == r' - r;
    if q > q' {
      MultipleAbove(m, q - q');
    } else if q < q' {
      MultipleAbove(m, q' - q);
    }
  }

  lemma {:induction false} XorBound(a: nat, b: nat, k: nat)
    requires a < Pow2(k) && b < Pow2(k)
    ensures BitXor(a, b) < Pow2(k)
  {
    if k > 0 {
      XorBound(a / 2, b / 2, k - 1);
    }
  }

  lemma {:induction false} XorZero(a: nat)
    ensures BitXor(a, 0) == a
  {
    if a != 0 {
      XorZero(a / 2);
    }
  }

  /** The lowest bits, and the rest. */
  lemma XorStep(a: nat, b: nat, a': nat, b': nat)
    requires a' == a / 2 && b' == b / 2
    ensures BitXor(a, b) == 2 * BitXor(a', b') + if a % 2 != b % 2 then 1 else 0
  {
  }

  lemma XorHalves(a: nat, b: nat)
    ensures BitXor(a, b) / 2 == BitXor(a / 2, b / 2)
    ensures BitXor(a, b) % 2 == if a % 2 != b % 2 then 1 else 0
  {
  }

  lemma {:induction false} XorTwice(a: nat, b: nat)
    ensures BitXor(BitXor(a, b), b) == a
  {
    if a != 0 || b != 0 {
      var x := BitXor(a, b);
      XorHalves(a, b);
      XorHalves(x, b);
      XorTwice(a / 2, b / 2);
      SameHalves(BitXor(x, b), a);
    }
  }

  lemma SameHalves(a: nat, b: nat)
    requires a / 2 == b / 2 && a % 2 == b % 2
    ensures a == b
  {
  }

  lemma {:induction false} XorCommutes(a: nat, b: nat)
    ensures BitXor(a, b) == BitXor(b, a)
  {
    if a != 0 || b != 0 {
      XorCommutes(a / 2, b / 2);
    }
  }

  /** Or-ing a low field into a word that has zeros there adds it, also when the word is negative. */
  lemma OrAdds(word: int, high: nat, low: nat, k: nat, p: int)
    requires p == Pow2(k) && ToUint32(word) == high * p && low < p && ToUint32(low) == low
    requires high * p + low < TWO_32
    ensures ToUint32(Or(word, low)) == high * p + low
    ensures high * p + low < TWO_31 ==> Or(word, low) == high * p + low
  {
    OrDisjoint(high, low, k);
    SmallWord(high * p + low);
  }

  /** Or-ing in the lowest byte. */
  lemma OrAddsByte(word: int, high: nat, low: nat)
    requires ToUint32(word) == high * 0x100 && low < 0x100 && high * 0x100 + low < TWO_32
    ensures ToUint32(Or(word, low)) == high * 0x100 + low
  {
    Pow2Values();
    OrAdds(word, high, low, 8, 0x100);
  }

  /** Or-ing in the lower half. */
  lemma OrAddsHalf(word: int, high: nat, low: nat)
    requires ToUint32(word) == high * 0x1_0000 && low < 0x1_0000 && high * 0x1_0000 + low < TWO_32
    ensures ToUint32(Or(word, low)) == high * 0x1_0000 + low
  {
    Pow2Values();
    OrAdds(word, high, low, 16, 0x1_0000);
  }

  /** The same for a high field and the lower fields read so far. */
  lemma OrAddsHigh(word: int, field: int, high: nat, low: nat, k: nat, p: int)
    requires p == Pow2(k) && ToUint32(field) == high * p && ToUint32(word) == low < p
    requires high * p + low < TWO_32
    ensures ToUint32(Or(word, field)) == high * p + low
    ensures high * p + low < TWO_31 ==> Or(word, field) == high * p + low
  {
    OrDisjoint(high, low, k);
    OrCommutes(low, high * p);
    SmallWord(high * p + low);
  }

  lemma {:induction false} OrCommutes(a: nat, b: nat)
    ensures BitOr(a, b) == BitOr(b, a)
  {
    if a != 0 || b != 0 {
      OrCommutes(a / 2, b / 2);
    }
  }

  lemma SmallUnsigned(x: int)
    requires 0 <= x < TWO_31
    ensures ToUint32(x) == x && ToInt32(x) == x
  {
  }

  /** A 32-bit result whose unsigned value is below 2^31 is that value. */
  lemma FromUnsigned(x: int, v: int)
    requires -TWO_31 <= x < TWO_31 && ToUint32(x) == v < TWO_31
    ensures x == v
  {
  }

  lemma AndUnsigned(a: int, mask: int, k: nat, p: int)
    requires p == Pow2(k) && mask == p - 1 && p <= TWO_31
    ensures And(a, mask) == ToUint32(a) % p
  {
    var u := ToUint32(a);
    AndMask(u, k);
    SmallUnsigned(mask);
    SmallUnsigned(u % p);
  }

  lemma ShiftedByte(b: int, k: nat, p: int)
    requires 0 <= b < 0x100 && p == Pow2(k) && 0x100 * p <= TWO_32
    ensures ToUint32(ShiftLeft(b, k)) == b * p
    ensures 0x100 * p <= TWO_31 ==> ShiftLeft(b, k) == b * p
  {
    ByteProduct(b, p);
    SmallWord(b * p);
  }

  lemma ByteProduct(b: int, p: int)
    requires 0 <= b < 0x100 && p >= 1
    ensures 0 <= b * p < 0x100 * p
  {
  }

  lemma SmallWord(n: int)
    requires 0 <= n < TWO_32
    ensures ToUint32(ToInt32(n)) == n && (n < TWO_31 ==> ToInt32(n) == n)
  {
  }

  lemma Pow2Values()
    ensures Pow2(2) == 4 && Pow2(6) == 0x40 && Pow2(8) == 0x100 && Pow2(14) == 0x4000 && Pow2(16) == 0x1_0000
    ensures Pow2(18) == 0x4_0000 && Pow2(24) == 0x100_0000 && Pow2(32) == TWO_32
  {
    assert Pow2(4) == 16;
    assert Pow2(8) == 0x100;
    assert Pow2(12) == 0x1000;
    assert Pow2(16) == 0x1_0000;
    assert Pow2(20) == 0x10_0000;
    assert Pow2(24) == 0x100_0000;
    assert Pow2(28) == 0x1000_0000;
  }
}
