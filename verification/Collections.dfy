/** Facts about sequences and sets that several modules use. */
module Collections {

  lemma Associative<T>(a: seq<T>, b: seq<T>, c: seq<T>)
    ensures a + b + c == a + (b + c)
  {
  }

  lemma {:induction false} SubsetSize<T>(a: set<T>, b: set<T>)
    requires a <= b
    ensures |a| <= |b|
  {
    if a != {} {
      var x :| x in a;
      SubsetSize(a - {x}, b - {x});
    }
  }

  // ----- Two parts joined by a separator -----

  /** `a` followed by the separator starts `b`, or the other way round. */
  predicate Nested<T(==)>(a: seq<T>, sep: T, b: seq<T>) {
    a + [sep] <= b || b + [sep] <= a
  }

  function Joined<T>(a: seq<T>, sep: T, x: seq<T>): seq<T> {
    a + [sep] + x
  }

  lemma ShorterNests<T>(a: seq<T>, x: seq<T>, b: seq<T>, y: seq<T>, sep: T)
    requires Joined(a, sep, x) == Joined(b, sep, y) && |a| < |b|
    ensures a + [sep] <= b
  {
    var s := Joined(a, sep, x);
    assert s[..|a| + 1] == a + [sep];
    assert s[..|b|] == b;
    assert s[..|b|][..|a| + 1] == s[..|a| + 1];
  }

  /** Joined texts of two different first parts that are not nested are different. */
  lemma JoinSeparates<T>(a: seq<T>, x: seq<T>, b: seq<T>, y: seq<T>, sep: T)
    requires Joined(a, sep, x) == Joined(b, sep, y) && !Nested(a, sep, b)
    ensures a == b && x == y
  {
    var s := Joined(a, sep, x);
    if |a| < |b| {
      ShorterNests(a, x, b, y, sep);
    } else if |b| < |a| {
      ShorterNests(b, y, a, x, sep);
    }
    assert s[..|a|] == a && s[..|b|] == b;
    assert s[|a| + 1..] == x && s[|b| + 1..] == y;
  }

  /** Nested first parts have second parts, one of them any given, that make the joined texts equal. */
  lemma JoinMeets<T>(a: seq<T>, b: seq<T>, sep: T, tail: seq<T>) returns (x: seq<T>, y: seq<T>)
    requires Nested(a, sep, b)
    ensures a != b && Joined(a, sep, x) == Joined(b, sep, y)
    ensures |x| >= |tail| && |y| >= |tail|
  {
    if a + [sep] <= b {
      x, y := b[|a| + 1..] + [sep] + tail, tail;
      assert b == a + [sep] + b[|a| + 1..];
    } else {
      x, y := tail, a[|b| + 1..] + [sep] + tail;
      assert a == b + [sep] + a[|b| + 1..];
    }
  }
}
