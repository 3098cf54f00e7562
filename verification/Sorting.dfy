/**
 The library sort that `Object.keys(..).sort()` and `candidates.sort(..)` call, as a function of a
 strict order, and the fact that makes the choice of algorithm irrelevant: a strictly sorted list
 is determined by its set of elements.
 */
module Sorting {

  function Insert<T>(lt: (T, T) -> bool, x: T, s: seq<T>): (r: seq<T>)
    ensures multiset(r) == multiset(s) + multiset{x}
  {
    if s == [] || lt(x, s[0]) then [x] + s
    else
      assert s == [s[0]] + s[1..];
      [s[0]] + Insert(lt, x, s[1..])
  }

  function Sort<T>(lt: (T, T) -> bool, s: seq<T>): (r: seq<T>)
    ensures multiset(r) == multiset(s)
  {
    if s == [] then []
    else
      assert s == [s[0]] + s[1..];
      Insert(lt, s[0], Sort(lt, s[1..]))
  }

  lemma SameElements<T>(a: seq<T>, b: seq<T>)
    requires multiset(a) == multiset(b)
    ensures |a| == |b|
    ensures forall x :: x in a <==> x in b
  {
    assert |a| == |multiset(a)| == |multiset(b)| == |b|;
    assert forall x :: x in a <==> x in multiset(a);
    assert forall x :: x in b <==> x in multiset(b);
  }

  /** `lt` is a strict total order on the elements of `s`. */
  ghost predicate OrdersElements<T>(lt: (T, T) -> bool, s: seq<T>) {
    && (forall x, y | x in s && y in s && x != y :: lt(x, y) != lt(y, x))
    && (forall x | x in s :: !lt(x, x))
    && (forall x, y, z | x in s && y in s && z in s && lt(x, y) && lt(y, z) :: lt(x, z))
  }

  ghost predicate StrictlySorted<T>(lt: (T, T) -> bool, s: seq<T>) {
    forall i, j | 0 <= i < j < |s| :: lt(s[i], s[j])
  }

  ghost predicate Distinct<T>(s: seq<T>) {
    forall i, j | 0 <= i < j < |s| :: s[i] != s[j]
  }

  lemma {:induction false} InsertIsStrict<T>(lt: (T, T) -> bool, x: T, s: seq<T>)
    requires OrdersElements(lt, [x] + s) && StrictlySorted(lt, s) && x !in s
    ensures StrictlySorted(lt, Insert(lt, x, s))
  {
    var all := [x] + s;
    assert forall y | y in s :: y in all;
    assert x in all;
    if s == [] {
    } else if lt(x, s[0]) {
      forall i, j | 0 <= i < j < |all| ensures lt(all[i], all[j]) {
        if i == 0 && j > 1 {
          assert lt(s[0], s[j - 1]) && s[j - 1] in all;
        }
      }
    } else {
      var t := s[1..];
      assert forall y | y in [x] + t :: y in all;
      InsertIsStrict(lt, x, t);
      var r := Insert(lt, x, t);
      forall y | y in r ensures lt(s[0], y) {
        assert y in multiset(r);
        assert y == x || y in t;
        if y != x {
          var k :| 0 <= k < |t| && t[k] == y;
          assert s[k + 1] == y;
        }
      }
    }
  }

  lemma OrderPermuted<T>(lt: (T, T) -> bool, s: seq<T>, r: seq<T>)
    requires OrdersElements(lt, s) && forall x | x in r :: x in s
    ensures OrdersElements(lt, r)
  {
  }

  lemma {:induction false} SortIsStrict<T>(lt: (T, T) -> bool, s: seq<T>)
    requires OrdersElements(lt, s) && Distinct(s)
    ensures StrictlySorted(lt, Sort(lt, s))
  {
    if s != [] {
      var t := s[1..];
      OrderPermuted(lt, s, t);
      SortIsStrict(lt, t);
      ConsElements(s, Sort(lt, t));
      OrderPermuted(lt, s, [s[0]] + Sort(lt, t));
      InsertIsStrict(lt, s[0], Sort(lt, t));
    }
  }

  lemma ConsElements<T>(s: seq<T>, r: seq<T>)
    requires s != [] && multiset(r) == multiset(s[1..])
    ensures forall x | x in [s[0]] + r :: x in s
    ensures Distinct(s) ==> s[0] !in r
  {
    SameElements(r, s[1..]);
    forall x | x in [s[0]] + r ensures x in s {
      assert x == s[0] || x in r;
    }
  }

  lemma {:induction false} StrictlySortedUnique<T>(lt: (T, T) -> bool, a: seq<T>, b: seq<T>)
    requires OrdersElements(lt, a) && StrictlySorted(lt, a) && StrictlySorted(lt, b)
    requires forall x :: x in a <==> x in b
    ensures a == b
  {
    if a == [] || b == [] {
      NonEmptyHasElement(a);
      NonEmptyHasElement(b);
    } else {
      HeadsAgree(lt, a, b);
      assert a[0] !in a[1..] && b[0] !in b[1..];
      assert a == [a[0]] + a[1..] && b == [b[0]] + b[1..];
      forall x ensures x in a[1..] <==> x in b[1..] {
        assert x in a <==> x == a[0] || x in a[1..];
        assert x in b <==> x == b[0] || x in b[1..];
      }
      StrictlySortedUnique(lt, a[1..], b[1..]);
    }
  }

  lemma NonEmptyHasElement<T>(s: seq<T>)
    ensures s != [] ==> exists x :: x in s
  {
    if s != [] {
      assert s[0] in s;
    }
  }

  lemma HeadsAgree<T>(lt: (T, T) -> bool, a: seq<T>, b: seq<T>)
    requires OrdersElements(lt, a) && StrictlySorted(lt, a) && StrictlySorted(lt, b)
    requires a != [] && b != [] && forall x :: x in a <==> x in b
    ensures a[0] == b[0]
    ensures forall k | 1 <= k < |a| :: a[k] != a[0]
    ensures forall k | 1 <= k < |b| :: b[k] != b[0]
  {
    assert a[0] in b && b[0] in a;
    var i :| 0 <= i < |a| && a[i] == b[0];
    var j :| 0 <= j < |b| && b[j] == a[0];
    assert forall k | 1 <= k < |a| :: lt(a[0], a[k]);
    assert forall k | 1 <= k < |b| :: lt(b[0], b[k]);
  }
}
