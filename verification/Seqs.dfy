/** Facts about sequences. */
module Seqs {
  lemma ConcatAssociates<T>(a: seq<T>, b: seq<T>, c: seq<T>)
    ensures (a + b) + c == a + (b + c)
  {
  }

  /** `s` with `x` appended. */
  function Push<T>(s: seq<T>, x: T): seq<T> {
    s + [x]
  }

  function Last<T>(s: seq<T>): T
    requires s != []
  {
    s[|s| - 1]
  }

  // ---------------------------------------------------------------- sorting

  /** `less` is a strict total order. */
  ghost predicate Orders<T(!new)>(less: (T, T) -> bool) {
    && (forall a :: !less(a, a))
    && (forall a, b, c :: less(a, b) && less(b, c) ==> less(a, c))
    && (forall a, b :: a == b || less(a, b) || less(b, a))
  }

  ghost predicate Ascending<T(!new)>(s: seq<T>, less: (T, T) -> bool) {
    forall i, j :: 0 <= i < j < |s| ==> less(s[i], s[j])
  }

  /** Puts `x` in its place. */
  method Insert<T(!new)>(s: seq<T>, x: T, less: (T, T) -> bool) returns (r: seq<T>)
    requires Orders(less) && Ascending(s, less) && x !in s
    ensures Ascending(r, less) && forall y :: y in r <==> y in s || y == x
  {
    var i := 0;
    while i < |s| && less(s[i], x)
      invariant 0 <= i <= |s| && forall k :: 0 <= k < i ==> less(s[k], x)
    {
      i := i + 1;
    }
    r := s[..i] + [x] + s[i..];
    InsertedAscends(s, x, i, less);
    InsertedHas(s, x, i);
  }

  lemma InsertedAscends<T(!new)>(s: seq<T>, x: T, i: nat, less: (T, T) -> bool)
    requires Orders(less) && Ascending(s, less) && i <= |s| && x !in s[i..]
    requires (forall k :: 0 <= k < i ==> less(s[k], x)) && (i < |s| ==> !less(s[i], x))
    ensures Ascending(s[..i] + [x] + s[i..], less)
  {
    forall k | i <= k < |s|
      ensures less(x, s[k])
    {
      assert s[i] == s[i..][0];
      assert less(x, s[i]);
    }
  }

  lemma InsertedHas<T(!new)>(s: seq<T>, x: T, i: nat)
    requires i <= |s|
    ensures forall y :: y in s[..i] + [x] + s[i..] <==> y in s || y == x
  {
    assert s == s[..i] + s[i..];
  }

  /** The elements of a set in ascending order. */
  method Sort<T(!new,==)>(elements: set<T>, less: (T, T) -> bool) returns (r: seq<T>)
    requires Orders(less)
    ensures Ascending(r, less) && forall y :: y in r <==> y in elements
  {
    r := [];
    var rest := elements;
    while rest != {}
      invariant rest <= elements && Ascending(r, less)
      invariant forall y :: y in r <==> y in elements && y !in rest
    {
      var x :| x in rest;
      r := Insert(r, x, less);
      rest := rest - {x};
    }
  }

  lemma EmptyWhenNothingInside<T(!new)>(s: seq<T>)
    ensures s == [] || exists y :: y in s
  {
    if s != [] {
      assert s[0] in s;
    }
  }

  /** There is one way to sort. */
  lemma {:induction false} SortedIsUnique<T(!new)>(a: seq<T>, b: seq<T>, less: (T, T) -> bool)
    requires Orders(less) && Ascending(a, less) && Ascending(b, less)
    requires forall y :: y in a <==> y in b
    ensures a == b
  {
    EmptyWhenNothingInside(a);
    EmptyWhenNothingInside(b);
    if a != [] {
      assert a[0] in b && b != [] && b[0] in a;
      assert a[0] == b[0];
      forall y
        ensures y in a[1..] <==> y in b[1..]
      {
        assert y in a <==> y == a[0] || y in a[1..];
        assert y in b <==> y == b[0] || y in b[1..];
        assert y in a[1..] ==> y != a[0];
        assert y in b[1..] ==> y != b[0];
      }
      SortedIsUnique(a[1..], b[1..], less);
    }
  }
}
