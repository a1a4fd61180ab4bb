/** Sorting by any total preorder. */
module Sorting {

  ghost predicate IsOrder<T(!new)>(le: (T, T) -> bool) {
    && (forall a, b :: le(a, b) || le(b, a))
    && forall a, b, c :: le(a, b) && le(b, c) ==> le(a, c)
  }

  ghost predicate Ordered<T>(le: (T, T) -> bool, s: seq<T>) {
    forall i, j :: 0 <= i < j < |s| ==> le(s[i], s[j])
  }

  function Insert<T>(le: (T, T) -> bool, x: T, s: seq<T>): (r: seq<T>) {
    if s == [] then [x]
    else if le(x, s[0]) then [x] + s
    else [s[0]] + Insert(le, x, s[1..])
  }

  function SortBy<T>(le: (T, T) -> bool, s: seq<T>): (r: seq<T>) {
    if s == [] then [] else Insert(le, s[0], SortBy(le, s[1..]))
  }

  lemma {:induction false} InsertKeepsElements<T>(le: (T, T) -> bool, x: T, s: seq<T>)
    ensures multiset(Insert(le, x, s)) == multiset(s) + multiset{x}
  {
    if s != [] {
      InsertKeepsElements(le, x, s[1..]);
      assert s == [s[0]] + s[1..];
    }
  }

  lemma SameMembers<T>(a: seq<T>, b: seq<T>)
    requires multiset(a) == multiset(b)
    ensures |a| == |b|
    ensures forall x :: x in a <==> x in b
  {
    assert |multiset(a)| == |multiset(b)|;
    assert forall x :: x in a <==> x in multiset(a);
  }

  lemma {:induction false} SortKeepsElements<T>(le: (T, T) -> bool, s: seq<T>)
    ensures multiset(SortBy(le, s)) == multiset(s)
    ensures |SortBy(le, s)| == |s|
    ensures forall x :: x in SortBy(le, s) <==> x in s
  {
    if s != [] {
      SortKeepsElements(le, s[1..]);
      InsertKeepsElements(le, s[0], SortBy(le, s[1..]));
      assert s == [s[0]] + s[1..];
    }
    SameMembers(SortBy(le, s), s);
  }

  lemma {:induction false} InsertOrders<T(!new)>(le: (T, T) -> bool, x: T, s: seq<T>)
    requires IsOrder(le) && Ordered(le, s)
    ensures Ordered(le, Insert(le, x, s))
  {
    if s != [] && !le(x, s[0]) {
      InsertOrders(le, x, s[1..]);
      InsertKeepsElements(le, x, s[1..]);
      var r := Insert(le, x, s[1..]);
      forall i | 0 <= i < |r|
        ensures le(s[0], r[i])
      {
        assert r[i] in multiset(s[1..]) + multiset{x};
      }
    }
  }

  lemma {:induction false} SortOrders<T(!new)>(le: (T, T) -> bool, s: seq<T>)
    requires IsOrder(le)
    ensures Ordered(le, SortBy(le, s))
  {
    if s != [] {
      SortOrders(le, s[1..]);
      InsertOrders(le, s[0], SortBy(le, s[1..]));
    }
  }

  lemma HeadIsLeast<T(!new)>(le: (T, T) -> bool, s: seq<T>, x: T)
    requires IsOrder(le) && Ordered(le, s) && x in multiset(s)
    ensures s != [] && le(s[0], x)
  {
    var i :| 0 <= i < |s| && s[i] == x;
    assert le(s[0], s[0]);
  }

  lemma HeadsAgree<T(!new)>(le: (T, T) -> bool, s: seq<T>, t: seq<T>)
    requires IsOrder(le) && Ordered(le, s) && Ordered(le, t) && multiset(s) == multiset(t) && s != []
    requires forall a, b :: a in s && b in s && le(a, b) && le(b, a) ==> a == b
    ensures t != [] && s[0] == t[0] && multiset(s[1..]) == multiset(t[1..])
  {
    assert s[0] in multiset(s);
    HeadIsLeast(le, t, s[0]);
    assert t[0] in multiset(t);
    HeadIsLeast(le, s, t[0]);
    assert t[0] in s;
    assert s == [s[0]] + s[1..] && t == [t[0]] + t[1..];
    assert multiset(s[1..]) == multiset(s) - multiset{s[0]};
    assert multiset(t[1..]) == multiset(t) - multiset{t[0]};
  }

  /** A multiset has one ordered listing when only equal elements tie. */
  lemma {:induction false} OrderedIsUnique<T(!new)>(le: (T, T) -> bool, s: seq<T>, t: seq<T>)
    requires IsOrder(le) && Ordered(le, s) && Ordered(le, t) && multiset(s) == multiset(t)
    requires forall a, b :: a in s && b in s && le(a, b) && le(b, a) ==> a == b
    ensures s == t
  {
    if s != [] {
      HeadsAgree(le, s, t);
      OrderedIsUnique(le, s[1..], t[1..]);
      assert s == [s[0]] + s[1..] && t == [t[0]] + t[1..];
    }
  }

  function Map<T, U>(f: T -> U, s: seq<T>): seq<U> {
    if s == [] then [] else [f(s[0])] + Map(f, s[1..])
  }

  lemma {:induction false} MapAppend<T, U>(f: T -> U, a: seq<T>, b: seq<T>)
    ensures Map(f, a + b) == Map(f, a) + Map(f, b)
  {
    if a == [] {
      assert a + b == b;
    } else {
      assert (a + b)[0] == a[0] && (a + b)[1..] == a[1..] + b;
      MapAppend(f, a[1..], b);
      assert Map(f, a + b) == [f(a[0])] + (Map(f, a[1..]) + Map(f, b));
    }
  }

  lemma {:induction false} MapLength<T, U>(f: T -> U, s: seq<T>)
    ensures |Map(f, s)| == |s|
  {
    if s != [] { MapLength(f, s[1..]); }
  }

  lemma MapAt<T, U>(f: T -> U, s: seq<T>, j: nat)
    requires j < |s|
    ensures |Map(f, s)| == |s| && Map(f, s)[j] == f(s[j])
    ensures Map(f, s)[..j] + Map(f, s)[j + 1..] == Map(f, s[..j] + s[j + 1..])
  {
    var init, tail := s[..j], s[j..];
    assert s == init + tail && tail[0] == s[j] && tail[1..] == s[j + 1..];
    MapLength(f, init);
    MapLength(f, s);
    MapAppend(f, init, tail);
    MapAppend(f, init, tail[1..]);
    assert Map(f, tail) == [f(s[j])] + Map(f, tail[1..]);
  }

  /** A reordering of an image is the image of a reordering. */
  lemma {:induction false} MappedInOrder<T, U>(f: T -> U, s: seq<T>, rows: seq<U>) returns (t: seq<T>)
    requires multiset(rows) == multiset(Map(f, s))
    ensures Map(f, t) == rows && multiset(t) == multiset(s)
  {
    MapLength(f, s);
    if rows == [] {
      SameMembers(rows, Map(f, s));
      return [];
    }
    var j := TakeHead(rows, Map(f, s));
    MapAt(f, s, j);
    var rest := s[..j] + s[j + 1..];
    var others := MappedInOrder(f, rest, rows[1..]);
    t := [s[j]] + others;
    RemoveOne(s, j);
    assert t[1..] == others && rows == [rows[0]] + rows[1..];
    HeadAndRest(s[j], others, rest);
  }

  lemma HeadAndRest<T>(x: T, a: seq<T>, b: seq<T>)
    requires multiset(a) == multiset(b)
    ensures multiset([x] + a) == multiset(b) + multiset{x}
  {
  }

  lemma RemoveOne<T>(b: seq<T>, j: nat)
    requires j < |b|
    ensures multiset(b) == multiset(b[..j] + b[j + 1..]) + multiset{b[j]}
  {
    assert b == b[..j] + [b[j]] + b[j + 1..];
  }

  lemma MapRemoveOne<T, U>(f: T -> U, b: seq<T>, j: nat)
    requires j < |b|
    ensures multiset(Map(f, b)) == multiset(Map(f, b[..j] + b[j + 1..])) + multiset{f(b[j])}
  {
    var tail := b[j..];
    assert b == b[..j] + tail && tail[1..] == b[j + 1..];
    MapAppend(f, b[..j], tail);
    MapAppend(f, b[..j], b[j + 1..]);
  }

  lemma BagCancel<T>(s: multiset<T>, t: multiset<T>, x: T)
    requires s + multiset{x} == t + multiset{x}
    ensures s == t
  {
    assert s == (s + multiset{x}) - multiset{x};
    assert t == (t + multiset{x}) - multiset{x};
  }

  /** Two listings of one bag stay so when their common head is taken out. */
  lemma TakeHead<T>(a: seq<T>, b: seq<T>) returns (j: nat)
    requires multiset(a) == multiset(b) && a != []
    ensures j < |b| && b[j] == a[0]
    ensures multiset(a[1..]) == multiset(b[..j] + b[j + 1..])
  {
    assert a[0] in multiset(b);
    j :| 0 <= j < |b| && b[j] == a[0];
    RemoveOne(b, j);
    RemoveOne(a, 0);
    assert a[..0] + a[1..] == a[1..];
    BagCancel(multiset(a[1..]), multiset(b[..j] + b[j + 1..]), a[0]);
  }

  lemma {:induction false} MapIgnoresOrder<T, U>(f: T -> U, a: seq<T>, b: seq<T>)
    requires multiset(a) == multiset(b)
    ensures multiset(Map(f, a)) == multiset(Map(f, b))
  {
    if a == [] {
      assert |multiset(b)| == 0;
    } else {
      var j := TakeHead(a, b);
      MapIgnoresOrder(f, a[1..], b[..j] + b[j + 1..]);
      MapRemoveOne(f, b, j);
    }
  }

  ghost predicate NoDuplicates<T>(s: seq<T>) {
    forall j, k :: 0 <= j < k < |s| ==> s[j] != s[k]
  }

  function SetOf<T>(s: seq<T>): set<T> {
    set x | x in s
  }

  /** A listing of a set: each element once. */
  ghost predicate Lists<T>(s: seq<T>, elements: set<T>) {
    NoDuplicates(s) && SetOf(s) == elements
  }

  lemma {:induction false} DistinctHaveCardinal<T>(s: seq<T>)
    requires NoDuplicates(s)
    ensures |SetOf(s)| == |s|
  {
    if s != [] {
      var init, last := s[..|s| - 1], s[|s| - 1];
      DistinctHaveCardinal(init);
      SetOfAppend(init, last);
      assert s == init + [last] && last !in init;
    }
  }

  lemma SetOfAppend<T>(s: seq<T>, x: T)
    ensures SetOf(s + [x]) == SetOf(s) + {x}
  {
  }

  lemma SameMultisetNoDuplicates<T>(s: seq<T>, t: seq<T>)
    requires NoDuplicates(s) && multiset(s) == multiset(t)
    ensures NoDuplicates(t)
  {
    forall j, k | 0 <= j < k < |t|
      ensures t[j] != t[k]
    {
      if t[j] == t[k] {
        assert t == t[..j] + [t[j]] + t[j + 1..k] + [t[k]] + t[k + 1..];
        assert multiset(s)[t[j]] >= 2;
        OccursOnce(s, t[j]);
      }
    }
  }

  lemma {:induction false} OccursOnce<T>(s: seq<T>, x: T)
    requires NoDuplicates(s)
    ensures multiset(s)[x] <= 1
  {
    if s != [] {
      OccursOnce(s[1..], x);
      assert s == [s[0]] + s[1..];
      if x == s[0] { assert x !in s[1..]; }
    }
  }

  lemma SubsetIsSmaller<T>(a: set<T>, b: set<T>, x: T)
    requires a <= b && x in b && x !in a
    ensures |a| < |b|
  {
    assert |a + {x}| == |a| + 1;
    SubsetCardinality(a + {x}, b);
  }

  lemma {:induction false} SubsetCardinality<T>(a: set<T>, b: set<T>)
    requires a <= b
    ensures |a| <= |b|
  {
    if a != {} {
      var x :| x in a;
      SubsetCardinality(a - {x}, b - {x});
    }
  }

  lemma ListingOf<T(!new)>(elements: set<T>) returns (s: seq<T>)
    ensures Lists(s, elements)
  {
    s := [];
    if elements != {} {
      var x :| x in elements;
      s := ListingOf(elements - {x});
      assert forall y :: y in s <==> y in SetOf(s);
      s := s + [x];
      assert SetOf(s) == elements;
    }
  }

  lemma {:induction false} ListingsAreEqualBags<T>(s: seq<T>, t: seq<T>)
    requires NoDuplicates(s) && NoDuplicates(t) && forall x :: x in s <==> x in t
    ensures multiset(s) == multiset(t)
  {
    forall x
      ensures multiset(s)[x] == multiset(t)[x]
    {
      OccursOnce(s, x);
      OccursOnce(t, x);
      assert x in s <==> x in multiset(s);
      assert x in t <==> x in multiset(t);
    }
  }

  lemma SameSizeSameSet<T>(a: set<T>, b: set<T>)
    requires a <= b
    ensures |a| == |b| <==> a == b
  {
    if a != b {
      var x :| x in b && x !in a;
      SubsetIsSmaller(a, b, x);
    }
  }

  /** Visit a set in some order. */
  method Enumerate<T(==)>(elements: set<T>) returns (listing: seq<T>)
    ensures Lists(listing, elements) && forall x :: x in listing <==> x in elements
  {
    listing := [];
    var left := elements;
    while left != {}
      invariant left <= elements && NoDuplicates(listing)
      invariant forall x :: x in elements <==> x in left || x in listing
      invariant forall x <- listing :: x !in left
    {
      var x :| x in left;
      left := left - {x};
      listing := listing + [x];
    }
    assert SetOf(listing) == elements;
  }
}
