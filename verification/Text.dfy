/** Strings as the program compares, numbers and separates them. */
module Text {
  import opened Sorting

  /** The order of Rust's `str` and of SQLite's binary collation. */
  predicate Less(a: string, b: string) {
    b != "" && (a == "" || a[0] < b[0] || (a[0] == b[0] && Less(a[1..], b[1..])))
  }

  lemma {:induction false} LessIsStrict(a: string, b: string)
    ensures Less(a, b) ==> a != b && !Less(b, a)
    ensures a == b || Less(a, b) || Less(b, a)
  {
    if a != "" && b != "" && a[0] == b[0] {
      LessIsStrict(a[1..], b[1..]);
      assert a == [a[0]] + a[1..] && b == [b[0]] + b[1..];
    }
  }

  lemma {:induction false} LessIsTransitive(a: string, b: string, c: string)
    requires Less(a, b) && Less(b, c)
    ensures Less(a, c)
  {
    if a != "" && a[0] == b[0] == c[0] {
      LessIsTransitive(a[1..], b[1..], c[1..]);
    }
  }

  predicate IsDigit(c: char) {
    '0' <= c <= '9'
  }

  /** Decimal, as `to_string` writes it. */
  function Dec(n: nat): (s: string)
    ensures s != "" && forall c <- s :: IsDigit(c)
  {
    if n < 10 then ['0' + n as char] else Dec(n / 10) + ['0' + (n % 10) as char]
  }

  lemma {:induction false} DecIsInjective(m: nat, n: nat)
    requires Dec(m) == Dec(n)
    ensures m == n
  {
    if m >= 10 && n >= 10 {
      assert Dec(m)[..|Dec(m)| - 1] == Dec(m / 10) && Dec(n)[..|Dec(n)| - 1] == Dec(n / 10);
      assert Dec(m)[|Dec(m)| - 1] == Dec(n)[|Dec(n)| - 1];
      DecIsInjective(m / 10, n / 10);
    }
  }

  /** A separator outside both left parts splits a text in one way. */
  lemma FirstSplit(x: string, s: string, y: string, t: string, c: char)
    requires c !in x && c !in y && x + [c] + s == y + [c] + t
    ensures x == y && s == t
  {
    var u, v := x + [c] + s, y + [c] + t;
    assert u[|x|] == c && v[|y|] == c;
    assert |x| >= |y| by { if |x| < |y| { assert false; } }
    assert |y| >= |x| by { if |y| < |x| { assert false; } }
    assert x == u[..|x|] && y == v[..|y|];
    assert s == u[|x| + 1..] && t == v[|y| + 1..];
  }

  /** A separator outside both right parts splits a text in one way. */
  lemma LastSplit(x: string, s: string, y: string, t: string, c: char)
    requires c !in s && c !in t && x + [c] + s == y + [c] + t
    ensures x == y && s == t
  {
    var u, v := x + [c] + s, y + [c] + t;
    assert u[|x|] == c && v[|y|] == c;
    assert |x| >= |y| by { if |x| < |y| { assert false; } }
    assert |y| >= |x| by { if |y| < |x| { assert false; } }
    assert x == u[..|x|] && y == v[..|y|];
    assert s == u[|x| + 1..] && t == v[|y| + 1..];
  }

  predicate LessEq(a: string, b: string) {
    a == b || Less(a, b)
  }

  lemma LessEqIsOrder()
    ensures IsOrder(LessEq)
    ensures forall a, b :: LessEq(a, b) && LessEq(b, a) ==> a == b
  {
    forall a, b
      ensures LessEq(a, b) || LessEq(b, a)
      ensures LessEq(a, b) && LessEq(b, a) ==> a == b
    {
      LessIsStrict(a, b);
    }
    forall a, b, c | LessEq(a, b) && LessEq(b, c)
      ensures LessEq(a, c)
    {
      if a != b && b != c { LessIsTransitive(a, b, c); }
    }
  }

  /** A set of strings in the order of `sorted` and `ORDER BY`. */
  method KeysInOrder(keys: set<string>) returns (s: seq<string>)
    ensures NoDuplicates(s) && (forall k :: k in s <==> k in keys) && Ordered(LessEq, s)
  {
    s := Enumerate(keys);
    LessEqIsOrder();
    SortOrders(LessEq, s);
    SortKeepsElements(LessEq, s);
    SameMultisetNoDuplicates(s, SortBy(LessEq, s));
    s := SortBy(LessEq, s);
  }
}
