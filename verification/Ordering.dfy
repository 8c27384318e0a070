/** Byte-wise string order, and what any sort with a given comparison must return.

    Go's sort functions are library code. They are represented by their contract alone:
    the output is a permutation of the input and is ordered. `SortedUnique` shows when
    that contract leaves no choice, whatever the algorithm and its stability. */
module Ordering {
  import opened Sets

  predicate StringLess(a: string, b: string) {
    if b == "" then false
    else if a == "" then true
    else if a[0] != b[0] then a[0] < b[0]
    else StringLess(a[1..], b[1..])
  }

  predicate SmallerAt(a: string, b: string, k: nat) {
    k < |a| && k < |b| && a[..k] == b[..k] && a[k] < b[k]
  }

  /** The order is that of the first difference, and a proper prefix comes first. */
  lemma {:induction false} StringLessMeans(a: string, b: string)
    ensures StringLess(a, b) <==> a < b || exists k: nat :: SmallerAt(a, b, k)
  {
    if a != "" && b != "" {
      if a[0] == b[0] {
        StringLessMeans(a[1..], b[1..]);
        assert a == [a[0]] + a[1..] && b == [b[0]] + b[1..];
        assert a < b <==> a[1..] < b[1..];
        if k: nat :| SmallerAt(a[1..], b[1..], k) {
          SmallerAfter(a, b, k);
        }
        if k: nat :| SmallerAt(a, b, k) {
          SmallerBefore(a, b, k);
        }
      } else {
        assert a[0] < b[0] ==> SmallerAt(a, b, 0);
        forall k: nat | SmallerAt(a, b, k) ensures k == 0 {
          FirstIsShared(a, b, k);
        }
      }
    }
  }

  lemma FirstIsShared(a: string, b: string, k: nat)
    requires SmallerAt(a, b, k)
    ensures k > 0 ==> a[0] == b[0]
  {
    if k > 0 { assert a[..k][0] == b[..k][0]; }
  }

  lemma SmallerAfter(a: string, b: string, k: nat)
    requires a != "" && b != "" && a[0] == b[0] && SmallerAt(a[1..], b[1..], k)
    ensures SmallerAt(a, b, k + 1)
  {
    assert a[..k + 1] == [a[0]] + a[1..][..k] && b[..k + 1] == [b[0]] + b[1..][..k];
  }

  lemma SmallerBefore(a: string, b: string, k: nat)
    requires a != "" && b != "" && a[0] == b[0] && SmallerAt(a, b, k)
    ensures k > 0 && SmallerAt(a[1..], b[1..], k - 1)
  {
    assert a[..k][1..] == a[1..][..k - 1] && b[..k][1..] == b[1..][..k - 1];
  }

  predicate StringLessOrEqual(a: string, b: string) {
    !StringLess(b, a)
  }

  lemma {:induction false} StringLessTrichotomy(a: string, b: string)
    ensures StringLess(a, b) || StringLess(b, a) || a == b
    ensures !(StringLess(a, b) && StringLess(b, a))
    ensures a == b ==> !StringLess(a, b)
  {
    if a != "" && b != "" && a[0] == b[0] {
      StringLessTrichotomy(a[1..], b[1..]);
      assert a == [a[0]] + a[1..] && b == [b[0]] + b[1..];
    }
  }

  lemma {:induction false} StringLessTransitive(a: string, b: string, c: string)
    requires StringLess(a, b) && StringLess(b, c)
    ensures StringLess(a, c)
  {
    if a != "" && a[0] == b[0] && b[0] == c[0] {
      StringLessTransitive(a[1..], b[1..], c[1..]);
    }
  }

  lemma StringOrderIsTotal()
    ensures TotalPreorder(StringLessOrEqual)
    ensures forall a, b :: StringLessOrEqual(a, b) && StringLessOrEqual(b, a) ==> a == b
  {
    forall a, b ensures StringLessOrEqual(a, b) || StringLessOrEqual(b, a)
                ensures StringLessOrEqual(a, b) && StringLessOrEqual(b, a) ==> a == b
    {
      StringLessTrichotomy(a, b);
    }
    forall a, b, c | StringLessOrEqual(a, b) && StringLessOrEqual(b, c)
      ensures StringLessOrEqual(a, c)
    {
      StringLessTrichotomy(a, b);
      StringLessTrichotomy(b, c);
      if StringLess(c, a) {
        if a != b { StringLessTransitive(c, a, b); StringLessTrichotomy(b, c); }
      }
    }
  }

  ghost predicate TotalPreorder<T(!new)>(le: (T, T) -> bool) {
    && (forall x, y :: le(x, y) || le(y, x))
    && (forall x, y, z :: le(x, y) && le(y, z) ==> le(x, z))
  }

  ghost predicate SortedBy<T>(le: (T, T) -> bool, s: seq<T>) {
    forall i, j | 0 <= i < j < |s| :: le(s[i], s[j])
  }

  /** `le` never ties two different elements of `s`. */
  ghost predicate Distinguishes<T>(le: (T, T) -> bool, s: seq<T>) {
    forall x, y | x in s && y in s && le(x, y) && le(y, x) :: x == y
  }

  /** When the comparison distinguishes the elements, a multiset has one sorted arrangement. */
  lemma {:induction false} SortedUnique<T(!new)>(le: (T, T) -> bool, a: seq<T>, b: seq<T>)
    requires multiset(a) == multiset(b)
    requires SortedBy(le, a) && SortedBy(le, b) && Distinguishes(le, a)
    ensures a == b
  {
    SameLength(a, b);
    if a != [] {
      assert a[0] == b[0] by { SameHead(le, a, b); }
      assert a[1..] == b[1..] by {
        TailFacts(le, a);
        TailFacts(le, b);
        SortedUnique(le, a[1..], b[1..]);
      }
      assert a == [a[0]] + a[1..] && b == [b[0]] + b[1..];
    }
  }

  lemma TailFacts<T(!new)>(le: (T, T) -> bool, a: seq<T>)
    requires a != [] && SortedBy(le, a)
    ensures SortedBy(le, a[1..])
    ensures Distinguishes(le, a) ==> Distinguishes(le, a[1..])
    ensures multiset(a[1..]) == multiset(a) - multiset{a[0]}
  {
    assert a == [a[0]] + a[1..];
    assert forall i | 0 <= i < |a[1..]| :: a[1..][i] == a[i + 1];
  }

  lemma SameHead<T>(le: (T, T) -> bool, a: seq<T>, b: seq<T>)
    requires a != [] && b != [] && multiset(a) == multiset(b)
    requires SortedBy(le, a) && SortedBy(le, b) && Distinguishes(le, a)
    ensures a[0] == b[0]
  {
    assert a[0] in multiset(b) && b[0] in multiset(a);
    var k :| 0 <= k < |a| && a[k] == b[0];
    var l :| 0 <= l < |b| && b[l] == a[0];
    assert (k == 0 || le(a[0], a[k])) && (l == 0 || le(b[0], b[l]));
  }

  lemma SameLength<T>(a: seq<T>, b: seq<T>)
    requires multiset(a) == multiset(b)
    ensures |a| == |b|
  {
    assert |multiset(a)| == |a|;
    assert |multiset(b)| == |b|;
  }

  /** Stands for Go's sort.Slice and sort.Strings: callers learn the contract and no more. */
  method SortSlice<T(!new)>(s: seq<T>, le: (T, T) -> bool) returns (r: seq<T>)
    requires TotalPreorder(le)
    ensures SortedBy(le, r)
    ensures multiset(r) == multiset(s)
  {
    r := [];
    for i := 0 to |s|
      invariant SortedBy(le, r)
      invariant multiset(r) == multiset(s[..i])
    {
      assert s[..i + 1] == s[..i] + [s[i]];
      r := Insert(r, s[i], le);
    }
    assert s[..|s|] == s;
  }

  method Insert<T(!new)>(s: seq<T>, x: T, le: (T, T) -> bool) returns (r: seq<T>)
    requires TotalPreorder(le) && SortedBy(le, s)
    ensures SortedBy(le, r)
    ensures multiset(r) == multiset(s) + multiset{x}
  {
    var k := 0;
    while k < |s| && le(s[k], x)
      invariant 0 <= k <= |s|
      invariant forall i | 0 <= i < k :: le(s[i], x)
    {
      k := k + 1;
    }
    assert forall j | k <= j < |s| :: le(x, s[j]) by {
      if k < |s| {
        assert le(x, s[k]);
      }
    }
    r := s[..k] + [x] + s[k..];
    SortedAround(s, x, k, le);
    assert s == s[..k] + s[k..];
  }

  lemma SortedAround<T(!new)>(s: seq<T>, x: T, k: nat, le: (T, T) -> bool)
    requires k <= |s| && SortedBy(le, s)
    requires forall i | 0 <= i < k :: le(s[i], x)
    requires forall j | k <= j < |s| :: le(x, s[j])
    ensures SortedBy(le, s[..k] + [x] + s[k..])
  {
    var r := s[..k] + [x] + s[k..];
    assert forall i | 0 <= i < |r| :: r[i] == if i < k then s[i] else if i == k then x else s[i - 1];
  }

  /** Strictly increasing, so duplicate-free. */
  ghost predicate StrictlySorted(s: seq<string>) {
    forall i, j | 0 <= i < j < |s| :: StringLess(s[i], s[j])
  }

  /** A set of strings has one strictly increasing listing. */
  lemma {:induction false} StrictlySortedUnique(a: seq<string>, b: seq<string>)
    requires StrictlySorted(a) && StrictlySorted(b)
    requires forall x :: x in a <==> x in b
    ensures a == b
  {
    EmptyTogether(a, b);
    if a != [] {
      assert a[0] in a && a[0] in b;
      assert b[0] in b && b[0] in a;
      StringLessTrichotomy(a[0], b[0]);
      assert a[0] == b[0];
      HeadNotInTail(a);
      HeadNotInTail(b);
      forall x ensures x in a[1..] <==> x in b[1..] {
        assert x in a[1..] <==> x in a && x != a[0];
        assert x in b[1..] <==> x in b && x != b[0];
      }
      StrictlySortedUnique(a[1..], b[1..]);
    }
  }

  lemma EmptyTogether<T(!new)>(a: seq<T>, b: seq<T>)
    requires forall x :: x in a <==> x in b
    ensures a == [] <==> b == []
  {
    if a != [] { assert a[0] in b; }
    if b != [] { assert b[0] in a; }
  }

  lemma HeadNotInTail(s: seq<string>)
    requires s != [] && StrictlySorted(s)
    ensures s[0] !in s[1..]
    ensures forall x :: x in s <==> x == s[0] || x in s[1..]
  {
    assert s == [s[0]] + s[1..];
    forall k | 0 <= k < |s[1..]| ensures s[1..][k] != s[0] {
      StringLessTrichotomy(s[0], s[k + 1]);
    }
  }

  lemma {:induction false} ListingExists(s: set<string>) returns (r: seq<string>)
    ensures StrictlySorted(r) && forall x :: x in r <==> x in s
  {
    r := [];
    if s != {} {
      var x := Member(s);
      var rest := ListingExists(s - {x});
      r := InsertStrictly(rest, x);
      assert s == s - {x} + {x};
    }
  }

  lemma InsertStrictly(s: seq<string>, x: string) returns (r: seq<string>)
    requires StrictlySorted(s) && x !in s
    ensures StrictlySorted(r) && forall y :: y in r <==> y in s || y == x
  {
    var k := InsertionPoint(s, x);
    r := s[..k] + [x] + s[k..];
    StrictlySortedAround(s, x, k);
  }

  lemma InsertionPoint(s: seq<string>, x: string) returns (k: nat)
    requires StrictlySorted(s) && x !in s
    ensures k <= |s| && forall i | 0 <= i < k :: StringLess(s[i], x)
    ensures forall j | k <= j < |s| :: StringLess(x, s[j])
  {
    k := 0;
    while k < |s| && StringLess(s[k], x)
      invariant 0 <= k <= |s| && forall i | 0 <= i < k :: StringLess(s[i], x)
    {
      k := k + 1;
    }
    forall j | k <= j < |s| ensures StringLess(x, s[j]) {
      StringLessTrichotomy(x, s[k]);
      if j > k { StringLessTransitive(x, s[k], s[j]); }
    }
  }

  lemma StrictlySortedAround(s: seq<string>, x: string, k: nat)
    requires k <= |s| && StrictlySorted(s)
    requires forall i | 0 <= i < k :: StringLess(s[i], x)
    requires forall j | k <= j < |s| :: StringLess(x, s[j])
    ensures StrictlySorted(s[..k] + [x] + s[k..])
    ensures forall y :: y in s[..k] + [x] + s[k..] <==> y in s || y == x
  {
    SortedAround(s, x, k, StringLess);
    assert s == s[..k] + s[k..];
  }

  /** The strictly increasing listing of a set of names. */
  ghost function Listing(s: set<string>): (r: seq<string>)
    ensures StrictlySorted(r) && forall x :: x in r <==> x in s
  {
    assert exists r :: StrictlySorted(r) && forall x :: x in r <==> x in s by {
      var r := ListingExists(s);
    }
    var r :| StrictlySorted(r) && forall x :: x in r <==> x in s;
    r
  }

  /** The keys of a map in order; the Go code collects them in an unspecified order and sorts them. */
  method SortedListing(keys: set<string>) returns (r: seq<string>)
    ensures r == Listing(keys)
  {
    StringOrderIsTotal();
    var listed: seq<string> := [];
    var rest := keys;
    while rest != {}
      invariant rest <= keys
      invariant forall x :: x in listed <==> x in keys - rest
      invariant forall i, j | 0 <= i < j < |listed| :: listed[i] != listed[j]
    {
      var k :| k in rest;
      assert k !in listed;
      listed, rest := listed + [k], rest - {k};
    }
    r := SortSlice(listed, StringLessOrEqual);
    DistinctIsStrict(listed, r);
    StrictlySortedUnique(r, Listing(keys));
  }

  lemma DistinctIsStrict(a: seq<string>, r: seq<string>)
    requires forall i, j | 0 <= i < j < |a| :: a[i] != a[j]
    requires multiset(r) == multiset(a) && SortedBy(StringLessOrEqual, r)
    ensures StrictlySorted(r)
    ensures forall x :: x in r <==> x in a
  {
    forall x ensures x in r <==> x in a {
      assert x in multiset(r) <==> x in multiset(a);
    }
    forall i, j | 0 <= i < j < |r| ensures StringLess(r[i], r[j]) {
      StringLessTrichotomy(r[i], r[j]);
      DistinctCountsOnce(a, r[i]);
      RepeatCountsTwice(r, i, j);
    }
  }

  lemma FirstIsMember<T>(s: seq<T>)
    ensures s != [] ==> s[0] in s
  {
  }

  lemma RepeatCountsTwice<T>(r: seq<T>, i: nat, j: nat)
    requires i < j < |r|
    ensures r[i] == r[j] ==> multiset(r)[r[i]] >= 2
  {
    assert r == r[..j] + r[j..];
    assert r[..j][i] in multiset(r[..j]) && r[j..][0] in multiset(r[j..]);
  }

  lemma {:induction false} DistinctCountsOnce<T>(a: seq<T>, x: T)
    requires forall i, j | 0 <= i < j < |a| :: a[i] != a[j]
    ensures multiset(a)[x] == if x in a then 1 else 0
  {
    if a != [] {
      assert a == [a[0]] + a[1..];
      forall i, j | 0 <= i < j < |a[1..]| ensures a[1..][i] != a[1..][j] {
        assert a[i + 1] != a[j + 1];
      }
      DistinctCountsOnce(a[1..], x);
      assert a[0] !in a[1..];
    }
  }

  /** Two sequences holding the same elements the same number of times are linked by a
      one-to-one renumbering. */
  lemma {:induction false} Renumbering<T>(a: seq<T>, b: seq<T>) returns (p: seq<int>)
    requires multiset(a) == multiset(b)
    ensures |p| == |a| == |b|
    ensures forall i | 0 <= i < |p| :: 0 <= p[i] < |b| && b[p[i]] == a[i]
    ensures forall i, j | 0 <= i < j < |p| :: p[i] != p[j]
  {
    SameLength(a, b);
    if a == [] {
      p := [];
    } else {
      var n := |a| - 1;
      var k := MatchLast(a, b);
      var q := Renumbering(a[..n], b[..k] + b[k + 1..]);
      p := Around(q, k) + [k];
      forall i | 0 <= i < n ensures 0 <= p[i] < |b| && b[p[i]] == a[i] {
        assert (b[..k] + b[k + 1..])[q[i]] == a[..n][i];
      }
    }
  }

  lemma MatchLast<T>(a: seq<T>, b: seq<T>) returns (k: nat)
    requires a != [] && multiset(a) == multiset(b)
    ensures k < |b| && b[k] == a[|a| - 1]
    ensures multiset(a[..|a| - 1]) == multiset(b[..k] + b[k + 1..])
  {
    var n := |a| - 1;
    assert a[n] in multiset(b);
    k :| 0 <= k < |b| && b[k] == a[n];
    WithoutOne(a, n);
    WithoutOne(b, k);
    assert a[..n] + a[n + 1..] == a[..n];
  }

  /** Indices of a sequence with position `k` cut out, as indices of the whole sequence. */
  function Around(q: seq<int>, k: int): (p: seq<int>)
    ensures |p| == |q|
    ensures forall i | 0 <= i < |q| :: p[i] == if q[i] < k then q[i] else q[i] + 1
  {
    seq(|q|, i requires 0 <= i < |q| => if q[i] < k then q[i] else q[i] + 1)
  }

  lemma WithoutOne<T>(s: seq<T>, k: nat)
    requires k < |s|
    ensures multiset(s[..k] + s[k + 1..]) == multiset(s) - multiset{s[k]}
  {
    assert s == s[..k] + [s[k]] + s[k + 1..];
  }
}
