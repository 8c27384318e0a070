/** Filtering and mapping a sequence in one pass, the shape of most loops modelled here. */
module Sequences {
  import opened Wrappers
  import opened Ordering

  /** The results of `f` that are present, in the order of `s`. */
  function Collect<A, B>(f: A -> Option<B>, s: seq<A>): (r: seq<B>)
    ensures |r| <= |s|
  {
    if s == [] then []
    else
      var n := |s| - 1;
      Collect(f, s[..n]) + OneOrNone(f(s[n]))
  }

  function OneOrNone<B>(b: Option<B>): (r: seq<B>)
    ensures |r| <= 1
  {
    match b
    case Some(x) => [x]
    case None => []
  }

  lemma CollectSnoc<A, B>(f: A -> Option<B>, s: seq<A>, i: nat)
    requires i < |s|
    ensures Collect(f, s[..i + 1]) == Collect(f, s[..i]) + OneOrNone(f(s[i]))
  {
    assert s[..i + 1][..i] == s[..i];
  }

  lemma CollectAppend<A, B>(f: A -> Option<B>, s: seq<A>, x: A)
    ensures Collect(f, s + [x]) == Collect(f, s) + OneOrNone(f(x))
  {
    assert (s + [x])[..|s|] == s;
  }

  lemma {:induction false} CollectConcat<A, B>(f: A -> Option<B>, a: seq<A>, b: seq<A>)
    ensures Collect(f, a + b) == Collect(f, a) + Collect(f, b)
  {
    if b == [] {
      assert a + b == a;
    } else {
      var n := |b| - 1;
      assert (a + b)[..|a| + n] == a + b[..n];
      CollectConcat(f, a, b[..n]);
    }
  }

  /** Every collected element comes from an element of the sequence, and the reverse. */
  lemma {:induction false} CollectMembers<A, B>(f: A -> Option<B>, s: seq<A>, b: B)
    ensures b in Collect(f, s) <==> exists a | a in s :: f(a) == Some(b)
  {
    if s != [] {
      var n := |s| - 1;
      assert s == s[..n] + [s[n]];
      CollectMembers(f, s[..n], b);
    }
  }

  /** Rearranging the input only rearranges the output. */
  lemma {:induction false} CollectPermutes<A, B>(f: A -> Option<B>, g: A -> Option<B>, a: seq<A>, b: seq<A>)
    requires multiset(a) == multiset(b)
    requires forall x | x in a :: f(x) == g(x)
    ensures multiset(Collect(f, a)) == multiset(Collect(g, b))
  {
    SameLength(a, b);
    if a != [] {
      var n := |a| - 1;
      var k := MatchLast(a, b);
      var b' := b[..k] + b[k + 1..];
      assert multiset(Collect(f, a[..n])) == multiset(Collect(g, b')) by {
        assert forall x | x in a[..n] :: x in a;
        CollectPermutes(f, g, a[..n], b');
      }
      assert f(a[n]) == g(b[k]);
      assert multiset(Collect(g, b)) == multiset(Collect(g, b')) + multiset(OneOrNone(g(b[k]))) by {
        CollectWithout(g, b, k);
      }
    }
  }

  lemma CollectWithout<A, B>(g: A -> Option<B>, b: seq<A>, k: nat)
    requires k < |b|
    ensures multiset(Collect(g, b)) ==
            multiset(Collect(g, b[..k] + b[k + 1..])) + multiset(OneOrNone(g(b[k])))
  {
    assert b == b[..k + 1] + b[k + 1..];
    CollectConcat(g, b[..k + 1], b[k + 1..]);
    CollectSnoc(g, b, k);
    CollectConcat(g, b[..k], b[k + 1..]);
  }

  lemma {:induction false} CollectNothing<A, B>(f: A -> Option<B>, s: seq<A>)
    requires forall a | a in s :: f(a) == None
    ensures Collect(f, s) == []
  {
    if s != [] {
      CollectNothing(f, s[..|s| - 1]);
    }
  }
}
