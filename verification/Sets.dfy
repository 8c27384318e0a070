/** Cardinality facts about finite sets. */
module Sets {

  lemma Member<T>(s: set<T>) returns (x: T)
    requires s != {}
    ensures x in s
  {
    x :| x in s;
  }

  lemma {:induction false} SubsetCardinality<T>(a: set<T>, b: set<T>)
    requires a <= b
    ensures |a| <= |b|
  {
    if a != {} {
      var x :| x in a;
      SubsetCardinality(a - {x}, b - {x});
    }
  }

  lemma SplitCardinality<T>(a: set<T>, b: set<T>)
    ensures |a| == |a * b| + |a - b|
  {
    assert a == a * b + (a - b);
  }

  lemma {:induction false} Least(s: set<int>) returns (m: int)
    requires s != {}
    ensures m in s && forall x | x in s :: m <= x
    decreases |s|
  {
    m := Member(s);
    var rest := s - {m};
    if rest != {} {
      var least := Least(rest);
      assert forall x | x in s :: x == m || x in rest;
      m := if least < m then least else m;
    } else {
      assert s == {m};
    }
  }

  lemma {:induction false} RangeCardinality(s: set<int>, lo: int, hi: int)
    requires forall x | x in s :: lo <= x < hi
    requires lo <= hi
    ensures |s| <= hi - lo
    decreases hi - lo
  {
    if s != {} {
      var x := Member(s);
      var m := hi - 1;
      RangeCardinality(s - {m}, lo, m);
      SubsetCardinality(s, s - {m} + {m});
    }
  }
}
