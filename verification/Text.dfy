/** The fragment of Go's `strings` package that the modelled code relies on, over strings
    whose letter case and white space are ASCII. */
module Text {

  function LowerChar(c: char): char {
    if 'A' <= c <= 'Z' then c - 'A' + 'a' else c
  }

  function ToLower(s: string): (r: string)
    ensures |r| == |s|
    ensures forall i | 0 <= i < |s| :: r[i] == LowerChar(s[i])
  {
    seq(|s|, i requires 0 <= i < |s| => LowerChar(s[i]))
  }

  predicate IsSpace(c: char) {
    c in {' ', '\t', '\n', '\r', 11 as char, 12 as char}
  }

  predicate IsSlash(c: char) {
    c == '/'
  }

  function TrimLeft(s: string, cut: char -> bool): (r: string) {
    if s != "" && cut(s[0]) then TrimLeft(s[1..], cut) else s
  }

  function TrimRight(s: string, cut: char -> bool): (r: string) {
    if s != "" && cut(s[|s| - 1]) then TrimRight(s[..|s| - 1], cut) else s
  }

  function Trim(s: string, cut: char -> bool): (r: string) {
    TrimRight(TrimLeft(s, cut), cut)
  }

  ghost predicate AllOf(s: string, cut: char -> bool) {
    forall i | 0 <= i < |s| :: cut(s[i])
  }

  lemma {:induction false} TrimLeftMeans(s: string, cut: char -> bool) returns (before: string)
    ensures s == before + TrimLeft(s, cut) && AllOf(before, cut)
    ensures TrimLeft(s, cut) != "" ==> !cut(TrimLeft(s, cut)[0])
  {
    before := "";
    if s != "" && cut(s[0]) {
      var rest := TrimLeftMeans(s[1..], cut);
      before := [s[0]] + rest;
    }
  }

  lemma {:induction false} TrimRightMeans(s: string, cut: char -> bool) returns (after: string)
    ensures s == TrimRight(s, cut) + after && AllOf(after, cut)
    ensures TrimRight(s, cut) != "" ==> !cut(TrimRight(s, cut)[|TrimRight(s, cut)| - 1])
    ensures s != "" && !cut(s[0]) ==> TrimRight(s, cut) != "" && TrimRight(s, cut)[0] == s[0]
  {
    after := "";
    if s != "" && cut(s[|s| - 1]) {
      var rest := TrimRightMeans(s[..|s| - 1], cut);
      after := rest + [s[|s| - 1]];
      assert s == s[..|s| - 1] + [s[|s| - 1]];
    }
  }

  /** Trimming takes off exactly the characters to be cut at both ends. */
  lemma TrimMeans(s: string, cut: char -> bool) returns (before: string, core: string, after: string)
    ensures s == before + core + after && core == Trim(s, cut)
    ensures AllOf(before, cut) && AllOf(after, cut)
    ensures core != "" ==> !cut(core[0]) && !cut(core[|core| - 1])
  {
    before := TrimLeftMeans(s, cut);
    core := Trim(s, cut);
    after := TrimRightMeans(TrimLeft(s, cut), cut);
    assert before + (core + after) == before + core + after;
  }

  function TrimSpace(s: string): string {
    Trim(s, IsSpace)
  }

  /** Position of the first `c`, or -1. */
  function IndexOf(s: string, c: char): (i: int)
    ensures -1 <= i < |s|
    ensures i >= 0 ==> s[i] == c && forall k | 0 <= k < i :: s[k] != c
    ensures i == -1 <==> c !in s
  {
    if c in s then
      FirstExists(s, c);
      var i :| 0 <= i < |s| && s[i] == c && forall k | 0 <= k < i :: s[k] != c;
      i
    else -1
  }

  /** Position of the last `c`, or -1. */
  function LastIndexOf(s: string, c: char): (i: int)
    ensures -1 <= i < |s|
    ensures i >= 0 ==> s[i] == c && forall k | i < k < |s| :: s[k] != c
    ensures i == -1 <==> c !in s
  {
    if c in s then
      LastExists(s, c);
      var i :| 0 <= i < |s| && s[i] == c && forall k | i < k < |s| :: s[k] != c;
      i
    else -1
  }

  lemma IndexIs(s: string, c: char, i: nat)
    requires i < |s| && s[i] == c && forall k | 0 <= k < i :: s[k] != c
    ensures IndexOf(s, c) == i
  {
    assert c in s;
  }

  lemma LastIndexIs(s: string, c: char, i: nat)
    requires i < |s| && s[i] == c && forall k | i < k < |s| :: s[k] != c
    ensures LastIndexOf(s, c) == i
  {
    assert c in s;
  }

  lemma FirstExists(s: string, c: char)
    requires c in s
    ensures exists i :: 0 <= i < |s| && s[i] == c && forall k | 0 <= k < i :: s[k] != c
  {
    var i := 0;
    while s[i] != c
      invariant 0 <= i < |s| && exists k :: i <= k < |s| && s[k] == c
      invariant forall k | 0 <= k < i :: s[k] != c
      decreases |s| - i
    {
      i := i + 1;
    }
  }

  lemma LastExists(s: string, c: char)
    requires c in s
    ensures exists i :: 0 <= i < |s| && s[i] == c && forall k | i < k < |s| :: s[k] != c
  {
    var i := |s| - 1;
    while s[i] != c
      invariant 0 <= i < |s| && exists k :: 0 <= k <= i && s[k] == c
      invariant forall k | i < k < |s| :: s[k] != c
      decreases i
    {
      i := i - 1;
    }
  }

  predicate HasPrefix(s: string, t: string) {
    t <= s
  }

  predicate HasSuffix(s: string, t: string) {
    |t| <= |s| && s[|s| - |t|..] == t
  }

  /** strings.Split(s, "/"). */
  function Split(s: string): (segments: seq<string>)
    ensures segments != []
    ensures forall x :: x in segments ==> '/' !in x
    decreases |s|
  {
    var i := IndexOf(s, '/');
    if i == -1 then [s] else [s[..i]] + Split(s[i + 1..])
  }

  /** strings.Join(segments, "/"). */
  function Join(segments: seq<string>): (s: string) {
    if segments == [] then ""
    else if |segments| == 1 then segments[0]
    else segments[0] + "/" + Join(segments[1..])
  }

  lemma FirstOf(head: string, c: char, tail: string)
    requires c !in head
    ensures IndexOf(head + [c] + tail, c) == |head|
  {
    var s := head + [c] + tail;
    assert s[|head|] == c;
    assert forall k | 0 <= k < |head| :: s[k] == head[k];
  }

  lemma LastOf(head: string, c: char, tail: string)
    requires c !in tail
    ensures LastIndexOf(head + [c] + tail, c) == |head|
  {
    var s := head + [c] + tail;
    assert s[|head|] == c;
    assert forall k | |head| < k < |s| :: s[k] == tail[k - |head| - 1];
  }

  lemma SplitAtSlash(head: string, tail: string)
    requires '/' !in head
    ensures Split(head + "/" + tail) == [head] + Split(tail)
  {
    FirstOf(head, '/', tail);
    var s := head + "/" + tail;
    assert s[..|head|] == head && s[|head| + 1..] == tail;
  }

  /** Either there is no slash, or the text before and after the first one. */
  lemma CutAtSlash(s: string) returns (head: string, tail: string)
    ensures IndexOf(s, '/') >= 0 ==> '/' !in head && s == head + "/" + tail
  {
    head, tail := "", "";
    var i := IndexOf(s, '/');
    if i >= 0 {
      head, tail := s[..i], s[i + 1..];
    }
  }

  lemma JoinCons(head: string, rest: seq<string>)
    requires rest != []
    ensures Join([head] + rest) == head + "/" + Join(rest)
  {
    assert ([head] + rest)[1..] == rest;
  }

  lemma {:induction false} JoinOfSplit(s: string)
    ensures Join(Split(s)) == s
    decreases |s|
  {
    if IndexOf(s, '/') >= 0 {
      var head, tail := CutAtSlash(s);
      JoinOfSplit(tail);
      SplitAtSlash(head, tail);
      JoinCons(head, Split(tail));
    }
  }

  lemma {:induction false} SplitOfJoin(segments: seq<string>)
    requires segments != [] && forall x :: x in segments ==> '/' !in x
    ensures Split(Join(segments)) == segments
  {
    if |segments| == 1 {
      assert segments == [segments[0]];
    } else {
      SplitOfJoin(segments[1..]);
      SplitAtSlash(segments[0], Join(segments[1..]));
      assert segments == [segments[0]] + segments[1..];
    }
  }

  lemma {:induction false} SplitConcat(a: string, b: string)
    ensures Split(a + "/" + b) == Split(a) + Split(b)
    decreases |a|
  {
    if IndexOf(a, '/') == -1 {
      SplitAtSlash(a, b);
    } else {
      var head, tail := CutAtSlash(a);
      var rest := tail + "/" + b;
      assert a + "/" + b == head + "/" + rest by { Reassociate(head + "/", tail, "/" + b); }
      SplitAtSlash(head, rest);
      SplitAtSlash(head, tail);
      SplitConcat(tail, b);
      Reassociate([head], Split(tail), Split(b));
    }
  }

  lemma Reassociate<T>(a: seq<T>, b: seq<T>, c: seq<T>)
    ensures a + b + c == a + (b + c)
  {
  }

  lemma {:induction false} JoinConcat(a: seq<string>, b: seq<string>)
    requires a != [] && b != []
    ensures Join(a + b) == Join(a) + "/" + Join(b)
  {
    if |a| == 1 {
      assert (a + b)[1..] == b;
    } else {
      JoinConcat(a[1..], b);
      assert (a + b)[1..] == a[1..] + b;
    }
  }

  lemma TrimNothing(s: string, cut: char -> bool)
    requires s == "" || (!cut(s[0]) && !cut(s[|s| - 1]))
    ensures Trim(s, cut) == s
  {
  }

  lemma ToLowerConcat(a: string, b: string)
    ensures ToLower(a + b) == ToLower(a) + ToLower(b)
  {
  }

  lemma LowerKeeps(s: string, c: char)
    requires !('A' <= c <= 'Z') && !('a' <= c <= 'z')
    ensures c in ToLower(s) <==> c in s
  {
    forall i | 0 <= i < |s| ensures s[i] == c <==> ToLower(s)[i] == c {
    }
    if c in s {
      var i :| 0 <= i < |s| && s[i] == c;
      assert ToLower(s)[i] == c;
    }
  }

  // ----- decimal numerals -----

  function Digit(d: int): char
    requires 0 <= d < 10
  {
    '0' + d as char
  }

  function Decimal(n: nat): (s: string)
    ensures s != ""
  {
    if n < 10 then [Digit(n)] else Decimal(n / 10) + [Digit(n % 10)]
  }

  lemma {:induction false} DecimalInjective(m: nat, n: nat)
    ensures Decimal(m) == Decimal(n) ==> m == n
  {
    if Decimal(m) == Decimal(n) {
      var (s, t) := (Decimal(m), Decimal(n));
      assert s[|s| - 1] == Digit(m % 10) && t[|t| - 1] == Digit(n % 10);
      if m >= 10 && n >= 10 {
        assert s[..|s| - 1] == Decimal(m / 10) && t[..|t| - 1] == Decimal(n / 10);
        DecimalInjective(m / 10, n / 10);
      }
    }
  }
}
