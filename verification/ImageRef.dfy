/** internal/imageref: reducing an image reference to its repository path, and matching
    paths against patterns by whole segments. */
module ImageRef {
  import opened Sequences
  import opened Text
  import opened Wrappers

  function NormalizePattern(pattern: string): string {
    Trim(ToLower(TrimSpace(pattern)), IsSlash)
  }

  lemma {:induction false} TrimLeftOfLower(s: string)
    ensures TrimLeft(ToLower(s), IsSlash) == ToLower(TrimLeft(s, IsSlash))
  {
    if s != "" && s[0] == '/' {
      TrimLeftOfLower(s[1..]);
      assert ToLower(s)[1..] == ToLower(s[1..]);
    }
  }

  lemma {:induction false} TrimRightOfLower(s: string)
    ensures TrimRight(ToLower(s), IsSlash) == ToLower(TrimRight(s, IsSlash))
  {
    if s != "" && s[|s| - 1] == '/' {
      TrimRightOfLower(s[..|s| - 1]);
      assert ToLower(s)[..|s| - 1] == ToLower(s[..|s| - 1]);
    }
  }

  /** A pattern is stripped of the white space around it and then of the slashes around that, and put in
      lower case. */
  lemma PatternMeans(pattern: string)
    returns (left: string, before: string, core: string, after: string, right: string)
    ensures pattern == left + (before + core + after) + right
    ensures AllOf(left, IsSpace) && AllOf(right, IsSpace) && AllOf(before, IsSlash) && AllOf(after, IsSlash)
    ensures var kept := before + core + after; kept != "" ==> !IsSpace(kept[0]) && !IsSpace(kept[|kept| - 1])
    ensures core != "" ==> core[0] != '/' && core[|core| - 1] != '/'
    ensures NormalizePattern(pattern) == ToLower(core)
  {
    var kept;
    left, kept, right := TrimMeans(pattern, IsSpace);
    before, core, after := TrimMeans(kept, IsSlash);
    TrimLeftOfLower(kept);
    TrimRightOfLower(TrimLeft(kept, IsSlash));
  }

  predicate Matches(path: string, pattern: string) {
    var normalized := NormalizePattern(pattern);
    if normalized == "" || path == "" then false
    else path == normalized || HasSuffix(path, "/" + normalized)
  }

  predicate MatchesSome(path: string, patterns: seq<string>) {
    exists p | p in patterns :: Matches(path, p)
  }

  method MatchesAny(path: string, patterns: seq<string>) returns (found: bool)
    ensures found <==> MatchesSome(path, patterns)
  {
    for i := 0 to |patterns|
      invariant forall p | p in patterns[..i] :: !Matches(path, p)
    {
      if Matches(path, patterns[i]) {
        return true;
      }
      assert patterns[..i + 1] == patterns[..i] + [patterns[i]];
    }
    assert patterns[..|patterns|] == patterns;
    return false;
  }

  ghost predicate IsSegmentSuffix(suffix: seq<string>, segments: seq<string>) {
    |suffix| <= |segments| && segments[|segments| - |suffix|..] == suffix
  }

  /** A pattern matches exactly when its segments end the path's segments. */
  lemma MatchesWholeSegments(path: string, pattern: string)
    ensures Matches(path, pattern) <==>
            NormalizePattern(pattern) != "" && IsSegmentSuffix(Split(NormalizePattern(pattern)), Split(path))
  {
    var p := NormalizePattern(pattern);
    if HasSuffix(path, "/" + p) {
      var before := path[..|path| - |p| - 1];
      assert path == before + "/" + p;
      SplitConcat(before, p);
    }
    if IsSegmentSuffix(Split(p), Split(path)) {
      SuffixIsMatch(path, p);
    }
  }

  lemma SuffixIsMatch(path: string, p: string)
    requires IsSegmentSuffix(Split(p), Split(path))
    ensures path == p || HasSuffix(path, "/" + p)
  {
    SuffixOfJoin(Split(p), Split(path));
    JoinOfSplit(path);
    JoinOfSplit(p);
  }

  lemma SuffixOfJoin(end: seq<string>, whole: seq<string>)
    requires end != [] && IsSegmentSuffix(end, whole)
    ensures Join(whole) == Join(end) || HasSuffix(Join(whole), "/" + Join(end))
  {
    var front := whole[..|whole| - |end|];
    assert whole == front + end;
    if front != [] {
      JoinConcat(front, end);
      SuffixOfConcat(Join(front), "/" + Join(end));
    }
  }

  lemma SuffixOfConcat(a: string, b: string)
    ensures HasSuffix(a + b, b)
  {
  }

  // ----- RepositoryPath -----

  function StripDigest(image: string): string {
    var at := IndexOf(image, '@');
    if at >= 0 then image[..at] else image
  }

  /** A colon after the last slash starts a tag; one before it belongs to a registry port. */
  function StripTag(image: string): string {
    var slash := LastIndexOf(image, '/');
    if slash >= 0 then
      var colon := IndexOf(image[slash..], ':');
      if colon >= 0 then image[..slash + colon] else image
    else
      var colon := IndexOf(image, ':');
      if colon >= 0 then image[..colon] else image
  }

  predicate HostLike(head: string) {
    '.' in head || ':' in head || head == "localhost"
  }

  function StripHost(image: string): string {
    var slash := IndexOf(image, '/');
    if slash > 0 && HostLike(image[..slash]) then image[slash + 1..] else image
  }

  function RepositoryPath(image: string): string {
    var lower := ToLower(TrimSpace(image));
    if lower == "" then "" else Trim(StripHost(StripTag(StripDigest(lower))), IsSlash)
  }

  function NonEmptyPath(image: string): Option<string> {
    var path := RepositoryPath(image);
    if path != "" then Some(path) else None
  }

  method RepositoryPaths(images: seq<string>) returns (out: seq<string>)
    ensures out == Collect(NonEmptyPath, images)
  {
    out := [];
    for i := 0 to |images|
      invariant out == Collect(NonEmptyPath, images[..i])
    {
      CollectSnoc(NonEmptyPath, images, i);
      var path := RepositoryPath(images[i]);
      if path != "" {
        out := out + [path];
      }
    }
    assert images[..|images|] == images;
  }

  // ----- rendering, the inverse of RepositoryPath -----

  /** `[host/]segment/.../segment[:tag][@digest]`; an absent part is the empty string. */
  datatype Reference = Reference(host: string, segments: seq<string>, tag: string, digest: string)

  function Render(r: Reference): string {
    HostPart(r.host) + Join(r.segments) + TagPart(r.tag) + DigestPart(r.digest)
  }

  function HostPart(host: string): string {
    if host == "" then "" else host + "/"
  }

  function TagPart(tag: string): string {
    if tag == "" then "" else ":" + tag
  }

  function DigestPart(digest: string): string {
    if digest == "" then "" else "@" + digest
  }

  predicate NoSpace(s: string) {
    forall c | c in s :: !IsSpace(c)
  }

  predicate Segment(s: string) {
    s != "" && NoSpace(s) && '/' !in s && ':' !in s && '@' !in s
  }

  predicate WellFormed(r: Reference) {
    && r.segments != []
    && (forall s | s in r.segments :: Segment(s))
    && (r.host != "" ==> NoSpace(r.host) && '/' !in r.host && '@' !in r.host && HostLike(ToLower(r.host)))
    && (r.host == "" && |r.segments| > 1 ==> !HostLike(ToLower(r.segments[0])))
    && NoSpace(r.tag) && '/' !in r.tag && '@' !in r.tag
    && NoSpace(r.digest)
  }

  function LowerAll(segments: seq<string>): (r: seq<string>)
    ensures |r| == |segments|
    ensures forall i | 0 <= i < |r| :: r[i] == ToLower(segments[i])
  {
    seq(|segments|, i requires 0 <= i < |segments| => ToLower(segments[i]))
  }

  /** What survives lower-casing of `WellFormed`, and all that the stripping steps use. */
  predicate Strippable(r: Reference) {
    && r.segments != []
    && (forall s | s in r.segments :: s != "" && '/' !in s && ':' !in s && '@' !in s)
    && (r.host != "" ==> '/' !in r.host && '@' !in r.host && HostLike(r.host))
    && (r.host == "" && |r.segments| > 1 ==> !HostLike(r.segments[0]))
    && '/' !in r.tag && '@' !in r.tag
  }

  function Lowered(r: Reference): Reference {
    Reference(ToLower(r.host), LowerAll(r.segments), ToLower(r.tag), ToLower(r.digest))
  }

  lemma LoweredIsStrippable(r: Reference)
    requires WellFormed(r)
    ensures Strippable(Lowered(r))
  {
    var l := Lowered(r);
    forall s | s in l.segments ensures s != "" && '/' !in s && ':' !in s && '@' !in s {
      var i :| 0 <= i < |l.segments| && l.segments[i] == s;
      assert r.segments[i] in r.segments;
      LowerKeeps(r.segments[i], '/'); LowerKeeps(r.segments[i], ':'); LowerKeeps(r.segments[i], '@');
    }
    LowerKeeps(r.host, '/'); LowerKeeps(r.host, '@');
    LowerKeeps(r.tag, '/'); LowerKeeps(r.tag, '@');
  }

  lemma {:induction false} LowerOfJoin(segments: seq<string>)
    ensures ToLower(Join(segments)) == Join(LowerAll(segments))
  {
    if |segments| > 1 {
      LowerOfJoin(segments[1..]);
      assert LowerAll(segments)[1..] == LowerAll(segments[1..]);
      ToLowerConcat(segments[0] + "/", Join(segments[1..]));
      ToLowerConcat(segments[0], "/");
    }
  }

  lemma LowerOfRender(r: Reference)
    ensures ToLower(Render(r)) == Render(Lowered(r))
  {
    LowerOfJoin(r.segments);
    LowerOfParts(r.host, r.tag, r.digest);
    var path := Join(r.segments);
    ToLowerConcat(HostPart(r.host) + path + TagPart(r.tag), DigestPart(r.digest));
    ToLowerConcat(HostPart(r.host) + path, TagPart(r.tag));
    ToLowerConcat(HostPart(r.host), path);
  }

  lemma LowerOfParts(host: string, tag: string, digest: string)
    ensures ToLower(HostPart(host)) == HostPart(ToLower(host))
    ensures ToLower(TagPart(tag)) == TagPart(ToLower(tag))
    ensures ToLower(DigestPart(digest)) == DigestPart(ToLower(digest))
  {
    ToLowerConcat(host, "/");
    ToLowerConcat(":", tag);
    ToLowerConcat("@", digest);
  }

  lemma {:induction false} JoinHasNo(segments: seq<string>, c: char)
    requires c != '/' && forall s | s in segments :: c !in s
    ensures c !in Join(segments)
  {
    if |segments| > 1 {
      JoinHasNo(segments[1..], c);
    } else if |segments| == 1 {
      assert segments[0] in segments;
    }
  }

  lemma RenderHasNoSpace(r: Reference)
    requires WellFormed(r)
    ensures NoSpace(Render(r))
  {
    forall c | IsSpace(c) ensures c !in Render(r) {
      JoinHasNo(r.segments, c);
    }
  }

  lemma {:induction false} PlainPath(segments: seq<string>)
    requires segments != [] && forall s | s in segments :: s != "" && '/' !in s
    ensures Join(segments) != "" && Join(segments)[0] != '/' && Join(segments)[|Join(segments)| - 1] != '/'
  {
    assert segments[0] in segments && segments[0][0] in segments[0];
    if |segments| == 1 {
      assert segments[0][|segments[0]| - 1] in segments[0];
    } else {
      assert forall s | s in segments[1..] :: s in segments;
      PlainPath(segments[1..]);
    }
  }

  lemma DigestStripped(kept: string, digest: string)
    requires '@' !in kept
    ensures StripDigest(kept + DigestPart(digest)) == kept
  {
    if digest != "" {
      FirstOf(kept, '@', digest);
      assert kept + ['@'] + digest == kept + DigestPart(digest);
    }
  }

  lemma TagStripped(before: string, last: string, tag: string)
    requires '/' !in last && ':' !in last && '/' !in tag
    requires before != "" ==> before[|before| - 1] == '/'
    ensures StripTag(before + last + TagPart(tag)) == before + last
  {
    var kept := before + last;
    var s := kept + TagPart(tag);
    assert forall i | |before| <= i < |kept| :: s[i] == kept[i] == last[i - |before|];
    assert forall i | |kept| < i < |s| :: s[i] == tag[i - |kept| - 1];
    assert before != "" ==> s[|before| - 1] == kept[|before| - 1] == '/';
    TagStartsAt(s, |before| - 1, |kept|);
  }

  /** `slash` is the last slash of `s`, or -1, and the first colon after it is at `end`. */
  lemma TagStartsAt(s: string, slash: int, end: int)
    requires -1 <= slash < end <= |s|
    requires slash >= 0 ==> s[slash] == '/'
    requires forall i | slash < i < |s| :: s[i] != '/'
    requires forall i | slash < i < end :: s[i] != ':'
    requires end < |s| ==> s[end] == ':'
    ensures StripTag(s) == s[..end]
  {
    if slash >= 0 {
      LastIndexIs(s, '/', slash);
    } else {
      assert '/' !in s;
    }
    TagIsFirstColon(s, if slash >= 0 then slash else 0, end);
    assert s[0..] == s;
  }

  lemma TagIsFirstColon(s: string, from: nat, end: nat)
    requires from <= end <= |s|
    requires forall i | from <= i < end :: s[i] != ':'
    requires end < |s| ==> s[end] == ':'
    ensures IndexOf(s[from..], ':') == if end < |s| then end - from else -1
  {
    var rest := s[from..];
    assert forall i | 0 <= i < |rest| :: rest[i] == s[from + i];
    if end < |s| {
      IndexIs(rest, ':', end - from);
    } else {
      assert ':' !in rest;
    }
  }

  /** The host and segments as everything up to the last slash, and the last segment. */
  lemma SplitLast(r: Reference) returns (before: string, last: string)
    requires Strippable(r)
    ensures HostPart(r.host) + Join(r.segments) == before + last
    ensures '/' !in last && ':' !in last
    ensures before != "" ==> before[|before| - 1] == '/'
  {
    var n := |r.segments| - 1;
    last := r.segments[n];
    assert last in r.segments;
    if n == 0 {
      before := HostPart(r.host);
    } else {
      before := HostPart(r.host) + (Join(r.segments[..n]) + "/");
      assert r.segments == r.segments[..n] + [last];
      JoinConcat(r.segments[..n], [last]);
    }
  }

  lemma HostStripped(r: Reference)
    requires Strippable(r)
    ensures StripHost(HostPart(r.host) + Join(r.segments)) == Join(r.segments)
  {
    var path := Join(r.segments);
    if r.host != "" {
      HeadBeforeSlash(r.host, path);
    } else {
      assert HostPart(r.host) + path == path;
      if |r.segments| > 1 {
        HeadBeforeSlash(r.segments[0], Join(r.segments[1..]));
      } else {
        assert r.segments[0] in r.segments;
      }
    }
  }

  lemma HeadBeforeSlash(head: string, rest: string)
    requires '/' !in head
    ensures var s := head + "/" + rest;
            IndexOf(s, '/') == |head| && s[..|head|] == head && s[|head| + 1..] == rest
  {
    FirstOf(head, '/', rest);
  }

  /** Registry host, tag and digest are removed and nothing else is. */
  lemma RepositoryPathOfRender(r: Reference)
    requires WellFormed(r)
    ensures RepositoryPath(Render(r)) == Join(LowerAll(r.segments))
    ensures Split(RepositoryPath(Render(r))) == LowerAll(r.segments)
  {
    var l := Lowered(r);
    LoweredIsStrippable(r);
    RenderHasNoSpace(r);
    TrimNothing(Render(r), IsSpace);
    LowerOfRender(r);
    StrippedRender(l);
    PlainPath(l.segments);
    TrimNothing(Join(l.segments), IsSlash);
    SplitOfJoin(l.segments);
  }

  lemma StrippedRender(r: Reference)
    requires Strippable(r)
    ensures StripHost(StripTag(StripDigest(Render(r)))) == Join(r.segments)
    ensures Render(r) != ""
  {
    JoinHasNo(r.segments, '@');
    PlainPath(r.segments);
    var path := HostPart(r.host) + Join(r.segments);
    assert '@' !in path + TagPart(r.tag);
    DigestStripped(path + TagPart(r.tag), r.digest);
    var before, last := SplitLast(r);
    TagStripped(before, last, r.tag);
    HostStripped(r);
  }
}
