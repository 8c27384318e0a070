/** internal/storage/staging.go: resolving archive entry names below a staging root, and
    unpacking an archive there. Containment is lexical: what the kernel makes of symbolic
    links while writing is not part of this model. */
module Staging {
  import opened Sequences
  import opened Text
  import opened Wrappers

  // ----- filepath.Clean and filepath.Join -----

  predicate Rooted(path: string) {
    path != "" && path[0] == '/'
  }

  /** The components left after removing "", "." and every "name/.." pair. Below a root, ".."
      at the top is dropped; in a relative path it stays. */
  function Resolve(rooted: bool, components: seq<string>): (r: seq<string>)
    ensures |r| <= |components|
  {
    if components == [] then []
    else
      var n := |components| - 1;
      ResolveOne(rooted, Resolve(rooted, components[..n]), components[n])
  }

  function ResolveOne(rooted: bool, before: seq<string>, c: string): (r: seq<string>)
    ensures |r| <= |before| + 1
  {
    if c == "" || c == "." then before
    else if c == ".." then
      if before != [] && before[|before| - 1] != ".." then before[..|before| - 1]
      else if rooted then before
      else before + [".."]
    else before + [c]
  }

  function Components(path: string): seq<string> {
    Resolve(Rooted(path), Split(path))
  }

  function Clean(path: string): string {
    if Rooted(path) then "/" + Join(Components(path))
    else if Components(path) == [] then "."
    else Join(Components(path))
  }

  function JoinPath(a: string, b: string): string
    requires a != ""
  {
    if b == "" then Clean(a) else Clean(a + "/" + b)
  }

  function TrimLeadingSlash(s: string): string {
    if Rooted(s) then s[1..] else s
  }

  // ----- safeJoin -----

  function SafeJoin(root: string, name: string): Option<string>
    requires root != ""
  {
    var relative := TrimLeadingSlash(Clean(name));
    if relative == ".." || HasPrefix(relative, "../") then None
    else
      var target := JoinPath(root, relative);
      if target != root && !HasPrefix(target, root + "/") then None else Some(target)
  }

  /** The cleaned name leaves the directory it is resolved in. */
  predicate Climbs(name: string) {
    !Rooted(name) && Components(name) != [] && Components(name)[0] == ".."
  }

  predicate Plain(c: string) {
    c != "" && c != "." && c != ".." && '/' !in c
  }

  predicate AllPlain(components: seq<string>) {
    forall i | 0 <= i < |components| :: Plain(components[i])
  }

  /** Only leading components may be "..", and only in a relative path. */
  ghost predicate Resolved(rooted: bool, r: seq<string>) {
    && (forall i | 0 <= i < |r| :: r[i] == ".." || Plain(r[i]))
    && (forall i | 0 <= i < |r| && r[i] == ".." :: !rooted && (i > 0 ==> r[i - 1] == ".."))
  }

  lemma {:induction false} ResolveIsResolved(rooted: bool, components: seq<string>)
    requires forall i | 0 <= i < |components| :: '/' !in components[i]
    ensures Resolved(rooted, Resolve(rooted, components))
  {
    if components != [] {
      ResolveIsResolved(rooted, components[..|components| - 1]);
    }
  }

  lemma {:induction false} OnlyLeadingUps(rooted: bool, r: seq<string>, i: nat)
    requires Resolved(rooted, r) && i < |r| && r[i] == ".."
    ensures r[0] == ".."
  {
    if i > 0 {
      OnlyLeadingUps(rooted, r, i - 1);
    }
  }

  lemma ComponentsShape(name: string)
    ensures Resolved(Rooted(name), Components(name))
    ensures !Climbs(name) ==> AllPlain(Components(name))
    ensures forall c | c in Components(name) :: c != "" && '/' !in c
  {
    var s := Split(name);
    assert forall i | 0 <= i < |s| :: s[i] in s;
    ResolveIsResolved(Rooted(name), s);
    var r := Components(name);
    forall i | 0 <= i < |r| ensures !Climbs(name) ==> Plain(r[i]) {
      if r[i] == ".." { OnlyLeadingUps(Rooted(name), r, i); }
    }
  }

  lemma {:induction false} ResolvePlain(rooted: bool, before: seq<string>, plain: seq<string>)
    requires AllPlain(plain)
    ensures Resolve(rooted, before + plain) == Resolve(rooted, before) + plain
  {
    if plain == [] {
      assert before + plain == before;
    } else {
      var front, last := plain[..|plain| - 1], plain[|plain| - 1];
      assert plain == front + [last];
      ResolvePlain(rooted, before, front);
      ResolveSnoc(rooted, before + front, last);
      Reassociate(before, front, [last]);
      Reassociate(Resolve(rooted, before), front, [last]);
    }
  }

  lemma ResolveSnoc(rooted: bool, components: seq<string>, c: string)
    ensures Resolve(rooted, components + [c]) == ResolveOne(rooted, Resolve(rooted, components), c)
  {
    assert (components + [c])[..|components|] == components;
  }

  /** What a path resolves to goes on from what its first part does. */
  lemma {:induction false} ResolveGoesOn(rooted: bool, a: seq<string>, a': seq<string>, b: seq<string>)
    requires Resolve(rooted, a) == Resolve(rooted, a')
    ensures Resolve(rooted, a + b) == Resolve(rooted, a' + b)
  {
    if b == [] {
      assert a + b == a && a' + b == a';
    } else {
      var front, last := b[..|b| - 1], b[|b| - 1];
      ResolveGoesOn(rooted, a, a', front);
      assert b == front + [last];
      Reassociate(a, front, [last]);
      Reassociate(a', front, [last]);
      ResolveSnoc(rooted, a + front, last);
      ResolveSnoc(rooted, a' + front, last);
    }
  }

  /** The rules of cleaning: plain components stay, empty ones and "." go wherever they are, a name goes
      together with a ".." after it, and ".." goes at the top of an absolute path and stays at the front
      of a relative one. */
  lemma CleaningRules(rooted: bool, a: seq<string>, c: string, b: seq<string>)
    requires c != "" && c != "." && c != ".."
    ensures Resolve(rooted, a + [""] + b) == Resolve(rooted, a + b)
    ensures Resolve(rooted, a + ["."] + b) == Resolve(rooted, a + b)
    ensures Resolve(rooted, a + [c] + [".."] + b) == Resolve(rooted, a + b)
    ensures Resolve(true, [".."] + b) == Resolve(true, b)
    ensures Resolve(false, [".."] + b) == [".."] + Resolve(false, b)
    ensures AllPlain(b) ==> Resolve(rooted, b) == b
  {
    ResolveSnoc(rooted, a, "");
    ResolveSnoc(rooted, a, ".");
    ResolveSnoc(rooted, a, c);
    ResolveSnoc(rooted, a + [c], "..");
    ResolveGoesOn(rooted, a + [""], a, b);
    ResolveGoesOn(rooted, a + ["."], a, b);
    ResolveGoesOn(rooted, a + [c] + [".."], a, b);
    UpAtTheTop(b);
    UpAtTheFront(b);
    if AllPlain(b) {
      ResolvePlain(rooted, [], b);
      assert [] + b == b;
    }
  }

  lemma UpAtTheTop(b: seq<string>)
    ensures Resolve(true, [".."] + b) == Resolve(true, b)
  {
    ResolveSnoc(true, [], "..");
    assert [] + [".."] == [".."] && [] + b == b;
    ResolveGoesOn(true, [".."], [], b);
  }

  lemma {:induction false} UpAtTheFront(b: seq<string>)
    ensures Resolve(false, [".."] + b) == [".."] + Resolve(false, b)
  {
    if b == [] {
      ResolveSnoc(false, [], "..");
      assert [] + [".."] == [".."] + b == [".."] + Resolve(false, b);
    } else {
      var front, last := b[..|b| - 1], b[|b| - 1];
      UpAtTheFront(front);
      assert b == front + [last];
      Reassociate([".."], front, [last]);
      ResolveSnoc(false, [".."] + front, last);
      UpBefore(Resolve(false, front), last);
    }
  }

  lemma UpBefore(r: seq<string>, c: string)
    ensures ResolveOne(false, [".."] + r, c) == [".."] + ResolveOne(false, r, c)
  {
    if r != [] {
      assert ([".."] + r)[..|r|] == [".."] + r[..|r| - 1];
    }
    Reassociate([".."], r, [c]);
    Reassociate([".."], r, [".."]);
  }

  /** The path below the root that an absolute path with these components has. */
  function Absolute(components: seq<string>): string {
    "/" + Join(components)
  }

  lemma RelativeForm(name: string)
    ensures var relative := TrimLeadingSlash(Clean(name));
            relative == if !Rooted(name) && Components(name) == [] then "." else Join(Components(name))
  {
    ComponentsShape(name);
    var r := Components(name);
    if Rooted(name) {
      AfterSlash(Join(r));
    } else if r != [] {
      assert r[0] in r;
      JoinNonEmpty(r);
    }
  }

  lemma AfterSlash(s: string)
    ensures TrimLeadingSlash("/" + s) == s
  {
  }

  lemma JoinNonEmpty(r: seq<string>)
    requires r != [] && r[0] != "" && '/' !in r[0]
    ensures Join(r) != "" && Join(r)[0] != '/'
  {
    assert r[0][0] in r[0];
    assert Join(r)[0] == r[0][0];
  }

  /** The textual test for ".." is the test on components. */
  lemma RefusalIsClimbing(name: string)
    ensures var relative := TrimLeadingSlash(Clean(name));
            relative == ".." || HasPrefix(relative, "../") <==> Climbs(name)
  {
    RelativeForm(name);
    ComponentsShape(name);
    var r := Components(name);
    var relative := TrimLeadingSlash(Clean(name));
    if r != [] {
      FirstComponent(r);
    }
  }

  lemma FirstComponent(r: seq<string>)
    requires r != [] && forall c | c in r :: '/' !in c
    ensures Join(r) == ".." || HasPrefix(Join(r), "../") <==> r[0] == ".."
  {
    SplitOfJoin(r);
    StartsWithUp(Join(r));
    if r[0] == ".." && |r| > 1 {
      assert Join(r) == "../" + Join(r[1..]);
    }
  }

  lemma StartsWithUp(s: string)
    ensures s == ".." || HasPrefix(s, "../") ==> Split(s)[0] == ".."
  {
    if HasPrefix(s, "../") {
      assert s == ".." + "/" + s[3..];
      SplitAtSlash("..", s[3..]);
    }
  }

  /** Joining a name that does not climb puts its components after the root's. */
  lemma JoinedComponents(root: seq<string>, name: string)
    requires AllPlain(root) && !Climbs(name)
    ensures JoinPath(Absolute(root), TrimLeadingSlash(Clean(name))) == Absolute(root + Components(name))
  {
    ComponentsShape(name);
    RelativeForm(name);
    var path, r := Absolute(root), Components(name);
    var relative := TrimLeadingSlash(Clean(name));
    RootSegments(root);
    if relative == "" {
      assert r == [] by {
        if r != [] { assert r[0] in r; JoinNonEmpty(r); }
      }
      assert Rooted(path) && root + r == root;
    } else if r == [] {
      assert relative == ".";
      JoinedDot(path, root);
      assert root + r == root;
    } else {
      JoinedBelow(path, root, r);
    }
  }

  lemma JoinedDot(path: string, root: seq<string>)
    requires Rooted(path) && Components(path) == root
    ensures Components(path + "/" + ".") == root && Rooted(path + "/" + ".")
  {
    SplitConcat(path, ".");
    assert Split(".") == ["."];
    ResolveSnoc(true, Split(path), ".");
  }

  lemma JoinedBelow(path: string, root: seq<string>, r: seq<string>)
    requires Rooted(path) && Components(path) == root && r != [] && AllPlain(r)
    requires forall c | c in r :: '/' !in c
    ensures Components(path + "/" + Join(r)) == root + r && Rooted(path + "/" + Join(r))
  {
    SplitConcat(path, Join(r));
    SplitOfJoin(r);
    ResolvePlain(true, Split(path), r);
  }

  /** Splitting an absolute path gives an empty first segment and then its components. */
  lemma RootSegments(root: seq<string>)
    requires AllPlain(root)
    ensures Resolve(true, Split(Absolute(root))) == root
  {
    assert Absolute(root) == "" + "/" + Join(root);
    SplitAtSlash("", Join(root));
    if root == [] {
      assert Split("") == [""];
      assert Resolve(true, ["", ""]) == [];
    } else {
      SplitOfJoin(root);
      ResolvePlain(true, [""], root);
    }
  }

  /** Below a root other than "/", exactly the names that do not climb are accepted, the result is
      the root's components followed by the name's, and the second check never refuses. */
  lemma SafeJoinIsExact(root: seq<string>, name: string)
    requires AllPlain(root) && root != []
    ensures SafeJoin(Absolute(root), name) ==
            if Climbs(name) then None else Some(Absolute(root + Components(name)))
  {
    RefusalIsClimbing(name);
    if !Climbs(name) {
      JoinedComponents(root, name);
      BelowRoot(root, Components(name));
    }
  }

  lemma BelowRoot(root: seq<string>, r: seq<string>)
    requires root != []
    ensures Absolute(root + r) == Absolute(root) + (if r == [] then "" else "/" + Join(r))
  {
    if r == [] {
      assert root + r == root;
    } else {
      JoinConcat(root, r);
    }
  }

  /** With "/" itself as the root the second check does refuse: every entry but the root's own. */
  lemma SafeJoinAtFilesystemRoot(name: string)
    ensures SafeJoin("/", name) == if !Climbs(name) && Components(name) == [] then Some("/") else None
  {
    RefusalIsClimbing(name);
    assert Absolute([]) == "/";
    if !Climbs(name) {
      JoinedComponents([], name);
      ComponentsShape(name);
      var r := Components(name);
      assert [] + r == r;
      if r != [] {
        assert r[0] in r && r[0][0] in r[0];
        assert Join(r)[0] == r[0][0];
        assert Absolute(r)[1] != '/';
      }
    }
  }

  // ----- extractTar -----

  datatype EntryKind = Directory | Regular | Symlink | HardLink | Other

  /** An archive entry, with what the file system makes of it: whether the calls that create it
      succeed, and whether its ownership can be applied. */
  datatype Entry = Entry(name: string, kind: EntryKind, linkName: string, size: nat, creates: bool, chowns: bool)

  /** What extraction has recorded: `touched` lists the paths the file system was asked to create
      or link to, `dirs` the directories whose metadata is still to be applied. */
  datatype Extraction = Extraction(ownership: seq<string>, files: nat, bytes: nat, skipped: nat, touched: seq<string>,
                                   dirs: seq<string>, ownershipPreserved: bool)

  /** The archive's own root entry is passed over. */
  predicate IsRootEntry(e: Entry) {
    !Climbs(e.name) && Components(e.name) == []
  }

  /** The whole archive is refused because of this entry. */
  predicate Refused(e: Entry) {
    || Climbs(e.name)
    || (!IsRootEntry(e) && e.kind == HardLink && Climbs(e.linkName))
    || (!IsRootEntry(e) && e.kind != Other && !e.creates)
  }

  function Relative(e: Entry): string {
    Join(Components(e.name))
  }

  function Target(root: seq<string>, name: string): string {
    Absolute(root + Components(name))
  }

  /** The directory that holds an entry. */
  function Folder(root: seq<string>, name: string): string {
    var r := Components(name);
    Absolute(root + if r == [] then [] else r[..|r| - 1])
  }

  function AfterEntry(root: seq<string>, x: Extraction, e: Entry): Extraction {
    if IsRootEntry(e) then x
    else AfterPlacing(x, e, Relative(e), Target(root, e.name), Folder(root, e.name), Target(root, e.linkName))
  }

  /** filepath.Dir of an absolute path. */
  function Parent(path: string): string {
    if LastIndexOf(path, '/') <= 0 then "/" else path[..LastIndexOf(path, '/')]
  }

  /** The paths that placing an entry creates or links to; all but directories have theirs made first. */
  function Asked(e: Entry, target: string, parent: string, source: string): seq<string> {
    match e.kind
    case Directory => [target]
    case HardLink => [source, parent, target]
    case _ => [parent, target]
  }

  function AfterPlacing(x: Extraction, e: Entry, relative: string, target: string, parent: string, source: string)
    : Extraction
  {
    var recorded := x.(ownership := x.ownership + [relative]);
    if e.kind == Other then recorded.(skipped := x.skipped + 1)
    else
      recorded.(files := x.files + 1,
                bytes := x.bytes + if e.kind == Regular then e.size else 0,
                touched := x.touched + Asked(e, target, parent, source),
                dirs := x.dirs + if e.kind == Directory then [target] else [],
                ownershipPreserved := x.ownershipPreserved && e.chowns)
  }

  function AfterEntries(root: seq<string>, entries: seq<Entry>): Extraction {
    if entries == [] then Extraction([], 0, 0, 0, [], [], true)
    else AfterEntry(root, AfterEntries(root, entries[..|entries| - 1]), entries[|entries| - 1])
  }

  /** Lexically inside the root, or the root itself. */
  predicate Inside(root: seq<string>, path: string) {
    path == Absolute(root) || HasPrefix(path, Absolute(root) + "/")
  }

  ghost predicate AllInside(root: seq<string>, paths: seq<string>) {
    forall p | p in paths :: Inside(root, p)
  }

  /** Success means exactly that no entry was refused. Whatever happens, every path that was
      created or linked to lies inside the root, including those of an extraction that fails
      half-way. Directory metadata is applied in the reverse of the order of creation. */
  method ExtractTar(root: seq<string>, entries: seq<Entry>)
    returns (result: Option<Extraction>, touched: seq<string>, applied: seq<string>)
    requires AllPlain(root) && root != []
    ensures result.Some? <==> forall i | 0 <= i < |entries| :: !Refused(entries[i])
    ensures result.Some? ==> result.value == AfterEntries(root, entries) && touched == result.value.touched
    ensures result.Some? ==> Records(root, entries, result.value) && InReverse(applied, result.value.dirs)
    ensures AllInside(root, touched)
  {
    var x, ok := ExtractEntries(root, entries);
    if !ok {
      return None, x.touched, [];
    }
    assert entries[..|entries|] == entries;
    ExtractionRecords(root, entries);
    applied := ApplyMetadata(x.dirs);
    result, touched := Some(x), x.touched;
  }

  /** `x` is what extracting the first `i` entries records, none of which is refused. */
  ghost predicate Reached(root: seq<string>, entries: seq<Entry>, i: nat, x: Extraction) {
    && i <= |entries|
    && x == AfterEntries(root, entries[..i])
    && (forall k | 0 <= k < i :: !Refused(entries[k]))
  }

  /** The loop over the archive, up to its end or to the first entry that is refused. */
  method ExtractEntries(root: seq<string>, entries: seq<Entry>) returns (x: Extraction, ok: bool)
    requires AllPlain(root) && root != []
    ensures if ok then Reached(root, entries, |entries|, x) else exists i :: 0 <= i < |entries| && Refused(entries[i])
    ensures AllInside(root, x.touched)
  {
    x := Extraction([], 0, 0, 0, [], [], true);
    for i := 0 to |entries|
      invariant Reached(root, entries, i, x) && AllInside(root, x.touched)
    {
      x, ok := ExtractNext(root, entries, i, x);
      if !ok {
        return;
      }
    }
    ok := true;
  }

  method ExtractNext(root: seq<string>, entries: seq<Entry>, i: nat, x0: Extraction) returns (x: Extraction, ok: bool)
    requires AllPlain(root) && root != [] && i < |entries|
    requires Reached(root, entries, i, x0) && AllInside(root, x0.touched)
    ensures if ok then Reached(root, entries, i + 1, x) else Refused(entries[i])
    ensures AllInside(root, x.touched)
  {
    x, ok := ExtractEntry(root, x0, entries[i]);
    assert entries[..i + 1][..i] == entries[..i];
  }

  /** Returns the directories in the order in which their modes and times are set. */
  method ApplyMetadata(dirs: seq<string>) returns (applied: seq<string>)
    ensures InReverse(applied, dirs)
  {
    applied := [];
    for i := |dirs| downto 0
      invariant |applied| == |dirs| - i
      invariant forall k | 0 <= k < |applied| :: applied[k] == dirs[|dirs| - 1 - k]
    {
      applied := applied + [dirs[i]];
    }
  }

  method ExtractEntry(root: seq<string>, x0: Extraction, e: Entry) returns (x: Extraction, ok: bool)
    requires AllPlain(root) && root != []
    requires AllInside(root, x0.touched)
    ensures ok <==> !Refused(e)
    ensures ok ==> x == AfterEntry(root, x0, e)
    ensures AllInside(root, x.touched)
  {
    SafeJoinIsExact(root, e.name);
    SafeJoinIsExact(root, e.linkName);
    TargetInside(root, e.name);
    TargetInside(root, e.linkName);
    ParentInside(root, e.name);
    var destination := Absolute(root);
    var target := SafeJoin(destination, e.name);
    if target.None? {
      return x0, false;
    }
    if target.value == destination {
      return x0, true;
    }
    var relative := target.value[|destination| + 1..];
    var source := SafeJoin(destination, e.linkName);
    x, ok := PlaceEntry(x0, e, relative, target.value, source);
    StaysInside(root, x0.touched, x.touched, target.value, source);
  }

  lemma StaysInside(root: seq<string>, before: seq<string>, after: seq<string>, target: string, source: Option<string>)
    requires AllInside(root, before) && Inside(root, target) && Inside(root, Parent(target))
    requires source.Some? ==> Inside(root, source.value)
    requires forall p | p in after :: p in before || p == target || p == Parent(target) || source == Some(p)
    ensures AllInside(root, after)
  {
  }

  /** The part of the loop that writes; `source` is the link name resolved below the root. */
  method PlaceEntry(x0: Extraction, e: Entry, relative: string, target: string, source: Option<string>)
    returns (x: Extraction, ok: bool)
    ensures ok <==> !(e.kind == HardLink && source.None?) && !(e.kind != Other && !e.creates)
    ensures ok ==> x == AfterPlacing(x0, e, relative, target, Parent(target), source.GetOr(""))
    ensures forall p | p in x.touched ::
              p in x0.touched || p == target || p == Parent(target) || (e.kind == HardLink && source == Some(p))
  {
    x := x0;
    x := x.(ownership := x.ownership + [relative]);
    if e.kind == Other {
      return x.(skipped := x.skipped + 1), true;
    }
    if e.kind == HardLink && source.None? {
      return x, false;
    }
    x := x.(touched := x.touched + Asked(e, target, Parent(target), source.GetOr("")));
    if !e.creates {
      return x, false;
    }
    if e.kind == Directory {
      x := x.(dirs := x.dirs + [target]);
    }
    if e.kind == Regular {
      x := x.(bytes := x.bytes + e.size);
    }
    x := x.(files := x.files + 1);
    if !e.chowns && x.ownershipPreserved {
      x := x.(ownershipPreserved := false);
    }
    ok := true;
  }

  lemma TargetInside(root: seq<string>, name: string)
    requires root != []
    ensures Inside(root, Target(root, name))
    ensures Target(root, name) == Absolute(root) <==> Components(name) == []
    ensures Components(name) != [] ==>
              |Target(root, name)| > |Absolute(root)|
              && Target(root, name)[|Absolute(root)| + 1..] == Join(Components(name))
  {
    BelowRoot(root, Components(name));
  }

  lemma ParentOf(before: seq<string>, last: string)
    requires before != [] && '/' !in last
    ensures Parent(Absolute(before + [last])) == Absolute(before)
  {
    JoinConcat(before, [last]);
    LastOf(Absolute(before), '/', last);
    var path := Absolute(before) + ['/'] + last;
    assert Absolute(before + [last]) == path;
    assert path[..|Absolute(before)|] == Absolute(before);
  }

  /** An entry's parent directory is that of all but its last component, and every directory on the
      way down to the entry lies inside the root. */
  lemma ParentInside(root: seq<string>, name: string)
    requires root != []
    ensures forall k | 0 <= k <= |Components(name)| :: Inside(root, Absolute(root + Components(name)[..k]))
    ensures Components(name) != [] ==>
              Parent(Target(root, name)) == Folder(root, name)
              && Inside(root, Parent(Target(root, name)))
  {
    PrefixesInside(root, Components(name));
    ComponentsShape(name);
    LastComponent(root, Components(name));
  }

  lemma PrefixesInside(root: seq<string>, r: seq<string>)
    requires root != []
    ensures forall k | 0 <= k <= |r| :: Inside(root, Absolute(root + r[..k]))
  {
    forall k | 0 <= k <= |r| ensures Inside(root, Absolute(root + r[..k])) {
      BelowRoot(root, r[..k]);
    }
  }

  lemma LastComponent(root: seq<string>, r: seq<string>)
    requires root != [] && forall c | c in r :: '/' !in c
    ensures r != [] ==> Parent(Absolute(root + r)) == Absolute(root + r[..|r| - 1])
  {
    if r != [] {
      var last := r[|r| - 1];
      assert last in r;
      ParentOf(root + r[..|r| - 1], last);
      assert root + r == root + r[..|r| - 1] + [last];
    }
  }

  /** Every recorded owner belongs to an extracted or to a skipped entry. */
  lemma {:induction false} OwnershipIsComplete(root: seq<string>, entries: seq<Entry>)
    ensures var x := AfterEntries(root, entries); |x.ownership| == x.files + x.skipped
  {
    if entries != [] {
      OwnershipIsComplete(root, entries[..|entries| - 1]);
    }
  }

  /** An entry that leaves something in the tree. */
  predicate Placed(e: Entry) {
    !IsRootEntry(e) && e.kind in {Directory, Regular, Symlink, HardLink}
  }

  function HowMany(entries: seq<Entry>, p: Entry -> bool): nat {
    if entries == [] then 0 else (if p(entries[0]) then 1 else 0) + HowMany(entries[1..], p)
  }

  function ContentBytes(entries: seq<Entry>): nat {
    if entries == [] then 0
    else (if Placed(entries[0]) && entries[0].kind == Regular then entries[0].size else 0) + ContentBytes(entries[1..])
  }

  /** The recorded owner of an entry: only the archive's own root has none. */
  function OwnerOf(e: Entry): Option<string> {
    if !Climbs(e.name) && Components(e.name) == [] then None else Some(Join(Components(e.name)))
  }

  function DirectoryOf(root: seq<string>): Entry -> Option<string> {
    (e: Entry) => if Placed(e) && e.kind == Directory then Some(Absolute(root + Components(e.name))) else None
  }

  function SkippedEntry(e: Entry): bool {
    !IsRootEntry(e) && e.kind == Other
  }

  /** What extraction records is read off the entries: each one placed is counted, each other kind is
      skipped, bytes are those of regular files, owners and directories are listed in order, and
      ownership was preserved if it could be applied to every entry placed. */
  ghost predicate Records(root: seq<string>, entries: seq<Entry>, x: Extraction) {
    && CountsAre(entries, x)
    && x.ownership == Collect(OwnerOf, entries) && x.dirs == Collect(DirectoryOf(root), entries)
    && (x.ownershipPreserved <==> OwnersKept(entries)) && TargetsTouched(root, entries, x.touched)
  }

  ghost predicate CountsAre(entries: seq<Entry>, x: Extraction) {
    && x.files == HowMany(entries, Placed) && x.skipped == HowMany(entries, SkippedEntry)
    && x.bytes == ContentBytes(entries)
  }

  predicate OwnersKept(entries: seq<Entry>) {
    forall e | e in entries && Placed(e) :: e.chowns
  }

  predicate TargetsTouched(root: seq<string>, entries: seq<Entry>, touched: seq<string>) {
    forall e | e in entries && Placed(e) :: Target(root, e.name) in touched
  }

  lemma {:induction false} HowManySnoc(entries: seq<Entry>, e: Entry, p: Entry -> bool)
    ensures HowMany(entries + [e], p) == HowMany(entries, p) + if p(e) then 1 else 0
  {
    if entries == [] {
      assert entries + [e] == [e];
    } else {
      HowManySnoc(entries[1..], e, p);
      assert (entries + [e])[1..] == entries[1..] + [e];
    }
  }

  lemma {:induction false} ContentBytesSnoc(entries: seq<Entry>, e: Entry)
    ensures ContentBytes(entries + [e]) == ContentBytes(entries) + if Placed(e) && e.kind == Regular then e.size else 0
  {
    if entries == [] {
      assert entries + [e] == [e];
    } else {
      ContentBytesSnoc(entries[1..], e);
      assert (entries + [e])[1..] == entries[1..] + [e];
    }
  }

  lemma OwnersKeptSnoc(entries: seq<Entry>, e: Entry)
    ensures OwnersKept(entries + [e]) <==> OwnersKept(entries) && (Placed(e) ==> e.chowns)
  {
    assert e in entries + [e] && forall d | d in entries :: d in entries + [e];
  }

  lemma TargetsTouchedSnoc(root: seq<string>, entries: seq<Entry>, e: Entry, before: seq<string>, after: seq<string>)
    requires TargetsTouched(root, entries, before) && forall p | p in before :: p in after
    requires Placed(e) ==> Target(root, e.name) in after
    ensures TargetsTouched(root, entries + [e], after)
  {
  }

  lemma OwnershipAfter(root: seq<string>, e: Entry, x: Extraction)
    ensures AfterEntry(root, x, e).ownershipPreserved <==> x.ownershipPreserved && (Placed(e) ==> e.chowns)
  {
  }

  lemma TouchedAfter(root: seq<string>, e: Entry, x: Extraction)
    ensures forall p | p in x.touched :: p in AfterEntry(root, x, e).touched
    ensures Placed(e) ==> Target(root, e.name) in AfterEntry(root, x, e).touched
  {
    if Placed(e) {
      var asked := Asked(e, Target(root, e.name), Folder(root, e.name), Target(root, e.linkName));
      AskedForTarget(e, Target(root, e.name), Folder(root, e.name), Target(root, e.linkName));
      assert AfterEntry(root, x, e).touched == x.touched + asked;
    }
  }

  lemma AskedForTarget(e: Entry, target: string, parent: string, source: string)
    ensures target in Asked(e, target, parent, source)
  {
  }

  lemma OneMoreListed(root: seq<string>, e: Entry, x: Extraction)
    ensures AfterEntry(root, x, e).ownership == x.ownership + OneOrNone(OwnerOf(e))
    ensures AfterEntry(root, x, e).dirs == x.dirs + OneOrNone(DirectoryOf(root)(e))
  {
  }

  lemma LastEntry(root: seq<string>, entries: seq<Entry>)
    requires entries != []
    ensures var n := |entries| - 1;
            && entries == entries[..n] + [entries[n]]
            && AfterEntries(root, entries) == AfterEntry(root, AfterEntries(root, entries[..n]), entries[n])
  {
  }

  lemma {:induction false} CountsAreRight(root: seq<string>, entries: seq<Entry>)
    ensures CountsAre(entries, AfterEntries(root, entries))
  {
    if entries != [] {
      var n := |entries| - 1;
      var before, e := entries[..n], entries[n];
      CountsAreRight(root, before);
      LastEntry(root, entries);
      HowManySnoc(before, e, Placed);
      HowManySnoc(before, e, SkippedEntry);
      ContentBytesSnoc(before, e);
    }
  }

  lemma {:induction false} OwnersAreKept(root: seq<string>, entries: seq<Entry>)
    ensures AfterEntries(root, entries).ownershipPreserved <==> OwnersKept(entries)
  {
    if entries != [] {
      var n := |entries| - 1;
      var before, e := entries[..n], entries[n];
      OwnersAreKept(root, before);
      LastEntry(root, entries);
      OwnersKeptSnoc(before, e);
      OwnershipAfter(root, e, AfterEntries(root, before));
    }
  }

  lemma {:induction false} TargetsAreTouched(root: seq<string>, entries: seq<Entry>)
    ensures TargetsTouched(root, entries, AfterEntries(root, entries).touched)
  {
    if entries != [] {
      var n := |entries| - 1;
      var before, e := entries[..n], entries[n];
      TargetsAreTouched(root, before);
      LastEntry(root, entries);
      var x := AfterEntries(root, before);
      TouchedAfter(root, e, x);
      TargetsTouchedSnoc(root, before, e, x.touched, AfterEntry(root, x, e).touched);
    }
  }

  lemma {:induction false} ListsAreRight(root: seq<string>, entries: seq<Entry>)
    ensures AfterEntries(root, entries).ownership == Collect(OwnerOf, entries)
    ensures AfterEntries(root, entries).dirs == Collect(DirectoryOf(root), entries)
  {
    if entries != [] {
      var n := |entries| - 1;
      var before, e := entries[..n], entries[n];
      ListsAreRight(root, before);
      LastEntry(root, entries);
      CollectAppend(OwnerOf, before, e);
      CollectAppend(DirectoryOf(root), before, e);
      OneMoreListed(root, e, AfterEntries(root, before));
    }
  }

  lemma ExtractionRecords(root: seq<string>, entries: seq<Entry>)
    ensures Records(root, entries, AfterEntries(root, entries))
  {
    CountsAreRight(root, entries);
    OwnersAreKept(root, entries);
    TargetsAreTouched(root, entries);
    ListsAreRight(root, entries);
  }

  predicate Beneath(path: string, dir: string) {
    HasPrefix(path, dir + "/")
  }

  /** When no directory is listed after something beneath it, no directory's metadata is applied
      before that of a directory beneath it. */
  lemma DeeperDirectoriesFirst(root: seq<string>, entries: seq<Entry>, applied: seq<string>)
    requires InReverse(applied, AfterEntries(root, entries).dirs)
    ensures ParentsFirst(root, entries) ==>
              forall i, j | 0 <= i < j < |applied| :: !Beneath(applied[j], applied[i])
  {
    var at := DirectoryEntries(root, entries);
    var n := |applied|;
    if ParentsFirst(root, entries) {
      forall i, j | 0 <= i < j < n ensures !Beneath(applied[j], applied[i]) {
        assert at[n - 1 - j] < at[n - 1 - i];
      }
    }
  }

  predicate InReverse(a: seq<string>, b: seq<string>) {
    |a| == |b| && forall i | 0 <= i < |a| :: a[i] == b[|a| - 1 - i]
  }

  predicate ListsDirectory(e: Entry) {
    !IsRootEntry(e) && e.kind == Directory
  }

  ghost predicate ParentsFirst(root: seq<string>, entries: seq<Entry>) {
    forall i, j | 0 <= i < j < |entries| && ListsDirectory(entries[i]) && ListsDirectory(entries[j]) ::
      !Beneath(Target(root, entries[i].name), Target(root, entries[j].name))
  }

  lemma DirectoriesAfter(root: seq<string>, x: Extraction, e: Entry)
    ensures AfterEntry(root, x, e).dirs == x.dirs + if ListsDirectory(e) then [Target(root, e.name)] else []
  {
  }

  /** The directories `dirs` come from the entries at the positions `at`, in order. */
  ghost predicate ListedAt(root: seq<string>, entries: seq<Entry>, dirs: seq<string>, at: seq<nat>) {
    && |at| == |dirs|
    && (forall i | 0 <= i < |at| ::
          at[i] < |entries| && ListsDirectory(entries[at[i]]) && dirs[i] == Target(root, entries[at[i]].name))
    && (forall i, j | 0 <= i < j < |at| :: at[i] < at[j])
  }

  lemma ListedNext(root: seq<string>, earlier: seq<Entry>, e: Entry, dirs: seq<string>, at: seq<nat>)
    requires ListedAt(root, earlier, dirs, at)
    ensures ListedAt(root, earlier + [e], dirs, at)
    ensures ListsDirectory(e) ==> ListedAt(root, earlier + [e], dirs + [Target(root, e.name)], at + [|earlier|])
  {
    assert forall k | 0 <= k < |earlier| :: (earlier + [e])[k] == earlier[k];
  }

  /** Which entries the pending directories come from, in order. */
  lemma {:induction false} DirectoryEntries(root: seq<string>, entries: seq<Entry>) returns (at: seq<nat>)
    ensures ListedAt(root, entries, AfterEntries(root, entries).dirs, at)
  {
    at := [];
    if entries != [] {
      var n := |entries| - 1;
      at := DirectoryEntries(root, entries[..n]);
      assert entries == entries[..n] + [entries[n]];
      DirectoriesAfter(root, AfterEntries(root, entries[..n]), entries[n]);
      ListedNext(root, entries[..n], entries[n], AfterEntries(root, entries[..n]).dirs, at);
      if ListsDirectory(entries[n]) {
        at := at + [n];
      }
    }
  }
}
