/** internal/projectanalyzer/service.go: collecting service evidence out of Compose documents and
    running containers, and why the order in which Go walks a map never reaches the fingerprint. */
module ProjectAnalyzer {
  import opened Ordering

  datatype Mount = Mount(kind: string, source: string, target: string)

  datatype Service = Service(name: string, image: string, environment: seq<string>, mounts: seq<Mount>)

  /** A service of a Compose document, its YAML already reduced to names and mounts. */
  datatype ComposeService = ComposeService(image: string, environment: seq<string>, mounts: seq<Mount>,
                                           secrets: seq<string>, configs: seq<string>, envFiles: seq<string>)

  datatype Document = Document(services: map<string, ComposeService>, secrets: set<string>, configs: set<string>)

  datatype Container = Container(name: string, service: string, image: string, mounts: seq<Mount>)

  // ----- uniqueSorted -----

  ghost function Names(s: seq<string>): set<string> {
    set x | x in s && x != ""
  }

  method UniqueSorted(values: seq<string>) returns (out: seq<string>)
    ensures out == Listing(Names(values))
  {
    var seen: set<string> := {};
    for i := 0 to |values|
      invariant seen == Names(values[..i])
    {
      assert values[..i + 1] == values[..i] + [values[i]];
      if values[i] != "" {
        seen := seen + {values[i]};
      }
    }
    assert values[..|values|] == values;
    out := SortedListing(seen);
  }

  // ----- mergeService -----

  ghost predicate UniqueNames(all: seq<Service>) {
    forall i, j | 0 <= i < j < |all| :: all[i].name != all[j].name
  }

  ghost predicate HasName(all: seq<Service>, name: string) {
    exists i :: 0 <= i < |all| && all[i].name == name
  }

  /** `all` lists the evidence of `m`, one entry for each name. */
  ghost predicate Lists(all: seq<Service>, m: map<string, Service>) {
    && UniqueNames(all)
    && (forall i | 0 <= i < |all| :: all[i].name in m && m[all[i].name] == all[i])
    && (forall n | n in m :: HasName(all, n))
  }

  ghost function Combine(a: Service, b: Service): Service {
    Service(a.name, if a.image == "" then b.image else a.image,
            Listing(Names(a.environment + b.environment)), a.mounts + b.mounts)
  }

  ghost function Merge(m: map<string, Service>, s: Service): map<string, Service> {
    m[s.name := if s.name in m then Combine(m[s.name], s) else s]
  }

  /** Names stay unique, and the evidence under the new name is combined or added. */
  method MergeService(all: seq<Service>, s: Service, ghost m: map<string, Service>) returns (merged: seq<Service>)
    requires Lists(all, m)
    ensures Lists(merged, Merge(m, s))
  {
    for i := 0 to |all|
      invariant forall j | 0 <= j < i :: all[j].name != s.name
    {
      if all[i].name == s.name {
        var image := if all[i].image == "" then s.image else all[i].image;
        var environment := UniqueSorted(all[i].environment + s.environment);
        var combined := Service(all[i].name, image, environment, all[i].mounts + s.mounts);
        merged := all[i := combined];
        ListsUpdated(all, m, i, combined);
        return;
      }
    }
    merged := all + [s];
    ListsAppended(all, m, s);
  }

  lemma ListsUpdated(all: seq<Service>, m: map<string, Service>, i: nat, s: Service)
    requires Lists(all, m) && i < |all| && all[i].name == s.name
    ensures Lists(all[i := s], m[s.name := s])
  {
    var m' := m[s.name := s];
    forall n | n in m' ensures HasName(all[i := s], n) {
      if n != s.name {
        assert HasName(all, n);
        var k :| 0 <= k < |all| && all[k].name == n;
        assert all[i := s][k].name == n;
      } else {
        assert all[i := s][i].name == n;
      }
    }
  }

  lemma ListsAppended(all: seq<Service>, m: map<string, Service>, s: Service)
    requires Lists(all, m) && forall j | 0 <= j < |all| :: all[j].name != s.name
    ensures s.name !in m
    ensures Lists(all + [s], m[s.name := s])
  {
    assert s.name in m ==> HasName(all, s.name);
    var m' := m[s.name := s];
    forall n | n in m' ensures HasName(all + [s], n) {
      if n != s.name {
        assert HasName(all, n);
        var k :| 0 <= k < |all| && all[k].name == n;
        assert (all + [s])[k].name == n;
      } else {
        assert (all + [s])[|all|].name == n;
      }
    }
  }

  /** Evidence under different names can be merged in either order. */
  lemma MergeCommutes(m: map<string, Service>, a: Service, b: Service)
    requires a.name != b.name
    ensures Merge(Merge(m, a), b) == Merge(Merge(m, b), a)
  {
  }

  /** Two pieces of evidence under one name do not compete: the name has its image already, or they
      bring at most one image between them; and their mounts read the same in either order. */
  predicate Agree(m: map<string, Service>, a: Service, b: Service) {
    && ((a.name in m && m[a.name].image != "") || a.image == "" || b.image == "" || a.image == b.image)
    && a.mounts + b.mounts == b.mounts + a.mounts
  }

  /** Under the same name the order can be exchanged if and only if the evidence agrees: the first
      non-empty image wins, and mounts are kept in the order in which they come. */
  lemma MergeOfSameNameCommutes(m: map<string, Service>, a: Service, b: Service)
    requires a.name == b.name
    ensures Merge(Merge(m, a), b) == Merge(Merge(m, b), a) <==> Agree(m, a, b)
  {
    var before := if a.name in m then m[a.name] else Service(a.name, "", [], []);
    var one, other := Merge(Merge(m, a), b)[a.name], Merge(Merge(m, b), a)[a.name];
    assert one.mounts == before.mounts + (a.mounts + b.mounts) && other.mounts == before.mounts + (b.mounts + a.mounts);
    assert one.mounts[|before.mounts|..] == a.mounts + b.mounts;
    assert other.mounts[|before.mounts|..] == b.mounts + a.mounts;
    CombinedEnvironment(before, a, b);
    CombinedEnvironment(before, b, a);
    assert Names(before.environment + a.environment + b.environment)
        == Names(before.environment + b.environment + a.environment);
    assert one.environment == other.environment;
    assert Merge(Merge(m, a), b) == m[a.name := one] && Merge(Merge(m, b), a) == m[a.name := other];
  }

  lemma CombinedEnvironment(before: Service, a: Service, b: Service)
    ensures var all := Listing(Names(before.environment + a.environment + b.environment));
            && Combine(Combine(before, a), b).environment == all
            && (before.environment == [] ==> Combine(a, b).environment == all)
  {
    var first := Listing(Names(before.environment + a.environment));
    assert Names(first + b.environment) == Names(before.environment + a.environment + b.environment);
    if before.environment == [] {
      assert before.environment + a.environment == a.environment;
    }
  }

  /** Two images for one new service are such a case. */
  lemma MergeOfSameNameDependsOnOrder()
    ensures exists m: map<string, Service>, a: Service, b: Service ::
              a.name == b.name && Merge(Merge(m, a), b) != Merge(Merge(m, b), a)
  {
    var a, b := Service("db", "postgres", [], []), Service("db", "mysql", [], []);
    assert Merge(Merge(map[], a), b)["db"].image == "postgres";
    assert Merge(Merge(map[], b), a)["db"].image == "mysql";
  }

  // ----- a Compose document -----

  ghost function Evidence(name: string, c: ComposeService): Service {
    Service(name, c.image, Listing(Names(c.environment)), c.mounts)
  }

  /** The evidence after a document's services were walked in the given order. */
  ghost function Walk(m: map<string, Service>, doc: Document, order: seq<string>): map<string, Service>
    requires forall n | n in order :: n in doc.services
  {
    if order == [] then m
    else
      var k := |order| - 1;
      assert order[k] in order;
      Merge(Walk(m, doc, order[..k]), Evidence(order[k], doc.services[order[k]]))
  }

  /** The same without an order: each of the document's names is merged with what was known. */
  ghost function WithDocument(m: map<string, Service>, doc: Document): map<string, Service> {
    map n | n in m.Keys + doc.services.Keys ::
      if n !in doc.services then m[n]
      else if n in m then Combine(m[n], Evidence(n, doc.services[n]))
      else Evidence(n, doc.services[n])
  }

  ghost predicate Enumerates(order: seq<string>, keys: set<string>) {
    && (forall n :: n in order <==> n in keys)
    && (forall i, j | 0 <= i < j < |order| :: order[i] != order[j])
  }

  lemma {:induction false} WalkByName(m: map<string, Service>, doc: Document, order: seq<string>)
    requires forall n | n in order :: n in doc.services
    requires forall i, j | 0 <= i < j < |order| :: order[i] != order[j]
    ensures forall n :: n in Walk(m, doc, order) <==> n in m || n in order
    ensures forall n | n in Walk(m, doc, order) ::
              Walk(m, doc, order)[n] ==
              if n !in order then m[n]
              else if n in m then Combine(m[n], Evidence(n, doc.services[n]))
              else Evidence(n, doc.services[n])
  {
    if order != [] {
      var k := |order| - 1;
      var front, last := order[..k], order[k];
      assert order == front + [last];
      WalkByName(m, doc, front);
      assert last !in front;
    }
  }

  /** Every iteration order of a document's service map leads to the same evidence. */
  lemma WalkIsOrderFree(m: map<string, Service>, doc: Document, order: seq<string>)
    requires Enumerates(order, doc.services.Keys)
    ensures Walk(m, doc, order) == WithDocument(m, doc)
  {
    WalkByName(m, doc, order);
  }

  ghost function WithDocuments(docs: seq<Document>): map<string, Service> {
    if docs == [] then map[] else WithDocument(WithDocuments(docs[..|docs| - 1]), docs[|docs| - 1])
  }

  function Secrets(c: ComposeService): seq<string> { c.secrets }
  function Configs(c: ComposeService): seq<string> { c.configs }
  function EnvFiles(c: ComposeService): seq<string> { c.envFiles }

  /** The names that all services of a document contribute to one of the lists. */
  ghost function ServiceNames(doc: Document, list: ComposeService -> seq<string>): set<string> {
    set n, x | n in doc.services && x in list(doc.services[n]) :: x
  }

  ghost function SecretNames(doc: Document): set<string> {
    ServiceNames(doc, Secrets) + doc.secrets
  }

  ghost function ConfigNames(doc: Document): set<string> {
    ServiceNames(doc, Configs) + doc.configs
  }

  ghost function EnvFileNames(doc: Document): set<string> {
    ServiceNames(doc, EnvFiles)
  }

  ghost function AllNames(docs: seq<Document>, names: Document -> set<string>): set<string> {
    set d, x | d in docs && x in names(d) :: x
  }

  // ----- running containers -----

  ghost function ContainerEvidence(c: Container): Service {
    Service(if c.service == "" then c.name else c.service, c.image, [], c.mounts)
  }

  ghost function WithContainers(m: map<string, Service>, containers: seq<Container>): map<string, Service> {
    if containers == [] then m
    else Merge(WithContainers(m, containers[..|containers| - 1]), ContainerEvidence(containers[|containers| - 1]))
  }

  // ----- what is known under one name -----

  /** What a document says under a name. */
  function DocumentPieces(doc: Document, name: string): seq<Service> {
    if name in doc.services
    then var c := doc.services[name]; [Service(name, c.image, c.environment, c.mounts)]
    else []
  }

  /** What a container says under a name: that of its service, or its own if it has none. */
  function ContainerPieces(c: Container, name: string): seq<Service> {
    if (c.service != "" && c.service == name) || (c.service == "" && c.name == name)
    then [Service(name, c.image, [], c.mounts)]
    else []
  }

  /** Everything said under a name, the documents first, each in order. */
  function Pieces(docs: seq<Document>, containers: seq<Container>, name: string): seq<Service> {
    if containers != [] then
      var n := |containers| - 1;
      Pieces(docs, containers[..n], name) + ContainerPieces(containers[n], name)
    else if docs != [] then
      var n := |docs| - 1;
      Pieces(docs[..n], [], name) + DocumentPieces(docs[n], name)
    else []
  }

  function FirstImage(pieces: seq<Service>): string {
    if pieces == [] then ""
    else
      var n := |pieces| - 1;
      if FirstImage(pieces[..n]) != "" then FirstImage(pieces[..n]) else pieces[n].image
  }

  /** The image is the first one that is not empty, and empty only if all are. */
  lemma {:induction false} FirstImageMeans(pieces: seq<Service>)
    ensures FirstImage(pieces) == "" ==> forall i | 0 <= i < |pieces| :: pieces[i].image == ""
    ensures FirstImage(pieces) != "" ==> exists k :: FirstImageAt(pieces, k) && FirstImage(pieces) == pieces[k].image
  {
    if pieces != [] {
      var n := |pieces| - 1;
      FirstImageMeans(pieces[..n]);
      if FirstImage(pieces[..n]) != "" {
        var k :| FirstImageAt(pieces[..n], k) && FirstImage(pieces[..n]) == pieces[..n][k].image;
        assert FirstImageAt(pieces, k);
      } else if pieces[n].image != "" {
        assert FirstImageAt(pieces, n);
      }
    }
  }

  predicate FirstImageAt(pieces: seq<Service>, k: int) {
    0 <= k < |pieces| && pieces[k].image != "" && forall i | 0 <= i < k :: pieces[i].image == ""
  }

  function AllMounts(pieces: seq<Service>): seq<Mount> {
    if pieces == [] then [] else AllMounts(pieces[..|pieces| - 1]) + pieces[|pieces| - 1].mounts
  }

  /** Mounts are kept in the order of the pieces, none lost and none added. */
  lemma {:induction false} AllMountsMeans(a: seq<Service>, b: seq<Service>)
    ensures AllMounts(a + b) == AllMounts(a) + AllMounts(b)
    ensures |a| == 1 ==> AllMounts(a) == a[0].mounts
    ensures a == [] ==> AllMounts(a) == []
  {
    if b == [] {
      assert a + b == a;
    } else {
      AllMountsMeans(a, b[..|b| - 1]);
      assert (a + b)[..|a + b| - 1] == a + b[..|b| - 1];
    }
  }

  ghost function AllEnvironment(pieces: seq<Service>): set<string> {
    set p, x | p in pieces && x in p.environment && x != "" :: x
  }

  /** The pieces under a name put together. */
  ghost function Summary(name: string, pieces: seq<Service>): Service {
    Service(name, FirstImage(pieces), Listing(AllEnvironment(pieces)), AllMounts(pieces))
  }

  lemma SummaryOfOne(s: Service)
    ensures Summary(s.name, [s]) == Service(s.name, s.image, Listing(Names(s.environment)), s.mounts)
  {
    assert AllEnvironment([s]) == Names(s.environment);
    var one := [s];
    assert one[..0] == [] && AllMounts(one) == AllMounts(one[..0]) + s.mounts && AllMounts(one[..0]) == [];
    assert FirstImage(one[..0]) == "" && FirstImage(one) == s.image;
  }

  lemma SummaryOfMore(name: string, pieces: seq<Service>, s: Service, listed: Service)
    requires Names(listed.environment) == Names(s.environment)
    requires listed.image == s.image && listed.mounts == s.mounts
    ensures Combine(Summary(name, pieces), listed) == Summary(name, pieces + [s])
  {
    var known := AllEnvironment(pieces);
    assert (pieces + [s])[..|pieces|] == pieces;
    EnvironmentSnoc(pieces, s);
    assert Names(Listing(known) + listed.environment) == known + Names(s.environment) by {
      assert forall x | x in known :: x != "";
    }
  }

  lemma EnvironmentSnoc(pieces: seq<Service>, s: Service)
    ensures AllEnvironment(pieces + [s]) == AllEnvironment(pieces) + Names(s.environment)
  {
    assert s in pieces + [s];
    assert forall p | p in pieces :: p in pieces + [s];
  }

  ghost predicate Sums(m: map<string, Service>, pieces: seq<Service>, name: string) {
    (name in m <==> pieces != []) && (name in m ==> m[name] == Summary(name, pieces))
  }

  lemma OneMorePiece(m: map<string, Service>, pieces: seq<Service>, s: Service, listed: Service)
    requires Sums(m, pieces, s.name) && s.name == listed.name
    requires listed.environment == Listing(Names(s.environment))
    requires listed.image == s.image && listed.mounts == s.mounts
    ensures Sums(Merge(m, listed), pieces + [s], s.name)
  {
    assert Names(listed.environment) == Names(s.environment);
    SummaryOfMore(s.name, pieces, s, listed);
    if pieces == [] {
      SummaryOfOne(s);
      assert pieces + [s] == [s];
    }
  }

  lemma DocumentSums(m: map<string, Service>, doc: Document, pieces: seq<Service>, name: string)
    requires Sums(m, pieces, name)
    ensures Sums(WithDocument(m, doc), pieces + DocumentPieces(doc, name), name)
  {
    if name in doc.services {
      var c := doc.services[name];
      OneMorePiece(m, pieces, Service(name, c.image, c.environment, c.mounts), Evidence(name, c));
      assert WithDocument(m, doc)[name] == Merge(m, Evidence(name, c))[name];
    } else {
      assert pieces + DocumentPieces(doc, name) == pieces;
    }
  }

  lemma NothingToList()
    ensures Listing(Names([])) == []
  {
    var listed := Listing(Names([]));
    FirstIsMember(listed);
  }

  lemma ContainerSums(m: map<string, Service>, c: Container, pieces: seq<Service>, name: string)
    requires Sums(m, pieces, name)
    ensures Sums(Merge(m, ContainerEvidence(c)), pieces + ContainerPieces(c, name), name)
  {
    var s := ContainerEvidence(c);
    if s.name == name {
      NothingToList();
      OneMorePiece(m, pieces, s, s);
    } else {
      assert pieces + ContainerPieces(c, name) == pieces;
    }
  }

  /** Under every name, what is known is everything said under it put together: a name is listed exactly
      if something was said under it. */
  lemma {:induction false} NothingIsLost(docs: seq<Document>, containers: seq<Container>, name: string)
    ensures Sums(WithContainers(WithDocuments(docs), containers), Pieces(docs, containers, name), name)
    decreases |docs| + |containers|
  {
    if containers != [] {
      var n := |containers| - 1;
      NothingIsLost(docs, containers[..n], name);
      ContainerSums(WithContainers(WithDocuments(docs), containers[..n]), containers[n],
                    Pieces(docs, containers[..n], name), name);
    } else if docs != [] {
      var n := |docs| - 1;
      NothingIsLost(docs[..n], [], name);
      DocumentSums(WithDocuments(docs[..n]), docs[n], Pieces(docs[..n], [], name), name);
    }
  }

  /** Which names reach the three lists: those that a document declares or that one of its services refers to. */
  lemma NamesMean(docs: seq<Document>, x: string)
    ensures x in AllNames(docs, SecretNames) <==>
            exists d :: d in docs && (x in d.secrets || exists n :: n in d.services && x in d.services[n].secrets)
    ensures x in AllNames(docs, ConfigNames) <==>
            exists d :: d in docs && (x in d.configs || exists n :: n in d.services && x in d.services[n].configs)
    ensures x in AllNames(docs, EnvFileNames) <==>
            exists d :: d in docs && exists n :: n in d.services && x in d.services[n].envFiles
  {
    forall d: Document
      ensures x in SecretNames(d) <==> x in d.secrets || exists n :: n in d.services && x in d.services[n].secrets
      ensures x in ConfigNames(d) <==> x in d.configs || exists n :: n in d.services && x in d.services[n].configs
      ensures x in EnvFileNames(d) <==> exists n :: n in d.services && x in d.services[n].envFiles
    {
      forall n | n in d.services
        ensures Secrets(d.services[n]) == d.services[n].secrets && Configs(d.services[n]) == d.services[n].configs
        ensures EnvFiles(d.services[n]) == d.services[n].envFiles
      {
      }
    }
  }

  // ----- the sort -----

  predicate ServiceLess(a: Service, b: Service) {
    if a.name == b.name then StringLess(a.image, b.image) else StringLess(a.name, b.name)
  }

  predicate ServiceNotAfter(a: Service, b: Service) {
    !ServiceLess(b, a)
  }

  lemma ServiceOrderIsTotal()
    ensures TotalPreorder(ServiceNotAfter)
  {
    forall a, b ensures ServiceNotAfter(a, b) || ServiceNotAfter(b, a) {
      StringLessTrichotomy(a.name, b.name);
      StringLessTrichotomy(a.image, b.image);
    }
    forall a, b, c | ServiceNotAfter(a, b) && ServiceNotAfter(b, c) ensures ServiceNotAfter(a, c) {
      NotAfterTransitive(a, b, c);
    }
  }

  lemma NotAfterTransitive(a: Service, b: Service, c: Service)
    requires ServiceNotAfter(a, b) && ServiceNotAfter(b, c)
    ensures ServiceNotAfter(a, c)
  {
    StringOrderIsTotal();
    assert StringLessOrEqual(a.name, b.name) && StringLessOrEqual(b.name, c.name) by {
      StringLessTrichotomy(a.name, b.name);
      StringLessTrichotomy(b.name, c.name);
    }
    assert StringLessOrEqual(a.name, c.name);
    if a.name == c.name {
      assert StringLessOrEqual(b.name, a.name);
      assert StringLessOrEqual(a.image, b.image) && StringLessOrEqual(b.image, c.image);
    }
  }

  /** The evidence listed by name: what reaches the fingerprint. */
  ghost function Canonical(m: map<string, Service>): seq<Service> {
    var names := Listing(m.Keys);
    seq(|names|, i requires 0 <= i < |names| => assert names[i] in names; m[names[i]])
  }

  /** Sorting evidence with unique names has one outcome. */
  lemma SortIsCanonical(all: seq<Service>, m: map<string, Service>, out: seq<Service>)
    requires Lists(all, m)
    requires multiset(out) == multiset(all) && SortedBy(ServiceNotAfter, out)
    ensures out == Canonical(m) && Lists(out, m)
  {
    SortedHasUniqueNames(all, out);
    var names := seq(|out|, i requires 0 <= i < |out| => out[i].name);
    SortedLists(all, m, out);
    forall n ensures n in names <==> n in Listing(m.Keys) {
      if n in m.Keys {
        assert HasName(out, n);
        var k :| 0 <= k < |out| && out[k].name == n;
        assert names[k] == n;
      }
    }
    assert forall i, j | 0 <= i < j < |names| :: StringLess(names[i], names[j]);
    StrictlySortedUnique(names, Listing(m.Keys));
  }

  lemma SortedLists(all: seq<Service>, m: map<string, Service>, out: seq<Service>)
    requires Lists(all, m) && multiset(out) == multiset(all)
    requires forall i, j | 0 <= i < j < |out| :: StringLess(out[i].name, out[j].name)
    ensures Lists(out, m)
  {
    assert forall x :: x in out <==> x in multiset(out);
    assert forall x :: x in all <==> x in multiset(all);
    forall i, j | 0 <= i < j < |out| ensures out[i].name != out[j].name {
      StringLessTrichotomy(out[i].name, out[j].name);
    }
    forall i | 0 <= i < |out| ensures out[i].name in m && m[out[i].name] == out[i] {
      assert out[i] in all;
    }
    forall n | n in m ensures HasName(out, n) {
      assert HasName(all, n);
      var k :| 0 <= k < |all| && all[k].name == n;
      assert all[k] in out;
    }
  }

  lemma SortedHasUniqueNames(all: seq<Service>, out: seq<Service>)
    requires UniqueNames(all)
    requires multiset(out) == multiset(all) && SortedBy(ServiceNotAfter, out)
    ensures forall i, j | 0 <= i < j < |out| :: StringLess(out[i].name, out[j].name)
  {
    var p := Renumbering(out, all);
    forall i, j | 0 <= i < j < |out| ensures StringLess(out[i].name, out[j].name) {
      assert p[i] != p[j] && all[p[i]].name != all[p[j]].name;
      StringLessTrichotomy(out[i].name, out[j].name);
    }
  }

  // ----- Analyze, up to the fingerprint -----

  ghost function Elements(s: seq<string>): set<string> {
    set x | x in s
  }

  class Input {
    var services: seq<Service>
    var secrets: seq<string>
    var configs: seq<string>
    var envFiles: seq<string>

    constructor ()
      ensures services == [] && secrets == [] && configs == [] && envFiles == []
    {
      services, secrets, configs, envFiles := [], [], [], [];
    }

    /** One service of a document. */
    method AddService(name: string, c: ComposeService, ghost m: map<string, Service>)
      requires Lists(services, m)
      modifies this
      ensures Lists(services, Merge(m, Evidence(name, c)))
      ensures secrets == old(secrets) + c.secrets
      ensures configs == old(configs) + c.configs
      ensures envFiles == old(envFiles) + c.envFiles
    {
      var environment := UniqueSorted(c.environment);
      services := MergeService(services, Service(name, c.image, environment, c.mounts), m);
      secrets := secrets + c.secrets;
      configs := configs + c.configs;
      envFiles := envFiles + c.envFiles;
    }

    /** Walks a document's map of services in whatever order it is delivered. */
    method WalkServices(doc: Document, ghost m: map<string, Service>)
      requires Lists(services, m)
      modifies this
      ensures Lists(services, WithDocument(m, doc))
      ensures Elements(secrets) == old(Elements(secrets)) + ServiceNames(doc, Secrets)
      ensures Elements(configs) == old(Elements(configs)) + ServiceNames(doc, Configs)
      ensures Elements(envFiles) == old(Elements(envFiles)) + ServiceNames(doc, EnvFiles)
    {
      var rest := doc.services.Keys;
      ghost var order: seq<string> := [];
      ghost var secrets0, configs0, envFiles0 := secrets, configs, envFiles;
      while rest != {}
        invariant rest <= doc.services.Keys
        invariant Enumerates(order, doc.services.Keys - rest)
        invariant Lists(services, Walk(m, doc, order))
        invariant Gathered(doc, order, secrets0, secrets, Secrets)
        invariant Gathered(doc, order, configs0, configs, Configs)
        invariant Gathered(doc, order, envFiles0, envFiles, EnvFiles)
      {
        var name :| name in rest;
        GatheredStep(doc, order, name, secrets0, secrets, Secrets);
        GatheredStep(doc, order, name, configs0, configs, Configs);
        GatheredStep(doc, order, name, envFiles0, envFiles, EnvFiles);
        WalkSnoc(m, doc, order, name);
        AddService(name, doc.services[name], Walk(m, doc, order));
        EnumeratesStep(order, doc.services.Keys, rest, name);
        order, rest := order + [name], rest - {name};
      }
      WalkIsOrderFree(m, doc, order);
      GatheredAll(doc, order, secrets0, secrets, Secrets);
      GatheredAll(doc, order, configs0, configs, Configs);
      GatheredAll(doc, order, envFiles0, envFiles, EnvFiles);
    }

    method AddDocument(doc: Document, ghost m: map<string, Service>)
      requires Lists(services, m)
      modifies this
      ensures Lists(services, WithDocument(m, doc))
      ensures Elements(secrets) == old(Elements(secrets)) + SecretNames(doc)
      ensures Elements(configs) == old(Elements(configs)) + ConfigNames(doc)
      ensures Elements(envFiles) == old(Elements(envFiles)) + EnvFileNames(doc)
    {
      WalkServices(doc, m);
      secrets := AppendKeys(secrets, doc.secrets);
      configs := AppendKeys(configs, doc.configs);
    }

    method ComposeEvidence(docs: seq<Document>, hasEnvFile: bool)
      requires services == [] && secrets == [] && configs == [] && envFiles == []
      modifies this
      ensures Lists(services, WithDocuments(docs))
      ensures secrets == Listing(AllNames(docs, SecretNames) - {""})
      ensures configs == Listing(AllNames(docs, ConfigNames) - {""})
      ensures envFiles == Listing(AllNames(docs, EnvFileNames) + (if hasEnvFile then {".env"} else {}) - {""})
    {
      AddDocuments(docs);
      NonEmptyNames(secrets);
      NonEmptyNames(configs);
      secrets := UniqueSorted(secrets);
      configs := UniqueSorted(configs);
      if hasEnvFile {
        ElementsConcat(envFiles, [".env"]);
        envFiles := envFiles + [".env"];
      }
      NonEmptyNames(envFiles);
      assert Elements([".env"]) == {".env"};
      assert Elements(envFiles) == AllNames(docs, EnvFileNames) + if hasEnvFile then {".env"} else {};
      envFiles := UniqueSorted(envFiles);
    }

    method AddDocuments(docs: seq<Document>)
      requires services == [] && secrets == [] && configs == [] && envFiles == []
      modifies this
      ensures Lists(services, WithDocuments(docs))
      ensures Elements(secrets) == AllNames(docs, SecretNames)
      ensures Elements(configs) == AllNames(docs, ConfigNames)
      ensures Elements(envFiles) == AllNames(docs, EnvFileNames)
    {
      for i := 0 to |docs|
        invariant Lists(services, WithDocuments(docs[..i]))
        invariant Elements(secrets) == AllNames(docs[..i], SecretNames)
        invariant Elements(configs) == AllNames(docs[..i], ConfigNames)
        invariant Elements(envFiles) == AllNames(docs[..i], EnvFileNames)
      {
        AddDocument(docs[i], WithDocuments(docs[..i]));
        assert docs[..i + 1] == docs[..i] + [docs[i]];
        assert docs[..i + 1][..i] == docs[..i];
        AllNamesSnoc(docs[..i], docs[i], SecretNames);
        AllNamesSnoc(docs[..i], docs[i], ConfigNames);
        AllNamesSnoc(docs[..i], docs[i], EnvFileNames);
      }
      assert docs[..|docs|] == docs;
    }

    method MergeRuntime(containers: seq<Container>, ghost m: map<string, Service>)
      requires Lists(services, m)
      modifies this`services
      ensures Lists(services, WithContainers(m, containers))
    {
      for i := 0 to |containers|
        invariant Lists(services, WithContainers(m, containers[..i]))
      {
        assert containers[..i + 1][..i] == containers[..i];
        var c := containers[i];
        var name := c.service;
        if name == "" {
          name := c.name;
        }
        services := MergeService(services, Service(name, c.image, [], c.mounts), WithContainers(m, containers[..i]));
      }
      assert containers[..|containers|] == containers;
    }

    /** What is fingerprinted is a function of the documents and containers alone. */
    method Collect(docs: seq<Document>, hasEnvFile: bool, containers: seq<Container>)
      requires services == [] && secrets == [] && configs == [] && envFiles == []
      modifies this
      ensures services == Canonical(WithContainers(WithDocuments(docs), containers))
      ensures forall i | 0 <= i < |services| ::
                services[i] == Summary(services[i].name, Pieces(docs, containers, services[i].name))
      ensures forall name :: HasName(services, name) <==> Pieces(docs, containers, name) != []
      ensures forall i, j | 0 <= i < j < |services| :: StringLess(services[i].name, services[j].name)
      ensures secrets == Listing(AllNames(docs, SecretNames) - {""})
      ensures configs == Listing(AllNames(docs, ConfigNames) - {""})
      ensures envFiles == Listing(AllNames(docs, EnvFileNames) + (if hasEnvFile then {".env"} else {}) - {""})
    {
      ComposeEvidence(docs, hasEnvFile);
      MergeRuntime(containers, WithDocuments(docs));
      ServiceOrderIsTotal();
      var sorted := SortSlice(services, ServiceNotAfter);
      SortIsCanonical(services, WithContainers(WithDocuments(docs), containers), sorted);
      SortedHasUniqueNames(services, sorted);
      services := sorted;
      ListedSums(docs, containers, services);
    }
  }

  lemma ListedSums(docs: seq<Document>, containers: seq<Container>, all: seq<Service>)
    requires Lists(all, WithContainers(WithDocuments(docs), containers))
    ensures forall i | 0 <= i < |all| :: all[i] == Summary(all[i].name, Pieces(docs, containers, all[i].name))
    ensures forall name :: HasName(all, name) <==> Pieces(docs, containers, name) != []
  {
    var m := WithContainers(WithDocuments(docs), containers);
    forall name ensures Sums(m, Pieces(docs, containers, name), name) && (HasName(all, name) <==> name in m) {
      NothingIsLost(docs, containers, name);
    }
  }

  lemma EnumeratesStep(order: seq<string>, keys: set<string>, rest: set<string>, name: string)
    requires Enumerates(order, keys - rest) && rest <= keys && name in rest
    ensures Enumerates(order + [name], keys - (rest - {name}))
  {
    assert name !in order;
  }

  lemma ElementsConcat(a: seq<string>, b: seq<string>)
    ensures Elements(a + b) == Elements(a) + Elements(b)
  {
  }

  /** The names that the services of `order` contribute to one of the lists. */
  ghost function NamesOf(doc: Document, order: seq<string>, list: ComposeService -> seq<string>): set<string> {
    set n, x | n in order && n in doc.services && x in list(doc.services[n]) :: x
  }

  ghost predicate Gathered(doc: Document, order: seq<string>, before: seq<string>, after: seq<string>,
                           list: ComposeService -> seq<string>)
  {
    Elements(after) == Elements(before) + NamesOf(doc, order, list)
  }

  lemma GatheredStep(doc: Document, order: seq<string>, name: string, before: seq<string>, after: seq<string>,
                     list: ComposeService -> seq<string>)
    requires name in doc.services && Gathered(doc, order, before, after, list)
    ensures Gathered(doc, order + [name], before, after + list(doc.services[name]), list)
  {
    ElementsConcat(after, list(doc.services[name]));
    assert NamesOf(doc, order + [name], list) == NamesOf(doc, order, list) + Elements(list(doc.services[name]));
  }

  lemma GatheredAll(doc: Document, order: seq<string>, before: seq<string>, after: seq<string>,
                    list: ComposeService -> seq<string>)
    requires Enumerates(order, doc.services.Keys) && Gathered(doc, order, before, after, list)
    ensures Elements(after) == Elements(before) + ServiceNames(doc, list)
  {
    forall n, x | n in doc.services && x in list(doc.services[n]) ensures x in NamesOf(doc, order, list) {
      assert n in order;
    }
    assert NamesOf(doc, order, list) == ServiceNames(doc, list);
  }

  lemma WalkSnoc(m: map<string, Service>, doc: Document, order: seq<string>, name: string)
    requires name in doc.services && forall n | n in order :: n in doc.services
    ensures Walk(m, doc, order + [name]) == Merge(Walk(m, doc, order), Evidence(name, doc.services[name]))
  {
    assert (order + [name])[..|order|] == order;
  }

  lemma AllNamesSnoc(docs: seq<Document>, doc: Document, names: Document -> set<string>)
    ensures AllNames(docs + [doc], names) == AllNames(docs, names) + names(doc)
  {
  }

  lemma NonEmptyNames(s: seq<string>)
    ensures Names(s) == Elements(s) - {""}
  {
  }

  /** Appends the keys of a map in whatever order they are delivered. */
  method AppendKeys(list: seq<string>, keys: set<string>) returns (out: seq<string>)
    ensures Elements(out) == Elements(list) + keys
  {
    out := list;
    var rest := keys;
    while rest != {}
      invariant rest <= keys && Elements(out) == Elements(list) + (keys - rest)
    {
      var k :| k in rest;
      ElementsConcat(out, [k]);
      out, rest := out + [k], rest - {k};
    }
  }
}
