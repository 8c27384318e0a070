/** internal/backuprun: what one backup run does between its staging and its final status, and what
    a run that ends up `completed` may claim. Staging, exports and the engine are outside: what they
    come to is given, and every outcome is possible. */
module BackupRun {
  import opened BackupProtocol
  import opened Ordering
  import opened Sequences
  import opened Text
  import opened Wrappers

  datatype Confidence = Confirmed | Probable | Possible

  datatype Finding = Finding(kind: string, technology: string, service: string, confidence: Confidence)

  datatype Container = Container(service: string, id: string)

  datatype Capture = Capture(path: string, method_: string, bytes: nat)

  /** A staged volume, and its entry in the manifest. */
  datatype Volume = Volume(name: string, files: nat, bytes: nat, sqlite: seq<Capture>)

  /** A database exported into the staged tree; `loaded` is None when it was not test-restored. */
  datatype Export = Export(technology: string, service: string, key: string, path: string, bytes: nat,
                           loaded: Option<bool>)

  datatype Level = Exported | Consistently | FilesOnly

  datatype DatabaseEntry = DatabaseEntry(technology: string, service: string, level: Level, path: string, bytes: nat,
                                         loaded: Option<bool>)

  datatype Manifest = Manifest(volumes: seq<Volume>, databases: seq<DatabaseEntry>)

  datatype Warning =
    | FromStaging(source: string, text: string)
    | NotRunning(technology: string, service: string)
    | ExportFailed(technology: string, service: string)
    | Unproven(technology: string, service: string)
    | DidNotLoad(technology: string, service: string)
    | Inconsistent(engine: string, services: seq<string>)
    | FromEngine(text: string)
    | Shortfall(inSnapshot: int, staged: int)

  // ----- the tables of engines -----

  predicate DumpEngine(technology: string) {
    technology in {"postgresql", "mysql", "mariadb", "mongodb"}
  }

  const SERVER_DATABASES: map<string, string> :=
    map["postgresql" := "PostgreSQL", "mysql" := "MySQL", "mariadb" := "MariaDB", "mongodb" := "MongoDB",
        "redis" := "Redis", "valkey" := "Valkey"]

  function Key(f: Finding): string {
    f.service + ":" + f.technology
  }

  /** Exported by this version, if its container is running. */
  predicate Exportable(f: Finding) {
    f.kind == "database" && DumpEngine(f.technology) && f.confidence != Possible
  }

  /** Listed in the manifest in its own right. */
  predicate Listed(f: Finding) {
    f.kind == "database" && f.technology != "sqlite" && f.confidence != Possible
  }

  /** Must not merely be copied while running. */
  predicate NeedsDump(f: Finding) {
    f.kind == "database" && f.technology in SERVER_DATABASES
  }

  // ----- dumpDatabases -----

  /** `exports` are made from the findings at the positions `from`, in order. */
  ghost predicate MadeFrom(exports: seq<Export>, findings: seq<Finding>, from: seq<nat>) {
    && |from| == |exports|
    && (forall k | 0 <= k < |from| ::
          && from[k] < |findings| && Exportable(findings[from[k]])
          && exports[k].technology == findings[from[k]].technology
          && exports[k].service == findings[from[k]].service
          && exports[k].key == Key(findings[from[k]]))
    && (forall j, k | 0 <= j < k < |from| :: from[j] < from[k])
  }

  /** What exporting one database comes to, and loading the export into an empty server: no dump for a
      failure anywhere along the way, and no verdict if the attempt to load it failed itself. */
  datatype DumpOutcome = DumpOutcome(dump: Option<(string, nat)>, loaded: Option<bool>)

  predicate LastOfService(containers: seq<Container>, service: string, i: int) {
    0 <= i < |containers| && containers[i].service == service
    && forall j | i < j < |containers| :: containers[j].service != service
  }

  ghost predicate IsRunning(containers: seq<Container>, service: string) {
    service != "" && exists i :: LastOfService(containers, service, i) && containers[i].id != ""
  }

  /** The running container of a service; the last one listed wins, as in a map filled in order. */
  method FindContainer(containers: seq<Container>, service: string) returns (c: Option<Container>)
    ensures c.Some? ==> service != "" && exists i :: LastOfService(containers, service, i) && containers[i] == c.value
    ensures c.None? ==> service == "" || forall i | 0 <= i < |containers| :: containers[i].service != service
    ensures c.Some? && c.value.id != "" <==> IsRunning(containers, service)
  {
    c := None;
    for i := 0 to |containers|
      invariant c.None? ==> service == "" || forall j | 0 <= j < i :: containers[j].service != service
      invariant c.Some? ==>
          service != "" && exists k :: LastOfService(containers[..i], service, k) && containers[k] == c.value
    {
      assert containers[..i + 1] == containers[..i] + [containers[i]];
      if containers[i].service != "" && containers[i].service == service {
        c := Some(containers[i]);
        assert LastOfService(containers[..i + 1], service, i);
      } else if c.Some? {
        ghost var k :| LastOfService(containers[..i], service, k) && containers[k] == c.value;
        assert LastOfService(containers[..i + 1], service, k);
      }
    }
    assert containers[..|containers|] == containers;
  }

  ghost predicate Dumps(f: Finding, containers: seq<Container>, outcome: DumpOutcome) {
    Exportable(f) && IsRunning(containers, f.service) && outcome.dump.Some?
  }

  function ExportOf(f: Finding, outcome: DumpOutcome, verifyRestores: bool): Export
    requires outcome.dump.Some?
  {
    var (path, bytes) := outcome.dump.value;
    Export(f.technology, f.service, Key(f), path, bytes, if verifyRestores then outcome.loaded else None)
  }

  /** Of the first `n` findings exactly those that dump have an export, in order, and it is theirs. */
  ghost predicate ExportsOf(exports: seq<Export>, from: seq<nat>, findings: seq<Finding>, containers: seq<Container>,
                            outcomes: seq<DumpOutcome>, verifyRestores: bool, n: nat)
    requires |outcomes| == |findings| && n <= |findings|
  {
    && MadeFrom(exports, findings, from)
    && (forall k | 0 <= k < |from| :: from[k] < n && Dumps(findings[from[k]], containers, outcomes[from[k]])
          && exports[k] == ExportOf(findings[from[k]], outcomes[from[k]], verifyRestores))
    && (forall i | 0 <= i < n && Dumps(findings[i], containers, outcomes[i]) :: i in from)
  }

  /** What goes wrong with a finding that should be exported. */
  ghost function Trouble(f: Finding, containers: seq<Container>, outcome: DumpOutcome, verifyRestores: bool)
    : Option<Warning>
  {
    if !Exportable(f) then None
    else if !IsRunning(containers, f.service) then Some(NotRunning(f.technology, f.service))
    else if outcome.dump.None? then Some(ExportFailed(f.technology, f.service))
    else if !verifyRestores || outcome.loaded == Some(true) then None
    else if outcome.loaded.None? then Some(Unproven(f.technology, f.service))
    else Some(DidNotLoad(f.technology, f.service))
  }

  ghost function Troubles(findings: seq<Finding>, containers: seq<Container>, outcomes: seq<DumpOutcome>,
                          verifyRestores: bool): seq<Warning>
    requires |outcomes| == |findings|
  {
    if findings == [] then []
    else
      var n := |findings| - 1;
      Troubles(findings[..n], containers, outcomes[..n], verifyRestores)
      + OneOrNone(Trouble(findings[n], containers, outcomes[n], verifyRestores))
  }

  lemma TroublesSnoc(findings: seq<Finding>, containers: seq<Container>, outcomes: seq<DumpOutcome>,
                     verifyRestores: bool, i: nat)
    requires |outcomes| == |findings| && i < |findings|
    ensures Troubles(findings[..i + 1], containers, outcomes[..i + 1], verifyRestores) ==
            Troubles(findings[..i], containers, outcomes[..i], verifyRestores)
            + OneOrNone(Trouble(findings[i], containers, outcomes[i], verifyRestores))
  {
    assert findings[..i + 1][..i] == findings[..i] && outcomes[..i + 1][..i] == outcomes[..i];
  }

  ghost predicate DumpsWell(f: Finding, containers: seq<Container>, outcome: DumpOutcome, verifyRestores: bool) {
    Dumps(f, containers, outcome) && (verifyRestores ==> outcome.loaded == Some(true))
  }

  /** Each exportable finding has a running container, is dumped, and is shown to load when that is asked for. */
  ghost predicate AllDumpWell(findings: seq<Finding>, containers: seq<Container>, outcomes: seq<DumpOutcome>,
                              verifyRestores: bool)
    requires |outcomes| == |findings|
  {
    forall i | 0 <= i < |findings| && Exportable(findings[i]) ::
      DumpsWell(findings[i], containers, outcomes[i], verifyRestores)
  }

  lemma NoTrouble(f: Finding, containers: seq<Container>, outcome: DumpOutcome, verifyRestores: bool)
    ensures Trouble(f, containers, outcome, verifyRestores) == None <==>
            (Exportable(f) ==> DumpsWell(f, containers, outcome, verifyRestores))
  {
  }

  lemma AllDumpWellSnoc(findings: seq<Finding>, containers: seq<Container>, outcomes: seq<DumpOutcome>,
                        verifyRestores: bool, n: nat)
    requires |outcomes| == |findings| == n + 1
    ensures AllDumpWell(findings, containers, outcomes, verifyRestores) <==>
            && AllDumpWell(findings[..n], containers, outcomes[..n], verifyRestores)
            && (Exportable(findings[n]) ==> DumpsWell(findings[n], containers, outcomes[n], verifyRestores))
  {
    assert forall i | 0 <= i < n :: findings[..n][i] == findings[i] && outcomes[..n][i] == outcomes[i];
  }

  /** Nothing goes wrong if and only if all is well with every finding. */
  lemma {:induction false} NoTroubles(findings: seq<Finding>, containers: seq<Container>, outcomes: seq<DumpOutcome>,
                                      verifyRestores: bool)
    requires |outcomes| == |findings|
    ensures Troubles(findings, containers, outcomes, verifyRestores) == [] <==>
            AllDumpWell(findings, containers, outcomes, verifyRestores)
  {
    if findings != [] {
      var n := |findings| - 1;
      NoTroubles(findings[..n], containers, outcomes[..n], verifyRestores);
      NoTrouble(findings[n], containers, outcomes[n], verifyRestores);
      AllDumpWellSnoc(findings, containers, outcomes, verifyRestores, n);
    }
  }

  /** One round of the loop over the findings. */
  method DumpFinding(f: Finding, containers: seq<Container>, outcome: DumpOutcome, verifyRestores: bool)
    returns (exported: Option<Export>, warning: Option<Warning>)
    ensures exported == if Dumps(f, containers, outcome) then Some(ExportOf(f, outcome, verifyRestores)) else None
    ensures warning == Trouble(f, containers, outcome, verifyRestores)
  {
    exported, warning := None, None;
    if f.kind != "database" || !DumpEngine(f.technology) {
      return;
    }
    if f.confidence == Possible {
      return;
    }
    var container := FindContainer(containers, f.service);
    if container.None? || container.value.id == "" {
      return None, Some(NotRunning(f.technology, f.service));
    }
    var dump := outcome.dump;
    if dump.None? {
      return None, Some(ExportFailed(f.technology, f.service));
    }
    var loaded: Option<bool> := None;
    if verifyRestores {
      loaded := outcome.loaded;
      if loaded.None? {
        warning := Some(Unproven(f.technology, f.service));
      } else if !loaded.value {
        warning := Some(DidNotLoad(f.technology, f.service));
      }
    }
    exported := Some(Export(f.technology, f.service, Key(f), dump.value.0, dump.value.1, loaded));
  }

  lemma OneMoreExport(exports: seq<Export>, from: seq<nat>, findings: seq<Finding>, containers: seq<Container>,
                      outcomes: seq<DumpOutcome>, verifyRestores: bool, n: nat)
    requires |outcomes| == |findings| && n < |findings|
    requires ExportsOf(exports, from, findings, containers, outcomes, verifyRestores, n)
    requires Dumps(findings[n], containers, outcomes[n])
    ensures ExportsOf(exports + [ExportOf(findings[n], outcomes[n], verifyRestores)], from + [n], findings, containers,
                      outcomes, verifyRestores, n + 1)
  {
    assert forall i | i in from :: i in from + [n];
  }

  /** Every exportable finding is exported or leaves its warning, and none is exported twice. */
  method DumpDatabases(findings: seq<Finding>, containers: seq<Container>, outcomes: seq<DumpOutcome>,
                       verifyRestores: bool)
    returns (exports: seq<Export>, warnings: seq<Warning>, ghost from: seq<nat>)
    requires |outcomes| == |findings|
    ensures ExportsOf(exports, from, findings, containers, outcomes, verifyRestores, |findings|)
    ensures warnings == Troubles(findings, containers, outcomes, verifyRestores)
    ensures warnings == [] <==> AllDumpWell(findings, containers, outcomes, verifyRestores)
  {
    exports, warnings, from := [], [], [];
    for i := 0 to |findings|
      invariant ExportsOf(exports, from, findings, containers, outcomes, verifyRestores, i)
      invariant warnings == Troubles(findings[..i], containers, outcomes[..i], verifyRestores)
    {
      TroublesSnoc(findings, containers, outcomes, verifyRestores, i);
      var made, warning := DumpFinding(findings[i], containers, outcomes[i], verifyRestores);
      warnings := warnings + OneOrNone(warning);
      if made.Some? {
        OneMoreExport(exports, from, findings, containers, outcomes, verifyRestores, i);
        exports, from := exports + [made.value], from + [i];
      }
    }
    assert findings[..|findings|] == findings && outcomes[..|findings|] == outcomes;
    NoTroubles(findings, containers, outcomes, verifyRestores);
  }

  function Keys(exports: seq<Export>): set<string> {
    set e | e in exports :: e.key
  }

  method DumpedKeys(exports: seq<Export>) returns (keys: set<string>)
    ensures keys == Keys(exports)
  {
    keys := {};
    for i := 0 to |exports|
      invariant keys == Keys(exports[..i])
    {
      assert exports[..i + 1] == exports[..i] + [exports[i]];
      keys := keys + {exports[i].key};
    }
    assert exports[..|exports|] == exports;
  }

  // ----- manifestEntries -----

  function ExportEntry(e: Export): DatabaseEntry {
    DatabaseEntry(e.technology, e.service, Exported, e.path, e.bytes, e.loaded)
  }

  function ExportEntries(exports: seq<Export>): (r: seq<DatabaseEntry>)
    ensures |r| == |exports| && forall i | 0 <= i < |r| :: r[i] == ExportEntry(exports[i])
  {
    seq(|exports|, i requires 0 <= i < |exports| => ExportEntry(exports[i]))
  }

  function SqliteEntry(volume: string, c: Capture): DatabaseEntry {
    DatabaseEntry("sqlite", volume, Consistently, volume + "/" + c.path, c.bytes, None)
  }

  function CaptureEntries(v: Volume): (r: seq<DatabaseEntry>)
    ensures |r| == |v.sqlite|
    ensures forall i | 0 <= i < |r| ::
              r[i] == SqliteEntry(v.name, v.sqlite[i])
  {
    seq(|v.sqlite|, i requires 0 <= i < |v.sqlite| => SqliteEntry(v.name, v.sqlite[i]))
  }

  function SqliteEntries(volumes: seq<Volume>): (r: seq<DatabaseEntry>)
    ensures forall i | 0 <= i < |r| :: r[i].technology == "sqlite" && r[i].level == Consistently
  {
    if volumes == [] then [] else SqliteEntries(volumes[..|volumes| - 1]) + CaptureEntries(volumes[|volumes| - 1])
  }

  function CopiedOnly(exported: set<string>): Finding -> Option<DatabaseEntry> {
    (f: Finding) =>
      if Listed(f) && Key(f) !in exported then Some(DatabaseEntry(f.technology, f.service, FilesOnly, "", 0, None))
      else None
  }

  /** The entries of the manifest: exports, captured files, and what was only copied. */
  ghost predicate EntriesOf(entries: seq<DatabaseEntry>, exports: seq<Export>, volumes: seq<Volume>,
                            findings: Option<seq<Finding>>)
  {
    entries == ExportEntries(exports) + SqliteEntries(volumes)
               + if findings.Some? then Collect(CopiedOnly(Keys(exports)), findings.value) else []
  }

  method ManifestEntries(exports: seq<Export>, volumes: seq<Volume>, findings: Option<seq<Finding>>)
    returns (entries: seq<DatabaseEntry>)
    ensures EntriesOf(entries, exports, volumes, findings)
  {
    entries := [];
    for i := 0 to |exports|
      invariant entries == ExportEntries(exports)[..i]
    {
      entries := entries + [ExportEntry(exports[i])];
    }
    for i := 0 to |volumes|
      invariant entries == ExportEntries(exports) + SqliteEntries(volumes[..i])
    {
      ghost var before := entries;
      var v := volumes[i];
      for j := 0 to |v.sqlite|
        invariant entries == before + CaptureEntries(v)[..j]
      {
        var capture := v.sqlite[j];
        var path := v.name + "/" + capture.path;
        entries := entries + [DatabaseEntry("sqlite", v.name, Consistently, path, capture.bytes, None)];
      }
      assert volumes[..i + 1][..i] == volumes[..i];
      assert CaptureEntries(v)[..|v.sqlite|] == CaptureEntries(v);
    }
    assert volumes[..|volumes|] == volumes;
    if findings.None? {
      return;
    }
    var exported := DumpedKeys(exports);
    var copied := CopiedEntries(findings.value, exported);
    entries := entries + copied;
  }

  method CopiedEntries(findings: seq<Finding>, exported: set<string>) returns (entries: seq<DatabaseEntry>)
    ensures entries == Collect(CopiedOnly(exported), findings)
  {
    entries := [];
    for i := 0 to |findings|
      invariant entries == Collect(CopiedOnly(exported), findings[..i])
    {
      CollectSnoc(CopiedOnly(exported), findings, i);
      var f := findings[i];
      if f.kind != "database" || f.technology == "sqlite" || f.confidence == Possible || Key(f) in exported {
        continue;
      }
      entries := entries + [DatabaseEntry(f.technology, f.service, FilesOnly, "", 0, None)];
    }
    assert findings[..|findings|] == findings;
  }

  // ----- databaseConsistencyWarnings -----

  predicate Undumped(f: Finding, dumped: set<string>) {
    NeedsDump(f) && Key(f) !in dumped
  }

  ghost function UndumpedLabels(findings: seq<Finding>, dumped: set<string>): set<string> {
    set f | f in findings && Undumped(f, dumped) :: SERVER_DATABASES[f.technology]
  }

  ghost function UndumpedServices(findings: seq<Finding>, dumped: set<string>, name: string): set<string> {
    set f | f in findings && Undumped(f, dumped) && SERVER_DATABASES[f.technology] == name && f.service != "" ::
      f.service
  }

  ghost function EngineWarning(findings: seq<Finding>, dumped: set<string>, engine: string): Warning {
    Inconsistent(engine, Listing(UndumpedServices(findings, dumped, engine)))
  }

  /** A warning names an engine that must be dumped and was not, and exactly the named services where
      that happened. */
  lemma EngineWarningMeans(findings: seq<Finding>, dumped: set<string>, engine: string)
    ensures EngineWarning(findings, dumped, engine).engine == engine
    ensures engine in UndumpedLabels(findings, dumped) <==> exists f :: f in findings && Missed(f, dumped, engine)
    ensures forall s :: s in EngineWarning(findings, dumped, engine).services <==>
              s != "" && exists f :: f in findings && f.service == s && Missed(f, dumped, engine)
    ensures StrictlySorted(EngineWarning(findings, dumped, engine).services)
  {
    var services := EngineWarning(findings, dumped, engine).services;
    forall s
      ensures s in services <==> s != "" && exists f :: f in findings && f.service == s && Missed(f, dumped, engine)
    {
      assert s in services <==> s in UndumpedServices(findings, dumped, engine);
    }
  }

  predicate Missed(f: Finding, dumped: set<string>, engine: string) {
    && f.kind == "database" && f.technology in SERVER_DATABASES && SERVER_DATABASES[f.technology] == engine
    && f.service + ":" + f.technology !in dumped
  }

  ghost function ConsistencyList(findings: seq<Finding>, dumped: set<string>): (r: seq<Warning>)
    ensures |r| == |Listing(UndumpedLabels(findings, dumped))|
    ensures forall i | 0 <= i < |r| ::
              r[i] == EngineWarning(findings, dumped, Listing(UndumpedLabels(findings, dumped))[i])
  {
    var engines := Listing(UndumpedLabels(findings, dumped));
    seq(|engines|, i requires 0 <= i < |engines| => EngineWarning(findings, dumped, engines[i]))
  }

  /** One warning for each engine with an undumped database, by name, naming its services in order. */
  method ConsistencyWarnings(findings: seq<Finding>, dumped: set<string>) returns (warnings: seq<Warning>)
    ensures warnings == ConsistencyList(findings, dumped)
    ensures warnings == [] <==> forall f | f in findings :: NeedsDump(f) ==> Key(f) in dumped
  {
    var services := CollectServices(findings, dumped);
    var names := SortedListing(services.Keys);
    warnings := ServicesByName(services, names);
    forall i | 0 <= i < |names| ensures warnings[i] == EngineWarning(findings, dumped, names[i]) {
      assert names[i] in services;
    }
    NoLabelsMeansAllDumped(findings, dumped);
  }

  method ServicesByName(services: map<string, set<string>>, names: seq<string>) returns (warnings: seq<Warning>)
    requires forall name | name in names :: name in services
    ensures |warnings| == |names|
    ensures forall i | 0 <= i < |names| :: warnings[i] == Inconsistent(names[i], Listing(services[names[i]]))
  {
    warnings := [];
    for i := 0 to |names|
      invariant |warnings| == i
      invariant forall j | 0 <= j < i :: warnings[j] == Inconsistent(names[j], Listing(services[names[j]]))
    {
      var listed := SortedListing(services[names[i]]);
      warnings := warnings + [Inconsistent(names[i], listed)];
    }
  }

  /** The services map, filled finding by finding. */
  method CollectServices(findings: seq<Finding>, dumped: set<string>) returns (services: map<string, set<string>>)
    ensures services.Keys == UndumpedLabels(findings, dumped)
    ensures forall name | name in services :: services[name] == UndumpedServices(findings, dumped, name)
  {
    services := map[];
    for i := 0 to |findings|
      invariant services.Keys == UndumpedLabels(findings[..i], dumped)
      invariant forall name | name in services :: services[name] == UndumpedServices(findings[..i], dumped, name)
    {
      assert findings[..i + 1] == findings[..i] + [findings[i]];
      UndumpedSnoc(findings[..i], findings[i], dumped);
      services := AddUndumped(services, findings[i], dumped);
    }
    assert findings[..|findings|] == findings;
  }

  /** The name a finding adds to the services of an engine, if it adds one. */
  ghost function UndumpedService(f: Finding, dumped: set<string>, name: string): set<string> {
    if Undumped(f, dumped) && SERVER_DATABASES[f.technology] == name && f.service != "" then {f.service} else {}
  }

  method AddUndumped(services0: map<string, set<string>>, f: Finding, dumped: set<string>)
    returns (services: map<string, set<string>>)
    ensures services.Keys == services0.Keys + if Undumped(f, dumped) then {SERVER_DATABASES[f.technology]} else {}
    ensures forall name | name in services ::
              services[name] == (if name in services0 then services0[name] else {}) + UndumpedService(f, dumped, name)
  {
    services := services0;
    if f.kind != "database" || f.technology !in SERVER_DATABASES || Key(f) in dumped {
      return;
    }
    var name := SERVER_DATABASES[f.technology];
    var known := if name in services then services[name] else {};
    if f.service != "" {
      services := services[name := known + {f.service}];
    } else if name !in services {
      services := services[name := {}];
    }
  }

  lemma UndumpedSnoc(findings: seq<Finding>, f: Finding, dumped: set<string>)
    ensures UndumpedLabels(findings + [f], dumped) ==
            UndumpedLabels(findings, dumped) + if Undumped(f, dumped) then {SERVER_DATABASES[f.technology]} else {}
    ensures forall name ::
              UndumpedServices(findings + [f], dumped, name) ==
              UndumpedServices(findings, dumped, name) + UndumpedService(f, dumped, name)
    ensures forall name | name !in UndumpedLabels(findings, dumped) :: UndumpedServices(findings, dumped, name) == {}
  {
  }

  lemma NoLabelsMeansAllDumped(findings: seq<Finding>, dumped: set<string>)
    ensures Listing(UndumpedLabels(findings, dumped)) == [] <==>
            forall f | f in findings :: NeedsDump(f) ==> Key(f) in dumped
  {
    var names := Listing(UndumpedLabels(findings, dumped));
    forall f | f in findings && Undumped(f, dumped) ensures names != [] {
      assert SERVER_DATABASES[f.technology] in names;
    }
    if names != [] {
      assert names[0] in UndumpedLabels(findings, dumped);
    }
  }

  // ----- what a manifest without warnings says -----

  /** A blueprint names each listed database once and only engines that must be dumped; no technology
      holds a colon, so that service and technology can be read back from a key. */
  ghost predicate Orderly(findings: seq<Finding>) {
    && (forall i | 0 <= i < |findings| && Listed(findings[i]) :: findings[i].technology in SERVER_DATABASES)
    && (forall i, j | 0 <= i < j < |findings| && Listed(findings[i]) && Listed(findings[j]) ::
          (findings[i].service, findings[i].technology) != (findings[j].service, findings[j].technology))
  }

  predicate EntryFor(e: DatabaseEntry, f: Finding) {
    e.technology == f.technology && e.service == f.service
  }

  /** The finding is listed exactly once, as an export. */
  ghost predicate ListedOnceAsExport(entries: seq<DatabaseEntry>, f: Finding) {
    exists k :: SoleExport(entries, f, k)
  }

  ghost predicate SoleExport(entries: seq<DatabaseEntry>, f: Finding, k: int) {
    && 0 <= k < |entries| && EntryFor(entries[k], f) && entries[k].level == Exported
    && forall j | 0 <= j < |entries| && EntryFor(entries[j], f) :: j == k
  }

  lemma KnownEnginesHoldNoColon(technology: string)
    requires technology in SERVER_DATABASES
    ensures ':' !in technology
  {
  }

  lemma PartsAgree(a: string, x: string, b: string, y: string)
    requires ':' !in x && ':' !in y && a + ":" + x == b + ":" + y
    ensures a == b && x == y
  {
    LastOf(a, ':', x);
    LastOf(b, ':', y);
    var s, s' := a + ":" + x, b + ":" + y;
    assert a == s[..|a|] && b == s'[..|b|];
    assert x == s[|a| + 1..] && y == s'[|b| + 1..];
  }

  lemma KeyInjective(f: Finding, g: Finding)
    requires Key(f) == Key(g) && f.technology in SERVER_DATABASES && g.technology in SERVER_DATABASES
    ensures f.service == g.service && f.technology == g.technology
  {
    KnownEnginesHoldNoColon(f.technology);
    KnownEnginesHoldNoColon(g.technology);
    PartsAgree(f.service, f.technology, g.service, g.technology);
  }

  /** Every listed finding was exported: its key is among the exports, so the finding itself is among
      those that were exported. */
  lemma ListedWasExported(findings: seq<Finding>, exports: seq<Export>, from: seq<nat>, i: nat) returns (k: nat)
    requires Orderly(findings) && MadeFrom(exports, findings, from)
    requires i < |findings| && Listed(findings[i]) && Key(findings[i]) in Keys(exports)
    ensures k < |from| && from[k] == i
  {
    var e :| e in exports && e.key == Key(findings[i]);
    var n :| 0 <= n < |exports| && exports[n] == e;
    KeyInjective(findings[i], findings[from[n]]);
    k := n;
  }

  lemma NothingOnlyCopied(findings: seq<Finding>, exported: set<string>)
    requires Orderly(findings)
    requires forall f | f in findings :: NeedsDump(f) ==> Key(f) in exported
    ensures Collect(CopiedOnly(exported), findings) == []
  {
    forall f | f in findings ensures CopiedOnly(exported)(f) == None {
      if Listed(f) {
        var i :| 0 <= i < |findings| && findings[i] == f;
        assert f.technology in SERVER_DATABASES;
      }
    }
    CollectNothing(CopiedOnly(exported), findings);
  }

  /** If no finding is left undumped, the manifest lists every listed finding exactly once, as an
      export, and contains nothing that was only copied. */
  lemma ManifestIsComplete(findings: seq<Finding>, exports: seq<Export>, from: seq<nat>, volumes: seq<Volume>,
                           entries: seq<DatabaseEntry>)
    requires Orderly(findings) && MadeFrom(exports, findings, from)
    requires forall f | f in findings :: NeedsDump(f) ==> Key(f) in Keys(exports)
    requires entries == ExportEntries(exports) + SqliteEntries(volumes) + Collect(CopiedOnly(Keys(exports)), findings)
    ensures forall i | 0 <= i < |findings| && Listed(findings[i]) :: ListedOnceAsExport(entries, findings[i])
    ensures forall e | e in entries :: e.level != FilesOnly
  {
    NothingOnlyCopied(findings, Keys(exports));
    var captured := SqliteEntries(volumes);
    assert entries == ExportEntries(exports) + captured;
    forall i | 0 <= i < |findings| && Listed(findings[i]) ensures ListedOnceAsExport(entries, findings[i]) {
      ListedAppearsOnce(findings, exports, from, captured, entries, i);
    }
    NoneFilesOnly(exports, captured);
  }

  lemma NoneFilesOnly(exports: seq<Export>, captured: seq<DatabaseEntry>)
    requires forall i | 0 <= i < |captured| :: captured[i].level == Consistently
    ensures forall e | e in ExportEntries(exports) + captured :: e.level != FilesOnly
  {
  }

  lemma ListedAppearsOnce(findings: seq<Finding>, exports: seq<Export>, from: seq<nat>, captured: seq<DatabaseEntry>,
                          entries: seq<DatabaseEntry>, i: nat)
    requires Orderly(findings) && MadeFrom(exports, findings, from)
    requires forall f | f in findings :: NeedsDump(f) ==> Key(f) in Keys(exports)
    requires entries == ExportEntries(exports) + captured
    requires forall j | 0 <= j < |captured| :: captured[j].technology == "sqlite"
    requires i < |findings| && Listed(findings[i])
    ensures ListedOnceAsExport(entries, findings[i])
  {
    assert findings[i] in findings;
    var k := ListedWasExported(findings, exports, from, i);
    ExportedOnce(findings, exports, from, captured, entries, i, k);
  }

  lemma ExportedOnce(findings: seq<Finding>, exports: seq<Export>, from: seq<nat>, sqlite: seq<DatabaseEntry>,
                     entries: seq<DatabaseEntry>, i: nat, k: nat)
    requires Orderly(findings) && MadeFrom(exports, findings, from)
    requires i < |findings| && Listed(findings[i]) && k < |from| && from[k] == i
    requires entries == ExportEntries(exports) + sqlite
    requires forall j | 0 <= j < |sqlite| :: sqlite[j].technology == "sqlite"
    ensures SoleExport(entries, findings[i], k)
  {
    assert forall j | |exports| <= j < |entries| :: entries[j] == sqlite[j - |exports|];
    forall j | 0 <= j < |entries| && EntryFor(entries[j], findings[i]) ensures j == k {
      assert j < |exports| ==> EntryFor(ExportEntry(exports[j]), findings[from[j]]);
    }
  }

  // ----- the run -----

  function VolumeBytes(volumes: seq<Volume>): int {
    if volumes == [] then 0 else VolumeBytes(volumes[..|volumes| - 1]) + volumes[|volumes| - 1].bytes
  }

  function ExportedBytes(entries: seq<DatabaseEntry>): int {
    if entries == [] then 0
    else ExportedBytes(entries[..|entries| - 1])
         + if entries[|entries| - 1].level == Exported then entries[|entries| - 1].bytes else 0
  }

  /** The bytes of a run are those of its volumes and its exports, each counted once, and nothing else. */
  lemma {:induction false} BytesAddUp(a: seq<Volume>, b: seq<Volume>, c: seq<DatabaseEntry>, d: seq<DatabaseEntry>)
    ensures VolumeBytes([]) == 0 && VolumeBytes(a + b) == VolumeBytes(a) + VolumeBytes(b)
    ensures |a| == 1 ==> VolumeBytes(a) == a[0].bytes
    ensures ExportedBytes([]) == 0 && ExportedBytes(c + d) == ExportedBytes(c) + ExportedBytes(d)
    ensures |c| == 1 ==> ExportedBytes(c) == if c[0].level == Exported then c[0].bytes else 0
  {
    ExportedBytesConcat(c, d);
    if b == [] {
      assert a + b == a;
    } else {
      BytesAddUp(a, b[..|b| - 1], [], []);
      assert (a + b)[..|a + b| - 1] == a + b[..|b| - 1];
    }
  }

  lemma {:induction false} ExportedBytesConcat(a: seq<DatabaseEntry>, b: seq<DatabaseEntry>)
    ensures ExportedBytes(a + b) == ExportedBytes(a) + ExportedBytes(b)
  {
    if b == [] {
      assert a + b == a;
    } else {
      ExportedBytesConcat(a, b[..|b| - 1]);
      assert (a + b)[..|a + b| - 1] == a + b[..|b| - 1];
    }
  }

  lemma {:induction false} NoExportedBytes(entries: seq<DatabaseEntry>)
    requires forall i | 0 <= i < |entries| :: entries[i].level != Exported
    ensures ExportedBytes(entries) == 0
  {
    if entries != [] {
      NoExportedBytes(entries[..|entries| - 1]);
    }
  }

  datatype Verification = Verification(ok: bool, bytesInSnapshot: nat)

  datatype Snapshot = Snapshot(manifest: Manifest, verification: Verification)

  /** The parts of a run that its claims are about. */
  datatype RunState = RunState(status: Status, phase: Phase, ended: bool, bytesTotal: int, warnings: seq<Warning>)

  function RowOf(r: RunState): Row {
    Row(r.status, r.phase, r.ended)
  }

  /** The rows written so far by a run that is now in `phase`: progress only, never going back. */
  ghost predicate InProgress(writes: seq<Row>, phase: Phase) {
    && phase != Finished
    && (forall i | 0 <= i < |writes| ::
          writes[i].status == Running && !writes[i].ended && Rank(writes[i].phase) <= Rank(phase))
    && (forall i, j | 0 <= i <= j < |writes| :: Rank(writes[i].phase) <= Rank(writes[j].phase))
  }

  /** All rows written by a run: progress, and then one outcome. */
  ghost predicate Concluded(writes: seq<Row>, status: Status) {
    && writes != [] && Done(status)
    && writes[|writes| - 1] == Row(status, Finished, true)
    && InProgress(writes[..|writes| - 1], Verifying)
    && (Succeeded(status) ==> |writes| >= 2 && writes[|writes| - 2].phase == Verifying)
  }

  /** Writing progress, possibly after entering a later phase. */
  method Persist(r: RunState, writes0: seq<Row>) returns (writes: seq<Row>)
    requires r.status == Running && !r.ended && InProgress(writes0, r.phase)
    ensures writes == writes0 + [RowOf(r)] && InProgress(writes, r.phase)
  {
    writes := writes0 + [RowOf(r)];
  }

  /** finishFailed, finishCancelled and the success at the end: the outcome is written last. */
  method Conclude(r0: RunState, status: Status, writes0: seq<Row>) returns (r: RunState, writes: seq<Row>)
    requires Done(status) && InProgress(writes0, r0.phase)
    requires Succeeded(status) ==> writes0 != [] && writes0[|writes0| - 1].phase == Verifying
    ensures r == r0.(status := status, phase := Finished, ended := true)
    ensures Concluded(writes, status)
  {
    r := r0.(status := status, phase := Finished, ended := true);
    writes := writes0 + [RowOf(r)];
    assert writes[..|writes| - 1] == writes0;
  }

  /** What staging one source comes to: a volume with the notes made about it, an error, or a
      cancellation noticed before it began. */
  datatype StageOutcome = Staged(volume: Volume, notes: seq<string>) | StageFailed(cancelled: bool) | CancelledBefore

  /** The first `n` sources are staged. */
  predicate StagedUpTo(outcomes: seq<StageOutcome>, n: nat) {
    n <= |outcomes| && forall i | 0 <= i < n :: outcomes[i].Staged?
  }

  predicate AllStaged(outcomes: seq<StageOutcome>) {
    StagedUpTo(outcomes, |outcomes|)
  }

  /** The warnings one source gives rise to. */
  function SourceWarnings(source: string, outcome: StageOutcome): (warnings: seq<Warning>)
    requires outcome.Staged?
    ensures |warnings| == |outcome.notes|
    ensures forall j | 0 <= j < |warnings| :: warnings[j] == FromStaging(source, outcome.notes[j])
  {
    seq(|outcome.notes|, j requires 0 <= j < |outcome.notes| => FromStaging(source, outcome.notes[j]))
  }

  /** The warnings of the first `n` sources. */
  function StagingWarnings(sources: seq<string>, outcomes: seq<StageOutcome>, n: nat): seq<Warning>
    requires |outcomes| == |sources| && StagedUpTo(outcomes, n)
  {
    if n == 0 then []
    else StagingWarnings(sources, outcomes, n - 1) + SourceWarnings(sources[n - 1], outcomes[n - 1])
  }

  /** Each note is reported, at the place that its source and its position give it. */
  lemma {:induction false} NotesAreReported(sources: seq<string>, outcomes: seq<StageOutcome>, n: nat, i: nat, j: nat)
    requires |outcomes| == |sources| && StagedUpTo(outcomes, n) && i < n && j < |outcomes[i].notes|
    ensures var all := StagingWarnings(sources, outcomes, n);
            var before := |StagingWarnings(sources, outcomes, i)|;
            before + j < |all| && all[before + j] == FromStaging(sources[i], outcomes[i].notes[j])
  {
    if i < n - 1 {
      NotesAreReported(sources, outcomes, n - 1, i, j);
    }
  }

  predicate NoNotes(outcomes: seq<StageOutcome>, n: nat)
    requires StagedUpTo(outcomes, n)
  {
    forall i | 0 <= i < n :: outcomes[i].notes == []
  }

  function NoteCount(outcomes: seq<StageOutcome>, n: nat): nat
    requires StagedUpTo(outcomes, n)
  {
    if n == 0 then 0 else NoteCount(outcomes, n - 1) + |outcomes[n - 1].notes|
  }

  /** Nothing else is reported: there are as many warnings as notes. */
  lemma {:induction false} AsManyWarningsAsNotes(sources: seq<string>, outcomes: seq<StageOutcome>, n: nat)
    requires |outcomes| == |sources| && StagedUpTo(outcomes, n)
    ensures |StagingWarnings(sources, outcomes, n)| == NoteCount(outcomes, n)
    ensures NoteCount(outcomes, n) == 0 <==> NoNotes(outcomes, n)
  {
    if n > 0 {
      AsManyWarningsAsNotes(sources, outcomes, n - 1);
    }
  }

  lemma OneMoreVolume(volumes: seq<Volume>, sources: seq<string>, outcomes: seq<StageOutcome>, volume: Volume)
    requires |outcomes| == |sources| && VolumesOf(volumes, sources, outcomes) && |volumes| < |sources|
    requires outcomes[|volumes|].Staged? && volume == VolumeOf(sources[|volumes|], outcomes[|volumes|])
    ensures VolumesOf(volumes + [volume], sources, outcomes)
  {
  }

  lemma VolumeBytesSnoc(volumes: seq<Volume>, volume: Volume)
    ensures VolumeBytes(volumes + [volume]) == VolumeBytes(volumes) + volume.bytes
  {
    assert (volumes + [volume])[..|volumes|] == volumes;
  }

  method Prefix(source: string, notes: seq<string>) returns (warnings: seq<Warning>)
    ensures |warnings| == |notes|
    ensures forall i | 0 <= i < |notes| :: warnings[i] == FromStaging(source, notes[i])
  {
    warnings := seq(|notes|, i requires 0 <= i < |notes| => FromStaging(source, notes[i]));
  }

  /** A staged volume is listed under the name of its source. */
  function VolumeOf(source: string, outcome: StageOutcome): (volume: Volume)
    requires outcome.Staged?
    ensures volume.name == source && volume.bytes == outcome.volume.bytes && volume.files == outcome.volume.files
    ensures volume.sqlite == outcome.volume.sqlite
  {
    outcome.volume.(name := source)
  }

  /** The volumes of the sources staged so far, under the names of their sources. */
  ghost predicate VolumesOf(volumes: seq<Volume>, sources: seq<string>, outcomes: seq<StageOutcome>)
    requires |outcomes| == |sources|
  {
    && |volumes| <= |sources|
    && forall j | 0 <= j < |volumes| :: outcomes[j].Staged? && volumes[j] == VolumeOf(sources[j], outcomes[j])
  }

  /** The state of a run that has staged as many sources as there are volumes. */
  ghost predicate StagedSoFar(sources: seq<string>, outcomes: seq<StageOutcome>, r0: RunState, r: RunState,
                              volumes: seq<Volume>)
    requires |outcomes| == |sources|
  {
    && VolumesOf(volumes, sources, outcomes)
    && var n := |volumes|;
       r == r0.(bytesTotal := VolumeBytes(volumes),
                warnings := r0.warnings + StagingWarnings(sources, outcomes, n))
  }

  lemma OneMoreStaged(sources: seq<string>, outcomes: seq<StageOutcome>, r0: RunState, r: RunState,
                      volumes: seq<Volume>)
    requires |outcomes| == |sources| && StagedSoFar(sources, outcomes, r0, r, volumes)
    requires |volumes| < |sources| && outcomes[|volumes|].Staged?
    ensures var n := |volumes|;
            var volume := VolumeOf(sources[n], outcomes[n]);
            StagedSoFar(sources, outcomes, r0,
                        r.(bytesTotal := r.bytesTotal + volume.bytes,
                           warnings := r.warnings + SourceWarnings(sources[n], outcomes[n])),
                        volumes + [volume])
  {
    var n := |volumes|;
    var volume := VolumeOf(sources[n], outcomes[n]);
    OneMoreVolume(volumes, sources, outcomes, volume);
    VolumeBytesSnoc(volumes, volume);
    AppendTwice(r0.warnings, StagingWarnings(sources, outcomes, n), SourceWarnings(sources[n], outcomes[n]));
  }

  lemma AppendTwice<T>(a: seq<T>, b: seq<T>, c: seq<T>)
    ensures a + b + c == a + (b + c)
  {
  }

  /** Stages every source in turn until one fails or a cancellation is noticed. */
  method StageSources(sources: seq<string>, outcomes: seq<StageOutcome>, r0: RunState, writes0: seq<Row>)
    returns (r: RunState, writes: seq<Row>, volumes: seq<Volume>, stop: Option<Status>)
    requires |outcomes| == |sources|
    requires r0.status == Running && !r0.ended && r0.phase == Staging && InProgress(writes0, Staging)
    requires r0.bytesTotal == 0
    ensures r == r0.(bytesTotal := r.bytesTotal, warnings := r.warnings) && InProgress(writes, Staging)
    ensures VolumesOf(volumes, sources, outcomes) && r.bytesTotal == VolumeBytes(volumes)
    ensures r.warnings == r0.warnings + StagingWarnings(sources, outcomes, |volumes|)
    ensures stop.None? <==> |volumes| == |sources|
    ensures stop.Some? ==>
              var outcome := outcomes[|volumes|];
              !outcome.Staged? && stop.value == if outcome == StageFailed(false) then FailedRun else Cancelled
  {
    r, writes, volumes := r0, writes0, [];
    for i := 0 to |sources|
      invariant InProgress(writes, Staging) && |volumes| == i && StagedSoFar(sources, outcomes, r0, r, volumes)
    {
      if outcomes[i].CancelledBefore? {
        return r, writes, volumes, Some(Cancelled);
      }
      if outcomes[i].StageFailed? {
        return r, writes, volumes, Some(if outcomes[i].cancelled then Cancelled else FailedRun);
      }
      var volume := VolumeOf(sources[i], outcomes[i]);
      var warnings := Prefix(sources[i], outcomes[i].notes);
      assert warnings == SourceWarnings(sources[i], outcomes[i]);
      OneMoreStaged(sources, outcomes, r0, r, volumes);
      r := r.(bytesTotal := r.bytesTotal + volume.bytes, warnings := r.warnings + warnings);
      volumes := volumes + [volume];
      writes := Persist(r, writes);
    }
    stop := None;
  }

  /** The three readings of the project's blueprint during a run; None when it cannot be read. */
  datatype Readings = Readings(first: Option<seq<Finding>>, second: Option<seq<Finding>>, third: Option<seq<Finding>>)

  /** What the manifest says of the databases the analyzer found, when no warning was given: each of a
      known engine has its export; and if the blueprint stayed the same and is orderly, each listed
      finding appears once, as an export, and nothing was only copied. */
  ghost predicate Complete(readings: Readings, entries: seq<DatabaseEntry>) {
    readings.third.Some? ==>
      && EachExported(readings.third.value, entries)
      && (readings.first == readings.second == readings.third && Orderly(readings.third.value) ==>
            && (forall i | 0 <= i < |readings.third.value| && Listed(readings.third.value[i]) ::
                  ListedOnceAsExport(entries, readings.third.value[i]))
            && forall e | e in entries :: e.level != FilesOnly)
  }

  lemma CaptureIsComplete(readings: Readings, origins: seq<Finding>, exports: seq<Export>, from: seq<nat>,
                          volumes: seq<Volume>, entries: seq<DatabaseEntry>)
    requires MadeFrom(exports, origins, from) && readings.third.Some?
    requires origins == [] || Some(origins) == readings.first
    requires forall f | f in readings.third.value :: NeedsDump(f) ==> Key(f) in Keys(exports)
    requires EntriesOf(entries, exports, volumes, readings.second)
    ensures Complete(readings, entries)
  {
    AllHaveExports(readings.third.value, origins, exports, from, entries);
    if readings.first == readings.second == readings.third && Orderly(readings.third.value) {
      assert MadeFrom(exports, readings.third.value, from);
      ManifestIsComplete(readings.third.value, exports, from, volumes, entries);
    }
  }

  method AddExports(exports: seq<Export>, staged: int) returns (bytes: int)
    ensures bytes == staged + ExportedBytes(ExportEntries(exports))
  {
    bytes := staged;
    for i := 0 to |exports|
      invariant bytes == staged + ExportedBytes(ExportEntries(exports)[..i])
    {
      assert ExportEntries(exports)[..i + 1][..i] == ExportEntries(exports)[..i];
      bytes := bytes + exports[i].bytes;
    }
    assert ExportEntries(exports)[..|exports|] == ExportEntries(exports);
  }

  /** The manifest holds an export under the finding's service and technology. */
  ghost predicate HasExport(entries: seq<DatabaseEntry>, f: Finding) {
    exists e :: e in entries && e.level == Exported && e.service + ":" + e.technology == f.service + ":" + f.technology
  }

  /** The manifest leaves nothing out: it has each export, each captured file, and each listed finding
      that was not exported as one that was only copied; and it has nothing else. */
  lemma ManifestLeavesNothingOut(exports: seq<Export>, volumes: seq<Volume>, findings: Option<seq<Finding>>,
                                 entries: seq<DatabaseEntry>, e: DatabaseEntry)
    requires EntriesOf(entries, exports, volumes, findings)
    ensures e in entries <==>
              || (exists x :: x in exports && e == DatabaseEntry(x.technology, x.service, Exported, x.path, x.bytes,
                                                                 x.loaded))
              || (exists v, c :: v in volumes && c in v.sqlite
                                 && e == DatabaseEntry("sqlite", v.name, Consistently, v.name + "/" + c.path, c.bytes,
                                                       None))
              || (findings.Some?
                  && exists f :: f in findings.value && Listed(f) && (forall x | x in exports :: x.key != Key(f))
                                 && e == DatabaseEntry(f.technology, f.service, FilesOnly, "", 0, None))
  {
    var copied := if findings.Some? then Collect(CopiedOnly(Keys(exports)), findings.value) else [];
    CapturesListed(volumes, e);
    if findings.Some? {
      CollectMembers(CopiedOnly(Keys(exports)), findings.value, e);
      CopiedMeans(exports, findings.value, e);
    }
    ExportsListed(exports, e);
  }

  lemma ExportsListed(exports: seq<Export>, e: DatabaseEntry)
    ensures e in ExportEntries(exports) <==>
            exists x :: x in exports && e == DatabaseEntry(x.technology, x.service, Exported, x.path, x.bytes, x.loaded)
  {
    if x :| x in exports && e == ExportEntry(x) {
      var k :| 0 <= k < |exports| && exports[k] == x;
      assert ExportEntries(exports)[k] == e;
    }
  }

  lemma {:induction false} CapturesListed(volumes: seq<Volume>, e: DatabaseEntry)
    ensures e in SqliteEntries(volumes) <==>
            exists v, c :: v in volumes && c in v.sqlite
                           && e == DatabaseEntry("sqlite", v.name, Consistently, v.name + "/" + c.path, c.bytes, None)
  {
    if volumes != [] {
      var n := |volumes| - 1;
      CapturesListed(volumes[..n], e);
      assert volumes == volumes[..n] + [volumes[n]];
      CaptureListed(volumes[n], e);
    }
  }

  lemma CaptureListed(v: Volume, e: DatabaseEntry)
    ensures e in CaptureEntries(v) <==> exists c :: c in v.sqlite && e == SqliteEntry(v.name, c)
  {
    if c :| c in v.sqlite && e == SqliteEntry(v.name, c) {
      var k :| 0 <= k < |v.sqlite| && v.sqlite[k] == c;
      assert CaptureEntries(v)[k] == e;
    }
  }

  lemma CopiedMeans(exports: seq<Export>, findings: seq<Finding>, e: DatabaseEntry)
    ensures (exists f :: f in findings && CopiedOnly(Keys(exports))(f) == Some(e)) <==>
            exists f :: f in findings && Listed(f) && (forall x | x in exports :: x.key != Key(f))
                        && e == DatabaseEntry(f.technology, f.service, FilesOnly, "", 0, None)
  {
    forall f ensures Key(f) in Keys(exports) <==> exists x :: x in exports && x.key == Key(f) {}
  }

  lemma OthersAreNoExports(exports: seq<Export>, volumes: seq<Volume>, findings: Option<seq<Finding>>,
                           entries: seq<DatabaseEntry>)
    requires EntriesOf(entries, exports, volumes, findings)
    ensures ExportEntries(exports) <= entries
    ensures forall i | |exports| <= i < |entries| :: entries[i].level != Exported
  {
    var copied := if findings.Some? then Collect(CopiedOnly(Keys(exports)), findings.value) else [];
    forall i | 0 <= i < |copied| ensures copied[i].level == FilesOnly {
      CollectMembers(CopiedOnly(Keys(exports)), findings.value, copied[i]);
    }
  }

  lemma KeysAreExports(f: Finding, origins: seq<Finding>, exports: seq<Export>, from: seq<nat>, volumes: seq<Volume>,
                       findings: Option<seq<Finding>>, entries: seq<DatabaseEntry>)
    requires MadeFrom(exports, origins, from) && EntriesOf(entries, exports, volumes, findings)
    ensures Key(f) in Keys(exports) <==> HasExport(entries, f)
  {
    OthersAreNoExports(exports, volumes, findings, entries);
    if Key(f) in Keys(exports) {
      KeyHasExport(f, origins, exports, from, entries);
    }
    if HasExport(entries, f) {
      ExportHasKey(f, origins, exports, from, entries);
    }
  }

  lemma KeyHasExport(f: Finding, origins: seq<Finding>, exports: seq<Export>, from: seq<nat>,
                     entries: seq<DatabaseEntry>)
    requires MadeFrom(exports, origins, from) && ExportEntries(exports) <= entries && Key(f) in Keys(exports)
    ensures HasExport(entries, f)
  {
    var e :| e in exports && e.key == Key(f);
    var k :| 0 <= k < |exports| && exports[k] == e;
    assert entries[k] == ExportEntry(exports[k]);
  }

  lemma ExportHasKey(f: Finding, origins: seq<Finding>, exports: seq<Export>, from: seq<nat>,
                     entries: seq<DatabaseEntry>)
    requires MadeFrom(exports, origins, from) && ExportEntries(exports) <= entries && HasExport(entries, f)
    requires forall i | |exports| <= i < |entries| :: entries[i].level != Exported
    ensures Key(f) in Keys(exports)
  {
    var e :| e in entries && e.level == Exported && e.service + ":" + e.technology == f.service + ":" + f.technology;
    var k :| 0 <= k < |entries| && entries[k] == e;
    assert entries[k] == ExportEntry(exports[k]) && exports[k].key == Key(origins[from[k]]);
  }

  /** The findings that are to be exported, if the blueprint can be read and there is a Docker client. */
  function ToDump(readings: Readings, haveDocker: bool): seq<Finding> {
    if haveDocker && readings.first.Some? then readings.first.value else []
  }

  /** What is said about the databases of a run. */
  ghost function DatabaseWarnings(readings: Readings, haveDocker: bool, containers: seq<Container>,
                                  outcomes: seq<DumpOutcome>, verifyRestores: bool, exports: seq<Export>): seq<Warning>
    requires |outcomes| == |ToDump(readings, haveDocker)|
  {
    Troubles(ToDump(readings, haveDocker), containers, outcomes, verifyRestores)
    + if readings.third.Some? then ConsistencyList(readings.third.value, Keys(exports)) else []
  }

  /** Every database to be exported was exported, and shown to load where that is asked for; and every
      one that must be exported is among them. */
  ghost predicate DatabasesSafe(readings: Readings, haveDocker: bool, containers: seq<Container>,
                                outcomes: seq<DumpOutcome>, verifyRestores: bool, entries: seq<DatabaseEntry>)
    requires |outcomes| == |ToDump(readings, haveDocker)|
  {
    && AllDumpWell(ToDump(readings, haveDocker), containers, outcomes, verifyRestores)
    && (readings.third.Some? ==> forall f | f in readings.third.value && NeedsDump(f) :: HasExport(entries, f))
  }

  /** Exports, manifest entries and consistency warnings: everything between staging and snapshot. */
  method CaptureDatabases(readings: Readings, haveDocker: bool, containers: seq<Container>,
                          outcomes: seq<DumpOutcome>, verifyRestores: bool, volumes: seq<Volume>, staged: int)
    returns (entries: seq<DatabaseEntry>, bytes: int, warnings: seq<Warning>, ghost exports: seq<Export>,
             ghost from: seq<nat>)
    requires |outcomes| == |ToDump(readings, haveDocker)|
    ensures var findings := ToDump(readings, haveDocker);
            ExportsOf(exports, from, findings, containers, outcomes, verifyRestores, |findings|)
    ensures EntriesOf(entries, exports, volumes, readings.second)
    ensures bytes == staged + ExportedBytes(entries)
    ensures warnings == DatabaseWarnings(readings, haveDocker, containers, outcomes, verifyRestores, exports)
    ensures warnings == [] <==> DatabasesSafe(readings, haveDocker, containers, outcomes, verifyRestores, entries)
  {
    var dumps: seq<Export> := [];
    from, warnings := [], [];
    if haveDocker && readings.first.Some? {
      dumps, warnings, from := DumpDatabases(readings.first.value, containers, outcomes, verifyRestores);
    }
    exports := dumps;
    bytes := AddExports(dumps, staged);
    entries := ManifestEntries(dumps, volumes, readings.second);
    EntriesBytes(exports, volumes, readings.second, entries);
    if readings.third.Some? {
      var keys := DumpedKeys(dumps);
      var undumped := ConsistencyWarnings(readings.third.value, keys);
      forall f ensures Key(f) in Keys(exports) <==> HasExport(entries, f) {
        KeysAreExports(f, ToDump(readings, haveDocker), exports, from, volumes, readings.second, entries);
      }
      warnings := warnings + undumped;
    }
  }

  lemma EntriesBytes(exports: seq<Export>, volumes: seq<Volume>, findings: Option<seq<Finding>>,
                     entries: seq<DatabaseEntry>)
    requires EntriesOf(entries, exports, volumes, findings)
    ensures ExportedBytes(entries) == ExportedBytes(ExportEntries(exports))
  {
    var copied := if findings.Some? then Collect(CopiedOnly(Keys(exports)), findings.value) else [];
    ExportedBytesConcat(ExportEntries(exports) + SqliteEntries(volumes), copied);
    ExportedBytesConcat(ExportEntries(exports), SqliteEntries(volumes));
    NoExportedBytes(SqliteEntries(volumes));
    forall i | 0 <= i < |copied| ensures copied[i].level != Exported {
      CollectMembers(CopiedOnly(Keys(exports)), findings.value, copied[i]);
    }
    NoExportedBytes(copied);
  }

  /** Every export was loaded into an empty server. */
  ghost predicate ExportsLoaded(entries: seq<DatabaseEntry>) {
    forall i | 0 <= i < |entries| && entries[i].level == Exported :: entries[i].loaded == Some(true)
  }

  lemma LoadedConcat(a: seq<DatabaseEntry>, b: seq<DatabaseEntry>)
    requires ExportsLoaded(a) && ExportsLoaded(b)
    ensures ExportsLoaded(a + b)
  {
  }

  lemma EntriesLoaded(exports: seq<Export>, volumes: seq<Volume>, findings: Option<seq<Finding>>,
                      entries: seq<DatabaseEntry>)
    requires EntriesOf(entries, exports, volumes, findings)
    ensures (forall e | e in exports :: e.loaded == Some(true)) ==> ExportsLoaded(entries)
  {
    var copied := if findings.Some? then Collect(CopiedOnly(Keys(exports)), findings.value) else [];
    forall i | 0 <= i < |copied| ensures copied[i].level == FilesOnly {
      CollectMembers(CopiedOnly(Keys(exports)), findings.value, copied[i]);
    }
    if forall e | e in exports :: e.loaded == Some(true) {
      LoadedConcat(ExportEntries(exports), SqliteEntries(volumes));
      LoadedConcat(ExportEntries(exports) + SqliteEntries(volumes), copied);
    }
  }

  /** Every database of a known engine has an export of its own engine and service. */
  ghost predicate EachExported(findings: seq<Finding>, entries: seq<DatabaseEntry>) {
    forall f | f in findings && NeedsDump(f) :: exists e :: e in entries && EntryFor(e, f) && e.level == Exported
  }

  /** Whatever the exports were made from: a key among them stands for the same engine and service. */
  lemma AllHaveExports(findings: seq<Finding>, origins: seq<Finding>, exports: seq<Export>, from: seq<nat>,
                       entries: seq<DatabaseEntry>)
    requires MadeFrom(exports, origins, from) && ExportEntries(exports) <= entries
    requires forall f | f in findings :: NeedsDump(f) ==> Key(f) in Keys(exports)
    ensures EachExported(findings, entries)
  {
    forall f | f in findings && NeedsDump(f) ensures exists e :: e in entries && EntryFor(e, f) && e.level == Exported {
      var e :| e in exports && e.key == Key(f);
      var k :| 0 <= k < |exports| && exports[k] == e;
      KeyInjective(f, origins[from[k]]);
      assert entries[k] == ExportEntry(exports[k]);
    }
  }

  /** What creating a snapshot comes to: the engine's notes on it, or an error. */
  datatype Creation = Made(notes: seq<string>) | NotMade(cancelled: bool)

  /** What reading the snapshot back comes to. */
  datatype ReadBack = Read(verification: Verification) | Unread(cancelled: bool)

  /** Everything a run meets: whether the staging directory could be cleared, what staging, exports and
      the engine come to, and whether the snapshot row could be written. */
  datatype World = World(cleared: bool, staging: seq<StageOutcome>, dumps: seq<DumpOutcome>, created: Creation,
                         readBack: ReadBack, recorded: bool)

  predicate EngineSucceeds(w: World) {
    w.created.Made? && w.readBack.Read? && w.readBack.verification.ok && w.recorded
  }

  predicate Succeeds(w: World) {
    w.cleared && AllStaged(w.staging) && EngineSucceeds(w)
  }

  /** The engine is what gets cancelled. */
  predicate EngineCancelled(w: World) {
    w.created == NotMade(true) || (w.created.Made? && w.readBack == Unread(true))
  }

  /** Staging stops at a source, by a cancellation. */
  ghost predicate StagingCancelled(outcomes: seq<StageOutcome>) {
    exists i :: 0 <= i < |outcomes| && StagedUpTo(outcomes, i)
                && (outcomes[i] == CancelledBefore || outcomes[i] == StageFailed(true))
  }

  /** The first thing to go wrong is a cancellation. */
  ghost predicate IsCancelled(w: World) {
    w.cleared && (StagingCancelled(w.staging) || (AllStaged(w.staging) && EngineCancelled(w)))
  }

  lemma StopDecides(outcomes: seq<StageOutcome>, n: nat)
    requires n < |outcomes| && StagedUpTo(outcomes, n) && !outcomes[n].Staged?
    ensures !AllStaged(outcomes) && (StagingCancelled(outcomes) <==> outcomes[n] != StageFailed(false))
  {
    assert forall i | 0 <= i < |outcomes| && StagedUpTo(outcomes, i) && !outcomes[i].Staged? :: i == n;
  }

  lemma NothingStops(outcomes: seq<StageOutcome>)
    requires AllStaged(outcomes)
    ensures !StagingCancelled(outcomes)
  {
  }

  function EngineWarnings(notes: seq<string>): (warnings: seq<Warning>)
    ensures |warnings| == |notes|
    ensures forall i | 0 <= i < |warnings| :: warnings[i] == FromEngine(notes[i])
  {
    seq(|notes|, i requires 0 <= i < |notes| => FromEngine(notes[i]))
  }

  /** A snapshot that would restore less than was handed over, but something. */
  predicate FallsShort(v: Verification, staged: int) {
    0 < v.bytesInSnapshot < staged
  }

  function ShortfallWarnings(v: Verification, staged: int): seq<Warning> {
    if FallsShort(v, staged) then [Shortfall(v.bytesInSnapshot, staged)] else []
  }

  /** What a snapshot row says of the run: its volumes are those of the sources, and its figures add up. */
  ghost predicate Describes(s: Snapshot, sources: seq<string>, w: World, r: RunState)
    requires |w.staging| == |sources|
  {
    && s.verification.ok
    && |s.manifest.volumes| == |sources| && VolumesOf(s.manifest.volumes, sources, w.staging)
    && r.bytesTotal == VolumeBytes(s.manifest.volumes) + ExportedBytes(s.manifest.databases)
  }

  /** Nothing has gone unsaid: no source had a note, no database is at risk, the engine had no note and the
      snapshot does not fall short. */
  ghost predicate NothingToReport(s: Snapshot, readings: Readings, haveDocker: bool, containers: seq<Container>,
                                  verifyRestores: bool, w: World)
    requires |w.dumps| == |ToDump(readings, haveDocker)| && w.created.Made? && AllStaged(w.staging)
  {
    && NoNotes(w.staging, |w.staging|)
    && DatabasesSafe(readings, haveDocker, containers, w.dumps, verifyRestores, s.manifest.databases)
    && w.created.notes == []
    && !FallsShort(s.verification, VolumeBytes(s.manifest.volumes) + ExportedBytes(s.manifest.databases))
  }

  /** The claims of a green run over what was handed to the engine and what the analyzer found. */
  ghost predicate Green(s: Snapshot, readings: Readings, verifyRestores: bool, r: RunState) {
    && r.warnings == []
    && (verifyRestores ==> ExportsLoaded(s.manifest.databases))
    && (s.verification.bytesInSnapshot == 0 || s.verification.bytesInSnapshot >= r.bytesTotal)
    && Complete(readings, s.manifest.databases)
  }

  /** What a run that has got through its staging ends with. */
  ghost predicate Outcome(sources: seq<string>, readings: Readings, haveDocker: bool, containers: seq<Container>,
                          verifyRestores: bool, w: World, r: RunState, s: Snapshot, exports: seq<Export>)
    requires |w.staging| == |sources| && |w.dumps| == |ToDump(readings, haveDocker)| && Succeeds(w)
  {
    && Describes(s, sources, w, r) && s.verification == w.readBack.verification
    && EntriesOf(s.manifest.databases, exports, s.manifest.volumes, readings.second)
    && r.warnings == StagingWarnings(sources, w.staging, |sources|)
                     + DatabaseWarnings(readings, haveDocker, containers, w.dumps, verifyRestores, exports)
                     + EngineWarnings(w.created.notes)
                     + ShortfallWarnings(w.readBack.verification, r.bytesTotal)
  }

  /** A run succeeds exactly when everything it needs does, with a verified snapshot row that describes
      what was staged and exported; it is `completed` exactly when there is nothing at all to report, and
      otherwise says everything there is. Its row only moves forward. */
  method Execute(sources: seq<string>, readings: Readings, haveDocker: bool, containers: seq<Container>,
                 verifyRestores: bool, w: World)
    returns (r: RunState, snapshot: Option<Snapshot>, writes: seq<Row>, ghost exports: seq<Export>)
    requires |w.staging| == |sources| && |w.dumps| == |ToDump(readings, haveDocker)|
    ensures Concluded(writes, r.status)
    ensures Succeeded(r.status) <==> Succeeds(w)
    ensures r.status == Cancelled <==> IsCancelled(w)
    ensures snapshot.Some? <==> Succeeds(w)
    ensures snapshot.Some? ==>
              Outcome(sources, readings, haveDocker, containers, verifyRestores, w, r, snapshot.value, exports)
    ensures r.status == Completed <==>
              Succeeds(w) && NothingToReport(snapshot.value, readings, haveDocker, containers, verifyRestores, w)
    ensures r.status == Completed ==> Green(snapshot.value, readings, verifyRestores, r)
  {
    snapshot, exports := None, [];
    r, writes := RunState(Running, Preparing, false, 0, []), [];
    if !w.cleared {
      r, writes := Conclude(r, FailedRun, writes);
      return;
    }
    r := r.(phase := Staging);
    writes := Persist(r, writes);
    var volumes, stop;
    r, writes, volumes, stop := StageSources(sources, w.staging, r, writes);
    if stop.Some? {
      StopDecides(w.staging, |volumes|);
      r, writes := Conclude(r, stop.value, writes);
      return;
    }
    NothingStops(w.staging);
    r, snapshot, writes, exports :=
      CaptureAndRecord(sources, readings, haveDocker, containers, verifyRestores, w, r, writes, volumes);
  }

  lemma NothingUnsaid(sources: seq<string>, readings: Readings, haveDocker: bool, containers: seq<Container>,
                      verifyRestores: bool, w: World, r0: RunState, r: RunState, s: Snapshot, exports: seq<Export>)
    requires |w.staging| == |sources| && |w.dumps| == |ToDump(readings, haveDocker)| && Succeeds(w)
    requires Outcome(sources, readings, haveDocker, containers, verifyRestores, w, r, s, exports)
    requires r0.warnings == StagingWarnings(sources, w.staging, |sources|)
                            + DatabaseWarnings(readings, haveDocker, containers, w.dumps, verifyRestores, exports)
    requires StagingWarnings(sources, w.staging, |sources|) == [] <==> NoNotes(w.staging, |w.staging|)
    requires DatabaseWarnings(readings, haveDocker, containers, w.dumps, verifyRestores, exports) == [] <==>
             DatabasesSafe(readings, haveDocker, containers, w.dumps, verifyRestores, s.manifest.databases)
    requires DatabasesSafe(readings, haveDocker, containers, w.dumps, verifyRestores, s.manifest.databases) ==>
               Complete(readings, s.manifest.databases) && (verifyRestores ==> ExportsLoaded(s.manifest.databases))
    requires r.status == Completed <==>
             r0.warnings == [] && w.created.notes == [] && !FallsShort(w.readBack.verification, r.bytesTotal)
    ensures r.status == Completed <==>
            NothingToReport(s, readings, haveDocker, containers, verifyRestores, w)
    ensures r.status == Completed ==> Green(s, readings, verifyRestores, r)
  {
  }

  /** Databases, snapshot and verification of a run whose sources are all staged. */
  method CaptureAndRecord(sources: seq<string>, readings: Readings, haveDocker: bool, containers: seq<Container>,
                          verifyRestores: bool, w: World, r0: RunState, writes0: seq<Row>, volumes: seq<Volume>)
    returns (r: RunState, snapshot: Option<Snapshot>, writes: seq<Row>, ghost exports: seq<Export>)
    requires |w.staging| == |sources| && |w.dumps| == |ToDump(readings, haveDocker)|
    requires w.cleared && AllStaged(w.staging)
    requires r0.status == Running && !r0.ended && r0.phase == Staging && InProgress(writes0, Staging)
    requires |volumes| == |sources| && VolumesOf(volumes, sources, w.staging) && r0.bytesTotal == VolumeBytes(volumes)
    requires r0.warnings == StagingWarnings(sources, w.staging, |sources|)
    ensures Concluded(writes, r.status)
    ensures Succeeded(r.status) <==> Succeeds(w)
    ensures r.status == Cancelled <==> EngineCancelled(w)
    ensures snapshot.Some? <==> Succeeds(w)
    ensures snapshot.Some? ==>
              Outcome(sources, readings, haveDocker, containers, verifyRestores, w, r, snapshot.value, exports)
    ensures r.status == Completed <==>
              Succeeds(w) && NothingToReport(snapshot.value, readings, haveDocker, containers, verifyRestores, w)
    ensures r.status == Completed ==> Green(snapshot.value, readings, verifyRestores, r)
  {
    r, writes := r0, writes0;
    var entries, bytes, warnings;
    ghost var from;
    entries, bytes, warnings, exports, from :=
      CaptureDatabases(readings, haveDocker, containers, w.dumps, verifyRestores, volumes, r.bytesTotal);
    SafeIsComplete(readings, haveDocker, containers, w.dumps, verifyRestores, volumes, exports, from, entries);
    AsManyWarningsAsNotes(sources, w.staging, |sources|);
    r := r.(bytesTotal := bytes, warnings := r.warnings + warnings);
    writes := Persist(r, writes);
    ghost var before := r;
    r, snapshot, writes := SnapshotAndVerify(r, writes, Manifest(volumes, entries), w);
    if snapshot.Some? {
      NothingUnsaid(sources, readings, haveDocker, containers, verifyRestores, w, before, r, snapshot.value, exports);
    }
  }

  /** When the databases are safe, what the manifest says about them is complete. */
  lemma SafeIsComplete(readings: Readings, haveDocker: bool, containers: seq<Container>, outcomes: seq<DumpOutcome>,
                       verifyRestores: bool, volumes: seq<Volume>, exports: seq<Export>, from: seq<nat>,
                       entries: seq<DatabaseEntry>)
    requires |outcomes| == |ToDump(readings, haveDocker)|
    requires var findings := ToDump(readings, haveDocker);
             ExportsOf(exports, from, findings, containers, outcomes, verifyRestores, |findings|)
    requires EntriesOf(entries, exports, volumes, readings.second)
    ensures DatabasesSafe(readings, haveDocker, containers, outcomes, verifyRestores, entries) ==>
              Complete(readings, entries) && (verifyRestores ==> ExportsLoaded(entries))
  {
    if DatabasesSafe(readings, haveDocker, containers, outcomes, verifyRestores, entries) {
      var findings := ToDump(readings, haveDocker);
      forall f ensures Key(f) in Keys(exports) <==> HasExport(entries, f) {
        KeysAreExports(f, findings, exports, from, volumes, readings.second, entries);
      }
      EntriesLoaded(exports, volumes, readings.second, entries);
      if readings.third.Some? {
        CaptureIsComplete(readings, findings, exports, from, volumes, entries);
      }
    }
  }

  /** Creating, verifying and recording the snapshot. */
  method SnapshotAndVerify(r0: RunState, writes0: seq<Row>, manifest: Manifest, w: World)
    returns (r: RunState, snapshot: Option<Snapshot>, writes: seq<Row>)
    requires r0.status == Running && !r0.ended && r0.phase == Staging && InProgress(writes0, Staging)
    ensures Concluded(writes, r.status)
    ensures Succeeded(r.status) <==> EngineSucceeds(w)
    ensures r.status == Cancelled <==> EngineCancelled(w)
    ensures r.bytesTotal == r0.bytesTotal
    ensures snapshot == if EngineSucceeds(w) then Some(Snapshot(manifest, w.readBack.verification)) else None
    ensures EngineSucceeds(w) ==>
              r.warnings == r0.warnings + EngineWarnings(w.created.notes)
                            + ShortfallWarnings(w.readBack.verification, r0.bytesTotal)
    ensures r.status == Completed <==>
              EngineSucceeds(w) && r0.warnings == [] && w.created.notes == []
              && !FallsShort(w.readBack.verification, r0.bytesTotal)
  {
    snapshot, writes := None, writes0;
    r := r0.(phase := Snapshotting);
    writes := Persist(r, writes);
    if w.created.NotMade? {
      r, writes := Conclude(r, if w.created.cancelled then Cancelled else FailedRun, writes);
      return;
    }
    var notes := w.created.notes;
    r := r.(warnings := r.warnings + seq(|notes|, i requires 0 <= i < |notes| => FromEngine(notes[i])));
    assert r.warnings == r0.warnings + EngineWarnings(notes);
    r := r.(phase := Verifying);
    writes := Persist(r, writes);
    if w.readBack.Unread? {
      r, writes := Conclude(r, if w.readBack.cancelled then Cancelled else FailedRun, writes);
      return;
    }
    var verification := w.readBack.verification;
    if !verification.ok {
      r, writes := Conclude(r, FailedRun, writes);
      return;
    }
    if 0 < verification.bytesInSnapshot < r.bytesTotal {
      r := r.(warnings := r.warnings + [Shortfall(verification.bytesInSnapshot, r.bytesTotal)]);
    }
    if !w.recorded {
      r, writes := Conclude(r, FailedRun, writes);
      return;
    }
    r, writes := Conclude(r, if |r.warnings| > 0 then CompletedWithWarnings else Completed, writes);
    snapshot := Some(Snapshot(manifest, verification));
  }

  // ----- the run within the protocol -----

  /** The protocol's actions for progress writes; `reached` says which of them get to the database. */
  function ProgressActions(id: string, writes: seq<Row>, reached: seq<bool>): seq<Action>
    requires |reached| == |writes|
  {
    seq(|writes|, i requires 0 <= i < |writes| => Progress(id, writes[i].phase, reached[i]))
  }

  /** The protocol's actions for all a run does: progress, the snapshot row of a success, the outcome. */
  function RunActions(id: string, writes: seq<Row>, reached: seq<bool>): seq<Action>
    requires |reached| == |writes| && writes != []
  {
    var n := |writes| - 1;
    ProgressActions(id, writes[..n], reached[..n])
    + (if Succeeded(writes[n].status) then [RecordSnapshot(id)] else [])
    + [Finish(id, writes[n].status, reached[n])]
  }

  function Continue(s: State, actions: seq<Action>): Option<State> {
    if actions == [] then Some(s)
    else match Continue(s, actions[..|actions| - 1])
         case None => None
         case Some(t) => Apply(t, actions[|actions| - 1])
  }

  /** Anything but a crash and the steps of the run's own goroutine. */
  predicate Foreign(id: string, a: Action) {
    match a
    case Cancel(_) => true
    case Crash => false
    case Restart => false
    case _ => a.id != id
  }

  /** What happens meanwhile: of the given actions those that are foreign and possible when they come. */
  function Meanwhile(s: State, id: string, others: seq<Action>): State {
    if others == [] then s
    else
      var t, a := Meanwhile(s, id, others[..|others| - 1]), others[|others| - 1];
      if Foreign(id, a) && Apply(t, a).Some? then Apply(t, a).value else t
  }

  /** Once the run is cancelled its progress no longer reaches the database. */
  function Lossy(s: State, id: string, a: Action): Action {
    match a
    case Progress(i, phase, _) => if id in s.cancelled then Progress(i, phase, false) else a
    case _ => a
  }

  /** The run's own steps, each after whatever `others` do before it; None if one is not possible. */
  function Play(s: State, id: string, own: seq<Action>, others: seq<seq<Action>>): Option<State>
    requires |others| == |own|
  {
    if own == [] then Some(s)
    else
      var n := |own| - 1;
      match Play(s, id, own[..n], others[..n])
      case None => None
      case Some(t) => var u := Meanwhile(t, id, others[n]); Apply(u, Lossy(u, id, own[n]))
  }

  /** Executing in a phase. */
  predicate Underway(s: State, id: string, phase: Phase) {
    s.serving && IsExecuting(s, id) && s.threads[id].point.run.phase == phase
  }

  lemma ForeignKeepsUnderway(s: State, id: string, phase: Phase, a: Action)
    requires Underway(s, id, phase) && Foreign(id, a) && Apply(s, a).Some?
    ensures Underway(Apply(s, a).value, id, phase)
    ensures id in s.snapshots ==> id in Apply(s, a).value.snapshots
  {
  }

  lemma {:induction false} MeanwhileKeepsUnderway(s: State, id: string, phase: Phase, others: seq<Action>)
    requires Underway(s, id, phase)
    ensures Underway(Meanwhile(s, id, others), id, phase)
    ensures id in s.snapshots ==> id in Meanwhile(s, id, others).snapshots
  {
    if others != [] {
      var t, a := Meanwhile(s, id, others[..|others| - 1]), others[|others| - 1];
      MeanwhileKeepsUnderway(s, id, phase, others[..|others| - 1]);
      if Foreign(id, a) && Apply(t, a).Some? {
        ForeignKeepsUnderway(t, id, phase, a);
      }
    }
  }

  lemma ProgressStep(s: State, id: string, from: Phase, phase: Phase, ok: bool)
    requires Underway(s, id, from) && Rank(from) <= Rank(phase) < Rank(Finished)
    ensures var t := Apply(s, Lossy(s, id, Progress(id, phase, ok))); t.Some? && Underway(t.value, id, phase)
  {
  }

  function LastPhase(writes: seq<Row>): Phase {
    if writes == [] then Preparing else writes[|writes| - 1].phase
  }

  lemma PlaySnoc(s: State, id: string, own: seq<Action>, others: seq<seq<Action>>, a: Action, before: seq<Action>)
    requires |others| == |own| && Play(s, id, own, others).Some?
    ensures var u := Meanwhile(Play(s, id, own, others).value, id, before);
            Play(s, id, own + [a], others + [before]) == Apply(u, Lossy(u, id, a))
  {
    assert (own + [a])[..|own|] == own && (others + [before])[..|own|] == others;
  }

  lemma OneMoreFollows(s: State, id: string, own: seq<Action>, others: seq<seq<Action>>, from: Phase, phase: Phase,
                       ok: bool, before: seq<Action>)
    requires |others| == |own| && Play(s, id, own, others).Some? && Underway(Play(s, id, own, others).value, id, from)
    requires Rank(from) <= Rank(phase) < Rank(Finished)
    ensures var t := Play(s, id, own + [Progress(id, phase, ok)], others + [before]);
            t.Some? && Underway(t.value, id, phase)
  {
    var t := Play(s, id, own, others).value;
    PlaySnoc(s, id, own, others, Progress(id, phase, ok), before);
    MeanwhileKeepsUnderway(t, id, from, before);
    ProgressStep(Meanwhile(t, id, before), id, from, phase, ok);
  }

  lemma EarlierInProgress(writes: seq<Row>, phase: Phase)
    requires InProgress(writes, phase) && writes != []
    ensures InProgress(writes[..|writes| - 1], phase)
    ensures Rank(LastPhase(writes[..|writes| - 1])) <= Rank(LastPhase(writes)) <= Rank(phase)
  {
  }

  lemma ProgressSplit(id: string, writes: seq<Row>, reached: seq<bool>)
    requires |reached| == |writes| && writes != []
    ensures var n := |writes| - 1;
            ProgressActions(id, writes, reached)
            == ProgressActions(id, writes[..n], reached[..n]) + [Progress(id, LastPhase(writes), reached[n])]
  {
  }

  lemma {:induction false} ProgressFollowsProtocol(s: State, id: string, writes: seq<Row>, reached: seq<bool>,
                                                     others: seq<seq<Action>>)
    requires Underway(s, id, Preparing) && |others| == |reached| == |writes| && InProgress(writes, Verifying)
    ensures var t := Play(s, id, ProgressActions(id, writes, reached), others);
            t.Some? && Underway(t.value, id, LastPhase(writes))
  {
    if writes == [] {
    } else {
      var n := |writes| - 1;
      EarlierInProgress(writes, Verifying);
      ProgressSplit(id, writes, reached);
      LastOne(others, n);
      ProgressFollowsProtocol(s, id, writes[..n], reached[..n], others[..n]);
      OneMoreFollows(s, id, ProgressActions(id, writes[..n], reached[..n]), others[..n], LastPhase(writes[..n]),
                     LastPhase(writes), reached[n], others[n]);
    }
  }

  ghost predicate Left(s: State, id: string, status: Status, recorded: bool) {
    && At(s, id, Ending)
    && (Succeeded(status) ==> id in s.snapshots)
    && (recorded ==> id in s.table && s.table[id] == Row(status, Finished, true))
  }

  lemma OutcomeStep(s: State, id: string, phase: Phase, status: Status, ok: bool)
    requires Underway(s, id, phase) && Done(status) && (Succeeded(status) ==> id in s.snapshots)
    ensures var t := Apply(s, Lossy(s, id, Finish(id, status, ok))); t.Some? && Left(t.value, id, status, ok)
  {
  }

  lemma SnapshotStep(s: State, id: string)
    requires Underway(s, id, Verifying)
    ensures var t := Apply(s, Lossy(s, id, RecordSnapshot(id)));
            t.Some? && Underway(t.value, id, Verifying) && id in t.value.snapshots
  {
  }

  lemma FinishFollows(s: State, id: string, own: seq<Action>, others: seq<seq<Action>>, phase: Phase, status: Status,
                      ok: bool, before: seq<Action>)
    requires |others| == |own| && Play(s, id, own, others).Some? && Underway(Play(s, id, own, others).value, id, phase)
    requires Done(status) && (Succeeded(status) ==> id in Play(s, id, own, others).value.snapshots)
    ensures var t := Play(s, id, own + [Finish(id, status, ok)], others + [before]);
            t.Some? && Left(t.value, id, status, ok)
  {
    var t := Play(s, id, own, others).value;
    PlaySnoc(s, id, own, others, Finish(id, status, ok), before);
    MeanwhileKeepsUnderway(t, id, phase, before);
    OutcomeStep(Meanwhile(t, id, before), id, phase, status, ok);
  }

  lemma SnapshotFollows(s: State, id: string, own: seq<Action>, others: seq<seq<Action>>, before: seq<Action>)
    requires |others| == |own| && Play(s, id, own, others).Some?
    requires Underway(Play(s, id, own, others).value, id, Verifying)
    ensures var t := Play(s, id, own + [RecordSnapshot(id)], others + [before]);
            t.Some? && Underway(t.value, id, Verifying) && id in t.value.snapshots
  {
    var t := Play(s, id, own, others).value;
    PlaySnoc(s, id, own, others, RecordSnapshot(id), before);
    MeanwhileKeepsUnderway(t, id, Verifying, before);
    SnapshotStep(Meanwhile(t, id, before), id);
  }

  lemma RunFails(s: State, id: string, progress: seq<Action>, others: seq<seq<Action>>, phase: Phase, status: Status,
                 ok: bool)
    requires var n := |progress|;
             |others| == n + 1 && Play(s, id, progress, others[..n]).Some?
             && Underway(Play(s, id, progress, others[..n]).value, id, phase)
    requires Done(status) && !Succeeded(status)
    ensures var t := Play(s, id, progress + [Finish(id, status, ok)], others); t.Some? && Left(t.value, id, status, ok)
  {
    var n := |progress|;
    LastOne(others, n);
    FinishFollows(s, id, progress, others[..n], phase, status, ok, others[n]);
  }

  lemma LastOne<T>(s: seq<T>, n: nat)
    requires |s| == n + 1
    ensures s[..n] + [s[n]] == s
  {
  }

  lemma SuccessFollows(s: State, id: string, progress: seq<Action>, others: seq<seq<Action>>, status: Status, ok: bool,
                       first: seq<Action>, second: seq<Action>)
    requires |others| == |progress| && Play(s, id, progress, others).Some?
             && Underway(Play(s, id, progress, others).value, id, Verifying)
    requires Succeeded(status)
    ensures var own := progress + [RecordSnapshot(id)] + [Finish(id, status, ok)];
            var t := Play(s, id, own, others + [first] + [second]);
            t.Some? && Left(t.value, id, status, ok)
  {
    SnapshotFollows(s, id, progress, others, first);
    FinishFollows(s, id, progress + [RecordSnapshot(id)], others + [first], Verifying, status, ok, second);
  }

  lemma RunSucceeds(s: State, id: string, progress: seq<Action>, others: seq<seq<Action>>, status: Status, ok: bool)
    requires var n := |progress|;
             |others| == n + 2 && Play(s, id, progress, others[..n]).Some?
             && Underway(Play(s, id, progress, others[..n]).value, id, Verifying)
    requires Succeeded(status)
    ensures var t := Play(s, id, progress + [RecordSnapshot(id)] + [Finish(id, status, ok)], others);
            t.Some? && Left(t.value, id, status, ok)
  {
    var n := |progress|;
    LastTwo(others, n);
    SuccessFollows(s, id, progress, others[..n], status, ok, others[n], others[n + 1]);
  }

  lemma LastTwo<T>(s: seq<T>, n: nat)
    requires |s| == n + 2
    ensures s[..n] + [s[n]] + [s[n + 1]] == s
  {
  }

  /** Whatever a run writes, with any of its writes lost, and whatever happens between its steps, its
      cancellation included: each step is one the protocol allows, and the run leaves with its outcome. */
  lemma RunFollowsProtocol(s: State, id: string, writes: seq<Row>, status: Status, reached: seq<bool>,
                           others: seq<seq<Action>>)
    requires Underway(s, id, Preparing) && |reached| == |writes| && Concluded(writes, status)
    requires |others| == |RunActions(id, writes, reached)|
    ensures var t := Play(s, id, RunActions(id, writes, reached), others);
            t.Some? && Left(t.value, id, status, reached[|writes| - 1])
  {
    var n := |writes| - 1;
    var progress := ProgressActions(id, writes[..n], reached[..n]);
    ProgressFollowsProtocol(s, id, writes[..n], reached[..n], others[..n]);
    if Succeeded(status) {
      assert LastPhase(writes[..n]) == Verifying;
      RunSucceeds(s, id, progress, others, status, reached[n]);
    } else {
      RunFails(s, id, progress, others, LastPhase(writes[..n]), status, reached[n]);
      assert RunActions(id, writes, reached) == progress + [] + [Finish(id, status, reached[n])];
      assert progress + [] == progress;
    }
  }

  lemma ContinueSnoc(s: State, path: seq<Action>, a: Action)
    requires Continue(s, path).Some?
    ensures Continue(s, path + [a]) == Apply(Continue(s, path).value, a)
  {
    assert (path + [a])[..|path|] == path;
  }

  lemma {:induction false} MeanwhileIsAPath(s: State, id: string, others: seq<Action>) returns (path: seq<Action>)
    ensures Continue(s, path) == Some(Meanwhile(s, id, others))
  {
    path := [];
    if others != [] {
      var t, a := Meanwhile(s, id, others[..|others| - 1]), others[|others| - 1];
      path := MeanwhileIsAPath(s, id, others[..|others| - 1]);
      if Foreign(id, a) && Apply(t, a).Some? {
        ContinueSnoc(s, path, a);
        path := path + [a];
      }
    }
  }

  lemma {:induction false} ContinueThrough(s: State, first: seq<Action>, second: seq<Action>)
    requires Continue(s, first).Some?
    ensures Continue(s, first + second) == Continue(Continue(s, first).value, second)
  {
    if second == [] {
      assert first + second == first;
    } else {
      ContinueThrough(s, first, second[..|second| - 1]);
      assert (first + second)[..|first + second| - 1] == first + second[..|second| - 1];
    }
  }

  /** The run and everything around it is one sequence of the protocol's actions, so that all that the
      protocol keeps holds of it. */
  lemma {:induction false} PlayIsAPath(s: State, id: string, own: seq<Action>, others: seq<seq<Action>>)
    returns (path: seq<Action>)
    requires |others| == |own| && Play(s, id, own, others).Some?
    ensures Continue(s, path) == Play(s, id, own, others)
  {
    path := [];
    if own != [] {
      var n := |own| - 1;
      path := PlayIsAPath(s, id, own[..n], others[..n]);
      var t := Play(s, id, own[..n], others[..n]).value;
      var around := MeanwhileIsAPath(t, id, others[n]);
      ContinueThrough(s, path, around);
      var u := Meanwhile(t, id, others[n]);
      ContinueSnoc(s, path + around, Lossy(u, id, own[n]));
      path := path + around + [Lossy(u, id, own[n])];
    }
  }

  /** So a reachable state stays reachable while a run goes through. */
  lemma {:induction false} ContinueFromRun(actions: seq<Action>, path: seq<Action>)
    requires Run(actions).Some? && Continue(Run(actions).value, path).Some?
    ensures Run(actions + path) == Continue(Run(actions).value, path)
  {
    if path == [] {
      assert actions + path == actions;
    } else {
      ContinueFromRun(actions, path[..|path| - 1]);
      assert (actions + path)[..|actions + path| - 1] == actions + path[..|path| - 1];
    }
  }

  /** In particular the state it leaves is one of those the protocol's invariant describes. */
  lemma PlayStaysReachable(actions: seq<Action>, id: string, own: seq<Action>, others: seq<seq<Action>>)
    requires Run(actions).Some? && |others| == |own| && Play(Run(actions).value, id, own, others).Some?
    ensures Invariant(Play(Run(actions).value, id, own, others).value)
  {
    var path := PlayIsAPath(Run(actions).value, id, own, others);
    ContinueFromRun(actions, path);
    InvariantHolds(actions + path);
  }

  // ----- a run that is cut off -----

  lemma {:induction false} MeanwhileServes(s: State, id: string, others: seq<Action>)
    ensures Meanwhile(s, id, others).serving == s.serving
  {
    if others != [] {
      MeanwhileServes(s, id, others[..|others| - 1]);
    }
  }

  lemma {:induction false} PlayServes(s: State, id: string, own: seq<Action>, others: seq<seq<Action>>)
    requires |others| == |own| && Play(s, id, own, others).Some? && s.serving
    requires forall a | a in own :: a.Progress? || a.RecordSnapshot? || a.Finish?
    ensures Play(s, id, own, others).value.serving
  {
    if own != [] {
      var n := |own| - 1;
      assert own[n] in own;
      PlayServes(s, id, own[..n], others[..n]);
      MeanwhileServes(Play(s, id, own[..n], others[..n]).value, id, others[n]);
    }
  }

  lemma {:induction false} PlayedSoFar(s: State, id: string, own: seq<Action>, others: seq<seq<Action>>, n: nat)
    requires |others| == |own| && n <= |own| && Play(s, id, own, others).Some?
    ensures Play(s, id, own[..n], others[..n]).Some?
  {
    if n < |own| {
      var m := |own| - 1;
      PlayedSoFar(s, id, own[..m], others[..m], n);
      assert own[..m][..n] == own[..n] && others[..m][..n] == others[..n];
    } else {
      assert own[..n] == own && others[..n] == others;
    }
  }

  /** A crash may come before any of a run's own steps. After the restart its row, if it has one, is
      done: as an outcome it had already written, or as interrupted. */
  lemma CutOffRunIsClosed(actions: seq<Action>, id: string, own: seq<Action>, others: seq<seq<Action>>, n: nat,
                          more: seq<Action>)
    requires Run(actions).Some? && Run(actions).value.serving && |others| == |own| && n <= |own|
    requires Play(Run(actions).value, id, own, others).Some?
    requires forall a | a in own :: a.Progress? || a.RecordSnapshot? || a.Finish?
    ensures var t := Play(Run(actions).value, id, own[..n], others[..n]);
            && t.Some?
            && var u := Meanwhile(t.value, id, more);
               var v := Continue(u, [Crash, Restart]);
               && v.Some? && Invariant(v.value) && v.value.threads == map[]
               && v.value.table.Keys == u.table.Keys
               && (id in u.table ==>
                     v.value.table[id] == if Done(u.table[id].status) then u.table[id] else INTERRUPTED_ROW)
  {
    var s := Run(actions).value;
    PlayedSoFar(s, id, own, others, n);
    PlayServes(s, id, own[..n], others[..n]);
    var t := Play(s, id, own[..n], others[..n]).value;
    MeanwhileServes(t, id, more);
    var before := PlayIsAPath(s, id, own[..n], others[..n]);
    ContinueFromRun(actions, before);
    var around := MeanwhileIsAPath(t, id, more);
    ContinueFromRun(actions + before, around);
    InvariantHolds(actions + before + around);
    CrashAndRestart(Meanwhile(t, id, more), id);
  }

  lemma CrashAndRestart(u: State, id: string)
    requires u.serving && Invariant(u)
    ensures var v := Continue(u, [Crash, Restart]);
            && v.Some? && Invariant(v.value) && v.value.threads == map[]
            && v.value.table.Keys == u.table.Keys
            && (id in u.table ==>
                  v.value.table[id] == if Done(u.table[id].status) then u.table[id] else INTERRUPTED_ROW)
  {
    var stopped := Apply(u, Crash).value;
    assert [Crash, Restart][..1] == [Crash] && [Crash][..0] == [];
    assert Continue(u, [Crash]) == Some(stopped);
    assert Continue(u, [Crash, Restart]) == Apply(stopped, Restart);
    ApplyKeepsInvariant(u, Crash);
    ApplyKeepsInvariant(stopped, Restart);
  }
}
