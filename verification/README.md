# Back-Orbit: verified models

Back-Orbit backs up Docker Compose projects into restic repositories. This project models, in Dafny,
the parts of its server whose correctness is not visible from any single function, and proves what
they promise.

| module | what it models |
|---|---|
| `RoleAssignment`, `BlueprintCatalog` | filling the image roles of a protection template by augmenting paths; ranking the templates a project matches |
| `SecretStore`, `AssociatedData`, `IdealCrypto` | the encrypted secret store with its two layers of keys, and its refinement to a plain map behind a passphrase |
| `BackupProtocol`, `BackupRun`, `RestoreProtocol`, `Reservations` | backup and restore runs: reservations, cancellation, persisted phases, lost writes, crash and restart; and what a run that ends `completed` claims |
| `RateLimiter` | the login rate limiter and its sliding-window guarantee |
| `DockerStream`, `ImageRef`, `Staging` | the two decoders of Docker's stream framing, image references, and the containment of extracted paths |
| `ProjectAnalyzer` | the evidence behind a blueprint's fingerprint and its independence of map order |
| `RepositoryProtocol` | creating and deleting repositories across two stores without a shared transaction |
| `EventChannel`, `EventBroker` | the in-process event hub: one subscriber's channel, and overlapping publishes, subscriptions and cancellations |
| `Ordering`, `Sequences`, `Sets`, `Text`, `Wrappers` | shared vocabulary |

`dafny verify dfyconfig.toml` checks everything.

## How to read it

Code that updates objects in place is a class or a method with loops, proved against a specification
function of its inputs or its old state; what the code promises is then proved about that function.
`RoleAssignment.Augment` and `Take` are the recursive closure over three arrays. `SecretStore.Store`
carries a ghost field `view`, the plain map it stands for, and each method moves `view` as the ideal
store would. Runs that interleave are state machines over their steps (`Apply`, `Run`): every lemma
over `seq<Action>` quantifies over all interleavings, failures and crashes.

What lies outside a modelled call is given to it as arguments: the `World` of `BackupRun.Execute` holds
what staging, exports, engine and database come to, and the booleans of `RepositoryService` say which of
its steps succeed. Contracts hold for all of them. `faulty` in the methods of `Store` means that the
database may fail at any of its accesses; without it the ideal response is the only one. `writes` in
`BackupRun` are the rows a run hands to the database, whether or not they arrive; `RunFollowsProtocol`
makes them steps of `BackupProtocol`, with anything else but a crash happening in between, and
`CutOffRunIsClosed` adds the crash. `PerformAll` runs any sequence of operations on a new `Store`.

The event hub's `Publish` holds its lock shared, so publishes overlap. Each subscriber is offered every
event (`SubscriberIsOfferedAll`), but a common order is promised only for publishes that do not overlap
(`SeparatePublishesKeepOrder`, `OverlapCanSwapOrder`).

## Where the code and its documentation differ

- The rate limiter's comments promise exponential backoff "up to maxBackoff". As long as each recorded
  failure follows an attempt that was let through, a block lasts at least one window, so the next
  failure finds the record expired or is its last: `BlocksStayShort` proves that the shift is never
  taken further than one doubling. What the code does guarantee, and never states, is
  `SlidingWindowBound`; `BoundIsReached` shows that it cannot be improved for any limits. It supposes
  `0 <= maxAttempts`, `0 < window <= maxBackoff` and each failure paired with its own permission.
  Attempts that are all checked before any of them fails do reach every backoff (`AnyBackoffIsReached`),
  and there the 64-bit shift can wrap: `BackoffGrowsUntilItWraps` says exactly when a later block is
  shorter than an earlier one, and `WrapShortensBlock` gives limits for which it is.
- The two decoders of the same framing treat damage differently. On well-formed input they agree
  (`DecodersUndoFraming`), and the one's output is the other's two outputs merged if and only if no error
  frame exceeds 16 KiB (`DecodersAccountForSameBytes`); a bad header late in a stream makes the one
  for helper containers drop everything it had already decoded (`BadHeaderDropsEarlierOutput`).
- The comment on `Match` says that matches are ordered by descending score. The code orders by the number of
  matched components first, as the comment inside it explains, and `Match` states that order.
- `safeJoin` at the file system root accepts nothing but the root itself (`SafeJoinAtFilesystemRoot`).
- The comments on repository creation say that a failed Create leaves no unreferenced password behind.
  Its roll-back may fail (`LostRollBackOrphansPassword`), as may the last step of a Delete, and a crash
  can cut either off. A clean-up is lost by exactly those events (`OnlyFailuresLosePasswords`,
  `EveryLossOrphansPassword`), and with nothing in progress the passwords are those of the rows if and
  only if none was lost (`NoOrphanedPasswords`).
- Evidence under one name can be merged in either order if and only if the two pieces do not compete for
  the image and their mounts read the same both ways (`MergeOfSameNameCommutes`, with an instance where
  it fails in `MergeOfSameNameDependsOnOrder`). A Compose document has distinct names, so walking it in any order
  is safe (`WalkIsOrderFree`).

## Model

| member | source | states |
|---|---|---|
| `RoleAssignment.Assign` | internal/protectionblueprints/match.go:138-172 | the result gives distinct fitting images; it is complete if and only if some assignment fills every role; no assignment fills more roles; each role left empty competes for one image too few with filled roles placed before it |
| `RoleAssignment.Augment` | internal/protectionblueprints/match.go:150-163 | success fills the role, keeps every filled role filled and both arrays inverse to each other; failure changes neither array and has explored a closed set of roles; recursion ends because unvisited images run out |
| `RoleAssignment.Take` | internal/protectionblueprints/match.go:155-160 | an image is taken if it is free or its holder can move; the entry that is stale while the holder moves is overwritten before anyone reads it |
| `RoleAssignment.FailedSearchIsHallViolator` | internal/protectionblueprints/match.go:150-163 | the images visited by a failed search are all the candidates of the roles it met, and one fewer than those roles |
| `RoleAssignment.HallViolatorBlocks` | internal/protectionblueprints/match.go:135-138 | no assignment fills all roles of a Hall violator |
| `RoleAssignment.ClosedIsMaximum` | internal/protectionblueprints/match.go:148-171 | when the empty roles lie in a closed set, no assignment fills more roles |
| `RoleAssignment.TriedAfterSuccess` | internal/protectionblueprints/match.go:165-170 | a later success fills its role and leaves every role that failed impossible |
| `RoleAssignment.TriedAfterFailure` | internal/protectionblueprints/match.go:165-170 | a failure adds its role to the closed set of impossible roles |
| `RoleAssignment.MaximumDecides` | internal/protectionblueprints/match.go:164-171 | an assignment of maximum size is full exactly when some assignment is |
| `BlueprintCatalog.Match` | internal/protectionblueprints/match.go:36-65 | exactly the templates whose roles and technologies the evidence fills are reported, each with what it reports; more matched components come first, then the higher score, then the smaller id |
| `BlueprintCatalog.MatchIsOrderIndependent` | internal/protectionblueprints/match.go:36-65 | permuting images, technologies and templates with distinct ids leaves the ranking unchanged, whatever sort produced it |
| `BlueprintCatalog.FillableIgnoresOrder` | internal/protectionblueprints/match.go:75-92 | whether the required roles can be filled does not depend on the order of the images |
| `BlueprintCatalog.MatchTemplate` | internal/protectionblueprints/match.go:67-131 | a template matches if and only if its roles can be filled together and its technologies are evidenced; each component is matched or missing as the evidence says, and the score is the share present, rounded down |
| `BlueprintCatalog.OutcomeReports` | internal/protectionblueprints/match.go:94-131 | every required component is matched; each optional group is matched if and only if some image fits it, each optional technology if and only if it is evidenced, and otherwise missing; no component is lost or counted twice |
| `BlueprintCatalog.FittingAreReported` | internal/protectionblueprints/match.go:36-46 | the ranking holds a report for each template that fits and nothing else |
| `BlueprintCatalog.NormalMeans` | internal/protectionblueprints/match.go:183-192 | the white space around a value goes and what is left is put in lower case, character by character |
| `BlueprintCatalog.MatchRequired` | internal/protectionblueprints/match.go:80-98 | eligibility is exact, and an eligible template reports every required component |
| `BlueprintCatalog.MatchOptionalImages` | internal/protectionblueprints/match.go:104-113 | each optional group is counted once, under matched or missing as evidenced |
| `BlueprintCatalog.MatchOptionalTechnologies` | internal/protectionblueprints/match.go:114-123 | each optional technology is counted once, under matched or missing as evidenced |
| `BlueprintCatalog.ScoreMeansComplete` | internal/protectionblueprints/match.go:122-130 | 0 <= score <= 100, 100 exactly when nothing is missing, and no component is lost or counted twice |
| `BlueprintCatalog.AnyImageMatches` | internal/protectionblueprints/match.go:174-181 | true if and only if some image matches some pattern |
| `BlueprintCatalog.Normalize` | internal/protectionblueprints/match.go:183-192 | exactly the non-empty trimmed lower-case values, in order |
| `BlueprintCatalog.Contains` | internal/protectionblueprints/match.go:194-202 | true if and only if the normalised value is listed |
| `SecretStore.Store.Initialize` | internal/secrets/store.go:124-180 | refines the ideal store: a passphrase is set once, needs its minimum length, and the store comes up unlocked; the new wrap opens under that passphrase alone |
| `SecretStore.Store.Unlock` | internal/secrets/store.go:185-215 | refines the ideal store: exactly the passphrase in force unlocks, and the key in memory is the one it unwraps; a refused passphrase unwraps nothing |
| `SecretStore.Store.Lock` | internal/secrets/store.go:219-229 | refines the ideal store: only the lock bit changes |
| `SecretStore.Store.Put` | internal/secrets/store.go:232-257 | refines the ideal store: one entry per kind and name, replaced under its first id |
| `SecretStore.Store.Write` | internal/secrets/store.go:530-562 | the row is sealed under the key in memory for its own id, kind and name, or nothing changes |
| `SecretStore.Store.Get` | internal/secrets/store.go:265-294 | refines the ideal store: an unlocked store returns the entry's value; in any table whose ciphertexts are accounted for, tampered with or not, a value returned is among those the store's Puts stored under that kind and name |
| `SecretStore.Store.Delete` | internal/secrets/store.go:298-304 | refines the ideal store: the entry is gone, locked or not |
| `SecretStore.Store.ChangeMasterPassphrase` | internal/secrets/store.go:338-391 | refines the ideal store; on success the new wrap opens under the next passphrase alone, to the key that the current one unwrapped before, and otherwise the record stays |
| `SecretStore.Store.WrapUnder` | internal/secrets/store.go:368-391 | the data key is sealed under the next passphrase and no other, or nothing changes |
| `SecretStore.Store.RotateDataKey` | internal/secrets/store.go:396-514 | all or nothing: on any failure table, wrap and memory are unchanged; on success every row opens under a new key to its old text with the next version, and the same passphrase unwraps the new key |
| `SecretStore.Store.Rotate` | internal/secrets/store.go:414-514 | the same, once the passphrase has unwrapped the old key |
| `SecretStore.Store.Reencrypt` | internal/secrets/store.go:440-473 | succeeds if and only if every row opens under the old key; then each row has an update sealed for it under the new key |
| `SecretStore.Store.StageUpdates` | internal/secrets/store.go:475-484 | either a database failure, or every row is resealed and no row is lost |
| `SecretStore.Store.CommitRotation` | internal/secrets/store.go:486-514 | the key record and the rows change together with the key in memory, or none of them does |
| `SecretStore.RotationKeepsRepresentation` | internal/secrets/store.go:396-514 | resealing all rows with the record leaves the store standing for the same map |
| `SecretStore.OnlyThePassphraseUnwraps` | internal/secrets/store.go:185-215 | the stored wrap opens under the passphrase in force and no other, to the key in memory if there is one |
| `SecretStore.FollowsIsAStep` | internal/secrets/store.go:124-514 | a response that follows the ideal store extends a possible run by one step to the new state |
| `SecretStore.ContentsAreLastPut` | internal/secrets/store.go:232-304 | over every run, the map holds under each kind and name the last value put since the last deletion |
| `SecretStore.GetReturnsLastPut` | internal/secrets/store.go:232-294 | over every run, Get answers with the last value put under that kind and name, or that there is none; replacing keeps the id |
| `SecretStore.StateIsHistory` | internal/secrets/store.go:124-391 | over every run, the passphrase in force is the last one set, and the store is unlocked exactly if it was set up, unlocked or rotated since it was last locked |
| `SecretStore.HistoryDecides` | internal/secrets/store.go:124-391 | over every run, short of a database failure: a passphrase is accepted if and only if it is the last one set, a new one needs twelve characters, the first is set once, and values go in and come out if and only if the store is unlocked |
| `SecretStore.Perform` | internal/secrets/store.go:124-514 | any one operation on the store keeps it standing for the run so far, answers truthfully about that run's operations and answers, and accounts for exactly the value a Put stored |
| `SecretStore.PerformAll` | internal/secrets/store.go:124-514 | a new store under any sequence of operations and database failures: every answer is the plain map's or reports a failure; what is accepted is decided by the last passphrase set, and what is handed out by the last unlocking and the last value put; the store ends standing for that map and accounting for exactly the Puts carried out |
| `SecretStore.GetFromTampered` | internal/secrets/store.go:265-294 | after any run, with the table replaced by any arrangement of ciphertexts the run ever stored, a value Get returns was put under that kind and name by some Put of the run |
| `SecretStore.RearrangedRowsStayHonest` | internal/secrets/store.go:265-294 | however stored ciphertexts, wrapped keys included, are moved between rows, a row opens to nothing or to a value once put under its own kind and name |
| `SecretStore.StaleWrapIsRefused` | internal/secrets/store.go:185-215 | an earlier wrap put back into the current record opens if and only if it was made for the same version, salt and cost, under its passphrase |
| `AssociatedData.SecretDataInjective` | internal/secrets/store.go:619-625 | ids and kinds without slashes and the name can be read back from the bound string |
| `AssociatedData.SlashesAreAmbiguous` | internal/secrets/store.go:619-625 | for any parts, a slash in the id could as well stand in the kind, so the guard of the injectivity is needed |
| `AssociatedData.DekDataInjective` | internal/secrets/store.go:613-617 | wraps of different key generations are bound to different strings |
| `AssociatedData.DekAndSecretDataDiffer` | internal/secrets/store.go:613-625 | a wrapped key is never bound to the string of a secret |
| `BackupProtocol.OneRunPerProject` | internal/backuprun/runner.go:162-241 | under every interleaving at most one run per project is in flight; the reservations name exactly the runs in flight; cancellable runs are among them; with none in flight both maps are empty |
| `BackupProtocol.StartIsGranted` | internal/backuprun/runner.go:162-170 | in every reachable state a backup starts if and only if no run of its project is in flight, and a refusal changes nothing |
| `BackupProtocol.FreeProjectGetsUnderway` | internal/backuprun/runner.go:162-200 | from every reachable state a run of a free project can be brought to execute, with its row, and can then be cancelled |
| `BackupProtocol.LaunchedCanBeCancelled` | internal/backuprun/runner.go:177-241 | in every reachable state exactly the runs that were launched and have not left can be cancelled |
| `BackupProtocol.CancelledRunWritesItsOutcome` | internal/backuprun/runner.go:502-552 | a cancelled run writes no more progress, and its outcome still reaches its row |
| `BackupProtocol.ProgressIsWritten` | internal/backuprun/runner.go:538-542 | until it is cancelled each later phase of a run is written to its row |
| `BackupProtocol.LeavingFreesProject` | internal/backuprun/runner.go:234-241 | a run that has ended can leave, and its project is free again |
| `BackupProtocol.NoRunIsStuck` | internal/backuprun/runner.go:162-241 | in every reachable state each run in flight has a step open to it |
| `BackupProtocol.RowsAreConsistent` | internal/backuprun/runner.go:450-467 | in every reachable table a row is done iff its phase is finished iff it has ended, and a success has its snapshot row |
| `BackupProtocol.RowsOnlyMoveForward` | internal/backuprun/store.go:47-67 | no step loses a row, moves its phase back, or changes one that is done |
| `BackupProtocol.NothingRunsAfterRestart` | internal/backuprun/store.go:206-218 | after the startup closing no row is running, whichever writes were lost before the crash |
| `BackupProtocol.InvariantHolds` | internal/backuprun/runner.go:102-241 | book, rows and goroutines agree in every reachable state |
| `BackupProtocol.ApplyKeepsInvariant` | internal/backuprun/runner.go:502-552 | every single step, including failed inserts, lost writes, cancellation and a crash, keeps that agreement |
| `BackupRun.Execute` | internal/backuprun/runner.go:246-483 | a run succeeds if and only if everything it needs does, and is cancelled if and only if the first thing to go wrong is a cancellation; its warnings are exactly those of the sources, the databases, the engine and the shortfall, in that order; it is `completed` if and only if no source and no engine note, no database at risk and no shortfall had to be reported; the snapshot lists each source's volume, with bytes equal to volumes plus exports; rows written move forward and end with one outcome |
| `BackupRun.SnapshotAndVerify` | internal/backuprun/runner.go:361-467 | success if and only if the snapshot was made, read back OK and recorded; one warning per engine note, in order, and one for a shortfall; `completed` if and only if there was none before and none is added |
| `BackupRun.StageSources` | internal/backuprun/runner.go:285-337 | volumes are those of the sources in order, up to the first that fails; bytes are the sum of theirs; the warnings are the earlier ones and then one for each note of each source, in order; a stop says whether it was a cancellation |
| `BackupRun.NotesAreReported` | internal/backuprun/runner.go:318-322 | each note of each source is reported at the place its source and its position give it |
| `BackupRun.AsManyWarningsAsNotes` | internal/backuprun/runner.go:318-322 | there are as many staging warnings as notes |
| `BackupRun.BytesAddUp` | internal/backuprun/runner.go:321-347 | the bytes of a run add up over volumes and exports, each counted once |
| `BackupRun.CaptureDatabases` | internal/backuprun/runner.go:339-359 | bytes grow by exactly the exports; the warnings are those of the exports and then those of the undumped engines; there are none if and only if every database to be exported was exported, and shown to load where that is asked for, and every one that must be exported has its export |
| `BackupRun.SafeIsComplete` | internal/backuprun/runner.go:339-359 | then each database of a known engine in the last reading has an export of its own, and under a stable orderly blueprint the manifest is complete |
| `BackupRun.DumpDatabases` | internal/backuprun/dumps.go:54-135 | exactly the exportable findings whose container runs and whose dump succeeds are exported, once and in order, with what was dumped; the others leave their warning in order; none if and only if all is well with every exportable finding |
| `BackupRun.DumpFinding` | internal/backuprun/dumps.go:78-133 | one finding is passed over, exported, or leaves the warning for what went wrong |
| `BackupRun.NoTroubles` | internal/backuprun/dumps.go:78-133 | there is no warning if and only if each exportable finding has a running container, is dumped, and is shown to load where that is asked for |
| `BackupRun.FindContainer` | internal/backuprun/dumps.go:70-89 | the container of a service is the last one listed for it; it counts as running if it has an identifier |
| `BackupRun.DumpedKeys` | internal/backuprun/dumps.go:260-266 | exactly the keys of the exports |
| `BackupRun.ManifestEntries` | internal/backuprun/dumps.go:199-256 | all exports, then all captured SQLite files, then every listed finding that was not exported |
| `BackupRun.ManifestLeavesNothingOut` | internal/backuprun/dumps.go:199-256 | an entry is in the manifest if and only if it is that of an export, of a captured SQLite file, or of a listed finding whose key was not exported |
| `BackupRun.CopiedEntries` | internal/backuprun/dumps.go:233-254 | exactly the listed findings without an export, in order |
| `BackupRun.ConsistencyWarnings` | internal/backuprun/consistency.go:52-113 | one warning for each engine with an undumped database, by name, naming its services in order; none if and only if all were dumped |
| `BackupRun.EngineWarningMeans` | internal/backuprun/consistency.go:68-112 | an engine is named if and only if a database of it must be dumped and was not, with exactly the named services where that happened, in order |
| `BackupRun.CollectServices` | internal/backuprun/consistency.go:68-87 | the engines with an undumped database, each with the set of its named services |
| `BackupRun.ServicesByName` | internal/backuprun/consistency.go:92-112 | one warning for each name in order, listing its services in order |
| `BackupRun.KeyInjective` | internal/backuprun/dumps.go:258-266 | among known engines, service and technology can be read back from a key |
| `BackupRun.ManifestIsComplete` | internal/backuprun/dumps.go:199-256 | if no finding is left undumped, each listed finding appears exactly once, as an export, and nothing is copied only |
| `BackupRun.EntriesBytes` | internal/backuprun/runner.go:339-352 | the exported bytes of the manifest are those of the exports |
| `BackupRun.RunFollowsProtocol` | internal/backuprun/runner.go:246-552 | short of a crash, with any of its writes lost and anything else happening between its steps, its cancellation included, a run's steps are all possible in the protocol and end with its outcome |
| `BackupRun.PlayStaysReachable` | internal/backuprun/runner.go:246-552 | the run and all that happens around it is one path of the protocol, so its invariant holds where the run leaves off |
| `BackupRun.CutOffRunIsClosed` | internal/backuprun/store.go:206-218 | a crash may come between any two steps of a run; after the restart its row is the outcome it had already written, or interrupted, and no run is in flight |
| `BackupRun.ProgressFollowsProtocol` | internal/backuprun/runner.go:538-542 | progress writes, lost or not and whatever short of a crash happens between them, are steps of the protocol that leave the run executing |
| `Reservations.Runner.TryReserve` | internal/backuprun/runner.go:162-170 | the key is reserved if it was free; otherwise its holder is reported and nothing changes |
| `Reservations.Runner.Register` | internal/backuprun/runner.go:177-180 | the run becomes cancellable, with a context of its own |
| `Reservations.Runner.Cancel` | internal/backuprun/runner.go:202-211 | exactly the registered runs can be cancelled; no other run's context is touched, and neither is the book |
| `Reservations.Runner.ReleaseRun` | internal/backuprun/runner.go:234-241 | the run's own entries are removed, and no other run's |
| `Reservations.ReserveKeepsAccurate` | internal/restore/restore.go:179-187 | reserving a free key keeps the book exact |
| `Reservations.ReleaseKeepsAccurate` | internal/restore/restore.go:240-247 | releasing a run in flight keeps the book exact |
| `Reservations.AccurateMeansExclusive` | internal/restore/restore.go:179-187 | an exact book means one run per key, and an empty book when idle |
| `RestoreProtocol.OneRunPerSnapshot` | internal/restore/database.go:90-127 | extractions and database replays together: at most one run per snapshot, and no reservation left when idle |
| `RestoreProtocol.StartIsGranted` | internal/restore/restore.go:179-187 | in every reachable state a restore of either kind starts if and only if none of its snapshot is in flight |
| `RestoreProtocol.FreeSnapshotGetsUnderway` | internal/restore/restore.go:179-247 | from every reachable state a restore of a free snapshot can be brought to execute, with its row, and can then be cancelled |
| `RestoreProtocol.ExecutingCanEnd` | internal/restore/restore.go:270-293 | an executing run can end with any outcome, cancelled or not, and its row says so unless the write is lost |
| `RestoreProtocol.LeavingFreesSnapshot` | internal/restore/restore.go:240-247 | a run that has ended can leave, and its snapshot is free again |
| `RestoreProtocol.LaunchedCanBeCancelled` | internal/restore/restore.go:179-247 | in every reachable state exactly the runs that were launched and have not left can be cancelled |
| `RestoreProtocol.OutcomesAreFinal` | internal/restore/restore.go:270-293 | a row has ended iff it is not running, an outcome is never overwritten, and none runs after a restart |
| `RateLimiter.LoginRateLimiter.CheckAllowed` | internal/auth/ratelimit.go:38-56 | an attempt is refused if and only if the key has a block that has not ended yet; the new records are those of the specification |
| `RateLimiter.LoginRateLimiter.RecordFailure` | internal/auth/ratelimit.go:60-79 | the new records are those of the specification, with the 64-bit shift of the backoff |
| `RateLimiter.LoginRateLimiter.RecordSuccess` | internal/auth/ratelimit.go:82-86 | the key's history is forgotten and no other |
| `RateLimiter.SlidingWindowBound` | internal/auth/ratelimit.go:38-79 | in any half-open interval one window long a disciplined run records at most max(1, 2 * maxAttempts) failures for a key, at most maxAttempts + 1 if the window is a single tick; at any one instant at most maxAttempts + 1 |
| `RateLimiter.BoundIsReached` | internal/auth/ratelimit.go:38-79 | for all limits there is a disciplined run that records exactly that many in one window |
| `RateLimiter.EveryBlockEnds` | internal/auth/ratelimit.go:38-79 | after any run in which time moves forward, an attempt maxBackoff after the key's last failure is let through, and so is one on a key without failures |
| `RateLimiter.SuccessEndsBlock` | internal/auth/ratelimit.go:82-86 | after a success the next attempt is let through, whatever came before |
| `RateLimiter.RefusalIsDeserved` | internal/auth/ratelimit.go:38-79 | in a disciplined run an attempt is refused only while the record counts more than maxAttempts failures, less than two windows after the last |
| `RateLimiter.FewFailuresBlockNothing` | internal/auth/ratelimit.go:60-79 | up to maxAttempts failures block nothing |
| `RateLimiter.BlocksStayShort` | internal/auth/ratelimit.go:71-78 | a record never counts more than maxAttempts + 2 failures, and a block lasts between one and two windows |
| `RateLimiter.AnyBackoffIsReached` | internal/auth/ratelimit.go:38-79 | attempts all checked before any fails are all let through, and k failures beyond the first blocking one give the k-th backoff |
| `RateLimiter.BlockLastsItsBackoff` | internal/auth/ratelimit.go:38-79 | after those failures an attempt is let through if and only if the backoff has passed |
| `RateLimiter.BackoffGrowsUntilItWraps` | internal/auth/ratelimit.go:71-78 | the backoff doubles up to its maximum; a later one is shorter than an earlier one if and only if the shifted window has come back into range below it, which takes a product of 2^63 or more |
| `RateLimiter.WrapShortensBlock` | internal/auth/ratelimit.go:71-78 | limits for which a later block is shorter than an earlier one |
| `RateLimiter.KeysAreIndependent` | internal/auth/ratelimit.go:38-86 | a key's record depends on its own operations alone |
| `DockerStream.Demultiplex` | internal/docker/exec.go:208-236 | what each writer receives is what the frames say, all of it unless a write is reported short, which takes a diagnostic payload above 16 KiB; otherwise only a broken transport is an error, and both outputs are prefixes even when a write is short |
| `DockerStream.CopyFrame` | internal/docker/exec.go:219-234 | one frame goes to the writer its stream byte names |
| `DockerStream.CopyN` | internal/docker/exec.go:226-234 | the payload is copied whole, up to the writer's limit, up to the end of input |
| `DockerStream.Sink.Write` | internal/docker/exec.go:244-254 | the part that fits is kept and its length reported |
| `DockerStream.StripHeaders` | internal/docker/helper.go:371-389 | the payloads in order with what is left over, or from the first bad header on the raw remainder |
| `DockerStream.ParseOfEncode` | internal/docker/exec.go:208-236 | parsing undoes framing for any frames below 2^32 bytes, whatever follows |
| `DockerStream.BytesArePlaces` | internal/docker/exec.go:213-218 | the size is read with the most significant byte first |
| `DockerStream.ParseConservesBytes` | internal/docker/exec.go:208-236 | headers, payloads and what is left over make up the input exactly |
| `DockerStream.OutputsConcat` | internal/docker/exec.go:219-234 | what comes out of a stream cut between frames is what comes out of its parts, one after the other |
| `DockerStream.DecodersUndoFraming` | internal/docker/helper.go:371-389 | on any complete encoding both decoders see exactly the frames that were written |
| `DockerStream.CutYieldsPrefixes` | internal/docker/exec.go:208-236 | on any prefix of any stream both outputs are prefixes of the whole stream's |
| `DockerStream.DecodersAccountForSameBytes` | internal/docker/exec.go:219-234 | the one decoder's output is the other's two outputs merged, each in order, if and only if no error frame exceeds its limit; otherwise bytes are missing |
| `DockerStream.OneStreamOnly` | internal/docker/exec.go:219-234 | without frames of stream 2 everything goes to standard output, and with such frames only, to standard error |
| `DockerStream.BadHeaderDropsEarlierOutput` | internal/docker/helper.go:375-381 | after good frames, a header with non-zero padding makes the helper's decoder return only what follows the good frames |
| `ImageRef.RepositoryPathOfRender` | internal/imageref/imageref.go:51-77 | from `[host/]seg/.../seg[:tag][@digest]` exactly the segments are recovered, in lower case |
| `ImageRef.MatchesWholeSegments` | internal/imageref/imageref.go:27-36 | a pattern matches if and only if it is non-empty once normalised and its segments end the path's segments |
| `ImageRef.PatternMeans` | internal/imageref/imageref.go:27-28 | a normalised pattern is the pattern without the white space around it and then without the slashes around that, in lower case |
| `ImageRef.MatchesAny` | internal/imageref/imageref.go:39-46 | true if and only if some pattern matches |
| `ImageRef.RepositoryPaths` | internal/imageref/imageref.go:80-88 | the non-empty paths of the images, in order |
| `Staging.SafeJoinIsExact` | internal/storage/staging.go:414-430 | below a root other than `/`, a name is accepted if and only if its cleaned form does not climb, and the result's components are the root's and then the name's; the second check never refuses |
| `Staging.SafeJoinAtFilesystemRoot` | internal/storage/staging.go:414-430 | at `/` only names that clean to nothing are accepted |
| `Staging.CleaningRules` | internal/storage/staging.go:417-426 | cleaning drops empty components and "." anywhere, a name with the ".." after it, and ".." at the top of an absolute path; it keeps plain components, and ".." at the front of a relative path |
| `Staging.RefusalIsClimbing` | internal/storage/staging.go:421-424 | the first check refuses exactly the names whose components start by climbing |
| `Staging.JoinedComponents` | internal/storage/staging.go:425-426 | joining appends the cleaned name's components to the root's |
| `Staging.ExtractTar` | internal/storage/staging.go:253-374 | succeeds if and only if no entry is refused; counts, ownership and directories are those of the entries; everything asked of the file system, parent directories included, lies below the root; directory metadata is applied in reverse order |
| `Staging.ExtractionRecords` | internal/storage/staging.go:281-361 | files are the entries placed, skipped those of other kinds, bytes the sizes of regular files; owners and directories are listed in order; ownership is preserved if and only if it could be applied to every entry placed |
| `Staging.ExtractEntry` | internal/storage/staging.go:281-361 | one entry is placed as its kind demands, skipped or refused |
| `Staging.PlaceEntry` | internal/storage/staging.go:291-361 | only the target, its parent directory and, for a hard link, its source are touched |
| `Staging.ParentInside` | internal/storage/staging.go:316-337 | an entry's parent is all but its last component, and every directory on the way down to the entry lies inside the root |
| `Staging.ApplyMetadata` | internal/storage/staging.go:364-371 | every directory once, last listed first |
| `Staging.OwnershipIsComplete` | internal/storage/staging.go:253-374 | ownership entries equal files counted plus entries skipped |
| `Staging.DeeperDirectoriesFirst` | internal/storage/staging.go:364-371 | if directories precede their contents, no directory's metadata is applied before that of one beneath it |
| `ProjectAnalyzer.Input.Collect` | internal/projectanalyzer/service.go:48-73 | a service is listed if and only if a document or a container says something under its name, with all that is said under it put together, in increasing order of names; secrets, configs and env files are those of the documents; whatever the order of each map |
| `ProjectAnalyzer.NothingIsLost` | internal/projectanalyzer/service.go:297-344 | under every name what is known is everything said under it: by documents under that name, and by containers of that service or, without a service, of that name |
| `ProjectAnalyzer.FirstImageMeans` | internal/projectanalyzer/service.go:335-337 | the image is the first that is not empty |
| `ProjectAnalyzer.AllMountsMeans` | internal/projectanalyzer/service.go:339-340 | mounts are kept in order, none lost and none added |
| `ProjectAnalyzer.NamesMean` | internal/projectanalyzer/service.go:297-318 | the three lists hold exactly the names that a document declares or one of its services refers to |
| `ProjectAnalyzer.Input.ComposeEvidence` | internal/projectanalyzer/service.go:263-318 | services have unique names and fold the documents in order; names are strictly increasing and complete |
| `ProjectAnalyzer.Input.WalkServices` | internal/projectanalyzer/service.go:297-303 | walking a document's services in any order gathers the same evidence and names |
| `ProjectAnalyzer.Input.MergeRuntime` | internal/projectanalyzer/service.go:320-331 | containers are merged by service, or by their own name without one |
| `ProjectAnalyzer.MergeService` | internal/projectanalyzer/service.go:332-344 | names stay unique; the first non-empty image wins, environment names are united, mounts appended |
| `ProjectAnalyzer.MergeCommutes` | internal/projectanalyzer/service.go:332-344 | evidence under different names merges in either order |
| `ProjectAnalyzer.MergeOfSameNameCommutes` | internal/projectanalyzer/service.go:332-344 | evidence under one name merges in either order if and only if the name has an image already or the two bring at most one between them, and their mounts read the same in either order |
| `ProjectAnalyzer.MergeOfSameNameDependsOnOrder` | internal/projectanalyzer/service.go:332-344 | an instance under one name where the order shows: two images for a new service |
| `ProjectAnalyzer.WalkIsOrderFree` | internal/projectanalyzer/service.go:297-303 | every enumeration of a document's services folds to the same evidence |
| `ProjectAnalyzer.SortIsCanonical` | internal/projectanalyzer/service.go:68-73 | sorting evidence with unique names has one outcome, whatever the algorithm |
| `ProjectAnalyzer.UniqueSorted` | internal/projectanalyzer/service.go:565-578 | the strictly increasing listing of the non-empty values |
| `RepositoryProtocol.NoRowWithoutPassword` | internal/repositories/service.go:82-174 | at every step of any interleaving with failures and crashes each row has its password, and a Delete with its data never removed a row before its purge succeeded |
| `RepositoryProtocol.CallsCanGoOn` | internal/repositories/service.go:82-174 | calls can begin beside any others, and none in progress is ever stuck |
| `RepositoryProtocol.NoOrphanedPasswords` | internal/repositories/service.go:107-174 | with nothing in progress the passwords without a row are exactly those whose clean-up was lost, and there are none if and only if none was lost |
| `RepositoryProtocol.OrphansAreLostOrAttended` | internal/repositories/service.go:82-174 | in every reachable state a password without a row is one whose clean-up was lost or one a call in progress answers for |
| `RepositoryProtocol.OnlyFailuresLosePasswords` | internal/repositories/service.go:107-174 | a clean-up is lost only by a failed deletion or a crash, and only of a password a call still answered for |
| `RepositoryProtocol.EveryLossOrphansPassword` | internal/repositories/service.go:107-174 | each such failure or crash does leave that password without a row |
| `RepositoryProtocol.LostRollBackOrphansPassword` | internal/repositories/service.go:107-112 | a run where both the insert and the roll-back fail leaves a password without a row |
| `RepositoryProtocol.InvariantHolds` | internal/repositories/service.go:82-174 | rows, passwords and calls in progress agree in every reachable state |
| `RepositoryProtocol.RepositoryService.Create` | internal/repositories/service.go:82-125 | created if and only if the password could be stored and the row inserted; a password is left over exactly if the insert failed and so did the roll-back; the passwords without a row are exactly the lost ones; a path of the protocol |
| `RepositoryProtocol.RepositoryService.Delete` | internal/repositories/service.go:146-174 | the outcome is decided by the first step that fails, and says exactly which of data, row and password are gone, a kept row after a purge included; the passwords without a row are exactly the lost ones; a path of the protocol |
| `EventChannel.DeliveryIsFaithful` | internal/events/broker.go:30-67 | whatever is sent to, received from or done to one channel: received followed by buffered is a subsequence of what was offered, in the order of the offers, all of it if no offer found the buffer full, and at most 64 are buffered |
| `EventChannel.DropsMeanFull` | internal/events/broker.go:60-65 | over every run of a channel, it counts as having been full if and only if some send came when exactly 64 events were buffered |
| `EventChannel.KeepingUpMissesNothing` | internal/events/broker.go:26-65 | a reader that is fewer than 64 events behind at every send misses nothing: received and buffered events are all that was sent, in order |
| `EventChannel.PublishedIsSent` | internal/events/broker.go:56-65 | what counts as published to a channel is what was sent to it, in order |
| `EventChannel.ApplyKeepsFaithful` | internal/events/broker.go:56-67 | each single send, receive and close keeps that |
| `EventBroker.NothingPanics` | internal/events/broker.go:39-67 | under every interleaving of overlapping publishes, subscribing, unsubscribing and receiving, no send meets a closed channel and none is closed twice |
| `EventBroker.SubscriberIsOfferedAll` | internal/events/broker.go:30-67 | under every interleaving, with no publish in progress, a registered channel was offered exactly the multiset of events published since it joined, and passes on all of them in its own order if no send met 64 buffered events, or if its reader was never that far behind |
| `EventBroker.SeparatePublishesKeepOrder` | internal/events/broker.go:56-67 | a channel is offered two publishes in the order in which they began, unless the earlier was still in progress when the later began |
| `EventBroker.SeparatePublishesGiveTheLog` | internal/events/broker.go:56-67 | if no publish since a channel joined overlapped another, it was offered the log itself, so all subscribers see one order |
| `EventBroker.OverlapCanSwapOrder` | internal/events/broker.go:56-67 | in any reachable state two publishes may overlap and reach any two subscribers in opposite orders |
| `EventBroker.Broker.Subscribe` | internal/events/broker.go:30-49 | a fresh empty channel under an id never used before; a step of the protocol |
| `EventBroker.Broker.Unsubscribe` | internal/events/broker.go:38-48 | the channel is removed and closed; a second call does nothing; a step of the protocol |
| `EventBroker.Broker.Publish` | internal/events/broker.go:56-67 | run to its end with nothing in between, a publish puts the event into the buffer of every registered channel that has fewer than 64 events, in any order and without blocking, and into no other; each visit is a step of the protocol |
| `EventBroker.Broker.SubscriberSeesTheLog` | internal/events/broker.go:30-67 | for a hub whose calls do not overlap: what a subscriber was given is in order a part of what was published since it joined, and all of it if no send met 64 buffered events, or if its reader was never that far behind |
| `EventBroker.Broker.Receive` | internal/events/broker.go:26-32 | the oldest event buffered in a channel is taken, while subscribed or when draining afterwards; a step of the protocol while subscribed |
| `EventChannel.Channel.TrySend` | internal/events/broker.go:60-65 | appended if fewer than 64 events are buffered, dropped otherwise |
| `Ordering.SortedUnique` | internal/protectionblueprints/match.go:56-64 | an order that tells the elements apart leaves one sorted arrangement |
| `Ordering.StringLessMeans` | internal/protectionblueprints/match.go:62 | one string comes before another if it is a proper prefix, or smaller where they first differ |

## Left out

Represented by less than the original:

- `Ordering.SortSlice`: stands for `sort.Slice` and `sort.Strings` by their contract, an ordered permutation; the algorithm is library code.
- `ImageRef.RepositoryPathOfRender`: letter case and white space are those of ASCII; Unicode folding is not modelled.
- `BlueprintCatalog.MatchTemplate`: the sentences in Matched and Missing are datatype values, not text.
- `SecretStore.Store.RotateDataKey`: operations are atomic; a Put that copied the key before a rotation committed, or an Unlock that read the record before it, is not modelled, and it would break the refinement.
- `SecretStore.Store.Put`: the metadata beyond id and creation time, listing, and the zeroing of key buffers are not modelled.
- `BackupRun.Execute`: the claims about databases suppose that the blueprint reads the same three times during the run, with distinct (service, technology) pairs and known engines only; byte counts do not wrap.
- `BackupProtocol.RowsAreConsistent`: a failed run may still have a snapshot row, after a crash between recording the snapshot and the final write.
- `RateLimiter.SlidingWindowBound`: says nothing of attempts that are checked together before any of them fails, nor of a clock that goes back.
- `DockerStream.Demultiplex`: a writer for stdout that fails is not modelled, nor a bound on all diagnostics together, since each frame has its own limit.
- `DockerStream.StripHeaders`: a cut inside a header appends the cut bytes as they are, so no prefix property holds there.
- `Staging.ExtractTar`: containment is lexical; symbolic link targets, what the kernel resolves, permission bits, times and a damaged archive are not modelled.
- `ProjectAnalyzer.Input.Collect`: YAML is already reduced to names and mounts; the SQLite search, the detectors and the hash are not modelled.
- `RepositoryProtocol.NoRowWithoutPassword`: refusals before the first write (validation, location checks, repository kinds) count as a failed step.
- `EventBroker.Broker.Publish`: the class makes one call at a time; publishes that overlap, which the shared lock allows, are the subject of the lemmas over `seq<Action>`, and there a single visit of a channel is one step.

Not modelled at all:

- Argon2id, XChaCha20-Poly1305, random bytes and uuids: an ideal key derivation and AEAD, and a source of fresh values.
- SQL, JSON, time formatting, HTTP handlers, sessions, the Docker client, restic processes and the web interface.
- Staging, exports, snapshots and their verification as such: any outcome is possible.
- Whether two project or volume names share a staging directory, or two databases a dump file.
- A failure of the startup closing itself: the server goes on, and rows of the last process stay running.
- Previews of restores, finding an export in a snapshot, checking and initialising repositories, and emitted events.
