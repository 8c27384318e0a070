/** internal/backuprun: a backup run as a protocol over the runner's memory and the table of runs,
    under every interleaving, with writes that are lost and a process that may stop at any step. */
module BackupProtocol {
  import opened Reservations
  import opened Wrappers

  datatype Status = Running | CompletedWithWarnings | Completed | FailedRun | Cancelled

  datatype Phase = Preparing | Staging | Snapshotting | Verifying | Finished

  function Rank(p: Phase): nat {
    match p
    case Preparing => 0
    case Staging => 1
    case Snapshotting => 2
    case Verifying => 3
    case Finished => 4
  }

  predicate Done(s: Status) {
    s != Running
  }

  predicate Succeeded(s: Status) {
    s == Completed || s == CompletedWithWarnings
  }

  /** The columns of a row of backup_runs that the protocol depends on. */
  datatype Row = Row(status: Status, phase: Phase, ended: bool)

  const NEW_ROW := Row(Running, Preparing, false)

  const INTERRUPTED_ROW := Row(FailedRun, Finished, true)

  /** Where the goroutine of a run is; `run` is its own copy of the row. */
  datatype Point = Reserved | Inserted | Executing(run: Row) | Ending

  datatype Thread = Thread(project: string, point: Point)

  datatype State = State(serving: bool, table: map<string, Row>, snapshots: set<string>, book: Book,
                         threads: map<string, Thread>, cancelled: set<string>, issued: set<string>)

  const INITIAL := State(true, map[], {}, EMPTY, map[], {}, {})

  /** `ok` says whether a write reached the database. */
  datatype Action =
    | Start(project: string, id: string)
    | Insert(id: string, ok: bool)
    | Launch(id: string)
    | Cancel(id: string)
    | Progress(id: string, phase: Phase, ok: bool)
    | RecordSnapshot(id: string)
    | Finish(id: string, status: Status, ok: bool)
    | Leave(id: string)
    | Crash
    | Restart

  predicate At(s: State, id: string, point: Point) {
    id in s.threads && s.threads[id].point == point
  }

  predicate IsExecuting(s: State, id: string) {
    id in s.threads && s.threads[id].point.Executing?
  }

  function MoveTo(s: State, id: string, point: Point): State
    requires id in s.threads
  {
    s.(threads := s.threads[id := s.threads[id].(point := point)])
  }

  function Gone(s: State, id: string): State
    requires id in s.threads
  {
    s.(threads := s.threads - {id}, book := Release(s.book, s.threads[id].project, id))
  }

  /** What closing interrupted runs at startup does to the table. */
  function CloseInterrupted(table: map<string, Row>): (closed: map<string, Row>)
    ensures closed.Keys == table.Keys
    ensures forall id | id in table :: Done(closed[id].status) && (Done(table[id].status) ==> closed[id] == table[id])
    ensures forall id | id in table && !Done(table[id].status) :: closed[id].ended && !Succeeded(closed[id].status)
  {
    map id | id in table :: if table[id].status == Running then INTERRUPTED_ROW else table[id]
  }

  function Apply(s: State, a: Action): Option<State> {
    if !s.serving then
      if a.Restart? then Some(s.(serving := true, table := CloseInterrupted(s.table))) else None
    else
      match a
      case Start(project, id) =>
        if id in s.issued then None
        else
          (match Reserve(s.book, project, id)
           case None => Some(s)  // refused: already running
           case Some(book) => Some(s.(book := book, issued := s.issued + {id},
                                      threads := s.threads[id := Thread(project, Reserved)])))
      case Insert(id, ok) =>
        if !At(s, id, Reserved) then None
        else if !ok then Some(Gone(s, id))
        else Some(MoveTo(s, id, Inserted).(table := s.table[id := NEW_ROW]))
      case Launch(id) =>
        if !At(s, id, Inserted) then None
        else Some(MoveTo(s, id, Executing(NEW_ROW)).(book := Activate(s.book, id)))
      case Cancel(id) => if id in s.book.active then Some(s.(cancelled := s.cancelled + {id})) else Some(s)
      case Progress(id, phase, ok) =>
        // A progress write uses the run's own context, so none succeeds once that is cancelled.
        if !IsExecuting(s, id) || phase == Finished || Rank(phase) < Rank(s.threads[id].point.run.phase)
           || (ok && id in s.cancelled) then None
        else
          var run := s.threads[id].point.run.(phase := phase);
          Some(MoveTo(s, id, Executing(run)).(table := if ok then s.table[id := run] else s.table))
      case RecordSnapshot(id) =>
        if !IsExecuting(s, id) || s.threads[id].point.run.phase != Verifying then None
        else Some(s.(snapshots := s.snapshots + {id}))
      case Finish(id, status, ok) =>
        if !IsExecuting(s, id) || !Done(status) || (Succeeded(status) && id !in s.snapshots) then None
        else Some(MoveTo(s, id, Ending).(table := if ok then s.table[id := Row(status, Finished, true)] else s.table))
      case Leave(id) => if !At(s, id, Ending) then None else Some(Gone(s, id))
      case Crash => Some(s.(serving := false, book := EMPTY, threads := map[], cancelled := {}))
      case Restart => None
  }

  function Run(actions: seq<Action>): Option<State> {
    if actions == [] then Some(INITIAL)
    else match Run(actions[..|actions| - 1])
         case None => None
         case Some(s) => Apply(s, actions[|actions| - 1])
  }

  ghost function InFlight(s: State): map<string, string> {
    map id | id in s.threads :: s.threads[id].project
  }

  /** Done, finished and ended are one thing, and a success has its snapshot. */
  ghost predicate Consistent(s: State, id: string)
    requires id in s.table
  {
    && (Done(s.table[id].status) <==> s.table[id].phase == Finished)
    && (Done(s.table[id].status) <==> s.table[id].ended)
    && (Succeeded(s.table[id].status) ==> id in s.snapshots)
  }

  /** What a goroutine may assume of its own row. */
  ghost predicate InStep(s: State, id: string)
    requires id in s.threads
  {
    match s.threads[id].point
    case Reserved => id !in s.table
    case Inserted => id in s.table && s.table[id] == NEW_ROW
    case Executing(run) =>
      && run.status == Running && !run.ended && run.phase != Finished
      && id in s.table && s.table[id].status == Running && Rank(s.table[id].phase) <= Rank(run.phase)
    case Ending => id in s.table
  }

  ghost predicate Invariant(s: State) {
    && Accurate(s.book, InFlight(s))
    && s.threads.Keys <= s.issued && s.table.Keys <= s.issued
    && (forall id | id in s.table :: Consistent(s, id))
    && (forall id | id in s.threads :: InStep(s, id))
    && (!s.serving ==> s.threads == map[])
  }

  lemma ApplyKeepsInvariant(s: State, a: Action)
    requires Invariant(s) && Apply(s, a).Some?
    ensures Invariant(Apply(s, a).value)
  {
    BookStaysAccurate(s, a);
    RowsStayConsistent(s, a);
    ThreadsStayInStep(s, a);
  }

  lemma RowsStayConsistent(s: State, a: Action)
    requires Invariant(s) && Apply(s, a).Some?
    ensures var s' := Apply(s, a).value;
            && s'.threads.Keys <= s'.issued && s'.table.Keys <= s'.issued
            && forall id | id in s'.table :: Consistent(s', id)
  {
    var s' := Apply(s, a).value;
    forall id | id in s'.table ensures Consistent(s', id) {
      if id in s.table { assert Consistent(s, id); }
      if id in s.threads { assert InStep(s, id); }
    }
  }

  lemma ThreadsStayInStep(s: State, a: Action)
    requires Invariant(s) && Apply(s, a).Some?
    ensures forall id | id in Apply(s, a).value.threads :: InStep(Apply(s, a).value, id)
  {
    var s' := Apply(s, a).value;
    forall id | id in s'.threads ensures InStep(s', id) {
      if id in s.threads { assert InStep(s, id); }
    }
  }

  lemma BookStaysAccurate(s: State, a: Action)
    requires Invariant(s) && Apply(s, a).Some?
    ensures Accurate(Apply(s, a).value.book, InFlight(Apply(s, a).value))
  {
    if s.serving {
      match a {
        case Start(project, id) => EnteringKeepsBook(s, project, id);
        case Insert(id, ok) => LeavingKeepsBook(s, id); MovingKeepsBook(s, id, Inserted);
        case Launch(id) => MovingKeepsBook(s, id, Executing(NEW_ROW));
        case Progress(id, phase, ok) => MovingKeepsBook(s, id, Executing(s.threads[id].point.run.(phase := phase)));
        case Finish(id, status, ok) => MovingKeepsBook(s, id, Ending);
        case Leave(id) => LeavingKeepsBook(s, id);
        case Crash => assert InFlight(Apply(s, a).value) == map[];
        case RecordSnapshot(id) =>
        case Cancel(id) =>
        case Restart =>
      }
    }
  }

  lemma EnteringKeepsBook(s: State, project: string, id: string)
    requires Accurate(s.book, InFlight(s)) && id !in s.threads
    ensures Reserve(s.book, project, id).Some? ==>
              Accurate(Reserve(s.book, project, id).value,
                       InFlight(s.(threads := s.threads[id := Thread(project, Reserved)])))
  {
    if Reserve(s.book, project, id).Some? {
      ReserveKeepsAccurate(s.book, InFlight(s), project, id);
      assert InFlight(s.(threads := s.threads[id := Thread(project, Reserved)])) == InFlight(s)[id := project];
    }
  }

  lemma LeavingKeepsBook(s: State, id: string)
    requires Accurate(s.book, InFlight(s)) && id in s.threads
    ensures Accurate(Gone(s, id).book, InFlight(Gone(s, id)))
  {
    ReleaseKeepsAccurate(s.book, InFlight(s), id);
    assert InFlight(Gone(s, id)) == InFlight(s) - {id};
  }

  lemma MovingKeepsBook(s: State, id: string, point: Point)
    requires id in s.threads
    ensures InFlight(MoveTo(s, id, point)) == InFlight(s)
  {
  }

  lemma {:induction false} InvariantHolds(actions: seq<Action>)
    requires Run(actions).Some?
    ensures Invariant(Run(actions).value)
  {
    if actions == [] {
      assert InFlight(INITIAL) == map[];
    } else {
      InvariantHolds(actions[..|actions| - 1]);
      ApplyKeepsInvariant(Run(actions[..|actions| - 1]).value, actions[|actions| - 1]);
    }
  }

  /** At most one backup per project is in flight, the book names exactly the runs in flight, and it
      is empty when there are none: whatever failed, was cancelled or crashed before. */
  lemma OneRunPerProject(actions: seq<Action>)
    requires Run(actions).Some?
    ensures var s := Run(actions).value;
            && Accurate(s.book, InFlight(s))
            && (forall i, j | i in s.threads && j in s.threads && s.threads[i].project == s.threads[j].project ::
                  i == j)
            && (s.threads == map[] ==> s.book == EMPTY)
  {
    InvariantHolds(actions);
    var s := Run(actions).value;
    AccurateMeansExclusive(s.book, InFlight(s));
    forall i, j | i in s.threads && j in s.threads && s.threads[i].project == s.threads[j].project ensures i == j {
      assert InFlight(s)[i] == InFlight(s)[j];
    }
    if s.threads == map[] { assert InFlight(s) == map[]; }
  }

  /** In every reachable table a row is Done iff its phase is finished iff it has ended, and one that
      claims success has a snapshot row. */
  lemma RowsAreConsistent(actions: seq<Action>, id: string)
    requires Run(actions).Some? && id in Run(actions).value.table
    ensures Consistent(Run(actions).value, id)
  {
    InvariantHolds(actions);
  }

  /** A step never loses a row, never moves its phase back, and never changes one that is Done. */
  lemma RowsOnlyMoveForward(actions: seq<Action>, a: Action, id: string)
    requires Run(actions + [a]).Some? && Run(actions).Some? && id in Run(actions).value.table
    ensures id in Run(actions + [a]).value.table
    ensures var before := Run(actions).value.table[id];
            var after := Run(actions + [a]).value.table[id];
            && Rank(before.phase) <= Rank(after.phase)
            && (Done(before.status) ==> after == before)
  {
    InvariantHolds(actions);
    assert (actions + [a])[..|actions|] == actions;
    assert Consistent(Run(actions).value, id);
    if id in Run(actions).value.threads { assert InStep(Run(actions).value, id); }
  }

  /** After the startup closing no row is running, whatever writes were lost before. */
  lemma NothingRunsAfterRestart(actions: seq<Action>, id: string)
    requires Run(actions + [Restart]).Some? && id in Run(actions + [Restart]).value.table
    ensures Done(Run(actions + [Restart]).value.table[id].status)
  {
    assert (actions + [Restart])[..|actions|] == actions;
  }

  // ----- what a run can count on -----

  lemma RunSnoc(actions: seq<Action>, a: Action)
    requires Run(actions).Some?
    ensures Run(actions + [a]) == Apply(Run(actions).value, a)
  {
    assert (actions + [a])[..|actions|] == actions;
  }

  ghost predicate ProjectIsBusy(s: State, project: string) {
    exists id :: id in s.threads && s.threads[id].project == project
  }

  /** A backup starts if and only if no run of its project is in flight; a refusal changes nothing. */
  lemma StartIsGranted(actions: seq<Action>, project: string, id: string)
    requires Run(actions).Some? && Run(actions).value.serving && id !in Run(actions).value.issued
    ensures var s := Run(actions).value;
            var s' := Apply(s, Start(project, id));
            && s'.Some?
            && (if ProjectIsBusy(s, project) then s'.value == s
                else s'.value.threads == s.threads[id := Thread(project, Reserved)])
  {
    InvariantHolds(actions);
    var s := Run(actions).value;
    assert project in s.book.holder ==> s.book.holder[project] in InFlight(s);
    assert forall i | i in s.threads :: InFlight(s)[i] in s.book.holder;
  }

  /** From every reachable state: once started, inserted and launched, a run of a free project executes,
      has its row, and can be cancelled. */
  lemma FreeProjectGetsUnderway(actions: seq<Action>, project: string, id: string)
    requires Run(actions).Some? && Run(actions).value.serving && id !in Run(actions).value.issued
    requires !ProjectIsBusy(Run(actions).value, project)
    ensures var t := Run(actions + [Start(project, id)] + [Insert(id, true)] + [Launch(id)]);
            && t.Some? && t.value.threads == Run(actions).value.threads[id := Thread(project, Executing(NEW_ROW))]
            && t.value.table == Run(actions).value.table[id := Row(Running, Preparing, false)]
            && id in t.value.book.active
  {
    StartIsGranted(actions, project, id);
    RunSnoc(actions, Start(project, id));
    RunSnoc(actions + [Start(project, id)], Insert(id, true));
    RunSnoc(actions + [Start(project, id)] + [Insert(id, true)], Launch(id));
  }

  /** The runs that can be cancelled are exactly those that have been launched and have not left. */
  ghost predicate CancellableIsLaunched(s: State) {
    forall id :: id in s.book.active <==> IsExecuting(s, id) || At(s, id, Ending)
  }

  lemma {:induction false} LaunchedCanBeCancelled(actions: seq<Action>)
    requires Run(actions).Some?
    ensures CancellableIsLaunched(Run(actions).value)
  {
    if actions != [] {
      LaunchedCanBeCancelled(actions[..|actions| - 1]);
      InvariantHolds(actions[..|actions| - 1]);
      ApplyKeepsLaunched(Run(actions[..|actions| - 1]).value, actions[|actions| - 1]);
    }
  }

  lemma ApplyKeepsLaunched(s: State, a: Action)
    requires s.threads.Keys <= s.issued && CancellableIsLaunched(s) && Apply(s, a).Some?
    ensures CancellableIsLaunched(Apply(s, a).value)
  {
  }

  /** A run that is cancelled writes no more progress, and its outcome still reaches its row. */
  lemma CancelledRunWritesItsOutcome(actions: seq<Action>, id: string, phase: Phase, status: Status)
    requires Run(actions).Some? && IsExecuting(Run(actions).value, id)
    ensures var t := Apply(Run(actions).value, Cancel(id));
            && t.Some? && id in t.value.cancelled && IsExecuting(t.value, id)
            && Apply(t.value, Progress(id, phase, true)) == None
            && (Done(status) && !Succeeded(status) ==>
                  var u := Apply(t.value, Finish(id, status, true));
                  u.Some? && u.value.table == t.value.table[id := Row(status, Finished, true)])
  {
    LaunchedCanBeCancelled(actions);
    InvariantHolds(actions);
  }

  /** Until then each later phase it enters is written to its row. */
  lemma ProgressIsWritten(actions: seq<Action>, id: string, phase: Phase)
    requires Run(actions).Some? && IsExecuting(Run(actions).value, id) && id !in Run(actions).value.cancelled
    requires phase != Finished && Rank(Run(actions).value.threads[id].point.run.phase) <= Rank(phase)
    ensures var t := Apply(Run(actions).value, Progress(id, phase, true));
            t.Some? && t.value.table == Run(actions).value.table[id := Row(Running, phase, false)]
  {
    InvariantHolds(actions);
    assert InStep(Run(actions).value, id);
  }

  /** A run that has ended can leave, and then its project is free again. */
  lemma LeavingFreesProject(actions: seq<Action>, id: string)
    requires Run(actions).Some? && At(Run(actions).value, id, Ending)
    ensures var s := Run(actions).value;
            var t := Apply(s, Leave(id));
            && t.Some? && t.value.threads == s.threads - {id} && t.value.table == s.table
            && !ProjectIsBusy(t.value, s.threads[id].project)
  {
    OneRunPerProject(actions);
    InvariantHolds(actions);
  }

  /** The steps that are always open to the goroutine of a run: none is ever stuck. */
  predicate CanGoOn(s: State, id: string)
    requires id in s.threads
  {
    match s.threads[id].point
    case Reserved => Apply(s, Insert(id, true)).Some? && Apply(s, Insert(id, false)).Some?
    case Inserted => Apply(s, Launch(id)).Some?
    case Executing(_) => Apply(s, Finish(id, FailedRun, true)).Some? && Apply(s, Finish(id, FailedRun, false)).Some?
    case Ending => Apply(s, Leave(id)).Some?
  }

  lemma NoRunIsStuck(actions: seq<Action>, id: string)
    requires Run(actions).Some? && id in Run(actions).value.threads
    ensures CanGoOn(Run(actions).value, id)
  {
    InvariantHolds(actions);
  }
}
