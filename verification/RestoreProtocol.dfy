/** internal/restore: extracting a snapshot and replaying a database export, which reserve the same
    snapshot in the same runner, as a protocol over its memory and the table of restore runs. */
module RestoreProtocol {
  import opened Reservations
  import opened Wrappers

  datatype Status = Running | Completed | FailedRun | Cancelled

  /** The two entry points, `Start` and `RestoreDatabase`. */
  datatype Work = Extraction | DatabaseReplay

  datatype Row = Row(status: Status, ended: bool)

  datatype Point = Reserved | TargetMade | Inserted | Executing | Ending

  datatype Thread = Thread(snapshot: string, work: Work, point: Point)

  datatype State = State(serving: bool, table: map<string, Row>, book: Book, threads: map<string, Thread>,
                         cancelled: set<string>, issued: set<string>)

  const INITIAL := State(true, map[], EMPTY, map[], {}, {})

  /** `ok` says whether the directory was made or the write reached the database. */
  datatype Action =
    | Start(work: Work, snapshot: string, id: string)
    | MakeTarget(id: string, ok: bool)
    | Insert(id: string, ok: bool)
    | Launch(id: string)
    | Cancel(id: string)
    | Finish(id: string, status: Status, ok: bool)
    | Leave(id: string)
    | Crash
    | Restart

  predicate At(s: State, id: string, point: Point) {
    id in s.threads && s.threads[id].point == point
  }

  function MoveTo(s: State, id: string, point: Point): State
    requires id in s.threads
  {
    s.(threads := s.threads[id := s.threads[id].(point := point)])
  }

  function Gone(s: State, id: string): State
    requires id in s.threads
  {
    s.(threads := s.threads - {id}, book := Release(s.book, s.threads[id].snapshot, id))
  }

  function CloseInterrupted(table: map<string, Row>): (closed: map<string, Row>)
    ensures closed.Keys == table.Keys
    ensures forall id | id in table :: closed[id].status != Running
    ensures forall id | id in table && table[id].status != Running :: closed[id] == table[id]
    ensures forall id | id in table && table[id].status == Running :: closed[id].ended && closed[id].status != Completed
  {
    map id | id in table :: if table[id].status == Running then Row(FailedRun, true) else table[id]
  }

  function Apply(s: State, a: Action): Option<State> {
    if !s.serving then
      if a.Restart? then Some(s.(serving := true, table := CloseInterrupted(s.table))) else None
    else
      match a
      case Start(work, snapshot, id) =>
        if id in s.issued then None
        else
          (match Reserve(s.book, snapshot, id)
           case None => Some(s)  // refused: already running
           case Some(book) => Some(s.(book := book, issued := s.issued + {id},
                                      threads := s.threads[id := Thread(snapshot, work, Reserved)])))
      case MakeTarget(id, ok) =>
        if !At(s, id, Reserved) then None
        else if !ok then Some(Gone(s, id))
        else Some(MoveTo(s, id, TargetMade))
      case Insert(id, ok) =>
        if !At(s, id, TargetMade) then None
        else if !ok then Some(Gone(s, id))
        else Some(MoveTo(s, id, Inserted).(table := s.table[id := Row(Running, false)]))
      case Launch(id) =>
        if !At(s, id, Inserted) then None
        else Some(MoveTo(s, id, Executing).(book := Activate(s.book, id)))
      case Cancel(id) => if id in s.book.active then Some(s.(cancelled := s.cancelled + {id})) else Some(s)
      case Finish(id, status, ok) =>
        // Written with a context of its own, so a cancelled run still records its outcome.
        if !At(s, id, Executing) || status == Running then None
        else Some(MoveTo(s, id, Ending).(table := if ok then s.table[id := Row(status, true)] else s.table))
      case Leave(id) => if !At(s, id, Ending) then None else Some(Gone(s, id))
      case Crash => Some(s.(serving := false, book := EMPTY, threads := map[], cancelled := {}))
      case Restart => None
  }

  function Run(actions: seq<Action>): Option<State> {
    if actions == [] then Some(INITIAL)
    else match Run(actions[..|actions| - 1])
         case None => None
         case Some(s) => Apply(s, actions[|actions| - 1])
  }

  ghost function InFlight(s: State): map<string, string> {
    map id | id in s.threads :: s.threads[id].snapshot
  }

  ghost predicate InStep(s: State, id: string)
    requires id in s.threads
  {
    match s.threads[id].point
    case Reserved => id !in s.table
    case TargetMade => id !in s.table
    case _ => id in s.table && (s.threads[id].point != Ending ==> s.table[id].status == Running)
  }

  ghost predicate Invariant(s: State) {
    && Accurate(s.book, InFlight(s))
    && s.threads.Keys <= s.issued && s.table.Keys <= s.issued
    && (forall id | id in s.table :: s.table[id].ended <==> s.table[id].status != Running)
    && (forall id | id in s.threads :: InStep(s, id))
    && (!s.serving ==> s.threads == map[])
  }

  lemma LeavingKeepsBook(s: State, id: string)
    requires Accurate(s.book, InFlight(s)) && id in s.threads
    ensures Accurate(Gone(s, id).book, InFlight(Gone(s, id)))
  {
    ReleaseKeepsAccurate(s.book, InFlight(s), id);
    assert InFlight(Gone(s, id)) == InFlight(s) - {id};
  }

  lemma MovingKeepsBook(s: State, id: string, point: Point)
    requires id in s.threads
    ensures InFlight(MoveTo(s, id, point)) == InFlight(s)
  {
  }

  lemma BookStaysAccurate(s: State, a: Action)
    requires Invariant(s) && Apply(s, a).Some?
    ensures Accurate(Apply(s, a).value.book, InFlight(Apply(s, a).value))
  {
    if s.serving {
      match a {
        case Start(work, snapshot, id) =>
          if Reserve(s.book, snapshot, id).Some? {
            ReserveKeepsAccurate(s.book, InFlight(s), snapshot, id);
            assert InFlight(Apply(s, a).value) == InFlight(s)[id := snapshot];
          }
        case MakeTarget(id, ok) => LeavingKeepsBook(s, id); MovingKeepsBook(s, id, TargetMade);
        case Insert(id, ok) => LeavingKeepsBook(s, id); MovingKeepsBook(s, id, Inserted);
        case Launch(id) => MovingKeepsBook(s, id, Executing);
        case Finish(id, status, ok) => MovingKeepsBook(s, id, Ending);
        case Leave(id) => LeavingKeepsBook(s, id);
        case Crash => assert InFlight(Apply(s, a).value) == map[];
        case Cancel(id) =>
        case Restart =>
      }
    }
  }

  lemma ApplyKeepsInvariant(s: State, a: Action)
    requires Invariant(s) && Apply(s, a).Some?
    ensures Invariant(Apply(s, a).value)
  {
    BookStaysAccurate(s, a);
    RowsStayConsistent(s, a);
    ThreadsStayInStep(s, a);
  }

  lemma RowsStayConsistent(s: State, a: Action)
    requires Invariant(s) && Apply(s, a).Some?
    ensures var s' := Apply(s, a).value;
            && s'.threads.Keys <= s'.issued && s'.table.Keys <= s'.issued
            && forall id | id in s'.table :: s'.table[id].ended <==> s'.table[id].status != Running
  {
    var s' := Apply(s, a).value;
    forall id | id in s'.table ensures s'.table[id].ended <==> s'.table[id].status != Running {
      if id in s.threads { assert InStep(s, id); }
    }
  }

  lemma ThreadsStayInStep(s: State, a: Action)
    requires Invariant(s) && Apply(s, a).Some?
    ensures forall id | id in Apply(s, a).value.threads :: InStep(Apply(s, a).value, id)
  {
    var s' := Apply(s, a).value;
    forall id | id in s'.threads ensures InStep(s', id) {
      if id in s.threads { assert InStep(s, id); }
    }
  }

  lemma {:induction false} InvariantHolds(actions: seq<Action>)
    requires Run(actions).Some?
    ensures Invariant(Run(actions).value)
  {
    if actions == [] {
      assert InFlight(INITIAL) == map[];
    } else {
      InvariantHolds(actions[..|actions| - 1]);
      ApplyKeepsInvariant(Run(actions[..|actions| - 1]).value, actions[|actions| - 1]);
    }
  }

  /** Extractions and database replays together: at most one run per snapshot is in flight, and with
      none in flight no reservation is left. */
  lemma OneRunPerSnapshot(actions: seq<Action>)
    requires Run(actions).Some?
    ensures var s := Run(actions).value;
            && Accurate(s.book, InFlight(s))
            && (forall i, j | i in s.threads && j in s.threads && s.threads[i].snapshot == s.threads[j].snapshot ::
                  i == j)
            && (s.threads == map[] ==> s.book == EMPTY)
  {
    InvariantHolds(actions);
    var s := Run(actions).value;
    AccurateMeansExclusive(s.book, InFlight(s));
    forall i, j | i in s.threads && j in s.threads && s.threads[i].snapshot == s.threads[j].snapshot ensures i == j {
      assert InFlight(s)[i] == InFlight(s)[j];
    }
    if s.threads == map[] { assert InFlight(s) == map[]; }
  }

  /** A row has ended iff it is not running, its outcome is never overwritten, and after a restart no
      row is running. */
  lemma OutcomesAreFinal(actions: seq<Action>, a: Action, id: string)
    requires Run(actions).Some? && Run(actions + [a]).Some? && id in Run(actions).value.table
    ensures var before, s' := Run(actions).value.table[id], Run(actions + [a]).value;
            && id in s'.table
            && (before.ended <==> before.status != Running)
            && (before.ended ==> s'.table[id] == before)
            && (a.Restart? ==> s'.table[id].ended)
  {
    InvariantHolds(actions);
    assert (actions + [a])[..|actions|] == actions;
    if id in Run(actions).value.threads { assert InStep(Run(actions).value, id); }
  }

  // ----- what a run can count on -----

  lemma RunSnoc(actions: seq<Action>, a: Action)
    requires Run(actions).Some?
    ensures Run(actions + [a]) == Apply(Run(actions).value, a)
  {
    assert (actions + [a])[..|actions|] == actions;
  }

  ghost predicate SnapshotIsBusy(s: State, snapshot: string) {
    exists id :: id in s.threads && s.threads[id].snapshot == snapshot
  }

  /** A restore of either kind starts if and only if none of its snapshot is in flight; a refusal
      changes nothing. */
  lemma StartIsGranted(actions: seq<Action>, work: Work, snapshot: string, id: string)
    requires Run(actions).Some? && Run(actions).value.serving && id !in Run(actions).value.issued
    ensures var s := Run(actions).value;
            var s' := Apply(s, Start(work, snapshot, id));
            && s'.Some?
            && (if SnapshotIsBusy(s, snapshot) then s'.value == s
                else s'.value.threads == s.threads[id := Thread(snapshot, work, Reserved)])
  {
    InvariantHolds(actions);
    var s := Run(actions).value;
    assert snapshot in s.book.holder ==> s.book.holder[snapshot] in InFlight(s);
    assert forall i | i in s.threads :: InFlight(s)[i] in s.book.holder;
  }

  /** From every reachable state: a restore of a free snapshot, once its directory and its row are made,
      executes and can be cancelled. */
  lemma FreeSnapshotGetsUnderway(actions: seq<Action>, work: Work, snapshot: string, id: string)
    requires Run(actions).Some? && Run(actions).value.serving && id !in Run(actions).value.issued
    requires !SnapshotIsBusy(Run(actions).value, snapshot)
    ensures var t := Run(actions + [Start(work, snapshot, id)] + [MakeTarget(id, true)] + [Insert(id, true)]
                         + [Launch(id)]);
            && t.Some? && t.value.threads == Run(actions).value.threads[id := Thread(snapshot, work, Executing)]
            && t.value.table == Run(actions).value.table[id := Row(Running, false)]
            && id in t.value.book.active
  {
    var made := actions + [Start(work, snapshot, id)] + [MakeTarget(id, true)];
    StartIsGranted(actions, work, snapshot, id);
    RunSnoc(actions, Start(work, snapshot, id));
    RunSnoc(actions + [Start(work, snapshot, id)], MakeTarget(id, true));
    RunSnoc(made, Insert(id, true));
    RunSnoc(made + [Insert(id, true)], Launch(id));
  }

  /** An executing run can end with any outcome, cancelled or not, and its row says so unless the write
      is lost. */
  lemma ExecutingCanEnd(actions: seq<Action>, id: string, status: Status, ok: bool)
    requires Run(actions).Some? && At(Run(actions).value, id, Executing) && status != Running
    ensures var s := Run(actions).value;
            var t := Apply(s, Finish(id, status, ok));
            && t.Some? && At(t.value, id, Ending)
            && t.value.table == (if ok then s.table[id := Row(status, true)] else s.table)
  {
    InvariantHolds(actions);
  }

  /** A run that has ended can leave, and then its snapshot is free again. */
  lemma LeavingFreesSnapshot(actions: seq<Action>, id: string)
    requires Run(actions).Some? && At(Run(actions).value, id, Ending)
    ensures var s := Run(actions).value;
            var t := Apply(s, Leave(id));
            && t.Some? && t.value.threads == s.threads - {id} && t.value.table == s.table
            && !SnapshotIsBusy(t.value, s.threads[id].snapshot)
  {
    OneRunPerSnapshot(actions);
    InvariantHolds(actions);
  }

  /** The runs that can be cancelled are exactly those that have been launched and have not left. */
  ghost predicate CancellableIsLaunched(s: State) {
    forall id :: id in s.book.active <==> At(s, id, Executing) || At(s, id, Ending)
  }

  lemma {:induction false} LaunchedCanBeCancelled(actions: seq<Action>)
    requires Run(actions).Some?
    ensures CancellableIsLaunched(Run(actions).value)
  {
    if actions != [] {
      LaunchedCanBeCancelled(actions[..|actions| - 1]);
      InvariantHolds(actions[..|actions| - 1]);
      ApplyKeepsLaunched(Run(actions[..|actions| - 1]).value, actions[|actions| - 1]);
    }
  }

  lemma ApplyKeepsLaunched(s: State, a: Action)
    requires s.threads.Keys <= s.issued && CancellableIsLaunched(s) && Apply(s, a).Some?
    ensures CancellableIsLaunched(Apply(s, a).value)
  {
  }

  /** Before it executes each step of a run may succeed or fail, and a failure takes the run back. */
  lemma SetUpCanFail(actions: seq<Action>, id: string)
    requires Run(actions).Some?
    ensures var s := Run(actions).value;
            && (At(s, id, Reserved) ==>
                  Apply(s, MakeTarget(id, true)).Some?
                  && var t := Apply(s, MakeTarget(id, false)); t.Some? && t.value.threads == s.threads - {id})
            && (At(s, id, TargetMade) ==>
                  Apply(s, Insert(id, true)).Some?
                  && var t := Apply(s, Insert(id, false)); t.Some? && t.value.threads == s.threads - {id})
            && (At(s, id, Inserted) ==> Apply(s, Launch(id)).Some?)
  {
    InvariantHolds(actions);
  }
}
