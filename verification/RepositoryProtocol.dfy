/** internal/repositories/service.go: Create and Delete as steps over two stores that share no
    transaction, interleaved with other calls and cut off by failures and crashes at any point. */
module RepositoryProtocol {
  import opened Wrappers

  type Id = nat

  datatype CreateStep = Allocated | PasswordStored | RollingBack

  datatype DeleteStep = Checking | Purged | RowGone

  /** A call in progress. */
  datatype Call = Creating(id: Id, createStep: CreateStep) | Deleting(id: Id, deleteData: bool, deleteStep: DeleteStep)

  /** The repositories table, the secret store, the calls in progress, and history: every id ever
      handed out, the locations purged, the rows removed by a Delete that asked for the data, and the
      ids whose clean-up was lost: a deletion of the password failed, or the process stopped with the
      deletion still owed, and no later deletion made up for it. */
  datatype State = State(rows: set<Id>, secrets: set<Id>, calls: map<nat, Call>, issued: set<Id>,
                         purged: set<Id>, removedWithData: set<Id>, lost: set<Id>)

  const INITIAL := State({}, {}, map[], {}, {}, {}, {})

  /** One step of one call; `ok` is whether the underlying operation succeeded. Ids are uuids, so a
      new one has never been used. */
  datatype Action =
    | BeginCreate(call: nat, id: Id)
    | StorePassword(call: nat, ok: bool)
    | InsertRow(call: nat, ok: bool)
    | RollBack(call: nat, ok: bool)
    | BeginDelete(call: nat, id: Id, deleteData: bool)
    | Purge(call: nat, ok: bool)
    | DeleteRow(call: nat, ok: bool)
    | DeletePassword(call: nat, ok: bool)
    | Crash

  function Finished(s: State, call: nat): State {
    s.(calls := s.calls - {call})
  }

  /** A password is deleted; `ok` is false if that failed, and then it is left behind if it was there. */
  function Forget(s: State, call: nat, ok: bool): State
    requires call in s.calls
  {
    var id := s.calls[call].id;
    if ok then Finished(s, call).(secrets := s.secrets - {id}, lost := s.lost - {id})
    else Finished(s, call).(lost := s.lost + {id} * s.secrets)
  }

  /** The ids whose password a call in progress has stored or still has to delete. */
  function Owed(s: State): set<Id> {
    set c | c in s.calls && HoldsPassword(s.calls[c]) :: s.calls[c].id
  }

  /** The state after an action, or None if no call is at the point where it happens. */
  function Apply(s: State, a: Action): Option<State> {
    match a
    case BeginCreate(call, id) =>
      if call in s.calls || id in s.issued then None
      else Some(s.(calls := s.calls[call := Creating(id, Allocated)], issued := s.issued + {id}))
    case StorePassword(call, ok) =>
      if call !in s.calls || !s.calls[call].Creating? || s.calls[call].createStep != Allocated then None
      else if !ok then Some(Finished(s, call))
      else Some(s.(secrets := s.secrets + {s.calls[call].id},
                   calls := s.calls[call := Creating(s.calls[call].id, PasswordStored)]))
    case InsertRow(call, ok) =>
      if call !in s.calls || !s.calls[call].Creating? || s.calls[call].createStep != PasswordStored then None
      else if !ok then Some(s.(calls := s.calls[call := Creating(s.calls[call].id, RollingBack)]))
      else Some(Finished(s, call).(rows := s.rows + {s.calls[call].id}))
    case RollBack(call, ok) =>
      if call !in s.calls || !s.calls[call].Creating? || s.calls[call].createStep != RollingBack then None
      else Some(Forget(s, call, ok))
    case BeginDelete(call, id, deleteData) =>
      if call in s.calls || id !in s.rows then None
      else Some(s.(calls := s.calls[call := Deleting(id, deleteData, Checking)]))
    case Purge(call, ok) =>
      if call !in s.calls || !s.calls[call].Deleting? || !s.calls[call].deleteData
         || s.calls[call].deleteStep != Checking then None
      else if !ok then Some(Finished(s, call))
      else Some(s.(purged := s.purged + {s.calls[call].id},
                   calls := s.calls[call := Deleting(s.calls[call].id, true, Purged)]))
    case DeleteRow(call, ok) =>
      if call !in s.calls || !s.calls[call].Deleting?
         || s.calls[call].deleteStep != (if s.calls[call].deleteData then Purged else Checking) then None
      else if !ok then Some(Finished(s, call))
      else
        var c := s.calls[call];
        Some(s.(rows := s.rows - {c.id},
                removedWithData := s.removedWithData + if c.deleteData && c.id in s.rows then {c.id} else {},
                calls := s.calls[call := c.(deleteStep := RowGone)]))
    case DeletePassword(call, ok) =>
      if call !in s.calls || !s.calls[call].Deleting? || s.calls[call].deleteStep != RowGone then None
      else Some(Forget(s, call, ok))
    case Crash => Some(s.(calls := map[], lost := s.lost + Owed(s) * s.secrets))
  }

  function Run(actions: seq<Action>): Option<State> {
    if actions == [] then Some(INITIAL)
    else match Run(actions[..|actions| - 1])
         case None => None
         case Some(s) => Apply(s, actions[|actions| - 1])
  }

  /** Every repository can be opened: its password is in the secret store. */
  predicate EveryRowHasPassword(s: State) {
    s.rows <= s.secrets
  }

  /** A creation owns its id alone: it has no row yet, and no other call knows the id. */
  ghost predicate CreationsAreExclusive(s: State) {
    && (forall c | c in s.calls :: s.calls[c].id in s.issued)
    && (forall c | c in s.calls && s.calls[c].Creating? :: s.calls[c].id !in s.rows && s.calls[c].id !in s.lost)
    && (forall c, d | c in s.calls && d in s.calls && c != d && s.calls[c].Creating? :: s.calls[c].id != s.calls[d].id)
  }

  ghost predicate StepsMatchStores(s: State) {
    forall c | c in s.calls ::
      match s.calls[c]
      case Creating(id, step) => step != Allocated ==> id in s.secrets
      case Deleting(id, deleteData, step) =>
        (step == RowGone ==> id !in s.rows) && (deleteData && step != Checking ==> id in s.purged)
  }

  /** A password without a row belongs to a call that is about to use or remove it. */
  ghost predicate Attended(s: State, id: Id) {
    exists c :: c in s.calls && s.calls[c].id == id && HoldsPassword(s.calls[c])
  }

  predicate HoldsPassword(c: Call) {
    if c.Creating? then c.createStep != Allocated else c.deleteStep == RowGone
  }

  ghost predicate Invariant(s: State) {
    && EveryRowHasPassword(s)
    && s.secrets <= s.issued
    && CreationsAreExclusive(s)
    && StepsMatchStores(s)
    && s.removedWithData <= s.purged
    && s.lost <= s.secrets - s.rows
    && (forall id | id in s.secrets - s.rows :: id in s.lost || Attended(s, id))
  }

  lemma CallMoved(s: State, s': State, call: nat, id: Id)
    requires call in s.calls && s.calls[call].id == id
    requires forall c | c in s.calls && c != call :: c in s'.calls && s'.calls[c] == s.calls[c]
    ensures forall other | other != id && Attended(s, other) :: Attended(s', other)
  {
    forall other | other != id && Attended(s, other) ensures Attended(s', other) {
      var c :| c in s.calls && s.calls[c].id == other && HoldsPassword(s.calls[c]);
      assert s'.calls[c].id == other;
    }
  }

  lemma OtherCallMoved(s: State, s': State, call: nat)
    requires call in s.calls && !HoldsPassword(s.calls[call])
    requires forall c | c in s.calls && c != call :: c in s'.calls && s'.calls[c] == s.calls[c]
    ensures forall id | Attended(s, id) :: Attended(s', id)
  {
    forall id | Attended(s, id) ensures Attended(s', id) {
      var c :| c in s.calls && s.calls[c].id == id && HoldsPassword(s.calls[c]);
      assert s'.calls[c].id == id;
    }
  }

  lemma CreateStepKeeps(s: State, a: Action)
    requires Invariant(s) && Apply(s, a).Some?
    requires a.StorePassword? || a.InsertRow? || a.RollBack?
    ensures Invariant(Apply(s, a).value)
  {
    var s' := Apply(s, a).value;
    var id := s.calls[a.call].id;
    CallMoved(s, s', a.call, id);
    assert a.call in s'.calls && HoldsPassword(s'.calls[a.call]) ==> Attended(s', id);
    if !HoldsPassword(s.calls[a.call]) {
      OtherCallMoved(s, s', a.call);
    }
  }

  lemma DeleteStepKeeps(s: State, a: Action)
    requires Invariant(s) && Apply(s, a).Some?
    requires a.Purge? || a.DeleteRow? || a.DeletePassword?
    ensures Invariant(Apply(s, a).value)
  {
    var s' := Apply(s, a).value;
    var id := s.calls[a.call].id;
    CallMoved(s, s', a.call, id);
    assert a.call in s'.calls && HoldsPassword(s'.calls[a.call]) ==> Attended(s', id);
    if !HoldsPassword(s.calls[a.call]) {
      OtherCallMoved(s, s', a.call);
    }
  }

  lemma BeginKeeps(s: State, a: Action)
    requires Invariant(s) && Apply(s, a).Some?
    requires a.BeginCreate? || a.BeginDelete?
    ensures Invariant(Apply(s, a).value)
  {
    var s' := Apply(s, a).value;
    forall id | Attended(s, id) ensures Attended(s', id) {
      var c :| c in s.calls && s.calls[c].id == id && HoldsPassword(s.calls[c]);
      assert s'.calls[c].id == id;
    }
  }

  /** In every state that any interleaving of calls, failures and crashes can reach. */
  lemma {:induction false} InvariantHolds(actions: seq<Action>)
    requires Run(actions).Some?
    ensures Invariant(Run(actions).value)
  {
    if actions != [] {
      var front, a := actions[..|actions| - 1], actions[|actions| - 1];
      InvariantHolds(front);
      var s := Run(front).value;
      match a {
        case BeginCreate(_, _) => BeginKeeps(s, a);
        case BeginDelete(_, _, _) => BeginKeeps(s, a);
        case StorePassword(_, _) => CreateStepKeeps(s, a);
        case InsertRow(_, _) => CreateStepKeeps(s, a);
        case RollBack(_, _) => CreateStepKeeps(s, a);
        case Crash =>
        case _ => DeleteStepKeeps(s, a);
      }
    }
  }

  /** Each row has its password at every step, and a Delete that was asked for the data never
      removed a row before its purge had succeeded. */
  lemma NoRowWithoutPassword(actions: seq<Action>)
    requires Run(actions).Some?
    ensures EveryRowHasPassword(Run(actions).value)
    ensures Run(actions).value.removedWithData <= Run(actions).value.purged
  {
    InvariantHolds(actions);
  }

  /** In every reachable state, whatever failed or crashed before: the passwords without a row are
      those whose clean-up was lost and those that a call in progress still answers for. */
  lemma OrphansAreLostOrAttended(actions: seq<Action>, id: Id)
    requires Run(actions).Some?
    ensures var s := Run(actions).value;
            id in s.secrets - s.rows <==> id in s.lost || (Attended(s, id) && id in s.secrets && id !in s.rows)
  {
    InvariantHolds(actions);
  }

  /** With nothing in progress the passwords are exactly those of the rows if and only if no clean-up
      was lost, and the ones left over are exactly the lost ones. */
  lemma NoOrphanedPasswords(actions: seq<Action>)
    requires Run(actions).Some? && Run(actions).value.calls == map[]
    ensures var s := Run(actions).value;
            && s.secrets - s.rows == s.lost
            && (s.secrets == s.rows <==> s.lost == {})
  {
    InvariantHolds(actions);
    var s := Run(actions).value;
    forall id | id in s.secrets - s.rows ensures id in s.lost {
      assert !Attended(s, id);
    }
    assert s.secrets == s.rows + s.lost;
  }

  /** A clean-up is lost by a failed deletion or a crash and by nothing else, and only of an id that a
      call in progress answers for. */
  lemma OnlyFailuresLosePasswords(s: State, a: Action, id: Id)
    requires Apply(s, a).Some? && id in Apply(s, a).value.lost && id !in s.lost
    ensures a.Crash? || ((a.RollBack? || a.DeletePassword?) && !a.ok)
    ensures id in s.secrets && Attended(s, id)
  {
    if a.Crash? {
      var c :| c in s.calls && HoldsPassword(s.calls[c]) && s.calls[c].id == id;
    }
  }

  /** A lost clean-up does leave a password behind: the roll-back of a failed Create ignores the error
      of its own deletion, a Delete may fail after its row is gone, and either may be cut off. */
  lemma EveryLossOrphansPassword(actions: seq<Action>, a: Action, call: nat)
    requires Run(actions).Some? && Run(actions + [a]).Some?
    requires var s := Run(actions).value;
             && call in s.calls && HoldsPassword(s.calls[call])
             && s.calls[call].id in s.secrets && s.calls[call].id !in s.rows
             && (a.Crash? || ((a.RollBack? || a.DeletePassword?) && !a.ok && a.call == call))
    ensures var s' := Run(actions + [a]).value;
            Run(actions).value.calls[call].id in s'.secrets - s'.rows && Run(actions).value.calls[call].id in s'.lost
  {
    assert (actions + [a])[..|actions|] == actions;
    var s := Run(actions).value;
    assert s.calls[call].id in Owed(s);
  }

  /** Such a run: a Create whose insert and roll-back both fail. */
  lemma LostRollBackOrphansPassword()
    ensures var s := Run([BeginCreate(0, 7), StorePassword(0, true), InsertRow(0, false), RollBack(0, false)]);
            s.Some? && s.value.calls == map[] && 7 in s.value.secrets && 7 !in s.value.rows
  {
    var a := [BeginCreate(0, 7), StorePassword(0, true), InsertRow(0, false), RollBack(0, false)];
    assert a[..3] == [BeginCreate(0, 7), StorePassword(0, true), InsertRow(0, false)];
    assert a[..3][..2] == [BeginCreate(0, 7), StorePassword(0, true)];
    assert a[..3][..2][..1] == [BeginCreate(0, 7)];
    assert Run([BeginCreate(0, 7)]) == Apply(INITIAL, BeginCreate(0, 7));
    assert Run(a[..3][..2]) == Apply(Run([BeginCreate(0, 7)]).value, StorePassword(0, true));
  }

  /** In every state calls can begin beside those in progress, and none in progress is ever stuck:
      its next step can succeed and can fail. */
  lemma CallsCanGoOn(s: State, call: nat, id: Id, deleteData: bool)
    ensures call !in s.calls && id !in s.issued ==> Apply(s, BeginCreate(call, id)).Some?
    ensures call !in s.calls && id in s.rows ==> Apply(s, BeginDelete(call, id, deleteData)).Some?
    ensures call in s.calls ==> CanGoOn(s, call, true) && CanGoOn(s, call, false)
  {
  }

  predicate CanGoOn(s: State, call: nat, ok: bool)
    requires call in s.calls
  {
    match s.calls[call]
    case Creating(_, Allocated) => Apply(s, StorePassword(call, ok)).Some?
    case Creating(_, PasswordStored) => Apply(s, InsertRow(call, ok)).Some?
    case Creating(_, RollingBack) => Apply(s, RollBack(call, ok)).Some?
    case Deleting(_, deleteData, Checking) =>
      if deleteData then Apply(s, Purge(call, ok)).Some? else Apply(s, DeleteRow(call, ok)).Some?
    case Deleting(_, deleteData, Purged) => deleteData ==> Apply(s, DeleteRow(call, ok)).Some?
    case Deleting(_, _, RowGone) => Apply(s, DeletePassword(call, ok)).Some?
  }

  // ----- the calls themselves -----

  ghost predicate Reaches(history: seq<Action>, s: State) {
    Run(history) == Some(s)
  }

  lemma ReachesNext(history: seq<Action>, s: State, a: Action)
    requires Reaches(history, s) && Apply(s, a).Some?
    ensures Reaches(history + [a], Apply(s, a).value)
  {
    assert (history + [a])[..|history|] == history;
  }

  lemma ReachableStores(history: seq<Action>, s: State)
    requires Reaches(history, s)
    ensures s.rows <= s.secrets <= s.issued
    ensures s.lost <= s.secrets - s.rows
    ensures s.calls == map[] ==> s.secrets - s.rows == s.lost
  {
    InvariantHolds(history);
    if s.calls == map[] { NoOrphanedPasswords(history); }
  }

  /** The given call is the only one in progress. */
  ghost predicate Only(s: State, c: Call) {
    s.calls == map[0 := c]
  }

  lemma OnlyFinished(s: State, c: Call)
    requires Only(s, c)
    ensures Finished(s, 0).calls == map[]
  {
  }

  datatype Deletion = Missing | NotPurged | RowKept | PasswordKept | Deleted

  /** The service making one call at a time; `history` records its steps and `at` the state they
      reach, so that every call is a path of the protocol and what holds there holds after it. */
  class RepositoryService {
    var rows: set<Id>
    var secrets: set<Id>
    ghost var history: seq<Action>
    ghost var at: State

    ghost predicate Valid()
      reads this
    {
      Reaches(history, at) && rows == at.rows && secrets == at.secrets && at.calls == map[]
    }

    constructor ()
      ensures Valid() && rows == {} && secrets == {} && history == []
    {
      rows, secrets, history, at := {}, {}, [], INITIAL;
    }

    /** Adds a step to the history. */
    ghost method Note(a: Action)
      requires Reaches(history, at) && Apply(at, a).Some?
      modifies this`history, this`at
      ensures Reaches(history, at) && at == Apply(old(at), a).value
      ensures old(history) <= history
    {
      ReachesNext(history, at, a);
      history, at := history + [a], Apply(at, a).value;
    }

    /** The password first, the row second; a failed insert takes the password back, if it can. Whether
        the password can be stored, the row inserted and the password taken back is given. */
    method Create(id: Id, stored: bool, inserted: bool, takenBack: bool) returns (created: bool)
      requires Valid() && id !in at.issued
      modifies this
      ensures Valid() && old(history) <= history
      ensures created <==> stored && inserted
      ensures id in secrets <==> stored && (inserted || !takenBack)
      ensures rows == old(rows) + if created then {id} else {}
      ensures old(secrets) <= secrets <= old(secrets) + {id}
      ensures at.lost == old(at.lost) + if !created && id in secrets then {id} else {}
      ensures secrets - rows == at.lost
      ensures rows <= secrets
    {
      ReachableStores(history, at);
      Note(BeginCreate(0, id));
      assert Only(at, Creating(id, Allocated));
      OnlyFinished(at, Creating(id, Allocated));
      Note(StorePassword(0, stored));
      if !stored {
        return false;
      }
      secrets := secrets + {id};
      created := InsertOrRollBack(id, inserted, takenBack);
    }

    method InsertOrRollBack(id: Id, inserted: bool, takenBack: bool) returns (created: bool)
      requires Reaches(history, at) && rows == at.rows && secrets == at.secrets
      requires Only(at, Creating(id, PasswordStored))
      requires id in secrets && id !in at.lost
      modifies this
      ensures Valid() && old(history) <= history
      ensures rows == old(rows) + if created then {id} else {}
      ensures created == inserted
      ensures secrets == old(secrets) - if !inserted && takenBack then {id} else {}
      ensures at.lost == old(at.lost) + if !created && id in secrets then {id} else {}
      ensures rows <= secrets
    {
      OnlyFinished(at, Creating(id, PasswordStored));
      created := inserted;
      Note(InsertRow(0, created));
      if created {
        rows := rows + {id};
      } else {
        assert Only(at, Creating(id, RollingBack));
        OnlyFinished(at, Creating(id, RollingBack));
        Note(RollBack(0, takenBack));
        if takenBack {
          secrets := secrets - {id};
        }
      }
      ReachableStores(history, at);
    }

    /** The data first if it was asked for, the row second, the password last. Whether the row can be
        read, the data purged, and row and password deleted is given. */
    method Delete(id: Id, deleteData: bool, readable: bool, purged: bool, rowDeleted: bool, passwordDeleted: bool)
      returns (r: Deletion)
      requires Valid()
      modifies this
      ensures Valid() && old(history) <= history
      ensures r == Missing <==> id !in old(rows) || !readable
      ensures r == NotPurged <==> r != Missing && deleteData && !purged
      ensures r == RowKept <==> r != Missing && r != NotPurged && !rowDeleted
      ensures r == PasswordKept <==> r != Missing && r != NotPurged && rowDeleted && !passwordDeleted
      ensures rows == old(rows) - if r == PasswordKept || r == Deleted then {id} else {}
      ensures secrets == old(secrets) - if r == Deleted then {id} else {}
      ensures at.purged == old(at.purged) + if deleteData && r != Missing && r != NotPurged then {id} else {}
      ensures at.lost == old(at.lost) + if r == PasswordKept then {id} else {}
      ensures secrets - rows == at.lost
      ensures rows <= secrets
    {
      ReachableStores(history, at);
      if id !in rows || !readable {
        return Missing;
      }
      Note(BeginDelete(0, id, deleteData));
      assert Only(at, Deleting(id, deleteData, Checking));
      OnlyFinished(at, Deleting(id, deleteData, Checking));
      if deleteData {
        Note(Purge(0, purged));
        if !purged {
          return NotPurged;
        }
        assert Only(at, Deleting(id, deleteData, Purged));
      }
      r := RemoveRow(id, deleteData, rowDeleted, passwordDeleted);
    }

    method RemoveRow(id: Id, deleteData: bool, rowDeleted: bool, passwordDeleted: bool) returns (r: Deletion)
      requires Reaches(history, at) && rows == at.rows && secrets == at.secrets
      requires Only(at, Deleting(id, deleteData, if deleteData then Purged else Checking))
      requires id in secrets
      modifies this
      ensures Valid() && old(history) <= history
      ensures r == if !rowDeleted then RowKept else if !passwordDeleted then PasswordKept else Deleted
      ensures rows == old(rows) - if r == RowKept then {} else {id}
      ensures secrets == old(secrets) - if r == Deleted then {id} else {}
      ensures at.purged == old(at.purged) && rows <= secrets
      ensures at.lost == old(at.lost) - (if r == Deleted then {id} else {}) + if r == PasswordKept then {id} else {}
    {
      OnlyFinished(at, at.calls[0]);
      Note(DeleteRow(0, rowDeleted));
      if !rowDeleted {
        ReachableStores(history, at);
        return RowKept;
      }
      rows := rows - {id};
      assert Only(at, Deleting(id, deleteData, RowGone));
      OnlyFinished(at, Deleting(id, deleteData, RowGone));
      Note(DeletePassword(0, passwordDeleted));
      ReachableStores(history, at);
      if !passwordDeleted {
        return PasswordKept;
      }
      secrets := secrets - {id};
      return Deleted;
    }
  }
}
