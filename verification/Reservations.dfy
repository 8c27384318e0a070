/** The bookkeeping that the backup runner and the restore runner share in design: which run holds
    a project (or a snapshot), and which runs can be cancelled. */
module Reservations {
  import opened Wrappers

  /** `holder` is `byProject` or `bySnapshot`; `active` are the runs with a cancel function. */
  datatype Book = Book(holder: map<string, string>, active: set<string>)

  const EMPTY := Book(map[], {})

  function Reserve(b: Book, key: string, id: string): Option<Book> {
    if key in b.holder then None else Some(b.(holder := b.holder[key := id]))
  }

  function Activate(b: Book, id: string): Book {
    b.(active := b.active + {id})
  }

  function Release(b: Book, key: string, id: string): Book {
    Book(if key in b.holder && b.holder[key] == id then b.holder - {key} else b.holder, b.active - {id})
  }

  /** A context that can be cancelled once and for all. */
  class Context {
    var cancelled: bool

    constructor ()
      ensures !cancelled
    {
      cancelled := false;
    }
  }

  class Runner {
    var holder: map<string, string>
    var active: map<string, Context>

    function State(): Book
      reads this
    {
      Book(holder, active.Keys)
    }

    constructor ()
      ensures State() == EMPTY
    {
      holder, active := map[], map[];
    }

    /** The first critical section of Start: check and reserve in one. */
    method TryReserve(key: string, id: string) returns (busy: Option<string>)
      modifies this`holder
      ensures busy.None? <==> key !in old(holder)
      ensures busy.None? ==> Reserve(old(State()), key, id) == Some(State()) && holder == old(holder)[key := id]
      ensures busy.Some? ==> key in holder && busy.value == holder[key] && State() == old(State())
    {
      if key in holder {
        return Some(holder[key]);
      }
      holder := holder[key := id];
      return None;
    }

    method Register(id: string) returns (context: Context)
      modifies this`active
      ensures State() == Activate(old(State()), id)
      ensures fresh(context) && !context.cancelled && active == old(active)[id := context]
    {
      context := new Context();
      active := active[id := context];
    }

    /** Only a run that this process is executing can be cancelled. */
    method Cancel(id: string) returns (found: bool)
      modifies active.Values
      ensures found <==> id in active
      ensures found ==> active[id].cancelled
      ensures forall c: Context | c in active.Values && !(found && c == active[id]) :: c.cancelled == old(c.cancelled)
      ensures State() == old(State())
    {
      if id !in active {
        return false;
      }
      active[id].cancelled := true;
      return true;
    }

    method ReleaseRun(key: string, id: string)
      modifies this
      ensures State() == Release(old(State()), key, id)
      ensures active == old(active) - {id}
      ensures holder == if key in old(holder) && old(holder)[key] == id then old(holder) - {key} else old(holder)
    {
      active := active - {id};
      if key in holder && holder[key] == id {
        holder := holder - {key};
      }
    }
  }

  /** The runs in flight, each with the key it works on, are exactly what the book says. */
  ghost predicate Accurate(b: Book, inFlight: map<string, string>) {
    && b.active <= inFlight.Keys
    && (forall key | key in b.holder :: b.holder[key] in inFlight && inFlight[b.holder[key]] == key)
    && (forall id | id in inFlight :: inFlight[id] in b.holder && b.holder[inFlight[id]] == id)
  }

  /** Then no two runs in flight share a key, and an idle runner has an empty book. */
  lemma AccurateMeansExclusive(b: Book, inFlight: map<string, string>)
    requires Accurate(b, inFlight)
    ensures forall i, j | i in inFlight && j in inFlight && inFlight[i] == inFlight[j] :: i == j
    ensures inFlight == map[] ==> b == EMPTY
  {
    if inFlight == map[] {
      assert forall key :: key !in b.holder;
    }
  }

  lemma ReserveKeepsAccurate(b: Book, inFlight: map<string, string>, key: string, id: string)
    requires Accurate(b, inFlight) && id !in inFlight && Reserve(b, key, id).Some?
    ensures Accurate(Reserve(b, key, id).value, inFlight[id := key])
  {
  }

  lemma ReleaseKeepsAccurate(b: Book, inFlight: map<string, string>, id: string)
    requires Accurate(b, inFlight) && id in inFlight
    ensures Accurate(Release(b, inFlight[id], id), inFlight - {id})
  {
  }
}
