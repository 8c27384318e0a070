/** internal/secrets/store.go: the encrypted secret store, and its refinement to a plain map
    behind a passphrase. Operations are atomic; each may be hit by a database failure. */
module SecretStore {
  import opened AssociatedData
  import opened IdealCrypto
  import opened Text
  import opened Wrappers

  const MINIMUM_PASSPHRASE_LENGTH := 12

  predicate ValidKind(kind: string) {
    kind in {"system", "repository", "database", "notification", "project"}
  }

  datatype Error = Locked | NotInitialized | AlreadyInitialized | InvalidPassphrase | NotFound | InvalidKind
                 | EmptyName | PassphraseTooShort | DecryptFailed | DatabaseFailed

  datatype Response = Done | Value(text: string) | Stored(id: string) | Failed(error: Error)

  // ----- the abstract store -----

  datatype Entry = Entry(id: string, value: string, createdAt: int)

  /** What a caller sees: whether and under which passphrase the store is initialised, what it
      holds under each (kind, name), and whether it is unlocked. */
  datatype Abstract = Abstract(passphrase: Option<string>, contents: map<(string, string), Entry>, unlocked: bool)

  /** `newId` is the identifier drawn for an entry that does not exist yet. */
  datatype Op =
    | Initialize(passphrase: string)
    | Unlock(passphrase: string)
    | Lock
    | Put(kind: string, name: string, value: string, newId: string, now: int)
    | Get(kind: string, name: string)
    | Delete(kind: string, name: string)
    | ChangeMasterPassphrase(current: string, next: string)
    | RotateDataKey(passphrase: string)

  /** The outcome of checking a passphrase against the one in force. */
  function CheckPassphrase(a: Abstract, passphrase: string): Option<Error> {
    if a.passphrase.None? then Some(NotInitialized)
    else if a.passphrase.value != passphrase then Some(InvalidPassphrase)
    else None
  }

  function Ideal(a: Abstract, op: Op): (Abstract, Response) {
    match op
    case Initialize(passphrase) =>
      if |passphrase| < MINIMUM_PASSPHRASE_LENGTH then (a, Failed(PassphraseTooShort))
      else if a.passphrase.Some? then (a, Failed(AlreadyInitialized))
      else (Abstract(Some(passphrase), a.contents, true), Done)
    case Unlock(passphrase) =>
      var refusal := CheckPassphrase(a, passphrase);
      if refusal.Some? then (a, Failed(refusal.value)) else (a.(unlocked := true), Done)
    case Lock => (a.(unlocked := false), Done)
    case Put(kind, name, value, newId, now) =>
      if !ValidKind(kind) then (a, Failed(InvalidKind))
      else if name == "" then (a, Failed(EmptyName))
      else if !a.unlocked then (a, Failed(Locked))
      else
        var entry := if (kind, name) in a.contents then a.contents[(kind, name)].(value := value)
                     else Entry(newId, value, now);
        (a.(contents := a.contents[(kind, name) := entry]), Stored(entry.id))
    case Get(kind, name) =>
      if !a.unlocked then (a, Failed(Locked))
      else if (kind, name) !in a.contents then (a, Failed(NotFound))
      else (a, Value(a.contents[(kind, name)].value))
    case Delete(kind, name) => (a.(contents := a.contents - {(kind, name)}), Done)
    case ChangeMasterPassphrase(current, next) =>
      if |next| < MINIMUM_PASSPHRASE_LENGTH then (a, Failed(PassphraseTooShort))
      else
        var refusal := CheckPassphrase(a, current);
        if refusal.Some? then (a, Failed(refusal.value)) else (a.(passphrase := Some(next)), Done)
    case RotateDataKey(passphrase) =>
      var refusal := CheckPassphrase(a, passphrase);
      if refusal.Some? then (a, Failed(refusal.value)) else (a.(unlocked := true), Done)
  }

  /** A database failure is reported and changes nothing; otherwise the ideal store is followed. */
  predicate Follows(a: Abstract, op: Op, faulty: bool, a': Abstract, r: Response) {
    (a', r) == Ideal(a, op) || (faulty && a' == a && r == Failed(DatabaseFailed))
  }

  // ----- the concrete state -----

  datatype KeyRecord = KeyRecord(salt: nat, params: KdfParams, wrapped: Sealed, nonce: nat, version: nat)

  datatype Row = Row(kind: string, name: string, ciphertext: Sealed, nonce: nat, keyVersion: nat, createdAt: int)

  /** The data key that a passphrase unwraps. */
  function Unwrap(record: KeyRecord, passphrase: string): (key: Option<Key>)
    ensures key.Some? ==> key.value.Raw?
  {
    match Open(Derived(passphrase, record.salt, record.params), record.wrapped, record.nonce, DekData(record.version))
    case Some(bytes) => Some(Raw(bytes))
    case None => None
  }

  ghost predicate OpensOnlyUnder(record: KeyRecord, passphrase: string) {
    Unwrap(record, passphrase).Some? && forall other | other != passphrase :: Unwrap(record, other) == None
  }

  /** The text a row opens to. */
  function Decrypt(dek: Key, id: string, row: Row): Option<string> {
    Open(dek, row.ciphertext, row.nonce, SecretData(id, row.kind, row.name))
  }

  predicate Addressed(rows: map<string, Row>, id: string, kind: string, name: string) {
    id in rows && rows[id].kind == kind && rows[id].name == name
  }

  predicate UniqueAddresses(rows: map<string, Row>) {
    forall i, j | i in rows && j in rows && rows[i].kind == rows[j].kind && rows[i].name == rows[j].name :: i == j
  }

  /** The key record was sealed under its own derived key and version. */
  predicate SoundRecord(k: KeyRecord) {
    && k.wrapped.key.Derived? && k.wrapped.key.salt == k.salt && k.wrapped.key.params == k.params
    && k.wrapped.nonce == k.nonce && k.wrapped.associatedData == DekData(k.version)
  }

  predicate SoundRow(id: string, row: Row, dek: Key, version: nat) {
    && Decrypt(dek, id, row).Some? && row.keyVersion == version
    && ValidKind(row.kind) && row.name != "" && '/' !in id
  }

  function DataKey(k: KeyRecord): Key
    requires SoundRecord(k)
  {
    Raw(k.wrapped.plain)
  }

  /** Every row opens under the wrapped data key, and the key in memory is that key or absent. */
  ghost predicate Sound(record: Option<KeyRecord>, rows: map<string, Row>, dek: Option<Key>, keyVersion: nat) {
    && UniqueAddresses(rows)
    && match record
       case None => rows == map[] && dek == None
       case Some(k) =>
         && SoundRecord(k)
         && (forall id | id in rows :: SoundRow(id, rows[id], DataKey(k), k.version))
         && (dek.Some? ==> dek.value == DataKey(k) && keyVersion == k.version)
  }

  /** The concrete state shows as the abstract one. */
  ghost predicate Represents(record: Option<KeyRecord>, rows: map<string, Row>, dek: Option<Key>, a: Abstract) {
    && (record.None? <==> a.passphrase.None?)
    && (record.Some? ==> SoundRecord(record.value) && a.passphrase == Some(record.value.wrapped.key.passphrase))
    && (a.unlocked <==> dek.Some?)
    && RowsRepresent(record, rows, a.contents)
  }

  ghost predicate RowsRepresent(record: Option<KeyRecord>, rows: map<string, Row>,
                                contents: map<(string, string), Entry>)
    requires record.Some? ==> SoundRecord(record.value)
  {
    && (forall id | id in rows ::
          && record.Some?
          && (rows[id].kind, rows[id].name) in contents
          && var e := contents[(rows[id].kind, rows[id].name)];
             e.id == id && e.createdAt == rows[id].createdAt
             && Decrypt(DataKey(record.value), id, rows[id]) == Some(e.value))
    && (forall k | k in contents :: Addressed(rows, contents[k].id, k.0, k.1))
  }

  // ----- what the writes do to the representation -----

  lemma RowWritten(record: Option<KeyRecord>, rows: map<string, Row>, dek: Option<Key>, keyVersion: nat, a: Abstract,
                   id: string, row: Row, value: string)
    requires Sound(record, rows, dek, keyVersion) && Represents(record, rows, dek, a) && record.Some?
    requires SoundRow(id, row, DataKey(record.value), record.value.version)
    requires Decrypt(DataKey(record.value), id, row) == Some(value)
    requires forall other | Addressed(rows, other, row.kind, row.name) :: other == id
    requires id in rows ==> Addressed(rows, id, row.kind, row.name)
    ensures Sound(record, rows[id := row], dek, keyVersion)
    ensures Represents(record, rows[id := row], dek,
                       a.(contents := a.contents[(row.kind, row.name) := Entry(id, value, row.createdAt)]))
  {
    OtherRowsElsewhere(rows, id, row);
    WrittenRowsRepresent(record, rows, a.contents, id, row, value);
  }

  lemma OtherRowsElsewhere(rows: map<string, Row>, id: string, row: Row)
    requires UniqueAddresses(rows)
    requires forall other | Addressed(rows, other, row.kind, row.name) :: other == id
    ensures UniqueAddresses(rows[id := row])
    ensures forall other | other in rows && other != id :: (rows[other].kind, rows[other].name) != (row.kind, row.name)
  {
    forall other | other in rows && other != id ensures (rows[other].kind, rows[other].name) != (row.kind, row.name) {
      assert Addressed(rows, other, rows[other].kind, rows[other].name);
    }
  }

  lemma WrittenRowsRepresent(record: Option<KeyRecord>, rows: map<string, Row>, contents: map<(string, string), Entry>,
                             id: string, row: Row, value: string)
    requires record.Some? && SoundRecord(record.value) && RowsRepresent(record, rows, contents)
    requires Decrypt(DataKey(record.value), id, row) == Some(value)
    requires id in rows ==> Addressed(rows, id, row.kind, row.name)
    requires forall other | other in rows && other != id :: (rows[other].kind, rows[other].name) != (row.kind, row.name)
    ensures RowsRepresent(record, rows[id := row], contents[(row.kind, row.name) := Entry(id, value, row.createdAt)])
  {
    var rows', contents' := rows[id := row], contents[(row.kind, row.name) := Entry(id, value, row.createdAt)];
    forall k | k in contents' ensures Addressed(rows', contents'[k].id, k.0, k.1) {
      if k != (row.kind, row.name) { assert Addressed(rows, contents[k].id, k.0, k.1); }
    }
  }

  lemma RowDeleted(record: Option<KeyRecord>, rows: map<string, Row>, dek: Option<Key>, keyVersion: nat, a: Abstract,
                   id: string, kind: string, name: string)
    requires Sound(record, rows, dek, keyVersion) && Represents(record, rows, dek, a)
    requires Addressed(rows, id, kind, name)
    ensures var a' := a.(contents := a.contents - {(kind, name)});
            Sound(record, rows - {id}, dek, keyVersion) && Represents(record, rows - {id}, dek, a')
  {
    var contents' := a.contents - {(kind, name)};
    forall k | k in contents' ensures Addressed(rows - {id}, contents'[k].id, k.0, k.1) {
      assert Addressed(rows, a.contents[k].id, k.0, k.1);
    }
  }

  lemma NothingToDelete(record: Option<KeyRecord>, rows: map<string, Row>, dek: Option<Key>, a: Abstract,
                        kind: string, name: string)
    requires Represents(record, rows, dek, a)
    requires forall id :: !Addressed(rows, id, kind, name)
    ensures (kind, name) !in a.contents
    ensures a.(contents := a.contents - {(kind, name)}) == a
  {
    assert (kind, name) in a.contents ==> Addressed(rows, a.contents[(kind, name)].id, kind, name);
    assert a.contents - {(kind, name)} == a.contents;
  }

  /** A row sealed again under another key, with everything else kept. */
  predicate Resealed(id: string, before: Row, after: Row, oldKey: Key, newKey: Key, version: nat) {
    && after.kind == before.kind && after.name == before.name && after.createdAt == before.createdAt
    && after.keyVersion == version
    && Decrypt(oldKey, id, before).Some?
    && Decrypt(newKey, id, after) == Decrypt(oldKey, id, before)
    && after.ciphertext.key == newKey
  }

  predicate AllResealed(before: map<string, Row>, after: map<string, Row>, oldKey: Key, newKey: Key, version: nat) {
    && after.Keys == before.Keys
    && forall id | id in before :: Resealed(id, before[id], after[id], oldKey, newKey, version)
  }

  lemma RotationKeepsRepresentation(k: KeyRecord, rows: map<string, Row>, dek: Option<Key>, keyVersion: nat,
                                    a: Abstract, k': KeyRecord, rows': map<string, Row>)
    requires Sound(Some(k), rows, dek, keyVersion) && Represents(Some(k), rows, dek, a)
    requires SoundRecord(k') && k'.wrapped.key.passphrase == k.wrapped.key.passphrase
    requires AllResealed(rows, rows', DataKey(k), DataKey(k'), k'.version)
    ensures Sound(Some(k'), rows', Some(DataKey(k')), k'.version)
    ensures Represents(Some(k'), rows', Some(DataKey(k')), a.(unlocked := true))
  {
    forall id | id in rows'
      ensures SoundRow(id, rows'[id], DataKey(k'), k'.version)
    {
      assert SoundRow(id, rows[id], DataKey(k), k.version);
      assert Resealed(id, rows[id], rows'[id], DataKey(k), DataKey(k'), k'.version);
    }
    forall key | key in a.contents ensures Addressed(rows', a.contents[key].id, key.0, key.1) {
      assert Addressed(rows, a.contents[key].id, key.0, key.1);
    }
  }

  datatype Reencrypted = Reencrypted(id: string, ciphertext: Sealed, nonce: nat)

  predicate GoodUpdate(rows: map<string, Row>, u: Reencrypted, oldKey: Key, newKey: Key) {
    && u.id in rows
    && Decrypt(oldKey, u.id, rows[u.id]).Some?
    && u.ciphertext == Sealed(newKey, u.nonce, SecretData(u.id, rows[u.id].kind, rows[u.id].name),
                              Decrypt(oldKey, u.id, rows[u.id]).value)
  }

  lemma UpdateReseals(rows: map<string, Row>, u: Reencrypted, staged: Row, oldKey: Key, newKey: Key, version: nat)
    requires GoodUpdate(rows, u, oldKey, newKey)
    requires staged.kind == rows[u.id].kind && staged.name == rows[u.id].name
    requires staged.createdAt == rows[u.id].createdAt
    ensures Resealed(u.id, rows[u.id], staged.(ciphertext := u.ciphertext, nonce := u.nonce, keyVersion := version),
                     oldKey, newKey, version)
  {
  }

  /** The key record after rotation, under the same derived key. */
  function Rewrapped(k: KeyRecord, passphrase: string, newKey: Key, nonce: nat): (k': KeyRecord)
    requires newKey.Raw?
    ensures SoundRecord(k') && DataKey(k') == newKey && k'.wrapped.key.passphrase == passphrase
    ensures Unwrap(k', passphrase) == Some(newKey)
    ensures k'.version == k.version + 1
  {
    k.(wrapped := Sealed(Derived(passphrase, k.salt, k.params), nonce, DekData(k.version + 1), newKey.bytes),
       nonce := nonce, version := k.version + 1)
  }

  /** The wrap of another generation, put back into the current record, opens under no passphrase: a
      wrap of `earlier` unwraps there if and only if it was made for this version, salt and cost. */
  lemma StaleWrapIsRefused(k: KeyRecord, earlier: KeyRecord, passphrase: string)
    requires SoundRecord(k) && SoundRecord(earlier)
    ensures Unwrap(k.(wrapped := earlier.wrapped, nonce := earlier.nonce), passphrase).Some? <==>
              && earlier.version == k.version && earlier.salt == k.salt && earlier.params == k.params
              && earlier.wrapped.key.passphrase == passphrase
  {
    DekDataInjective(earlier.version, k.version);
  }

  // ----- ciphertexts moved between rows -----

  /** A ciphertext that wraps a data key, or that holds a value put under the kind and name it is bound to. */
  ghost predicate Honest(c: Sealed, puts: set<(string, string, string)>) {
    WrapsKey(c) || exists id, kind, name :: HoldsSecret(c, puts, id, kind, name)
  }

  ghost predicate WrapsKey(c: Sealed) {
    exists version :: c.associatedData == DekData(version)
  }

  ghost predicate HoldsSecret(c: Sealed, puts: set<(string, string, string)>, id: string, kind: string, name: string) {
    && '/' !in id && '/' !in kind
    && c.associatedData == SecretData(id, kind, name)
    && (kind, name, c.plain) in puts
  }

  /** Rows are identified without slashes and hold only ciphertexts from `stored`: which row holds
      which is left open. */
  ghost predicate Drawn(rows: map<string, Row>, stored: set<Sealed>) {
    forall id | id in rows :: '/' !in id && '/' !in rows[id].kind && rows[id].ciphertext in stored
  }

  /** However the stored ciphertexts are rearranged among the rows, and whatever key is loaded, a
      row opens to nothing or to a value that was once put under its own kind and name. */
  lemma RearrangedRowsStayHonest(rows: map<string, Row>, stored: set<Sealed>, puts: set<(string, string, string)>,
                                 dek: Key, id: string)
    requires forall c | c in stored :: Honest(c, puts)
    requires Drawn(rows, stored) && id in rows && Decrypt(dek, id, rows[id]).Some?
    ensures (rows[id].kind, rows[id].name, Decrypt(dek, id, rows[id]).value) in puts
  {
    var row := rows[id];
    var c := row.ciphertext;
    assert c.associatedData == SecretData(id, row.kind, row.name) && c.plain == Decrypt(dek, id, row).value;
    assert Honest(c, puts);
    assert !WrapsKey(c) by {
      forall version ensures c.associatedData != DekData(version) {
        DekAndSecretDataDiffer(version, id, row.kind, row.name);
      }
    }
    var id', kind, name :| HoldsSecret(c, puts, id', kind, name);
    SecretDataInjective(id, row.kind, row.name, id', kind, name);
  }

  ghost function Ciphertexts(rows: map<string, Row>): set<Sealed> {
    set id | id in rows :: rows[id].ciphertext
  }

  lemma HonestMonotone(c: Sealed, puts: set<(string, string, string)>, more: set<(string, string, string)>)
    requires Honest(c, puts) && puts <= more
    ensures Honest(c, more)
  {
    if !WrapsKey(c) {
      var id, kind, name :| HoldsSecret(c, puts, id, kind, name);
      assert HoldsSecret(c, more, id, kind, name);
    }
  }

  /** The accounting behind `Store.Audited`. */
  ghost predicate Accounted(rows: map<string, Row>, stored: set<Sealed>, puts: set<(string, string, string)>) {
    (forall c | c in stored :: Honest(c, puts)) && Drawn(rows, stored)
  }

  lemma PutIsAccounted(rows: map<string, Row>, stored: set<Sealed>, puts: set<(string, string, string)>,
                       id: string, row: Row, value: string)
    requires Accounted(rows, stored, puts) && '/' !in id && '/' !in row.kind
    requires row.ciphertext.associatedData == SecretData(id, row.kind, row.name) && row.ciphertext.plain == value
    ensures Accounted(rows[id := row], stored + {row.ciphertext}, puts + {(row.kind, row.name, value)})
  {
    var more := puts + {(row.kind, row.name, value)};
    assert HoldsSecret(row.ciphertext, more, id, row.kind, row.name);
    forall d | d in stored ensures Honest(d, more) {
      HonestMonotone(d, puts, more);
    }
  }

  lemma WrapIsAccounted(rows: map<string, Row>, stored: set<Sealed>, puts: set<(string, string, string)>, c: Sealed,
                        version: nat)
    requires Accounted(rows, stored, puts) && c.associatedData == DekData(version)
    ensures Accounted(rows, stored + {c}, puts)
  {
    assert WrapsKey(c);
  }

  lemma ResealedAreHonest(before: map<string, Row>, after: map<string, Row>, stored: set<Sealed>,
                          puts: set<(string, string, string)>, oldKey: Key, newKey: Key, version: nat)
    requires AllResealed(before, after, oldKey, newKey, version)
    requires Drawn(before, stored) && forall c | c in stored :: Honest(c, puts)
    ensures forall c | c in Ciphertexts(after) :: Honest(c, puts)
    ensures forall id | id in after :: '/' !in id && '/' !in after[id].kind
  {
    forall id | id in after ensures Honest(after[id].ciphertext, puts) && '/' !in id && '/' !in after[id].kind {
      assert Resealed(id, before[id], after[id], oldKey, newKey, version);
      RearrangedRowsStayHonest(before, stored, puts, oldKey, id);
      assert HoldsSecret(after[id].ciphertext, puts, id, after[id].kind, after[id].name);
    }
  }

  class Store {
    var record: Option<KeyRecord>
    var rows: map<string, Row>
    var dek: Option<Key>
    var keyVersion: nat
    /** Source of fresh salts, nonces and keys. */
    var entropy: nat
    ghost var view: Abstract
    /** Every ciphertext ever written to the database, and every value ever put. */
    ghost var stored: set<Sealed>
    ghost var puts: set<(string, string, string)>

    /** Everything written so far can be accounted for. */
    ghost predicate Audited()
      reads this`rows, this`stored, this`puts
    {
      Accounted(rows, stored, puts)
    }

    ghost predicate Valid()
      reads this`record, this`rows, this`dek, this`keyVersion, this`entropy, this`view
    {
      && Sound(record, rows, dek, keyVersion) && Represents(record, rows, dek, view)
      && (record.Some? ==> OldKey(DataKey(record.value), entropy))
    }

    constructor ()
      ensures Valid() && Audited() && view == Abstract(None, map[], false)
      ensures puts == {} && stored == {}
    {
      record, rows, dek, keyVersion, entropy := None, map[], None, 0, 0;
      view, stored, puts := Abstract(None, map[], false), {}, {};
    }

    method Draw() returns (drawn: nat)
      modifies this`entropy
      ensures drawn == old(entropy) && entropy == drawn + 1
    {
      drawn := entropy;
      entropy := entropy + 1;
    }

    method Initialize(passphrase: string, faulty: bool) returns (r: Response)
      requires Valid()
      modifies this
      ensures puts == old(puts) && old(stored) <= stored
      ensures Valid() && Follows(old(view), Op.Initialize(passphrase), faulty, view, r)
      ensures r == Done ==>
                && old(record).None? && record.Some? && OpensOnlyUnder(record.value, passphrase)
                && Unwrap(record.value, passphrase) == dek
      ensures r != Done ==> record == old(record)
      ensures old(Audited()) ==> Audited()
    {
      if |passphrase| < MINIMUM_PASSPHRASE_LENGTH {
        return Failed(PassphraseTooShort);
      }
      var lost: bool := *;
      if faulty && lost {
        return Failed(DatabaseFailed);
      }
      if record.Some? {
        return Failed(AlreadyInitialized);
      }
      var salt := Draw();
      var serial := Draw();
      var nonce := Draw();
      lost := *;
      if faulty && lost {
        return Failed(DatabaseFailed);
      }
      var wrapped := Sealed(Derived(passphrase, salt, DEFAULT_PARAMS), nonce, DekData(1), RandomBytes(serial));
      InsertRecord(KeyRecord(salt, DEFAULT_PARAMS, wrapped, nonce, 1), passphrase, serial);
      r := Done;
    }

    /** The first key record, and its key in memory. */
    method InsertRecord(k: KeyRecord, ghost passphrase: string, ghost serial: nat)
      requires Valid() && record.None?
      requires SoundRecord(k) && k.wrapped.key.passphrase == passphrase
      requires DataKey(k) == Raw(RandomBytes(serial)) && serial < entropy
      modifies this`record, this`dek, this`keyVersion, this`view, this`stored
      ensures old(stored) <= stored
      ensures Valid() && view == Abstract(Some(passphrase), old(view).contents, true)
      ensures record == Some(k) && dek == Some(DataKey(k))
      ensures old(Audited()) ==> Audited()
    {
      if Audited() { WrapIsAccounted(rows, stored, puts, k.wrapped, k.version); }
      record, dek, keyVersion := Some(k), Some(DataKey(k)), k.version;
      stored := stored + {k.wrapped};
      view := Abstract(Some(passphrase), view.contents, true);
    }

    method Unlock(passphrase: string, faulty: bool) returns (r: Response)
      requires Valid()
      modifies this`dek, this`keyVersion, this`view
      ensures Valid() && Follows(old(view), Op.Unlock(passphrase), faulty, view, r)
      ensures r == Done ==> record.Some? && dek.Some? && dek == Unwrap(record.value, passphrase)
      ensures r == Failed(InvalidPassphrase) ==> record.Some? && Unwrap(record.value, passphrase) == None
    {
      var lost: bool := *;
      if faulty && lost {
        return Failed(DatabaseFailed);
      }
      if record.None? {
        return Failed(NotInitialized);
      }
      var unwrapped := Unwrap(record.value, passphrase);
      if unwrapped.None? {
        return Failed(InvalidPassphrase);
      }
      dek, keyVersion := unwrapped, record.value.version;
      view := view.(unlocked := true);
      r := Done;
    }

    method Lock() returns (r: Response)
      requires Valid()
      modifies this`dek, this`keyVersion, this`view
      ensures Valid() && dek == None
      ensures Follows(old(view), Op.Lock, false, view, r)
    {
      dek, keyVersion := None, 0;
      view := view.(unlocked := false);
      r := Done;
    }

    /** The row under a kind and name, if there is one. */
    method FindRow(kind: string, name: string) returns (id: Option<string>)
      ensures id.Some? ==> Addressed(rows, id.value, kind, name)
      ensures id.None? ==> forall other :: !Addressed(rows, other, kind, name)
    {
      if other :| other in rows && Addressed(rows, other, kind, name) {
        return Some(other);
      }
      return None;
    }

    /** `newId` and `now` are a fresh uuid, which holds no slash, and the time. */
    method Put(kind: string, name: string, value: string, newId: string, now: int, faulty: bool) returns (r: Response)
      requires Valid() && '/' !in newId && newId !in rows
      modifies this
      ensures old(stored) <= stored
      ensures Valid() && Follows(old(view), Op.Put(kind, name, value, newId, now), faulty, view, r)
      ensures old(Audited()) ==> Audited()
      ensures puts == old(puts) + if r.Stored? then {(kind, name, value)} else {}
    {
      if !ValidKind(kind) {
        return Failed(InvalidKind);
      }
      if name == "" {
        return Failed(EmptyName);
      }
      if dek.None? {
        return Failed(Locked);
      }
      var lost: bool := *;
      if faulty && lost {
        return Failed(DatabaseFailed);
      }
      var existing := FindRow(kind, name);
      var id, createdAt := newId, now;
      if existing.Some? {
        id, createdAt := existing.value, rows[existing.value].createdAt;
      }
      NewEntry(record, rows, dek, view, existing, kind, name);
      r := Write(id, kind, name, value, createdAt, faulty);
    }

    /** Seals a value for a row and inserts or replaces that row. */
    method Write(id: string, kind: string, name: string, value: string, createdAt: int, faulty: bool)
      returns (r: Response)
      requires Valid() && dek.Some? && ValidKind(kind) && name != "" && '/' !in id
      requires id in rows ==> Addressed(rows, id, kind, name)
      requires forall other | Addressed(rows, other, kind, name) :: other == id
      modifies this
      ensures old(stored) <= stored
      ensures Valid()
      ensures old(Audited()) ==> Audited()
      ensures puts == old(puts) + if r.Stored? then {(kind, name, value)} else {}
      ensures || (faulty && view == old(view) && r == Failed(DatabaseFailed))
              || (view == old(view).(contents := old(view).contents[(kind, name) := Entry(id, value, createdAt)])
                  && r == Stored(id))
    {
      var nonce := Draw();
      var lost: bool := *;
      if faulty && lost {
        return Failed(DatabaseFailed);
      }
      PutSealed(id, kind, name, value, createdAt, nonce);
      r := Stored(id);
    }

    method PutSealed(id: string, kind: string, name: string, value: string, createdAt: int, nonce: nat)
      requires Valid() && dek.Some? && ValidKind(kind) && name != "" && '/' !in id
      requires id in rows ==> Addressed(rows, id, kind, name)
      requires forall other | Addressed(rows, other, kind, name) :: other == id
      modifies this`rows, this`view, this`stored, this`puts
      ensures old(stored) <= stored
      ensures Valid()
      ensures old(Audited()) ==> Audited()
      ensures puts == old(puts) + {(kind, name, value)}
      ensures view == old(view).(contents := old(view).contents[(kind, name) := Entry(id, value, createdAt)])
    {
      var sealed := Sealed(dek.value, nonce, SecretData(id, kind, name), value);
      var row := Row(kind, name, sealed, nonce, keyVersion, createdAt);
      AccountPut(id, row, value);
      UpsertRow(id, row, value);
    }

    ghost method AccountPut(id: string, row: Row, value: string)
      requires '/' !in id && '/' !in row.kind
      requires row.ciphertext.associatedData == SecretData(id, row.kind, row.name) && row.ciphertext.plain == value
      modifies this`stored, this`puts
      ensures old(stored) <= stored
      ensures puts == old(puts) + {(row.kind, row.name, value)}
      ensures Accounted(rows, old(stored), old(puts)) ==> Accounted(rows[id := row], stored, puts)
    {
      if Audited() { PutIsAccounted(rows, stored, puts, id, row, value); }
      stored, puts := stored + {row.ciphertext}, puts + {(row.kind, row.name, value)};
    }

    /** The insert-or-update statement. */
    method UpsertRow(id: string, row: Row, ghost value: string)
      requires Valid() && record.Some?
      requires SoundRow(id, row, DataKey(record.value), record.value.version)
      requires Decrypt(DataKey(record.value), id, row) == Some(value)
      requires forall other | Addressed(rows, other, row.kind, row.name) :: other == id
      requires id in rows ==> Addressed(rows, id, row.kind, row.name)
      modifies this`rows, this`view
      ensures Valid() && rows == old(rows)[id := row]
      ensures var entry := Entry(id, value, row.createdAt);
              view == old(view).(contents := old(view).contents[(row.kind, row.name) := entry])
    {
      RowWritten(record, rows, dek, keyVersion, view, id, row, value);
      rows, view := rows[id := row],
                    view.(contents := view.contents[(row.kind, row.name) := Entry(id, value, row.createdAt)]);
    }

    /** The value is whatever the addressed row opens to, in any table; in a sound one it is the
        value last put. */
    method Get(kind: string, name: string, faulty: bool) returns (r: Response)
      ensures r.Value? ==>
                dek.Some?
                && exists id :: Addressed(rows, id, kind, name) && Decrypt(dek.value, id, rows[id]) == Some(r.text)
      ensures Valid() ==> Follows(view, Op.Get(kind, name), faulty, view, r)
      ensures Audited() && r.Value? ==> (kind, name, r.text) in puts
    {
      if dek.None? {
        return Failed(Locked);
      }
      var lost: bool := *;
      if faulty && lost {
        return Failed(DatabaseFailed);
      }
      var id := FindRow(kind, name);
      if id.None? {
        if Valid() { NothingToDelete(record, rows, dek, view, kind, name); }
        return Failed(NotFound);
      }
      var text := Decrypt(dek.value, id.value, rows[id.value]);
      if text.None? {
        return Failed(DecryptFailed);
      }
      if Audited() { RearrangedRowsStayHonest(rows, stored, puts, dek.value, id.value); }
      return Value(text.value);
    }

    method Delete(kind: string, name: string, faulty: bool) returns (r: Response)
      requires Valid()
      modifies this`rows, this`view
      ensures Valid() && Follows(old(view), Op.Delete(kind, name), faulty, view, r)
      ensures old(Audited()) ==> Audited()
    {
      var lost: bool := *;
      if faulty && lost {
        return Failed(DatabaseFailed);
      }
      DropRow(kind, name);
      r := Done;
    }

    /** The delete statement. */
    method DropRow(kind: string, name: string)
      requires Valid()
      modifies this`rows, this`view
      ensures Valid() && view == old(view).(contents := old(view).contents - {(kind, name)})
      ensures old(Audited()) ==> Audited()
    {
      var id := FindRow(kind, name);
      if id.None? {
        NothingToDelete(record, rows, dek, view, kind, name);
        return;
      }
      RowDeleted(record, rows, dek, keyVersion, view, id.value, kind, name);
      rows := rows - {id.value};
      view := view.(contents := view.contents - {(kind, name)});
    }

    /** The data key is wrapped again; no row changes, and neither does the key in memory. */
    method ChangeMasterPassphrase(current: string, next: string, faulty: bool) returns (r: Response)
      requires Valid()
      modifies this`record, this`entropy, this`view, this`stored
      ensures old(stored) <= stored
      ensures Valid() && Follows(old(view), Op.ChangeMasterPassphrase(current, next), faulty, view, r)
      ensures r == Done ==>
                && old(record).Some? && record.Some? && OpensOnlyUnder(record.value, next)
                && Unwrap(record.value, next) == Unwrap(old(record).value, current)
      ensures r != Done ==> record == old(record)
      ensures old(Audited()) ==> Audited()
    {
      if |next| < MINIMUM_PASSPHRASE_LENGTH {
        return Failed(PassphraseTooShort);
      }
      var lost: bool := *;
      if faulty && lost {
        return Failed(DatabaseFailed);
      }
      if record.None? {
        return Failed(NotInitialized);
      }
      var unwrapped := Unwrap(record.value, current);
      if unwrapped.None? {
        return Failed(InvalidPassphrase);
      }
      r := WrapUnder(next, unwrapped.value, faulty);
    }

    /** Seals the data key under a new passphrase and replaces the key record. */
    method WrapUnder(next: string, key: Key, faulty: bool) returns (r: Response)
      requires Valid() && record.Some? && key == DataKey(record.value)
      modifies this`record, this`entropy, this`view, this`stored
      ensures old(stored) <= stored
      ensures Valid()
      ensures old(Audited()) ==> Audited()
      ensures || (faulty && r == Failed(DatabaseFailed) && view == old(view) && record == old(record))
              || (r == Done && view == old(view).(passphrase := Some(next)) && record.Some?
                  && OpensOnlyUnder(record.value, next) && Unwrap(record.value, next) == Some(key))
    {
      var k := record.value;
      var salt := Draw();
      var nonce := Draw();
      var lost: bool := *;
      if faulty && lost {
        return Failed(DatabaseFailed);
      }
      var wrapped := Sealed(Derived(next, salt, DEFAULT_PARAMS), nonce, DekData(k.version), key.bytes);
      ReplaceRecord(KeyRecord(salt, DEFAULT_PARAMS, wrapped, nonce, k.version));
      view := view.(passphrase := Some(next));
      r := Done;
    }

    /** The update of the key record's row. */
    method ReplaceRecord(k: KeyRecord)
      requires record.Some? && SoundRecord(k) && k.version == record.value.version
      requires SoundRecord(record.value) && DataKey(k) == DataKey(record.value)
      modifies this`record, this`stored
      ensures old(stored) <= stored
      ensures record == Some(k)
      ensures old(Audited()) ==> Audited()
      ensures Sound(old(record), rows, dek, keyVersion) ==> Sound(record, rows, dek, keyVersion)
      ensures Represents(old(record), rows, dek, view) ==>
                Represents(record, rows, dek, view.(passphrase := Some(k.wrapped.key.passphrase)))
    {
      if Audited() { WrapIsAccounted(rows, stored, puts, k.wrapped, k.version); }
      stored := stored + {k.wrapped};
      record := Some(k);
    }

    /** All rows move to a new key together with the key record, or nothing changes. After success
        every row opens under the new key to what it opened to before, none opens under the old
        key, and the same passphrase unwraps the new key. */
    method RotateDataKey(passphrase: string, faulty: bool) returns (r: Response)
      modifies this
      ensures puts == old(puts) && old(stored) <= stored
      ensures r != Done ==> record == old(record) && rows == old(rows) && dek == old(dek)
                            && keyVersion == old(keyVersion) && view == old(view)
      ensures r == Done ==>
                && old(record).Some? && record.Some? && dek.Some?
                && var before := Unwrap(old(record).value, passphrase);
                   && before.Some?
                   && Unwrap(record.value, passphrase) == dek
                   && record.value.version == old(record).value.version + 1 == keyVersion
                   && AllResealed(old(rows), rows, before.value, dek.value, keyVersion)
      ensures old(Valid()) ==> Valid() && Follows(old(view), Op.RotateDataKey(passphrase), faulty, view, r)
      ensures old(Valid()) && r == Done ==> dek.value != DataKey(old(record).value)
      ensures old(Audited()) ==> Audited()
    {
      var lost: bool := *;
      if faulty && lost {
        return Failed(DatabaseFailed);
      }
      if record.None? {
        return Failed(NotInitialized);
      }
      var unwrapped := Unwrap(record.value, passphrase);
      if unwrapped.None? {
        return Failed(InvalidPassphrase);
      }
      r := Rotate(record.value, passphrase, unwrapped.value, faulty);
    }

    /** Rotation once the passphrase has been checked. */
    method Rotate(k: KeyRecord, passphrase: string, oldKey: Key, faulty: bool) returns (r: Response)
      requires record == Some(k) && Unwrap(k, passphrase) == Some(oldKey)
      modifies this
      ensures puts == old(puts) && old(stored) <= stored
      ensures r != Done ==> record == old(record) && rows == old(rows) && dek == old(dek)
                            && keyVersion == old(keyVersion) && view == old(view)
      ensures r == Done ==>
                && record.Some? && dek.Some? && Unwrap(record.value, passphrase) == dek
                && record.value.version == k.version + 1 == keyVersion
                && AllResealed(old(rows), rows, oldKey, dek.value, keyVersion)
      ensures old(Valid()) ==> Valid() && Follows(old(view), Op.RotateDataKey(passphrase), faulty, view, r)
      ensures old(Valid()) && r == Done ==> dek.value != oldKey
      ensures old(Audited()) ==> Audited()
    {
      if Valid() { DrawnKeyIsNew(oldKey, entropy, entropy); }
      var serial := Draw();
      var newKey := Raw(RandomBytes(serial));
      var updates, allOpen := Reencrypt(oldKey, newKey);
      if !allOpen {
        return Failed(DecryptFailed);
      }
      var staged, written := StageUpdates(updates, oldKey, newKey, k.version + 1, faulty);
      if !written {
        return Failed(DatabaseFailed);
      }
      r := CommitResealed(k, passphrase, oldKey, newKey, staged, faulty);
    }

    method CommitResealed(k: KeyRecord, passphrase: string, ghost oldKey: Key, newKey: Key, staged: map<string, Row>,
                          faulty: bool)
      returns (r: Response)
      requires record == Some(k) && Unwrap(k, passphrase) == Some(oldKey) && newKey.Raw?
      requires AllResealed(rows, staged, oldKey, newKey, k.version + 1)
      requires Valid() ==> OldKey(newKey, entropy)
      modifies this
      ensures puts == old(puts) && old(stored) <= stored
      ensures r != Done ==> record == old(record) && rows == old(rows) && dek == old(dek)
                            && keyVersion == old(keyVersion) && view == old(view)
      ensures r == Done ==>
                && record.Some? && dek == Some(newKey) && Unwrap(record.value, passphrase) == dek
                && record.value.version == k.version + 1 == keyVersion && rows == staged
      ensures old(Valid()) ==> Valid() && Follows(old(view), Op.RotateDataKey(passphrase), faulty, view, r)
      ensures old(Audited()) ==> Audited()
    {
      ghost var rows0, dek0, keyVersion0, view0 := rows, dek, keyVersion, view;
      if Audited() { ResealedAreHonest(rows, staged, stored, puts, oldKey, newKey, k.version + 1); }
      r := CommitRotation(k, passphrase, newKey, staged, faulty);
      if old(Valid()) && r == Done {
        RotationKeepsRepresentation(k, rows0, dek0, keyVersion0, view0, record.value, rows);
      }
    }

    /** Wraps the new key, commits the staged rows with it, and takes the new key into use. */
    method CommitRotation(k: KeyRecord, passphrase: string, newKey: Key, staged: map<string, Row>, faulty: bool)
      returns (r: Response)
      requires record == Some(k) && newKey.Raw?
      modifies this
      ensures entropy >= old(entropy) && puts == old(puts)
      ensures || (faulty && r == Failed(DatabaseFailed) && record == old(record) && rows == old(rows) && dek == old(dek)
                  && keyVersion == old(keyVersion) && view == old(view) && stored == old(stored))
              || (r == Done && rows == staged && dek == Some(newKey) && keyVersion == k.version + 1
                  && view == old(view).(unlocked := true)
                  && record.Some? && record.value.version == k.version + 1 && SoundRecord(record.value)
                  && DataKey(record.value) == newKey && record.value.wrapped.key.passphrase == passphrase
                  && Unwrap(record.value, passphrase) == Some(newKey)
                  && stored == old(stored) + Ciphertexts(staged) + {record.value.wrapped})
    {
      var nonce := Draw();
      var lost: bool := *;
      if faulty && lost {
        return Failed(DatabaseFailed);
      }
      var k' := Rewrapped(k, passphrase, newKey, nonce);
      stored := stored + Ciphertexts(staged) + {k'.wrapped};
      record, rows := Some(k'), staged;
      dek, keyVersion := Some(newKey), k.version + 1;
      view := view.(unlocked := true);
      r := Done;
    }

    /** Opens every row and seals its text under the new key; false if some row does not open. */
    method Reencrypt(oldKey: Key, newKey: Key) returns (updates: seq<Reencrypted>, allOpen: bool)
      modifies this`entropy
      ensures entropy >= old(entropy)
      ensures allOpen <==> forall id | id in rows :: Decrypt(oldKey, id, rows[id]).Some?
      ensures allOpen ==> forall u | u in updates :: GoodUpdate(rows, u, oldKey, newKey)
      ensures allOpen ==> forall id | id in rows :: exists u :: u in updates && u.id == id
    {
      updates := [];
      var todo := rows.Keys;
      while todo != {}
        invariant todo <= rows.Keys && entropy >= old(entropy)
        invariant forall u | u in updates :: GoodUpdate(rows, u, oldKey, newKey)
        invariant forall id | id in rows && id !in todo ::
            Decrypt(oldKey, id, rows[id]).Some? && exists u :: u in updates && u.id == id
      {
        var id :| id in todo;
        var row := rows[id];
        var text := Decrypt(oldKey, id, row);
        if text.None? {
          return updates, false;
        }
        var nonce := Draw();
        var u := Reencrypted(id, Sealed(newKey, nonce, SecretData(id, row.kind, row.name), text.value), nonce);
        assert GoodUpdate(rows, u, oldKey, newKey);
        ghost var before := updates;
        updates := updates + [u];
        assert u in updates && forall v | v in before :: v in updates;
        todo := todo - {id};
      }
      allOpen := true;
    }

    /** Applies the updates inside the transaction; any of them may fail. */
    method StageUpdates(updates: seq<Reencrypted>, ghost oldKey: Key, ghost newKey: Key, version: nat, faulty: bool)
      returns (staged: map<string, Row>, written: bool)
      requires forall u | u in updates :: GoodUpdate(rows, u, oldKey, newKey)
      requires forall id | id in rows :: exists u :: u in updates && u.id == id
      ensures !written ==> faulty
      ensures written ==> AllResealed(rows, staged, oldKey, newKey, version)
    {
      staged := rows;
      for i := 0 to |updates|
        invariant staged.Keys == rows.Keys
        invariant forall id | id in rows ::
            staged[id] == rows[id] || Resealed(id, rows[id], staged[id], oldKey, newKey, version)
        invariant forall u | u in updates[..i] ::
            u.id in rows && Resealed(u.id, rows[u.id], staged[u.id], oldKey, newKey, version)
      {
        var lost: bool := *;
        if faulty && lost {
          return staged, false;
        }
        var u := updates[i];
        assert u in updates;
        UpdateReseals(rows, u, staged[u.id], oldKey, newKey, version);
        staged := staged[u.id := staged[u.id].(ciphertext := u.ciphertext, nonce := u.nonce, keyVersion := version)];
        assert updates[..i + 1] == updates[..i] + [u];
      }
      assert updates[..|updates|] == updates;
      written := true;
    }
  }

  /** The key was drawn before the current state of the random source. */
  ghost predicate OldKey(key: Key, entropy: nat) {
    exists serial: nat :: serial < entropy && key == Raw(RandomBytes(serial))
  }

  lemma DrawnKeyIsNew(key: Key, entropy: nat, serial: nat)
    requires OldKey(key, entropy) && serial >= entropy
    ensures key != Raw(RandomBytes(serial))
  {
    var before: nat :| before < entropy && key == Raw(RandomBytes(before));
    DecimalInjective(before, serial);
  }

  lemma NewEntry(record: Option<KeyRecord>, rows: map<string, Row>, dek: Option<Key>, a: Abstract,
                 existing: Option<string>, kind: string, name: string)
    requires Represents(record, rows, dek, a) && UniqueAddresses(rows)
    requires existing.Some? ==> Addressed(rows, existing.value, kind, name)
    requires existing.None? ==> forall other :: !Addressed(rows, other, kind, name)
    ensures (kind, name) in a.contents <==> existing.Some?
    ensures existing.Some? ==> a.contents[(kind, name)].id == existing.value
                               && a.contents[(kind, name)].createdAt == rows[existing.value].createdAt
  {
    if existing.None? {
      NothingToDelete(record, rows, dek, a, kind, name);
    }
  }

  // ----- whole runs -----

  /** The key in memory is absent or the one that the stored wrap opens to, and only the passphrase
      in force opens it. */
  lemma OnlyThePassphraseUnwraps(record: Option<KeyRecord>, rows: map<string, Row>, dek: Option<Key>, keyVersion: nat,
                                 a: Abstract, passphrase: string)
    requires Sound(record, rows, dek, keyVersion) && Represents(record, rows, dek, a) && record.Some?
    ensures Unwrap(record.value, passphrase).Some? <==> a.passphrase == Some(passphrase)
    ensures a.passphrase == Some(passphrase) && dek.Some? ==> Unwrap(record.value, passphrase) == dek
  {
  }

  /** One completed operation and what it answered. */
  datatype Step = Step(op: Op, response: Response)

  function After(a: Abstract, step: Step): Abstract {
    if step.response == Failed(DatabaseFailed) then a else Ideal(a, step.op).0
  }

  function AfterRun(steps: seq<Step>): Abstract {
    if steps == [] then Abstract(None, map[], false)
    else After(AfterRun(steps[..|steps| - 1]), steps[|steps| - 1])
  }

  /** Every response is the ideal store's, or reports a database failure. */
  predicate Possible(steps: seq<Step>) {
    if steps == [] then true
    else
      var step := steps[|steps| - 1];
      && Possible(steps[..|steps| - 1])
      && (step.response == Failed(DatabaseFailed) || step.response == Ideal(AfterRun(steps[..|steps| - 1]), step.op).1)
  }

  /** Each operation of `Store` extends a possible run. */
  lemma FollowsIsAStep(steps: seq<Step>, op: Op, faulty: bool, a': Abstract, r: Response)
    requires Possible(steps) && Follows(AfterRun(steps), op, faulty, a', r)
    ensures Possible(steps + [Step(op, r)]) && AfterRun(steps + [Step(op, r)]) == a'
  {
    assert (steps + [Step(op, r)])[..|steps|] == steps;
  }

  /** The value and identifier under a kind and name, read off the responses alone: the last value
      put, under the identifier of the first put since the last deletion. */
  function LastPut(steps: seq<Step>, kind: string, name: string): Option<(string, string)> {
    if steps == [] then None
    else
      var earlier := LastPut(steps[..|steps| - 1], kind, name);
      match steps[|steps| - 1]
      case Step(Put(k, n, value, _, _), Stored(id)) =>
        if k == kind && n == name then Some((value, if earlier.Some? then earlier.value.1 else id)) else earlier
      case Step(Delete(k, n), Done) => if k == kind && n == name then None else earlier
      case _ => earlier
  }

  lemma {:induction false} ContentsAreLastPut(steps: seq<Step>, kind: string, name: string)
    requires Possible(steps)
    ensures var a := AfterRun(steps);
            if (kind, name) in a.contents
            then LastPut(steps, kind, name) == Some((a.contents[(kind, name)].value, a.contents[(kind, name)].id))
            else LastPut(steps, kind, name) == None
  {
    if steps != [] {
      ContentsAreLastPut(steps[..|steps| - 1], kind, name);
    }
  }

  /** The passphrase in force, read off the responses alone: the last one set. */
  function LastPassphrase(steps: seq<Step>): Option<string> {
    if steps == [] then None
    else match steps[|steps| - 1]
         case Step(Initialize(passphrase), Done) => Some(passphrase)
         case Step(ChangeMasterPassphrase(_, next), Done) => Some(next)
         case _ => LastPassphrase(steps[..|steps| - 1])
  }

  /** Whether the store is unlocked, read off the responses alone: it was set up, unlocked or rotated
      and has not been locked since. */
  predicate UnlockedSince(steps: seq<Step>) {
    if steps == [] then false
    else match steps[|steps| - 1]
         case Step(Initialize(_), Done) => true
         case Step(Unlock(_), Done) => true
         case Step(RotateDataKey(_), Done) => true
         case Step(Lock, Done) => false
         case _ => UnlockedSince(steps[..|steps| - 1])
  }

  lemma {:induction false} StateIsHistory(steps: seq<Step>)
    requires Possible(steps)
    ensures AfterRun(steps).passphrase == LastPassphrase(steps) && AfterRun(steps).unlocked == UnlockedSince(steps)
  {
    if steps != [] {
      StateIsHistory(steps[..|steps| - 1]);
    }
  }

  /** What a passphrase gets when it is checked against the last one set. */
  function Verdict(steps: seq<Step>, passphrase: string): Response {
    match LastPassphrase(steps)
    case None => Failed(NotInitialized)
    case Some(last) => if passphrase == last then Done else Failed(InvalidPassphrase)
  }

  /** Short of a database failure a passphrase is accepted if and only if it is the last one set, a new
      one has at least twelve characters, and the first is set only once. */
  predicate PassphraseDecides(steps: seq<Step>, op: Op, r: Response) {
    match op
    case Initialize(passphrase) =>
      r == if |passphrase| < 12 then Failed(PassphraseTooShort)
           else if LastPassphrase(steps).Some? then Failed(AlreadyInitialized)
           else Done
    case Unlock(passphrase) => r == Verdict(steps, passphrase)
    case RotateDataKey(passphrase) => r == Verdict(steps, passphrase)
    case ChangeMasterPassphrase(current, next) =>
      r == if |next| < 12 then Failed(PassphraseTooShort) else Verdict(steps, current)
    case _ => true
  }

  /** Short of a database failure values go in and come out if and only if the store is unlocked, and
      locking and deleting always succeed. */
  predicate LockDecides(steps: seq<Step>, op: Op, r: Response) {
    match op
    case Get(kind, name) =>
      && (r.Value? <==> UnlockedSince(steps) && LastPut(steps, kind, name).Some?)
      && (r == Failed(NotFound) <==> UnlockedSince(steps) && LastPut(steps, kind, name).None?)
      && (r == Failed(Locked) <==> !UnlockedSince(steps))
    case Put(kind, name, _, _, _) => r.Stored? <==> UnlockedSince(steps) && ValidKind(kind) && name != ""
    case Lock => r == Done
    case Delete(_, _) => r == Done
    case _ => true
  }

  /** Over every run: a value that Get returns is the last one put under that kind and name, however
      often the store was locked, rewrapped or rotated since; and replacing a value answers with
      the identifier the entry has had since it was created. */
  lemma GetReturnsLastPut(steps: seq<Step>, step: Step)
    requires Possible(steps + [step])
    ensures step.op.Get? && step.response.Value? ==>
              LastPut(steps, step.op.kind, step.op.name).Some?
              && LastPut(steps, step.op.kind, step.op.name).value.0 == step.response.text
    ensures step.op.Get? && step.response == Failed(NotFound) ==> LastPut(steps, step.op.kind, step.op.name) == None
    ensures step.op.Put? && step.response.Stored? && LastPut(steps, step.op.kind, step.op.name).Some? ==>
              step.response.id == LastPut(steps, step.op.kind, step.op.name).value.1
  {
    assert (steps + [step])[..|steps|] == steps;
    if step.op.Get? || step.op.Put? {
      ContentsAreLastPut(steps, step.op.kind, step.op.name);
    }
  }

  // ----- runs of the store itself -----

  /** What a response says about the run before it. */
  predicate Truthful(steps: seq<Step>, op: Op, r: Response) {
    && (op.Get? && r.Value? ==>
          var last := LastPut(steps, op.kind, op.name); last.Some? && last.value.0 == r.text)
    && (op.Get? && r == Failed(NotFound) ==> LastPut(steps, op.kind, op.name) == None)
    && (op.Put? && r.Stored? ==>
          var last := LastPut(steps, op.kind, op.name); r.id == if last.Some? then last.value.1 else op.newId)
    && (r != Failed(DatabaseFailed) ==> PassphraseDecides(steps, op, r) && LockDecides(steps, op, r))
  }

  lemma PossibleIsTruthful(steps: seq<Step>, op: Op, r: Response)
    requires Possible(steps + [Step(op, r)])
    ensures Truthful(steps, op, r)
  {
    GetReturnsLastPut(steps, Step(op, r));
    assert (steps + [Step(op, r)])[..|steps|] == steps;
    if op.Put? { ContentsAreLastPut(steps, op.kind, op.name); }
    if r != Failed(DatabaseFailed) { HistoryDecides(steps, op, r); }
  }

  /** Over every run, every answer but that of a failing database follows from the operations and answers
      before it. */
  lemma HistoryDecides(steps: seq<Step>, op: Op, r: Response)
    requires Possible(steps + [Step(op, r)]) && r != Failed(DatabaseFailed)
    ensures PassphraseDecides(steps, op, r) && LockDecides(steps, op, r)
  {
    assert (steps + [Step(op, r)])[..|steps|] == steps;
    StateIsHistory(steps);
    if op.Get? { ContentsAreLastPut(steps, op.kind, op.name); }
  }

  /** Any one operation, performed on the store. */
  method Dispatch(s: Store, op: Op, faulty: bool) returns (r: Response)
    requires s.Valid() && s.Audited()
    requires op.Put? ==> '/' !in op.newId && op.newId !in s.rows
    modifies s
    ensures s.Valid() && s.Audited() && Follows(old(s.view), op, faulty, s.view, r)
    ensures s.puts == old(s.puts) + if op.Put? && r.Stored? then {(op.kind, op.name, op.value)} else {}
    ensures old(s.stored) <= s.stored
  {
    match op {
      case Initialize(passphrase) => r := s.Initialize(passphrase, faulty);
      case Unlock(passphrase) => r := s.Unlock(passphrase, faulty);
      case Lock => r := s.Lock();
      case Put(kind, name, value, newId, now) => r := s.Put(kind, name, value, newId, now, faulty);
      case Get(kind, name) => r := s.Get(kind, name, faulty);
      case Delete(kind, name) => r := s.Delete(kind, name, faulty);
      case ChangeMasterPassphrase(current, next) => r := s.ChangeMasterPassphrase(current, next, faulty);
      case RotateDataKey(passphrase) => r := s.RotateDataKey(passphrase, faulty);
    }
  }

  /** What an operation does to a store that stands for the run so far. */
  method Perform(s: Store, op: Op, faulty: bool, ghost steps: seq<Step>) returns (r: Response)
    requires s.Valid() && s.Audited() && Possible(steps) && s.view == AfterRun(steps)
    requires op.Put? ==> '/' !in op.newId && op.newId !in s.rows
    modifies s
    ensures s.Valid() && s.Audited() && Possible(steps + [Step(op, r)]) && s.view == AfterRun(steps + [Step(op, r)])
    ensures Follows(AfterRun(steps), op, faulty, s.view, r) && Truthful(steps, op, r)
    ensures s.puts == old(s.puts) + if op.Put? && r.Stored? then {(op.kind, op.name, op.value)} else {}
    ensures old(s.stored) <= s.stored
  {
    r := Dispatch(s, op, faulty);
    FollowsIsAStep(steps, op, faulty, s.view, r);
    PossibleIsTruthful(steps, op, r);
  }

  function Steps(ops: seq<Op>, responses: seq<Response>): (steps: seq<Step>)
    requires |responses| <= |ops|
    ensures |steps| == |responses|
  {
    seq(|responses|, i requires 0 <= i < |responses| => Step(ops[i], responses[i]))
  }

  /** Identifiers are uuids: none holds a slash, and none is drawn twice. */
  predicate FreshIds(ops: seq<Op>) {
    && (forall i | 0 <= i < |ops| && ops[i].Put? :: '/' !in ops[i].newId)
    && (forall i, j | 0 <= i < j < |ops| && ops[i].Put? && ops[j].Put? :: ops[i].newId != ops[j].newId)
  }

  ghost predicate DrawnBy(steps: seq<Step>, id: string) {
    exists i :: 0 <= i < |steps| && steps[i].op.Put? && steps[i].op.newId == id
  }

  /** An entry's identifier was drawn by some Put of the run. */
  lemma {:induction false} IdsWereDrawn(steps: seq<Step>)
    ensures forall k | k in AfterRun(steps).contents :: DrawnBy(steps, AfterRun(steps).contents[k].id)
  {
    if steps != [] {
      var n := |steps| - 1;
      IdsWereDrawn(steps[..n]);
      var a, a' := AfterRun(steps[..n]), AfterRun(steps);
      forall k | k in a'.contents ensures DrawnBy(steps, a'.contents[k].id) {
        if k in a.contents && a'.contents[k].id == a.contents[k].id {
          var i :| 0 <= i < n && steps[..n][i].op.Put? && steps[..n][i].op.newId == a.contents[k].id;
          assert steps[i].op.newId == a'.contents[k].id;
        } else {
          assert steps[n].op.Put? && steps[n].op.newId == a'.contents[k].id;
        }
      }
    }
  }

  lemma NextIdIsUnused(s: Store, ops: seq<Op>, responses: seq<Response>)
    requires s.Valid() && |responses| < |ops| && FreshIds(ops) && s.view == AfterRun(Steps(ops, responses))
    ensures var op := ops[|responses|]; op.Put? ==> op.newId !in s.rows
  {
    var steps := Steps(ops, responses);
    IdsWereDrawn(steps);
    forall id | id in s.rows ensures DrawnBy(steps, id) {
      var row := s.rows[id];
      assert s.view.contents[(row.kind, row.name)].id == id;
    }
    assert forall i | 0 <= i < |steps| :: steps[i].op == ops[i];
  }

  /** Each response is the one `Ideal` gives after the steps before it, unless the database failed. */
  predicate Answered(steps: seq<Step>, op: Op, r: Response, faulty: bool) {
    && Truthful(steps, op, r)
    && (r == Ideal(AfterRun(steps), op).1 || (faulty && r == Failed(DatabaseFailed)))
  }

  ghost predicate AllAnswered(ops: seq<Op>, responses: seq<Response>, faulty: bool) {
    |responses| <= |ops|
    && forall i | 0 <= i < |responses| :: Answered(Steps(ops, responses[..i]), ops[i], responses[i], faulty)
  }

  lemma OneMoreAnswered(ops: seq<Op>, responses: seq<Response>, r: Response, faulty: bool)
    requires |responses| < |ops| && AllAnswered(ops, responses, faulty)
    requires Answered(Steps(ops, responses), ops[|responses|], r, faulty)
    ensures AllAnswered(ops, responses + [r], faulty)
    ensures Steps(ops, responses + [r]) == Steps(ops, responses) + [Step(ops[|responses|], r)]
  {
    var more := responses + [r];
    forall i | 0 <= i < |more| ensures Answered(Steps(ops, more[..i]), ops[i], more[i], faulty) {
      assert more[..i] == if i < |responses| then responses[..i] else responses;
    }
  }

  /** The store is where a run of the plain map that gave these responses would be. */
  ghost predicate Tracks(s: Store, ops: seq<Op>, responses: seq<Response>)
    requires |responses| <= |ops|
    reads s
  {
    && s.Valid() && s.Audited()
    && Possible(Steps(ops, responses)) && s.view == AfterRun(Steps(ops, responses))
    && s.puts == PutsOf(Steps(ops, responses))
  }

  method PerformNext(s: Store, ops: seq<Op>, responses: seq<Response>, faulty: bool) returns (r: Response)
    requires FreshIds(ops) && |responses| < |ops| && Tracks(s, ops, responses) && AllAnswered(ops, responses, faulty)
    modifies s
    ensures Tracks(s, ops, responses + [r]) && AllAnswered(ops, responses + [r], faulty)
  {
    NextIdIsUnused(s, ops, responses);
    r := Perform(s, ops[|responses|], faulty, Steps(ops, responses));
    OneMoreAnswered(ops, responses, r, faulty);
    PutsOfMore(Steps(ops, responses), Step(ops[|responses|], r));
  }

  /** What the Puts of a run that were carried out stored. */
  function PutsOf(steps: seq<Step>): set<(string, string, string)> {
    set i | 0 <= i < |steps| && steps[i].op.Put? && steps[i].response.Stored? ::
      (steps[i].op.kind, steps[i].op.name, steps[i].op.value)
  }

  lemma PutsOfMore(steps: seq<Step>, step: Step)
    ensures PutsOf(steps + [step]) ==
            PutsOf(steps) + if step.op.Put? && step.response.Stored?
                            then {(step.op.kind, step.op.name, step.op.value)} else {}
  {
    var more := steps + [step];
    forall x | x in PutsOf(steps) ensures x in PutsOf(more) {
      var i :| 0 <= i < |steps| && steps[i].op.Put? && steps[i].response.Stored?
               && x == (steps[i].op.kind, steps[i].op.name, steps[i].op.value);
      assert more[i] == steps[i];
    }
    assert more[|steps|] == step;
  }

  /** A new store under any sequence of operations, with the database failing wherever it may: every
      answer is that of the plain map or reports a failure, a value returned is the last one put, and
      the store still stands for that map in the end. */
  method PerformAll(ops: seq<Op>, faulty: bool) returns (s: Store, responses: seq<Response>)
    requires FreshIds(ops)
    ensures |responses| == |ops| && AllAnswered(ops, responses, faulty) && Tracks(s, ops, responses)
  {
    s := new Store();
    responses := [];
    while |responses| < |ops|
      invariant fresh(s) && |responses| <= |ops|
      invariant AllAnswered(ops, responses, faulty) && Tracks(s, ops, responses)
    {
      var r := PerformNext(s, ops, responses, faulty);
      responses := responses + [r];
    }
  }

  /** After any run, with the table replaced by any arrangement of ciphertexts that the run ever stored:
      whatever Get returns was put under that very kind and name by some Put of the run. */
  method GetFromTampered(s: Store, ghost ops: seq<Op>, ghost responses: seq<Response>, tampered: map<string, Row>,
                         kind: string, name: string)
    returns (r: Response)
    requires |responses| == |ops| && Tracks(s, ops, responses) && Drawn(tampered, s.stored)
    modifies s
    ensures r.Value? ==> exists i :: 0 <= i < |ops| && PutBy(ops[i], responses[i], kind, name, r.text)
  {
    s.rows := tampered;
    r := s.Get(kind, name, false);
    if r.Value? {
      ghost var steps := Steps(ops, responses);
      ghost var i :| 0 <= i < |steps| && steps[i].op.Put? && steps[i].response.Stored?
                     && (kind, name, r.text) == (steps[i].op.kind, steps[i].op.name, steps[i].op.value);
      assert PutBy(ops[i], responses[i], kind, name, r.text);
    }
  }

  predicate PutBy(op: Op, r: Response, kind: string, name: string, value: string) {
    op.Put? && r.Stored? && op.kind == kind && op.name == name && op.value == value
  }
}
