/** The `keys` table of the auth crate and the two ways it is read and written:
    collie-auth/src/repository/key.rs (`create`, `exists`) and the older
    collie-auth/src/model/key.rs (`create`, `find_secret_by_access`). */
module KeyStore {
  import opened Common

  /** A row of `keys` (collie-auth/src/model/key.rs:12-19). */
  datatype Key = Key(id: int, access: string, secret: string, description: Option<string>, expiredAt: Option<Timestamp>)

  /** collie-auth/src/model/key.rs:33-39. */
  datatype KeyToCreate = KeyToCreate(access: string, secret: string, description: Option<string>, expiredAt: Option<Timestamp>)

  /** collie-auth/src/error.rs: `Unauthorized`, or an error of the core crate. */
  datatype AuthError = Unauthorized | CoreError(cause: Error)

  /** The `UNIQUE` constraint on `keys.access`. */
  const AccessConstraint := "keys.access"

  predicate AccessTaken(keys: seq<Key>, access: string) {
    exists k :: k in keys && k.access == access
  }

  predicate AccessUnique(keys: seq<Key>) {
    forall i, j :: 0 <= i < j < |keys| ==> keys[i].access != keys[j].access
  }

  predicate KeyIdsAscending(keys: seq<Key>) {
    forall i, j :: 0 <= i < j < |keys| ==> keys[i].id < keys[j].id
  }

  predicate KeyIdsBelow(keys: seq<Key>, nextId: int) {
    forall i :: 0 <= i < |keys| ==> keys[i].id < nextId
  }

  /** The schema of collie-auth/src/model/database.rs:13-29: AUTOINCREMENT ids in
      rowid order and `access` unique. */
  predicate KeysValid(keys: seq<Key>, nextId: int) {
    KeyIdsAscending(keys) && KeyIdsBelow(keys, nextId) && AccessUnique(keys)
  }

  /** The table after an INSERT of `arg`, and what the statement returns. */
  datatype KeyInsertion = KeyInsertion(result: Result<nat, AuthError>, keys: seq<Key>, nextId: int)

  /** The INSERT of both `create` functions: one row with the four given columns,
      rejected when the access key is already stored. */
  function InsertKey(keys: seq<Key>, nextId: int, arg: KeyToCreate): KeyInsertion {
    if AccessTaken(keys, arg.access) then
      KeyInsertion(Err(CoreError(StorageFailure(UniqueViolation(AccessConstraint)))), keys, nextId)
    else
      KeyInsertion(Ok(1), keys + [Key(nextId, arg.access, arg.secret, arg.description, arg.expiredAt)], nextId + 1)
  }

  /** An insert succeeds exactly when the access key is new; it then appends one
      row holding the four given fields, and otherwise changes nothing. Either
      way the table stays valid. */
  lemma InsertKeySpec(keys: seq<Key>, nextId: int, arg: KeyToCreate)
    requires KeysValid(keys, nextId)
    ensures var ins := InsertKey(keys, nextId, arg);
            && (ins.result.Ok? <==> !AccessTaken(keys, arg.access))
            && (ins.result.Ok? ==> ins.result.value == 1 && |ins.keys| == |keys| + 1 && ins.keys[..|keys|] == keys &&
                                   var k := ins.keys[|keys|];
                                   k.access == arg.access && k.secret == arg.secret &&
                                   k.description == arg.description && k.expiredAt == arg.expiredAt)
            && (ins.result.Err? ==> ins.keys == keys && ins.nextId == nextId)
            && KeysValid(ins.keys, ins.nextId)
  {
    var ins := InsertKey(keys, nextId, arg);
    if ins.result.Ok? {
      assert ins.keys[..|keys|] == keys;
      forall i, j | 0 <= i < j < |ins.keys| ensures ins.keys[i].access != ins.keys[j].access {
        if j == |keys| {
          assert ins.keys[i] in keys;
        }
      }
    }
  }

  /** The same key cannot be stored twice. */
  lemma InsertKeyTwice(keys: seq<Key>, nextId: int, arg: KeyToCreate)
    ensures var ins := InsertKey(keys, nextId, arg);
            InsertKey(ins.keys, ins.nextId, arg).result.Err?
  {
    var ins := InsertKey(keys, nextId, arg);
    if ins.result.Ok? {
      assert ins.keys[|keys|] in ins.keys;
    }
  }

  /** The keys table. */
  class KeyTable {
    var keys: seq<Key>
    var nextId: int

    ghost predicate Valid()
      reads this
    {
      KeysValid(keys, nextId)
    }

    constructor ()
      ensures Valid() && keys == []
    {
      keys, nextId := [], 1;
    }
  }

  /** Insert into `table`; shared by both `create` functions. */
  method Insert(table: KeyTable, arg: KeyToCreate) returns (r: Result<nat, AuthError>)
    requires table.Valid()
    modifies table
    ensures table.Valid()
    ensures var ins := InsertKey(old(table.keys), old(table.nextId), arg);
            r == ins.result && table.keys == ins.keys && table.nextId == ins.nextId
  {
    InsertKeySpec(table.keys, table.nextId, arg);
    var ins := InsertKey(table.keys, table.nextId, arg);
    table.keys, table.nextId := ins.keys, ins.nextId;
    r := ins.result;
  }
}

/** collie-auth/src/repository/key.rs. */
module KeyRepository {
  import opened Common
  import opened KeyStore

  /** `create`: insert the four columns of `arg`. */
  method Create(table: KeyTable, arg: KeyToCreate) returns (r: Result<nat, AuthError>)
    requires table.Valid()
    modifies table
    ensures table.Valid()
    ensures r.Ok? <==> !AccessTaken(old(table.keys), arg.access)
    ensures r.Ok? ==> table.keys == old(table.keys) + [Key(old(table.nextId), arg.access, arg.secret, arg.description, arg.expiredAt)]
    ensures r.Err? ==> r == Err(CoreError(StorageFailure(UniqueViolation(AccessConstraint)))) && table.keys == old(table.keys)
  {
    r := Insert(table, arg);
  }

  /** A key is live at `now` when it has no expiry or expires after `now`. */
  predicate Live(k: Key, now: Timestamp) {
    k.expiredAt.None? || k.expiredAt.value > now
  }

  /** `exists`: the SELECT with both keys equal and the expiry test, LIMIT 1,
      scanned row by row. */
  function Exists(keys: seq<Key>, access: string, secret: string, now: Timestamp): (b: bool)
    ensures b <==> exists i :: 0 <= i < |keys| && keys[i].access == access && keys[i].secret == secret && Live(keys[i], now)
  {
    if keys == [] then false
    else if keys[0].access == access && keys[0].secret == secret && Live(keys[0], now) then
      true
    else
      var b := Exists(keys[1..], access, secret, now);
      assert forall i :: 0 < i < |keys| ==> keys[i] == keys[1..][i - 1];
      assert b ==> exists i :: 0 <= i < |keys[1..]| && keys[1..][i].access == access && keys[1..][i].secret == secret && Live(keys[1..][i], now);
      b
  }

  /** A stored key pair without expiry is accepted at every instant. */
  lemma NeverExpires(keys: seq<Key>, i: nat, now: Timestamp)
    requires i < |keys| && keys[i].expiredAt.None?
    ensures Exists(keys, keys[i].access, keys[i].secret, now)
  {
  }

  /** A key pair whose only row has expired (`expired_at <= now`) is refused. */
  lemma ExpiredRefused(keys: seq<Key>, i: nat, now: Timestamp)
    requires i < |keys| && AccessUnique(keys)
    requires keys[i].expiredAt.Some? && keys[i].expiredAt.value <= now
    ensures !Exists(keys, keys[i].access, keys[i].secret, now)
  {
  }
}

/** collie-auth/src/model/key.rs. */
module KeyModel {
  import opened Common
  import opened KeyStore
  import KeyRepository

  /** `create`: the same INSERT as the repository's. */
  method Create(table: KeyTable, arg: KeyToCreate) returns (r: Result<nat, AuthError>)
    requires table.Valid()
    modifies table
    ensures table.Valid()
    ensures r.Ok? <==> !AccessTaken(old(table.keys), arg.access)
    ensures r.Ok? ==> table.keys == old(table.keys) + [Key(old(table.nextId), arg.access, arg.secret, arg.description, arg.expiredAt)]
    ensures r.Err? ==> r == Err(CoreError(StorageFailure(UniqueViolation(AccessConstraint)))) && table.keys == old(table.keys)
  {
    r := Insert(table, arg);
  }

  /** `find_secret_by_access`: the secret of the first row with that access key
      (LIMIT 1), or `Unauthorized`; the expiry column is not read. */
  function FindSecretByAccess(keys: seq<Key>, access: string): (r: Result<string, AuthError>)
    ensures r.Ok? <==> AccessTaken(keys, access)
    ensures r.Err? ==> r.error == Unauthorized
    ensures r.Ok? ==> exists i :: 0 <= i < |keys| && keys[i].access == access && keys[i].secret == r.value &&
                                  forall j :: 0 <= j < i ==> keys[j].access != access
  {
    if keys == [] then Err(Unauthorized)
    else if keys[0].access == access then
      assert keys[0] in keys;
      Ok(keys[0].secret)
    else
      var r := FindSecretByAccess(keys[1..], access);
      assert forall k :: k in keys <==> k == keys[0] || k in keys[1..];
      assert forall i :: 0 < i < |keys| ==> keys[i] == keys[1..][i - 1];
      if r.Ok? then
        var i :| 0 <= i < |keys[1..]| && keys[1..][i].access == access && keys[1..][i].secret == r.value &&
                 forall j :: 0 <= j < i ==> keys[1..][j].access != access;
        assert keys[i + 1].access == access && keys[i + 1].secret == r.value;
        assert forall j :: 0 <= j < i + 1 ==> keys[j].access != access by {
          forall j | 0 <= j < i + 1 ensures keys[j].access != access {
            if j > 0 {
              assert keys[j] == keys[1..][j - 1];
            }
          }
        }
        r
      else
        r
  }

  /** With unique access keys, the lookup returns the secret of the one row that
      has the access key, whether or not that key has expired. */
  lemma FindSecretOfStoredKey(keys: seq<Key>, i: nat)
    requires i < |keys| && AccessUnique(keys)
    ensures FindSecretByAccess(keys, keys[i].access) == Ok(keys[i].secret)
  {
  }

  /** A pair `exists` accepts resolves, through its access key, to its secret. */
  lemma AcceptedPairResolves(keys: seq<Key>, access: string, secret: string, now: Timestamp)
    requires AccessUnique(keys) && KeyRepository.Exists(keys, access, secret, now)
    ensures FindSecretByAccess(keys, access) == Ok(secret)
  {
    var i :| 0 <= i < |keys| && keys[i].access == access && keys[i].secret == secret && KeyRepository.Live(keys[i], now);
    FindSecretOfStoredKey(keys, i);
  }

  /** How a call ends when it may abort the process instead of returning. */
  datatype Outcome<T> = Returned(value: T) | Panicked(column: string)

  /** The columns the conversion of a row into a `Key` reads, in order. */
  const KeyColumns: seq<string> := ["id", "access", "secret", "description", "expired_at"]

  /** The columns the SELECT of `find_secret_by_access` returns. */
  const SecretColumns: set<string> := {"secret"}

  /** The first of `cols` that `selected` does not hold. */
  function FirstMissing(cols: seq<string>, selected: set<string>): (r: Option<string>)
    ensures r.None? <==> forall c :: c in cols ==> c in selected
    ensures r.Some? ==> r.value in cols && r.value !in selected
  {
    if cols == [] then None
    else if cols[0] !in selected then Some(cols[0])
    else FirstMissing(cols[1..], selected)
  }

  /** `find_secret_by_access` as written: the row the lookup finds is turned into a
      `Key`, and rusqlite's `get_unwrap` aborts on the first column the SELECT did
      not return. A lookup that finds no row still returns `Unauthorized`. */
  function FindSecretByAccessAsWritten(keys: seq<Key>, access: string): (r: Outcome<Result<string, AuthError>>)
    ensures r.Returned? ==> r.value == FindSecretByAccess(keys, access)
    ensures r.Panicked? ==> FindSecretByAccess(keys, access).Ok? && r.column in KeyColumns && r.column !in SecretColumns
  {
    var found := FindSecretByAccess(keys, access);
    if found.Err? then Returned(found)
    else
      match FirstMissing(KeyColumns, SecretColumns)
      case Some(column) => Panicked(column)
      case None => Returned(found)
  }

  /** As written, every lookup that finds its access key aborts on the `id` column,
      and every other lookup returns `Unauthorized`: no call returns a secret. */
  lemma FindSecretAsWrittenOutcome(keys: seq<Key>, access: string)
    ensures var r := FindSecretByAccessAsWritten(keys, access);
            && (r.Panicked? <==> AccessTaken(keys, access))
            && (r.Panicked? ==> r.column == "id")
            && (r.Returned? ==> r.value == Err(Unauthorized))
  {
    assert KeyColumns[0] == "id" && "id" !in SecretColumns;
  }

  /** The discrepancy on any stored key: the intended lookup returns its secret,
      the lookup as written aborts. */
  lemma StoredKeyPanics(keys: seq<Key>, i: nat)
    requires i < |keys| && AccessUnique(keys)
    ensures FindSecretByAccess(keys, keys[i].access) == Ok(keys[i].secret)
    ensures FindSecretByAccessAsWritten(keys, keys[i].access) == Panicked("id")
  {
    FindSecretOfStoredKey(keys, i);
    FindSecretAsWrittenOutcome(keys, keys[i].access);
  }
}
