/** Storage of personal access tokens (src/cimd_proxy/pat_store.py) under the constraints of the table
    (src/cimd_proxy/migrations/V1__personal_access_token.sql). */
module PatStore {
  import opened Wrappers

  type Bytes = seq<nat>

  /** Identifiers and times are numbers: a UUID as a 128-bit value, a time in microseconds. */
  datatype PatRecord = PatRecord(
    id: nat, tenant: string, realmIssuer: string, ownerSub: string, name: string,
    resources: seq<string>, scopes: seq<string>, createdAt: int, expiresAt: int,
    lastUsedAt: Option<int>, revokedAt: Option<int>)
  {
    predicate OwnedBy(realm: string, owner: string) { realmIssuer == realm && ownerSub == owner }
  }

  datatype Row = Row(record: PatRecord, tokenHash: Bytes)

  type Table = map<nat, Row>

  /** PostgreSQL keeps any text but one with a NUL in it. */
  predicate IsStorable(s: string) { '\0' !in s }

  predicate TextsOk(r: PatRecord) {
    && IsStorable(r.tenant) && IsStorable(r.realmIssuer) && IsStorable(r.ownerSub) && IsStorable(r.name)
    && (forall s | s in r.resources :: IsStorable(s)) && forall s | s in r.scopes :: IsStorable(s)
  }

  /** The column types and checks. */
  predicate RowOk(r: Row) {
    && TextsOk(r.record)
    && r.record.tenant != "" && 1 <= |r.record.name| <= 100 && |r.tokenHash| == 32
    && r.record.resources != [] && r.record.createdAt < r.record.expiresAt
  }

  /** Primary key, uniqueness of the hash, and the column checks. */
  predicate TableOk(t: Table) {
    && (forall id | id in t :: t[id].record.id == id && RowOk(t[id]))
    && forall a, b | a in t && b in t && t[a].tokenHash == t[b].tokenHash :: a == b
  }

  /** A row as INSERT writes it: never used, never revoked. */
  function NewRow(record: PatRecord, tokenHash: Bytes): Row {
    Row(record.(lastUsedAt := None, revokedAt := None), tokenHash)
  }

  predicate Insertable(t: Table, record: PatRecord, tokenHash: Bytes) {
    && record.id !in t && (forall id | id in t :: t[id].tokenHash != tokenHash)
    && RowOk(NewRow(record, tokenHash))
  }

  function Inserted(t: Table, record: PatRecord, tokenHash: Bytes): Table {
    if Insertable(t, record, tokenHash) then t[record.id := NewRow(record, tokenHash)] else t
  }

  /** The WHERE clause of the revocation. */
  predicate Revocable(t: Table, realm: string, owner: string, id: nat) {
    id in t && t[id].record.OwnedBy(realm, owner) && t[id].record.revokedAt.None?
  }

  function Revoked(t: Table, realm: string, owner: string, id: nat, now: int): Table {
    if Revocable(t, realm, owner, id)
    then t[id := t[id].(record := t[id].record.(revokedAt := Some(now)))]
    else t
  }

  function Touched(t: Table, id: nat, usedAt: int): Table {
    if id in t then t[id := t[id].(record := t[id].record.(lastUsedAt := Some(usedAt)))] else t
  }

  /** `found` is what a lookup by hash returns. */
  predicate IsFound(t: Table, tokenHash: Bytes, found: Option<PatRecord>) {
    match found
    case None => forall id | id in t :: t[id].tokenHash != tokenHash
    case Some(record) => record.id in t && t[record.id] == Row(record, tokenHash)
  }

  class Store {
    var rows: Table

    constructor ()
      ensures rows == map[] && TableOk(rows)
    {
      rows := map[];
    }

    /** A violated constraint raises, and leaves the table as it was. */
    method Insert(record: PatRecord, tokenHash: Bytes) returns (ok: bool)
      requires TableOk(rows)
      modifies this
      ensures TableOk(rows) && ok == Insertable(old(rows), record, tokenHash)
      ensures rows == Inserted(old(rows), record, tokenHash)
      ensures ok <==>
        && record.id !in old(rows) && (forall id | id in old(rows) :: old(rows)[id].tokenHash != tokenHash)
        && |tokenHash| == 32 && record.tenant != "" && 1 <= |record.name| <= 100 && record.resources != []
        && record.createdAt < record.expiresAt && TextsOk(record)
      ensures rows ==
        if ok then old(rows)[record.id := Row(record.(lastUsedAt := None, revokedAt := None), tokenHash)] else old(rows)
    {
      ok := Insertable(rows, record, tokenHash);
      if ok { rows := rows[record.id := NewRow(record, tokenHash)]; }
    }

    method FindByHash(tokenHash: Bytes) returns (found: Option<PatRecord>)
      requires TableOk(rows)
      ensures IsFound(rows, tokenHash, found)
    {
      if id :| id in rows && rows[id].tokenHash == tokenHash {
        found := Some(rows[id].record);
      } else {
        found := None;
      }
    }

    /** True exactly when this call is the one that revoked the row. */
    method Revoke(realm: string, owner: string, id: nat, now: int) returns (done: bool)
      requires TableOk(rows)
      modifies this
      ensures TableOk(rows) && done == Revocable(old(rows), realm, owner, id)
      ensures rows == Revoked(old(rows), realm, owner, id, now)
      ensures done <==>
        && id in old(rows) && old(rows)[id].record.realmIssuer == realm && old(rows)[id].record.ownerSub == owner
        && old(rows)[id].record.revokedAt == None
      ensures done ==> id in rows && rows[id] == old(rows)[id].(record := old(rows)[id].record.(revokedAt := Some(now)))
      ensures forall k | k in old(rows) && !(done && k == id) :: k in rows && rows[k] == old(rows)[k]
    {
      done := false;
      if id in rows && rows[id].record.OwnedBy(realm, owner) && rows[id].record.revokedAt.None? {
        RevokeKeeps(rows, realm, owner, id, now);
        rows := rows[id := rows[id].(record := rows[id].record.(revokedAt := Some(now)))];
        done := true;
      }
    }

    method Touch(id: nat, usedAt: int)
      requires TableOk(rows)
      modifies this
      ensures TableOk(rows) && rows == Touched(old(rows), id, usedAt) && rows.Keys == old(rows).Keys
      ensures forall k | k in rows ::
        rows[k] == if k == id then old(rows)[k].(record := old(rows)[k].record.(lastUsedAt := Some(usedAt))) else old(rows)[k]
    {
      if id in rows {
        rows := rows[id := rows[id].(record := rows[id].record.(lastUsedAt := Some(usedAt)))];
      }
    }
  }

  // ----- what the statements guarantee ----------------------------------------

  /** A lookup has one answer. */
  lemma FoundIsUnique(t: Table, tokenHash: Bytes, a: Option<PatRecord>, b: Option<PatRecord>)
    requires TableOk(t) && IsFound(t, tokenHash, a) && IsFound(t, tokenHash, b)
    ensures a == b
  {
    if a.Some? && b.Some? { assert t[a.value.id].tokenHash == t[b.value.id].tokenHash; }
  }

  /** Two records that differ, if at all, in the two columns that may be updated. */
  predicate SameFixed(a: PatRecord, b: PatRecord) {
    a.(lastUsedAt := None, revokedAt := None) == b.(lastUsedAt := None, revokedAt := None)
  }

  /** Every row of `t` is still there in `u`, equal in all columns but the two that may be updated, used if
      it was used, and revoked at the same time if it was revoked. */
  predicate Keeps(t: Table, u: Table) {
    forall id | id in t ::
      && id in u && u[id].tokenHash == t[id].tokenHash && SameFixed(u[id].record, t[id].record)
      && (t[id].record.lastUsedAt.Some? ==> u[id].record.lastUsedAt.Some?)
      && (t[id].record.revokedAt.Some? ==> u[id].record.revokedAt == t[id].record.revokedAt)
  }

  /** No statement deletes a row, changes its owner, organization, sets or expiry, or undoes a revocation. */
  lemma StatementsKeep(t: Table, record: PatRecord, tokenHash: Bytes, realm: string, owner: string, id: nat, time: int)
    requires TableOk(t)
    ensures TableOk(Inserted(t, record, tokenHash)) && Keeps(t, Inserted(t, record, tokenHash))
    ensures TableOk(Revoked(t, realm, owner, id, time)) && Keeps(t, Revoked(t, realm, owner, id, time))
    ensures TableOk(Touched(t, id, time)) && Keeps(t, Touched(t, id, time))
  {
    InsertKeeps(t, record, tokenHash);
    RevokeKeeps(t, realm, owner, id, time);
    TouchKeeps(t, id, time);
  }

  lemma InsertKeeps(t: Table, record: PatRecord, tokenHash: Bytes)
    requires TableOk(t)
    ensures TableOk(Inserted(t, record, tokenHash)) && Keeps(t, Inserted(t, record, tokenHash))
  {
    assert forall id | id in t :: SameFixed(t[id].record, t[id].record);
    hide RowOk, SameFixed;
  }

  /** Replacing the two updatable columns of one row. */
  lemma UpdateKeeps(t: Table, id: nat, row: Row)
    requires TableOk(t) && id in t
    requires row.tokenHash == t[id].tokenHash && SameFixed(row.record, t[id].record)
    requires t[id].record.lastUsedAt.Some? ==> row.record.lastUsedAt.Some?
    requires t[id].record.revokedAt.Some? ==> row.record.revokedAt == t[id].record.revokedAt
    ensures TableOk(t[id := row]) && Keeps(t, t[id := row])
  {
    assert RowOk(t[id]) && t[id].record.id == id;
    assert RowOk(row) && row.record.id == id;
    assert forall k | k in t :: SameFixed(t[k].record, t[k].record);
    hide RowOk, SameFixed;
  }

  lemma RevokeKeeps(t: Table, realm: string, owner: string, id: nat, now: int)
    requires TableOk(t)
    ensures TableOk(Revoked(t, realm, owner, id, now)) && Keeps(t, Revoked(t, realm, owner, id, now))
  {
    KeepsItself(t);
    hide TableOk, Keeps;
    if Revocable(t, realm, owner, id) {
      UpdateKeeps(t, id, t[id].(record := t[id].record.(revokedAt := Some(now))));
    }
  }

  lemma TouchKeeps(t: Table, id: nat, usedAt: int)
    requires TableOk(t)
    ensures TableOk(Touched(t, id, usedAt)) && Keeps(t, Touched(t, id, usedAt))
  {
    KeepsItself(t);
    hide TableOk, Keeps;
    if id in t {
      UpdateKeeps(t, id, t[id].(record := t[id].record.(lastUsedAt := Some(usedAt))));
    }
  }

  lemma KeepsItself(t: Table)
    ensures Keeps(t, t)
  {
  }

  lemma KeepsTransitive(t: Table, u: Table, v: Table)
    requires Keeps(t, u) && Keeps(u, v)
    ensures Keeps(t, v)
  {
  }
}
