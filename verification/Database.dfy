/**
 The database as a restore sees it: rows of every model and factory, with the
 foreign keys and delete rules the migrations give them: those of
 backend-nest/prisma/schema.prisma and keys that only a migration adds, such as
 stock_movements to products
 (backend-nest/prisma/migrations/20260905230000_stock_movement_referential_integrity/migration.sql:22-26).
 They are checked at the end of every statement.
 */
module Database {
  import opened Wrappers
  import opened JsText
  import opened SnapshotCodec

  datatype Key = Key(model: Text, id: Text)

  datatype OnDelete = Cascade | SetNull | Restrict

  /** A filled foreign-key column: the row it points at and what happens when that row goes. */
  datatype Ref = Ref(target: Key, onDelete: OnDelete)

  datatype Row = Row(tenant: Text, refs: map<Text, Ref>, columns: Columns)

  type Db = map<Key, Row>

  datatype NewRow = NewRow(id: Text, row: Row)

  datatype DbError = UniqueViolation | ForeignKeyViolation

  /** Every filled foreign key points at a row that is there. */
  ghost predicate Integrity(db: Db) {
    forall k, c :: k in db && c in db[k].refs ==> db[k].refs[c].target in db
  }

  function TenantKeys(db: Db, model: Text, tenant: Text): set<Key> {
    set k | k in db && k.model == model && db[k].tenant == tenant
  }

  // ------------------------------------------------------------------- deletes

  predicate CascadesInto(row: Row, gone: set<Key>) {
    exists c | c in row.refs.Keys :: row.refs[c].onDelete == Cascade && row.refs[c].target in gone
  }

  function Followers(db: Db, gone: set<Key>): set<Key> {
    set k | k in db && CascadesInto(db[k], gone)
  }

  /** The rows that go when `gone` goes: everything that cascades into them, and so on. */
  function Doomed(db: Db, gone: set<Key>): (doomed: set<Key>)
    requires gone <= db.Keys
    ensures gone <= doomed <= db.Keys
    ensures Followers(db, doomed) <= doomed
    decreases |db.Keys - gone|
  {
    if Followers(db, gone) <= gone then gone
    else
      assert |db.Keys - (gone + Followers(db, gone))| < |db.Keys - gone| by {
        var k :| k in Followers(db, gone) && k !in gone;
        assert db.Keys - gone == (db.Keys - (gone + Followers(db, gone))) + (Followers(db, gone) - gone);
      }
      Doomed(db, gone + Followers(db, gone))
  }

  /** Foreign keys with SET NULL that pointed at a deleted row are emptied. */
  function WithoutRefs(row: Row, gone: set<Key>): Row {
    row.(refs := map c | c in row.refs && !(row.refs[c].onDelete == SetNull && row.refs[c].target in gone) :: row.refs[c])
  }

  predicate Restricts(row: Row, gone: set<Key>) {
    exists c | c in row.refs.Keys :: row.refs[c].onDelete == Restrict && row.refs[c].target in gone
  }

  function DeleteRows(db: Db, gone: set<Key>): Result<Db, DbError>
    requires gone <= db.Keys
  {
    var doomed := Doomed(db, gone);
    if exists k | k in db.Keys :: k !in doomed && Restricts(db[k], doomed) then Err(ForeignKeyViolation)
    else Ok(map k | k in db && k !in doomed :: WithoutRefs(db[k], doomed))
  }

  /** No statement that deletes leaves a foreign key dangling. */
  lemma DeleteKeepsIntegrity(db: Db, gone: set<Key>)
    requires Integrity(db) && gone <= db.Keys && DeleteRows(db, gone).Ok?
    ensures Integrity(DeleteRows(db, gone).value)
  {
    var doomed := Doomed(db, gone);
    var after := DeleteRows(db, gone).value;
    forall k, c | k in after && c in after[k].refs
      ensures after[k].refs[c].target in after
    {
      var r := db[k].refs[c];
      assert k in db.Keys && c in db[k].refs.Keys && r.target in db;
      assert k in Followers(db, doomed) <==> CascadesInto(db[k], doomed);
      assert !CascadesInto(db[k], doomed) && !Restricts(db[k], doomed);
      assert r.target !in doomed;
    }
  }

  // ------------------------------------------------------------------- inserts

  function Put(db: Db, model: Text, rows: seq<NewRow>): Db
    decreases |rows|
  {
    if rows == [] then db
    else Put(db[Key(model, rows[0].id) := rows[0].row], model, rows[1..])
  }

  ghost predicate HasId(rows: seq<NewRow>, id: Text) {
    exists i :: 0 <= i < |rows| && rows[i].id == id
  }

  lemma {:induction false} PutKeys(db: Db, model: Text, rows: seq<NewRow>, k: Key)
    ensures k in Put(db, model, rows) <==> k in db || (k.model == model && HasId(rows, k.id))
    ensures k in db && !(k.model == model && HasId(rows, k.id)) ==> Put(db, model, rows)[k] == db[k]
    decreases |rows|
  {
    if rows != [] {
      PutKeys(db[Key(model, rows[0].id) := rows[0].row], model, rows[1..], k);
      if HasId(rows[1..], k.id) {
        var i :| 0 <= i < |rows[1..]| && rows[1..][i].id == k.id;
        assert rows[i + 1].id == k.id;
      }
      if HasId(rows, k.id) && rows[0].id != k.id {
        var i :| 0 <= i < |rows| && rows[i].id == k.id;
        assert rows[1..][i - 1].id == k.id;
      }
    }
  }

  ghost predicate DistinctIds(rows: seq<NewRow>) {
    forall i, j :: 0 <= i < j < |rows| ==> rows[i].id != rows[j].id
  }

  /** Rows with different ids all arrive as they are. */
  lemma {:induction false} PutHolds(db: Db, model: Text, rows: seq<NewRow>, r: NewRow)
    requires DistinctIds(rows) && r in rows
    ensures Key(model, r.id) in Put(db, model, rows) && Put(db, model, rows)[Key(model, r.id)] == r.row
    decreases |rows|
  {
    var tail := rows[1..];
    assert forall i :: 0 <= i < |tail| ==> tail[i] == rows[i + 1];
    if r in tail {
      PutHolds(db[Key(model, rows[0].id) := rows[0].row], model, tail, r);
    } else {
      assert r == rows[0];
      assert !HasId(tail, r.id);
      PutKeys(db[Key(model, r.id) := r.row], model, tail, Key(model, r.id));
    }
  }

  predicate RefsPresent(db: Db, rows: seq<NewRow>) {
    forall i | 0 <= i < |rows| :: forall c | c in rows[i].row.refs.Keys :: rows[i].row.refs[c].target in db
  }

  predicate HasRepeats(rows: seq<NewRow>) {
    exists i, j | 0 <= i < j < |rows| :: rows[i].id == rows[j].id
  }

  /** The rows an insert with `skipDuplicates` writes: ids that are new, each once. */
  function Unseen(db: Db, model: Text, rows: seq<NewRow>): (unseen: seq<NewRow>)
    ensures forall r :: r in unseen ==> r in rows && Key(model, r.id) !in db
    decreases |rows|
  {
    if rows == [] then []
    else if Key(model, rows[0].id) in db then Unseen(db, model, rows[1..])
    else
      [rows[0]] + Unseen(db[Key(model, rows[0].id) := rows[0].row], model, rows[1..])
  }

  datatype Inserted = Inserted(db: Db, count: nat)

  /** One insert statement. */
  function CreateMany(db: Db, model: Text, rows: seq<NewRow>, skipDuplicates: bool): Result<Inserted, DbError> {
    if !skipDuplicates && (HasRepeats(rows) || exists i | 0 <= i < |rows| :: Key(model, rows[i].id) in db) then Err(UniqueViolation)
    else
      var written := if skipDuplicates then Unseen(db, model, rows) else rows;
      var after := Put(db, model, written);
      if RefsPresent(after, written) then Ok(Inserted(after, |written|)) else Err(ForeignKeyViolation)
  }

  /** What an update makes of a row: foreign keys and factory replaced, other columns overwritten. */
  function Overwritten(current: Row, row: Row): Row {
    Row(row.tenant, row.refs, current.columns + row.columns)
  }

  function UpdateRow(db: Db, key: Key, row: Row): Result<Db, DbError>
    requires key in db
  {
    if forall c | c in row.refs.Keys :: row.refs[c].target in db then Ok(db[key := Overwritten(db[key], row)])
    else Err(ForeignKeyViolation)
  }

  lemma CreateKeepsIntegrity(db: Db, model: Text, rows: seq<NewRow>, skipDuplicates: bool)
    requires Integrity(db) && CreateMany(db, model, rows, skipDuplicates).Ok?
    ensures Integrity(CreateMany(db, model, rows, skipDuplicates).value.db)
  {
    var written := if skipDuplicates then Unseen(db, model, rows) else rows;
    var after := Put(db, model, written);
    forall k, c | k in after && c in after[k].refs
      ensures after[k].refs[c].target in after
    {
      PutOrigin(db, model, written, k);
      PutKeys(db, model, written, after[k].refs[c].target);
    }
  }

  /** A row after an insert is a row from before or one of the inserted ones. */
  lemma {:induction false} PutOrigin(db: Db, model: Text, rows: seq<NewRow>, k: Key)
    requires k in Put(db, model, rows)
    ensures (k in db && Put(db, model, rows)[k] == db[k]) || exists i :: 0 <= i < |rows| && rows[i].row == Put(db, model, rows)[k]
    decreases |rows|
  {
    if rows != [] {
      var first := db[Key(model, rows[0].id) := rows[0].row];
      PutOrigin(first, model, rows[1..], k);
      if !(k in first && Put(db, model, rows)[k] == first[k]) {
        var i :| 0 <= i < |rows[1..]| && rows[1..][i].row == Put(db, model, rows)[k];
        assert rows[i + 1].row == Put(db, model, rows)[k];
      }
    }
  }

  lemma UpdateKeepsIntegrity(db: Db, key: Key, row: Row)
    requires Integrity(db) && key in db && UpdateRow(db, key, row).Ok?
    ensures Integrity(UpdateRow(db, key, row).value)
  {
  }
}
