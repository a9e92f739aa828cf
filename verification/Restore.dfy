/**
 What a restore writes, statement by statement
 (backend-nest/src/backup/restore.service.ts:222-352), as functions of the
 database it starts from. Failures abort the whole transaction.
 */
module Restore {
  import opened Wrappers
  import opened JsText
  import opened Database

  /** Rows per insert statement. */
  const WRITE_CHUNK: nat := 500

  /** The rows of a snapshot file, decoded, model by model. */
  type Content = map<Text, seq<NewRow>>

  datatype ModelResult = ModelResult(model: Text, inSnapshot: nat, existing: nat, created: nat, updated: nat, deleted: nat)

  datatype Restored = Restored(db: Db, results: seq<ModelResult>)

  function Chunks(rows: seq<NewRow>): (chunks: seq<seq<NewRow>>)
  {
    if rows == [] then []
    else if |rows| <= WRITE_CHUNK then [rows]
    else [rows[..WRITE_CHUNK]] + Chunks(rows[WRITE_CHUNK..])
  }

  // -------------------------------------------------------------- delete phase

  datatype Cleared = Cleared(db: Db, counts: map<Text, nat>)

  /** Deletes the factory's rows of every model the file covers, in the given order. */
  function DeletePhase(db: Db, order: seq<Text>, content: Content, tenant: Text): Result<Cleared, DbError>
    decreases |order|
  {
    if order == [] then Ok(Cleared(db, map[]))
    else if order[0] !in content then DeletePhase(db, order[1..], content, tenant)
    else
      var gone := TenantKeys(db, order[0], tenant);
      match DeleteRows(db, gone)
      case Err(e) => Err(e)
      case Ok(after) =>
        match DeletePhase(after, order[1..], content, tenant)
        case Err(e) => Err(e)
        case Ok(c) => Ok(Cleared(c.db, c.counts[order[0] := |gone|]))
  }

  // -------------------------------------------------------------- insert phase

  function InsertChunks(db: Db, model: Text, chunks: seq<seq<NewRow>>, skipDuplicates: bool): Result<Inserted, DbError>
    decreases |chunks|
  {
    if chunks == [] then Ok(Inserted(db, 0))
    else
      match CreateMany(db, model, chunks[0], skipDuplicates)
      case Err(e) => Err(e)
      case Ok(first) =>
        match InsertChunks(first.db, model, chunks[1..], skipDuplicates)
        case Err(e) => Err(e)
        case Ok(rest) => Ok(Inserted(rest.db, first.count + rest.count))
  }

  function ReplacePhase(db: Db, order: seq<Text>, content: Content, deleted: map<Text, nat>): Result<Restored, DbError>
    decreases |order|
  {
    if order == [] then Ok(Restored(db, []))
    else if order[0] !in content then ReplacePhase(db, order[1..], content, deleted)
    else
      var m := order[0];
      match InsertChunks(db, m, Chunks(content[m]), false)
      case Err(e) => Err(e)
      case Ok(written) =>
        match ReplacePhase(written.db, order[1..], content, deleted)
        case Err(e) => Err(e)
        case Ok(rest) =>
          var result := ModelResult(m, |content[m]|, 0, written.count, 0, if m in deleted then deleted[m] else 0);
          Ok(Restored(rest.db, [result] + rest.results))
  }

  function Replace(db: Db, order: seq<Text>, deleteOrder: seq<Text>, content: Content, tenant: Text): Result<Restored, DbError> {
    match DeletePhase(db, deleteOrder, content, tenant)
    case Err(e) => Err(e)
    case Ok(cleared) => ReplacePhase(cleared.db, order, content, cleared.counts)
  }

  // --------------------------------------------------------------------- merge

  /** `existingIds`: the file's ids that the factory already has; any factory when the file names none. */
  function Existing(db: Db, model: Text, rows: seq<NewRow>, tenant: Option<Text>): set<Text> {
    set r | r in rows && Key(model, r.id) in db && (tenant == None || db[Key(model, r.id)].tenant == tenant.value) :: r.id
  }

  function ToCreate(rows: seq<NewRow>, existing: set<Text>): (r: seq<NewRow>)
    ensures forall x :: x in r <==> x in rows && x.id !in existing
  {
    if rows == [] then []
    else (if rows[0].id in existing then [] else [rows[0]]) + ToCreate(rows[1..], existing)
  }

  function ToUpdate(rows: seq<NewRow>, existing: set<Text>): (r: seq<NewRow>)
    ensures forall x :: x in r <==> x in rows && x.id in existing
  {
    if rows == [] then []
    else (if rows[0].id in existing then [rows[0]] else []) + ToUpdate(rows[1..], existing)
  }

  /** One update statement per row; a row that is gone fails like any missing record. */
  function UpdateAll(db: Db, model: Text, rows: seq<NewRow>): Result<Db, DbError>
    requires forall r :: r in rows ==> Key(model, r.id) in db
    decreases |rows|
  {
    if rows == [] then Ok(db)
    else
      match UpdateRow(db, Key(model, rows[0].id), rows[0].row)
      case Err(e) => Err(e)
      case Ok(after) => UpdateAll(after, model, rows[1..])
  }

  lemma {:induction false} InsertChunksKeepsKeys(db: Db, model: Text, chunks: seq<seq<NewRow>>, skipDuplicates: bool)
    requires InsertChunks(db, model, chunks, skipDuplicates).Ok?
    ensures db.Keys <= InsertChunks(db, model, chunks, skipDuplicates).value.db.Keys
    decreases |chunks|
  {
    if chunks != [] {
      CreateManyKeepsKeys(db, model, chunks[0], skipDuplicates);
      InsertChunksKeepsKeys(CreateMany(db, model, chunks[0], skipDuplicates).value.db, model, chunks[1..], skipDuplicates);
    }
  }

  lemma CreateManyKeepsKeys(db: Db, model: Text, rows: seq<NewRow>, skipDuplicates: bool)
    requires CreateMany(db, model, rows, skipDuplicates).Ok?
    ensures db.Keys <= CreateMany(db, model, rows, skipDuplicates).value.db.Keys
  {
    var written := if skipDuplicates then Unseen(db, model, rows) else rows;
    forall k | k in db
      ensures k in Put(db, model, written)
    {
      PutKeys(db, model, written, k);
    }
  }

  datatype Merged = Merged(db: Db, result: ModelResult)

  function MergeModel(db: Db, model: Text, rows: seq<NewRow>, tenant: Option<Text>): Result<Merged, DbError> {
    var existing := Existing(db, model, rows, tenant);
    match InsertChunks(db, model, Chunks(ToCreate(rows, existing)), true)
    case Err(e) => Err(e)
    case Ok(written) =>
      InsertChunksKeepsKeys(db, model, Chunks(ToCreate(rows, existing)), true);
      match UpdateAll(written.db, model, ToUpdate(rows, existing))
      case Err(e) => Err(e)
      case Ok(after) =>
        Ok(Merged(after, ModelResult(model, |rows|, |existing|, written.count, |ToUpdate(rows, existing)|, 0)))
  }

  function Merge(db: Db, order: seq<Text>, content: Content, tenant: Option<Text>): Result<Restored, DbError>
    decreases |order|
  {
    if order == [] then Ok(Restored(db, []))
    else if order[0] !in content then Merge(db, order[1..], content, tenant)
    else
      match MergeModel(db, order[0], content[order[0]], tenant)
      case Err(e) => Err(e)
      case Ok(m) =>
        match Merge(m.db, order[1..], content, tenant)
        case Err(e) => Err(e)
        case Ok(rest) => Ok(Restored(rest.db, [m.result] + rest.results))
  }
}
