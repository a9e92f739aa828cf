/**
 No foreign key dangles in between: the databases after every single statement of a restore
 (backend-nest/src/backup/restore.service.ts:279-346).

 First with the database checking each statement, for any file. Then with nothing checked at all: a closed file
 written parents first, cleared children first, leaves nothing dangling of its own accord.
 */
module RestoreIntegrity {
  import opened Wrappers
  import opened JsText
  import opened ModelGraph
  import opened Database
  import opened Restore
  import opened RestoreClearing
  import opened RestoreInserts
  import RR = RestoreReplace
  import RM = RestoreMerge

  ghost predicate AllWhole(states: seq<Db>) {
    forall i :: 0 <= i < |states| ==> Integrity(states[i])
  }

  // ------------------------------------------------------------------ the databases after each statement

  ghost function DeleteTrace(db: Db, order: seq<Text>, content: Content, tenant: Text): seq<Db>
    decreases |order|
  {
    if order == [] then []
    else if order[0] !in content then DeleteTrace(db, order[1..], content, tenant)
    else
      match DeleteRows(db, TenantKeys(db, order[0], tenant))
      case Err(_) => []
      case Ok(after) => [after] + DeleteTrace(after, order[1..], content, tenant)
  }

  ghost function InsertTrace(db: Db, model: Text, chunks: seq<seq<NewRow>>, skipDuplicates: bool): seq<Db>
    decreases |chunks|
  {
    if chunks == [] then []
    else
      match CreateMany(db, model, chunks[0], skipDuplicates)
      case Err(_) => []
      case Ok(first) => [first.db] + InsertTrace(first.db, model, chunks[1..], skipDuplicates)
  }

  ghost function WriteTrace(db: Db, order: seq<Text>, content: Content): seq<Db>
    decreases |order|
  {
    if order == [] then []
    else if order[0] !in content then WriteTrace(db, order[1..], content)
    else
      InsertTrace(db, order[0], Chunks(content[order[0]]), false)
      + match InsertChunks(db, order[0], Chunks(content[order[0]]), false)
        case Err(_) => []
        case Ok(written) => WriteTrace(written.db, order[1..], content)
  }

  /** `replace`: every database from the first delete to the last insert, up to the statement that fails if one does. */
  ghost function ReplaceTrace(db: Db, order: seq<Text>, deleteOrder: seq<Text>, content: Content, tenant: Text): seq<Db> {
    DeleteTrace(db, deleteOrder, content, tenant)
    + match DeletePhase(db, deleteOrder, content, tenant)
      case Err(_) => []
      case Ok(cleared) => WriteTrace(cleared.db, order, content)
  }

  ghost function UpdateTrace(db: Db, model: Text, rows: seq<NewRow>): seq<Db>
    requires forall r :: r in rows ==> Key(model, r.id) in db
    decreases |rows|
  {
    if rows == [] then []
    else
      match UpdateRow(db, Key(model, rows[0].id), rows[0].row)
      case Err(_) => []
      case Ok(after) => [after] + UpdateTrace(after, model, rows[1..])
  }

  ghost function MergeModelTrace(db: Db, model: Text, rows: seq<NewRow>, tenant: Option<Text>): seq<Db> {
    var existing := Existing(db, model, rows, tenant);
    var chunks := Chunks(ToCreate(rows, existing));
    InsertTrace(db, model, chunks, true)
    + match InsertChunks(db, model, chunks, true)
      case Err(_) => []
      case Ok(written) =>
        InsertChunksKeepsKeys(db, model, chunks, true);
        UpdateTrace(written.db, model, ToUpdate(rows, existing))
  }

  /** `merge`: every database from the first insert to the last update. */
  ghost function MergeTrace(db: Db, order: seq<Text>, content: Content, tenant: Option<Text>): seq<Db>
    decreases |order|
  {
    if order == [] then []
    else if order[0] !in content then MergeTrace(db, order[1..], content, tenant)
    else
      MergeModelTrace(db, order[0], content[order[0]], tenant)
      + match MergeModel(db, order[0], content[order[0]], tenant)
        case Err(_) => []
        case Ok(m) => MergeTrace(m.db, order[1..], content, tenant)
  }

  lemma {:induction false} DeletesKeepIntegrity(db: Db, order: seq<Text>, content: Content, tenant: Text)
    requires Integrity(db)
    ensures AllWhole(DeleteTrace(db, order, content, tenant))
    ensures DeletePhase(db, order, content, tenant).Ok? ==> Integrity(DeletePhase(db, order, content, tenant).value.db)
    decreases |order|
  {
    hide DeleteRows, Integrity;
    if order != [] {
      if order[0] !in content {
        DeletesKeepIntegrity(db, order[1..], content, tenant);
      } else {
        var gone := TenantKeys(db, order[0], tenant);
        if DeleteRows(db, gone).Ok? {
          DeleteKeepsIntegrity(db, gone);
          DeletesKeepIntegrity(DeleteRows(db, gone).value, order[1..], content, tenant);
        }
      }
    }
  }

  lemma {:induction false} InsertsKeepIntegrity(db: Db, model: Text, chunks: seq<seq<NewRow>>, skipDuplicates: bool)
    requires Integrity(db)
    ensures AllWhole(InsertTrace(db, model, chunks, skipDuplicates))
    ensures InsertChunks(db, model, chunks, skipDuplicates).Ok? ==> Integrity(InsertChunks(db, model, chunks, skipDuplicates).value.db)
    decreases |chunks|
  {
    hide CreateMany, Integrity;
    if chunks != [] && CreateMany(db, model, chunks[0], skipDuplicates).Ok? {
      CreateKeepsIntegrity(db, model, chunks[0], skipDuplicates);
      InsertsKeepIntegrity(CreateMany(db, model, chunks[0], skipDuplicates).value.db, model, chunks[1..], skipDuplicates);
    }
  }

  lemma {:induction false} WritesKeepIntegrity(db: Db, order: seq<Text>, content: Content)
    requires Integrity(db)
    ensures AllWhole(WriteTrace(db, order, content))
    decreases |order|
  {
    hide InsertTrace, InsertChunks, Integrity, Chunks;
    if order != [] {
      if order[0] !in content {
        WritesKeepIntegrity(db, order[1..], content);
      } else {
        InsertsKeepIntegrity(db, order[0], Chunks(content[order[0]]), false);
        var r := InsertChunks(db, order[0], Chunks(content[order[0]]), false);
        if r.Ok? {
          WritesKeepIntegrity(r.value.db, order[1..], content);
        }
      }
    }
  }

  lemma {:induction false} UpdatesKeepIntegrity(db: Db, model: Text, rows: seq<NewRow>)
    requires Integrity(db) && forall r :: r in rows ==> Key(model, r.id) in db
    ensures AllWhole(UpdateTrace(db, model, rows))
    ensures UpdateAll(db, model, rows).Ok? ==> Integrity(UpdateAll(db, model, rows).value)
    decreases |rows|
  {
    if rows != [] {
      hide Integrity;
      var key := Key(model, rows[0].id);
      assert rows[0] in rows;
      if UpdateRow(db, key, rows[0].row).Ok? {
        UpdateKeepsIntegrity(db, key, rows[0].row);
        UpdatesKeepIntegrity(UpdateRow(db, key, rows[0].row).value, model, rows[1..]);
      }
    }
  }

  /** Any `replace`, successful or not, of any file: after every delete and every chunk no foreign key dangles. */
  lemma ReplaceNeverDangles(db: Db, order: seq<Text>, deleteOrder: seq<Text>, content: Content, tenant: Text)
    requires Integrity(db)
    ensures AllWhole(ReplaceTrace(db, order, deleteOrder, content, tenant))
    ensures Replace(db, order, deleteOrder, content, tenant).Ok? ==> Integrity(Replace(db, order, deleteOrder, content, tenant).value.db)
  {
    hide DeleteTrace, DeletePhase, WriteTrace, ReplacePhase, Integrity;
    DeletesKeepIntegrity(db, deleteOrder, content, tenant);
    var r := DeletePhase(db, deleteOrder, content, tenant);
    if r.Ok? {
      WritesKeepIntegrity(r.value.db, order, content);
      WrittenWhole(r.value.db, order, content, r.value.counts);
    }
  }

  lemma {:induction false} WrittenWhole(db: Db, order: seq<Text>, content: Content, deleted: map<Text, nat>)
    requires Integrity(db)
    ensures ReplacePhase(db, order, content, deleted).Ok? ==> Integrity(ReplacePhase(db, order, content, deleted).value.db)
    decreases |order|
  {
    hide InsertTrace, InsertChunks, Integrity, Chunks;
    if order != [] {
      if order[0] !in content {
        WrittenWhole(db, order[1..], content, deleted);
      } else {
        InsertsKeepIntegrity(db, order[0], Chunks(content[order[0]]), false);
        var r := InsertChunks(db, order[0], Chunks(content[order[0]]), false);
        if r.Ok? {
          WrittenWhole(r.value.db, order[1..], content, deleted);
        }
      }
    }
  }

  lemma ModelMergeNeverDangles(db: Db, model: Text, rows: seq<NewRow>, tenant: Option<Text>)
    requires Integrity(db)
    ensures AllWhole(MergeModelTrace(db, model, rows, tenant))
    ensures MergeModel(db, model, rows, tenant).Ok? ==> Integrity(MergeModel(db, model, rows, tenant).value.db)
  {
    hide InsertTrace, InsertChunks, UpdateTrace, UpdateAll, Integrity, Chunks, ToCreate, ToUpdate, Existing;
    var existing := Existing(db, model, rows, tenant);
    var chunks := Chunks(ToCreate(rows, existing));
    InsertsKeepIntegrity(db, model, chunks, true);
    var r := InsertChunks(db, model, chunks, true);
    if r.Ok? {
      InsertChunksKeepsKeys(db, model, chunks, true);
      forall x | x in ToUpdate(rows, existing)
        ensures Key(model, x.id) in r.value.db
      {
        UpdatedExist(db, model, rows, tenant, x);
      }
      UpdatesKeepIntegrity(r.value.db, model, ToUpdate(rows, existing));
    }
  }

  lemma UpdatedExist(db: Db, model: Text, rows: seq<NewRow>, tenant: Option<Text>, x: NewRow)
    requires x in ToUpdate(rows, Existing(db, model, rows, tenant))
    ensures Key(model, x.id) in db
  {
  }

  /** Any `merge` of any file: after every chunk and every update no foreign key dangles. */
  lemma {:induction false} MergeNeverDangles(db: Db, order: seq<Text>, content: Content, tenant: Option<Text>)
    requires Integrity(db)
    ensures AllWhole(MergeTrace(db, order, content, tenant))
    ensures Merge(db, order, content, tenant).Ok? ==> Integrity(Merge(db, order, content, tenant).value.db)
    decreases |order|
  {
    hide MergeModelTrace, MergeModel, Integrity;
    if order != [] {
      if order[0] !in content {
        MergeNeverDangles(db, order[1..], content, tenant);
      } else {
        ModelMergeNeverDangles(db, order[0], content[order[0]], tenant);
        var r := MergeModel(db, order[0], content[order[0]], tenant);
        if r.Ok? {
          MergeNeverDangles(r.value.db, order[1..], content, tenant);
        }
      }
    }
  }

  // ------------------------------------------------------------------ with nothing checked

  /** Only references of a row into its own table may dangle. */
  ghost predicate OnlySelfDangles(db: Db) {
    forall k, c :: k in db && c in db[k].refs ==> db[k].refs[c].target in db || db[k].refs[c].target.model == k.model
  }

  ghost predicate AllStates(states: seq<Db>, whole: bool) {
    forall i :: 0 <= i < |states| ==> OnlySelfDangles(states[i]) && (whole ==> Integrity(states[i]))
  }

  /** The rows' references into other tables are met. */
  ghost predicate OthersMet(db: Db, model: Text, rows: seq<NewRow>) {
    forall r, c :: r in rows && c in r.row.refs && r.row.refs[c].target.model != model ==> r.row.refs[c].target in db
  }

  /** Those into the own table are met by it or by the rows. */
  ghost predicate OwnMet(db: Db, model: Text, rows: seq<NewRow>) {
    forall r, c :: r in rows && c in r.row.refs && r.row.refs[c].target.model == model ==>
      r.row.refs[c].target in db || HasId(rows, r.row.refs[c].target.id)
  }

  lemma PutDanglesNothing(db: Db, model: Text, rows: seq<NewRow>)
    requires OnlySelfDangles(db) && OthersMet(db, model, rows)
    ensures OnlySelfDangles(Put(db, model, rows))
    ensures Integrity(db) && OwnMet(db, model, rows) ==> Integrity(Put(db, model, rows))
  {
    var after := Put(db, model, rows);
    forall k, c | k in after && c in after[k].refs
      ensures after[k].refs[c].target in after || after[k].refs[c].target.model == k.model
      ensures Integrity(db) && OwnMet(db, model, rows) ==> after[k].refs[c].target in after
    {
      PutKeys(db, model, rows, k);
      PutKeys(db, model, rows, after[k].refs[c].target);
      if !(k in db && after[k] == db[k]) {
        PutOrigin(db, model, rows, k);
        var i :| 0 <= i < |rows| && rows[i].row == after[k];
        assert rows[i] in rows;
      }
    }
  }

  /** The chunks of one model, written unchecked. */
  ghost function RawInserts(db: Db, model: Text, chunks: seq<seq<NewRow>>): seq<Db>
    decreases |chunks|
  {
    if chunks == [] then [] else [Put(db, model, chunks[0])] + RawInserts(Put(db, model, chunks[0]), model, chunks[1..])
  }

  lemma {:induction false} RawInsertsDangleNothing(db: Db, model: Text, rows: seq<NewRow>, whole: bool)
    requires OnlySelfDangles(db) && OthersMet(db, model, rows)
    requires whole ==> |rows| <= WRITE_CHUNK && Integrity(db) && OwnMet(db, model, rows)
    ensures AllStates(RawInserts(db, model, Chunks(rows)), whole)
    ensures OnlySelfDangles(Put(db, model, rows)) && (whole ==> Integrity(Put(db, model, rows)))
    decreases |rows|
  {
    hide OnlySelfDangles, Integrity, OthersMet, OwnMet;
    PutDanglesNothing(db, model, rows);
    if 0 < |rows| <= WRITE_CHUNK {
      assert Chunks(rows) == [rows];
      assert [rows][1..] == [];
      assert RawInserts(db, model, [rows]) == [Put(db, model, rows)];
    } else if |rows| > WRITE_CHUNK {
      var a, b := rows[..WRITE_CHUNK], rows[WRITE_CHUNK..];
      SplitOthers(db, model, rows);
      PutDanglesNothing(db, model, a);
      FirstChunk(rows);
      RawInsertsDangleNothing(Put(db, model, a), model, b, false);
    }
  }

  lemma SplitOthers(db: Db, model: Text, rows: seq<NewRow>)
    requires OthersMet(db, model, rows) && |rows| > WRITE_CHUNK
    ensures OthersMet(db, model, rows[..WRITE_CHUNK])
    ensures OthersMet(Put(db, model, rows[..WRITE_CHUNK]), model, rows[WRITE_CHUNK..])
  {
    var a, b := rows[..WRITE_CHUNK], rows[WRITE_CHUNK..];
    forall r, c | r in b && c in r.row.refs && r.row.refs[c].target.model != model
      ensures r.row.refs[c].target in Put(db, model, a)
    {
      assert r in rows;
      PutKeys(db, model, a, r.row.refs[c].target);
    }
  }

  /** `replace` after the clearing, written unchecked. */
  ghost function RawWrites(db: Db, order: seq<Text>, content: Content): seq<Db>
    decreases |order|
  {
    if order == [] then []
    else if order[0] !in content then RawWrites(db, order[1..], content)
    else RawInserts(db, order[0], Chunks(content[order[0]])) + RawWrites(Put(db, order[0], content[order[0]]), order[1..], content)
  }

  /** The file meets its own references within each table. */
  ghost predicate SelfClosed(content: Content) {
    forall m, r, c :: m in content && r in content[m] && c in r.row.refs && r.row.refs[c].target.model == m ==>
      HasId(content[m], r.row.refs[c].target.id)
  }

  ghost predicate OneChunkEach(content: Content) {
    forall m :: m in content ==> |content[m]| <= WRITE_CHUNK
  }

  lemma {:induction false} RawWritesDangleNothing(db: Db, order: seq<Text>, content: Content, whole: bool)
    requires OnlySelfDangles(db) && RR.Supplied(db, order, content)
    requires whole ==> Integrity(db) && SelfClosed(content) && OneChunkEach(content)
    ensures AllStates(RawWrites(db, order, content), whole)
    decreases |order|
  {
    hide OnlySelfDangles, Integrity, RR.Supplied, SelfClosed, OneChunkEach, Chunks, RawInserts;
    if order != [] {
      RR.SuppliedAfter(db, order, content);
      if order[0] !in content {
        RawWritesDangleNothing(db, order[1..], content, whole);
      } else {
        ModelsNeedsMet(db, order, content);
        RawInsertsDangleNothing(db, order[0], content[order[0]], whole);
        RawWritesDangleNothing(Put(db, order[0], content[order[0]]), order[1..], content, whole);
      }
    }
  }

  lemma ModelsNeedsMet(db: Db, order: seq<Text>, content: Content)
    requires order != [] && order[0] in content && RR.Supplied(db, order, content)
    ensures OthersMet(db, order[0], content[order[0]])
    ensures SelfClosed(content) ==> OwnMet(db, order[0], content[order[0]])
    ensures OneChunkEach(content) ==> |content[order[0]]| <= WRITE_CHUNK
  {
  }

  /**
   A closed file written parents first into a database without dangling keys needs no checking: after every chunk
   only a reference into the row's own table can dangle, and none at all when every model fits one chunk.
   */
  lemma UncheckedWritesDangleNothing(left: Db, order: seq<Text>, content: Content, edges: Edges)
    requires Integrity(left) && RR.Writable(order, content, edges) && RR.OutsidePresent(left, content)
    ensures AllStates(RawWrites(left, order, content), OneChunkEach(content))
  {
    hide RawWrites, RR.Supplied, OneChunkEach;
    RR.SuppliedWhen(left, order, content, edges);
    RawWritesDangleNothing(left, order, content, OneChunkEach(content));
  }

  /** Clearing children first, unchecked, leaves nothing dangling when no row outside points in. */
  lemma UncheckedClearingDanglesNothing(db: Db, order: seq<Text>, content: Content, tenant: Text, edges: Edges, i: nat)
    requires Integrity(db) && Isolated(db, content, tenant) && FollowsEdges(db, content, tenant, edges)
    requires DeleteOrder(edges, order) && i <= |order|
    ensures Integrity(Without(db, GoneBefore(db, order, content, tenant, i)))
  {
    IsolatedGoAlone(db, order, content, tenant, edges, i);
  }

  // ------------------------------------------------------------------ merging with nothing checked

  ghost function RawUpdates(db: Db, model: Text, rows: seq<NewRow>): seq<Db>
    requires forall r :: r in rows ==> Key(model, r.id) in db
    decreases |rows|
  {
    if rows == [] then []
    else
      var key := Key(model, rows[0].id);
      [db[key := Overwritten(db[key], rows[0].row)]] + RawUpdates(db[key := Overwritten(db[key], rows[0].row)], model, rows[1..])
  }

  lemma {:induction false} RawUpdatesDangleNothing(db: Db, model: Text, rows: seq<NewRow>, whole: bool)
    requires OnlySelfDangles(db) && OthersMet(db, model, rows) && forall r :: r in rows ==> Key(model, r.id) in db
    requires whole ==> Integrity(db) && forall r, c :: r in rows && c in r.row.refs ==> r.row.refs[c].target in db
    ensures AllStates(RawUpdates(db, model, rows), whole)
    decreases |rows|
  {
    if rows != [] {
      var key := Key(model, rows[0].id);
      var next := db[key := Overwritten(db[key], rows[0].row)];
      assert rows[0] in rows && forall r :: r in rows[1..] ==> r in rows;
      assert OnlySelfDangles(next) && (whole ==> Integrity(next));
      RawUpdatesDangleNothing(next, model, rows[1..], whole);
    }
  }

  ghost function RawUpdated(db: Db, model: Text, rows: seq<NewRow>): (after: Db)
    requires forall r :: r in rows ==> Key(model, r.id) in db
    ensures after.Keys == db.Keys
    decreases |rows|
  {
    if rows == [] then db
    else
      var key := Key(model, rows[0].id);
      RawUpdated(db[key := Overwritten(db[key], rows[0].row)], model, rows[1..])
  }

  /** Chunks written unchecked, ids that are taken skipped: the databases in between and the last one. */
  ghost function RawSkipping(db: Db, model: Text, chunks: seq<seq<NewRow>>): seq<Db>
    decreases |chunks|
  {
    if chunks == [] then []
    else
      var next := Put(db, model, NotSeen(db, model, chunks[0]));
      [next] + RawSkipping(next, model, chunks[1..])
  }

  ghost function RawCreated(db: Db, model: Text, chunks: seq<seq<NewRow>>): Db
    decreases |chunks|
  {
    if chunks == [] then db else RawCreated(Put(db, model, NotSeen(db, model, chunks[0])), model, chunks[1..])
  }

  lemma {:induction false} RawCreatedHolds(db: Db, model: Text, chunks: seq<seq<NewRow>>)
    ensures db.Keys <= RawCreated(db, model, chunks).Keys
    ensures forall i, r :: 0 <= i < |chunks| && r in chunks[i] ==> Key(model, r.id) in RawCreated(db, model, chunks)
    decreases |chunks|
  {
    if chunks != [] {
      hide NotSeen;
      var added := NotSeen(db, model, chunks[0]);
      var next := Put(db, model, added);
      RawCreatedHolds(next, model, chunks[1..]);
      forall k | k in db
        ensures k in next
      {
        PutKeys(db, model, added, k);
      }
      forall r | r in chunks[0]
        ensures Key(model, r.id) in next
      {
        PutKeys(db, model, added, Key(model, r.id));
        if Key(model, r.id) !in db {
          MemberId(added, r);
        }
      }
    }
  }

  lemma SkippedMet(db: Db, model: Text, rows: seq<NewRow>)
    requires OthersPresent(db, model, rows)
    ensures OthersMet(db, model, NotSeen(db, model, rows))
  {
  }

  lemma {:induction false} RawSkippingDanglesNothing(db: Db, model: Text, chunks: seq<seq<NewRow>>, whole: bool)
    requires OnlySelfDangles(db) && forall i :: 0 <= i < |chunks| ==> OthersPresent(db, model, chunks[i])
    requires whole ==> |chunks| <= 1 && Integrity(db) && (chunks != [] ==> OwnMet(db, model, NotSeen(db, model, chunks[0])))
    ensures AllStates(RawSkipping(db, model, chunks), whole)
    ensures OnlySelfDangles(RawCreated(db, model, chunks)) && (whole ==> Integrity(RawCreated(db, model, chunks)))
    decreases |chunks|
  {
    hide OnlySelfDangles, Integrity, OthersMet, OthersPresent, OwnMet, NotSeen, Put;
    if chunks != [] {
      var added := NotSeen(db, model, chunks[0]);
      var next := Put(db, model, added);
      SkippedMet(db, model, chunks[0]);
      PutDanglesNothing(db, model, added);
      forall i | 1 <= i < |chunks|
        ensures OthersPresent(next, model, chunks[i])
      {
        OthersStayPresent(db, model, added, chunks[i]);
      }
      RawSkippingDanglesNothing(next, model, chunks[1..], whole);
    }
  }

  lemma OthersStayPresent(db: Db, model: Text, added: seq<NewRow>, rows: seq<NewRow>)
    requires OthersPresent(db, model, rows)
    ensures OthersPresent(Put(db, model, added), model, rows)
  {
    var after := Put(db, model, added);
    forall r, c | r in rows && Key(model, r.id) !in after && c in r.row.refs && r.row.refs[c].target.model != model
      ensures r.row.refs[c].target in after
    {
      PutKeys(db, model, added, Key(model, r.id));
      PutKeys(db, model, added, r.row.refs[c].target);
    }
  }

  lemma {:induction false} RawCreatedTouchesOneTable(db: Db, model: Text, chunks: seq<seq<NewRow>>, other: Text)
    requires other != model
    ensures RM.SameTable(db, RawCreated(db, model, chunks), other)
    decreases |chunks|
  {
    if chunks != [] {
      hide NotSeen, Put;
      var added := NotSeen(db, model, chunks[0]);
      RawCreatedTouchesOneTable(Put(db, model, added), model, chunks[1..], other);
      forall k: Key | k.model == other
        ensures (k in db <==> k in Put(db, model, added)) && (k in db ==> Put(db, model, added)[k] == db[k])
      {
        PutKeys(db, model, added, k);
      }
    }
  }

  lemma {:induction false} RawUpdatedTouchesOneTable(db: Db, model: Text, rows: seq<NewRow>, other: Text)
    requires other != model && forall r :: r in rows ==> Key(model, r.id) in db
    ensures RM.SameTable(db, RawUpdated(db, model, rows), other)
    decreases |rows|
  {
    if rows != [] {
      var key := Key(model, rows[0].id);
      assert rows[0] in rows;
      RawUpdatedTouchesOneTable(db[key := Overwritten(db[key], rows[0].row)], model, rows[1..], other);
    }
  }

  ghost function RawMergeModel(db: Db, model: Text, rows: seq<NewRow>, tenant: Option<Text>): seq<Db> {
    var existing := Existing(db, model, rows, tenant);
    var chunks := Chunks(ToCreate(rows, existing));
    RawCreatedHolds(db, model, chunks);
    RawSkipping(db, model, chunks) + RawUpdates(RawCreated(db, model, chunks), model, ToUpdate(rows, existing))
  }

  ghost function RawMergedModel(db: Db, model: Text, rows: seq<NewRow>, tenant: Option<Text>): Db {
    var existing := Existing(db, model, rows, tenant);
    var chunks := Chunks(ToCreate(rows, existing));
    RawCreatedHolds(db, model, chunks);
    RawUpdated(RawCreated(db, model, chunks), model, ToUpdate(rows, existing))
  }

  /** `merge`, written unchecked. */
  ghost function RawMerge(db: Db, order: seq<Text>, content: Content, tenant: Option<Text>): seq<Db>
    decreases |order|
  {
    if order == [] then []
    else if order[0] !in content then RawMerge(db, order[1..], content, tenant)
    else
      RawMergeModel(db, order[0], content[order[0]], tenant)
      + RawMerge(RawMergedModel(db, order[0], content[order[0]], tenant), order[1..], content, tenant)
  }

  lemma {:induction false} ChunkIsPart(rows: seq<NewRow>, i: nat)
    requires i < |Chunks(rows)|
    ensures forall r :: r in Chunks(rows)[i] ==> r in rows
    decreases |rows|
  {
    if |rows| > WRITE_CHUNK && i > 0 {
      FirstChunk(rows);
      ChunkIsPart(rows[WRITE_CHUNK..], i - 1);
      assert Chunks(rows)[i] == Chunks(rows[WRITE_CHUNK..])[i - 1];
    }
  }

  lemma {:induction false} RawUpdatedKeeps(db: Db, model: Text, rows: seq<NewRow>, whole: bool)
    requires OnlySelfDangles(db) && OthersMet(db, model, rows) && forall r :: r in rows ==> Key(model, r.id) in db
    requires whole ==> Integrity(db) && forall r, c :: r in rows && c in r.row.refs ==> r.row.refs[c].target in db
    ensures OnlySelfDangles(RawUpdated(db, model, rows)) && (whole ==> Integrity(RawUpdated(db, model, rows)))
    decreases |rows|
  {
    if rows != [] {
      var key := Key(model, rows[0].id);
      var next := db[key := Overwritten(db[key], rows[0].row)];
      assert rows[0] in rows && forall r :: r in rows[1..] ==> r in rows;
      assert OnlySelfDangles(next) && (whole ==> Integrity(next));
      RawUpdatedKeeps(next, model, rows[1..], whole);
    }
  }

  lemma RawMergeModelDanglesNothing(db: Db, model: Text, rows: seq<NewRow>, tenant: Option<Text>, whole: bool)
    requires OnlySelfDangles(db) && RM.RowsResolved(db, model, rows, tenant)
    requires whole ==> Integrity(db) && |rows| <= WRITE_CHUNK
    ensures AllStates(RawMergeModel(db, model, rows, tenant), whole)
    ensures var after := RawMergedModel(db, model, rows, tenant);
            OnlySelfDangles(after) && (whole ==> Integrity(after))
  {
    hide OnlySelfDangles, Integrity, OthersMet, OthersPresent, OwnMet, RM.RowsResolved, RawSkipping, RawUpdates, RawCreated, RawUpdated, Chunks;
    var existing := Existing(db, model, rows, tenant);
    var create, update := ToCreate(rows, existing), ToUpdate(rows, existing);
    var chunks := Chunks(create);
    PartsMet(db, model, rows, tenant, chunks);
    RawSkippingDanglesNothing(db, model, chunks, whole);
    RawCreatedHolds(db, model, chunks);
    RawMergeHolds(db, model, rows, tenant);
    UpdatesMet(db, RawCreated(db, model, chunks), model, rows, tenant);
    RawUpdatesDangleNothing(RawCreated(db, model, chunks), model, update, whole);
    RawUpdatedKeeps(RawCreated(db, model, chunks), model, update, whole);
  }

  /** After the creations every row of the file is there, its own or another factory's. */
  lemma RawMergeHolds(db: Db, model: Text, rows: seq<NewRow>, tenant: Option<Text>)
    ensures var made := RawCreated(db, model, Chunks(ToCreate(rows, Existing(db, model, rows, tenant))));
            && db.Keys <= made.Keys && db.Keys <= RawMergedModel(db, model, rows, tenant).Keys
            && forall r :: r in rows ==> Key(model, r.id) in made && Key(model, r.id) in RawMergedModel(db, model, rows, tenant)
  {
    hide RawCreated, RawUpdated, Chunks;
    var existing := Existing(db, model, rows, tenant);
    var create, update := ToCreate(rows, existing), ToUpdate(rows, existing);
    RawCreatedHolds(db, model, Chunks(create));
    var made := RawCreated(db, model, Chunks(create));
    forall r | r in rows
      ensures Key(model, r.id) in made
    {
      if r in create {
        var i := ChunksHold(create, r);
      } else {
        assert r in update;
      }
    }
    assert RawMergedModel(db, model, rows, tenant).Keys == made.Keys;
  }

  lemma UpdatesMet(db: Db, made: Db, model: Text, rows: seq<NewRow>, tenant: Option<Text>)
    requires RM.RowsResolved(db, model, rows, tenant)
    requires db.Keys <= made.Keys && forall r :: r in rows ==> Key(model, r.id) in made
    ensures RM.RefsMet(made, ToUpdate(rows, Existing(db, model, rows, tenant)))
    ensures OthersMet(made, model, ToUpdate(rows, Existing(db, model, rows, tenant)))
  {
    var update := ToUpdate(rows, Existing(db, model, rows, tenant));
    forall r, c | r in update && c in r.row.refs
      ensures r.row.refs[c].target in made
    {
      var t := r.row.refs[c].target;
      FoundIsOwned(db, model, rows, tenant, r);
      if t !in db.Keys {
        var x := RM.HasIdRow(rows, t.id);
        assert Key(model, x.id) == t;
      }
    }
  }

  lemma FoundIsOwned(db: Db, model: Text, rows: seq<NewRow>, tenant: Option<Text>, r: NewRow)
    requires r in ToUpdate(rows, Existing(db, model, rows, tenant))
    ensures r in rows && Key(model, r.id) in db && RM.Writes(db, tenant, Key(model, r.id))
  {
  }

  lemma PartsMet(db: Db, model: Text, rows: seq<NewRow>, tenant: Option<Text>, chunks: seq<seq<NewRow>>)
    requires RM.RowsResolved(db, model, rows, tenant)
    requires chunks == Chunks(ToCreate(rows, Existing(db, model, rows, tenant)))
    ensures forall i :: 0 <= i < |chunks| ==> OthersPresent(db, model, chunks[i])
    ensures |rows| <= WRITE_CHUNK ==> |chunks| <= 1 && (chunks != [] ==> OwnMet(db, model, NotSeen(db, model, chunks[0])))
  {
    var create := ToCreate(rows, Existing(db, model, rows, tenant));
    forall i | 0 <= i < |chunks|
      ensures OthersPresent(db, model, chunks[i])
    {
      ChunkIsPart(create, i);
    }
    ShorterToCreate(rows, Existing(db, model, rows, tenant));
    if |rows| <= WRITE_CHUNK && create != [] {
      assert chunks == [create];
      var made := NotSeen(db, model, create);
      forall r, c | r in made && c in r.row.refs && r.row.refs[c].target.model == model
        ensures r.row.refs[c].target in db || HasId(made, r.row.refs[c].target.id)
      {
        var t := r.row.refs[c].target;
        if t !in db {
          var x := RM.HasIdRow(rows, t.id);
          assert Key(model, x.id) == t;
          NotExisting(db, model, rows, tenant, x);
          MemberId(made, x);
        }
      }
    }
  }

  lemma NotExisting(db: Db, model: Text, rows: seq<NewRow>, tenant: Option<Text>, x: NewRow)
    requires Key(model, x.id) !in db
    ensures x.id !in Existing(db, model, rows, tenant)
  {
  }

  lemma {:induction false} ShorterToCreate(rows: seq<NewRow>, existing: set<Text>)
    ensures |ToCreate(rows, existing)| <= |rows|
  {
    if rows != [] {
      ShorterToCreate(rows[1..], existing);
    }
  }

  /**
   A file whose written references are met by the database, by their own table or by an earlier model needs no
   checking in a merge either: after every chunk and every update only a reference into the row's own table can
   dangle, and none at all when every model fits one chunk.
   */
  lemma {:induction false} UncheckedMergeDanglesNothing(db: Db, order: seq<Text>, content: Content, tenant: Option<Text>, whole: bool)
    requires NoDuplicates(order) && OnlySelfDangles(db) && RM.Resolved(db, order, content, tenant)
    requires whole ==> Integrity(db) && OneChunkEach(content)
    ensures AllStates(RawMerge(db, order, content, tenant), whole)
    decreases |order|
  {
    hide OnlySelfDangles, Integrity, RawMergeModel, RawMergedModel, RM.Resolved, RM.RowsResolved, OneChunkEach;
    if order != [] {
      RR.TailNoDuplicates(order);
      if order[0] !in content {
        ResolvedGrows(db, db, order, content, tenant);
        UncheckedMergeDanglesNothing(db, order[1..], content, tenant, whole);
      } else {
        var rows := content[order[0]];
        RM.RowsResolvedNow(db, order, content, tenant);
        assert OneChunkEach(content) ==> |rows| <= WRITE_CHUNK by { OneOfThem(content, order[0]); }
        RawMergeModelDanglesNothing(db, order[0], rows, tenant, whole);
        var after := RawMergedModel(db, order[0], rows, tenant);
        RawMergeHolds(db, order[0], rows, tenant);
        forall other | other in order[1..]
          ensures RM.SameTable(db, after, other)
        {
          RawMergeTouchesOneTable(db, order[0], rows, tenant, other);
        }
        ResolvedGrows(db, after, order, content, tenant);
        UncheckedMergeDanglesNothing(after, order[1..], content, tenant, whole);
      }
    }
  }

  lemma OneOfThem(content: Content, model: Text)
    requires model in content
    ensures OneChunkEach(content) ==> |content[model]| <= WRITE_CHUNK
  {
  }

  lemma RawMergeTouchesOneTable(db: Db, model: Text, rows: seq<NewRow>, tenant: Option<Text>, other: Text)
    requires other != model
    ensures RM.SameTable(db, RawMergedModel(db, model, rows, tenant), other)
  {
    hide RawCreated, RawUpdated, Chunks, ToCreate, ToUpdate, Existing;
    var existing := Existing(db, model, rows, tenant);
    var chunks := Chunks(ToCreate(rows, existing));
    RawMergeHolds(db, model, rows, tenant);
    RawCreatedTouchesOneTable(db, model, chunks, other);
    RawUpdatedTouchesOneTable(RawCreated(db, model, chunks), model, ToUpdate(rows, existing), other);
  }

  lemma ResolvedGrows(db: Db, after: Db, order: seq<Text>, content: Content, tenant: Option<Text>)
    requires order != [] && RM.Resolved(db, order, content, tenant) && db.Keys <= after.Keys
    requires order[0] in content ==> forall r :: r in content[order[0]] ==> Key(order[0], r.id) in after
    requires forall m :: m in order[1..] ==> RM.SameTable(db, after, m)
    ensures RM.Resolved(after, order[1..], content, tenant)
  {
    var tail := order[1..];
    forall t: Key | order[0] in content && t.model == order[0] && RR.InFile(content, t)
      ensures t in after
    {
      var x := RM.HasIdRow(content[order[0]], t.id);
      assert Key(order[0], x.id) == t;
    }
    forall i, r, c | 0 <= i < |tail| && tail[i] in content && r in content[tail[i]]
                     && RM.Writes(after, tenant, Key(tail[i], r.id)) && c in r.row.refs
      ensures var t := r.row.refs[c].target;
              t in after || (RR.InFile(content, t) && (t.model == tail[i] || exists j :: 0 <= j < i && tail[j] == t.model))
    {
      var t := r.row.refs[c].target;
      assert tail[i] == order[i + 1] && tail[i] in tail;
      assert RM.SameTable(db, after, tail[i]) && RM.Writes(db, tenant, Key(tail[i], r.id));
      if t !in after && t.model != tail[i] {
        assert t !in db.Keys;
        var j :| 0 <= j < i + 1 && order[j] == t.model;
        assert j > 0 && tail[j - 1] == t.model;
      }
    }
  }
}
