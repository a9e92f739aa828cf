/**
 The restore loops as the service runs them against an open transaction
 (backend-nest/src/backup/restore.service.ts:222-480). Each loop is proved to do
 what the functions of `Restore` say.
 */
module RestoreService {
  import opened Wrappers
  import opened JsText
  import opened Database
  import opened Restore
  import opened ModelGraph
  import opened SnapshotCodec
  import RC = RestoreClearing
  import RM = RestoreMerge
  import RR = RestoreReplace
  import Snapshot

  /** The client of an open transaction: each method is one statement. */
  class Transaction {
    var db: Db

    constructor (db: Db)
      ensures this.db == db
    {
      this.db := db;
    }

    method DeleteMany(model: Text, tenant: Text) returns (r: Result<nat, DbError>)
      modifies this
      ensures match DeleteRows(old(db), TenantKeys(old(db), model, tenant))
              case Err(e) => r == Err(e) && db == old(db)
              case Ok(after) => r == Ok(|TenantKeys(old(db), model, tenant)|) && db == after
    {
      var gone := TenantKeys(db, model, tenant);
      match DeleteRows(db, gone)
      case Err(e) =>
        r := Err(e);
      case Ok(after) =>
        db := after;
        r := Ok(|gone|);
    }

    method InsertMany(model: Text, rows: seq<NewRow>, skipDuplicates: bool) returns (r: Result<nat, DbError>)
      modifies this
      ensures match CreateMany(old(db), model, rows, skipDuplicates)
              case Err(e) => r == Err(e) && db == old(db)
              case Ok(after) => r == Ok(after.count) && db == after.db
    {
      match CreateMany(db, model, rows, skipDuplicates)
      case Err(e) =>
        r := Err(e);
      case Ok(after) =>
        db := after.db;
        r := Ok(after.count);
    }

    method Update(key: Key, row: Row) returns (r: Result<(), DbError>)
      requires key in db
      modifies this
      ensures match UpdateRow(old(db), key, row)
              case Err(e) => r == Err(e) && db == old(db)
              case Ok(after) => r == Ok(()) && db == after
    {
      match UpdateRow(db, key, row)
      case Err(e) =>
        r := Err(e);
      case Ok(after) =>
        db := after;
        r := Ok(());
    }

    /** `findMany` with `id in batch`, in the file's factory when it names one. */
    method FindIds(model: Text, batch: seq<Text>, tenant: Option<Text>) returns (found: set<Text>)
      ensures found == FoundIds(db, model, batch, tenant)
    {
      found := FoundIds(db, model, batch, tenant);
    }
  }

  function FoundIds(db: Db, model: Text, ids: seq<Text>, tenant: Option<Text>): set<Text> {
    set id | id in ids && Key(model, id) in db && (tenant == None || db[Key(model, id)].tenant == tenant.value)
  }

  // --------------------------------------------------------------------- chunk

  /** `chunk`: runs of at most 500 rows, in order, none left out. */
  method Chunk<T>(rows: seq<T>) returns (out: seq<seq<T>>)
    ensures out == Slices(rows)
  {
    hide Slices;
    out := [];
    var i := 0;
    while i < |rows|
      invariant 0 <= i
      invariant Slices(rows) == out + Slices(rows[if i <= |rows| then i else |rows|..])
    {
      var end := if i + WRITE_CHUNK <= |rows| then i + WRITE_CHUNK else |rows|;
      SliceStep(rows, i, end);
      assert out + ([rows[i..end]] + Slices(rows[end..])) == (out + [rows[i..end]]) + Slices(rows[end..]);
      out := out + [rows[i..end]];
      i := i + WRITE_CHUNK;
    }
    assert rows[|rows|..] == [];
    NoSlices<T>();
  }

  lemma NoSlices<T>()
    ensures Slices<T>([]) == []
  {
  }

  function Slices<T>(rows: seq<T>): (out: seq<seq<T>>) {
    if rows == [] then []
    else if |rows| <= WRITE_CHUNK then [rows]
    else [rows[..WRITE_CHUNK]] + Slices(rows[WRITE_CHUNK..])
  }

  lemma SliceStep<T>(rows: seq<T>, i: nat, end: nat)
    requires i < |rows| && end == if i + WRITE_CHUNK <= |rows| then i + WRITE_CHUNK else |rows|
    ensures Slices(rows[i..]) == [rows[i..end]] + Slices(rows[end..])
    ensures end == |rows| ==> Slices(rows[end..]) == []
  {
    var rest := rows[i..];
    if |rest| > WRITE_CHUNK {
      assert rest[..WRITE_CHUNK] == rows[i..end] && rest[WRITE_CHUNK..] == rows[end..];
    } else {
      assert rows[i..end] == rest;
    }
  }

  lemma {:induction false} SlicesAreChunks(rows: seq<NewRow>)
    ensures Slices(rows) == Chunks(rows)
  {
    if |rows| > WRITE_CHUNK {
      SlicesAreChunks(rows[WRITE_CHUNK..]);
    }
  }

  /** Cutting into chunks and gluing the chunks back together loses and repeats nothing. */
  function Concat<T>(parts: seq<seq<T>>): seq<T> {
    if parts == [] then [] else parts[0] + Concat(parts[1..])
  }

  lemma {:induction false} ChunksCoverEverything<T>(rows: seq<T>)
    ensures Concat(Slices(rows)) == rows
    ensures forall i :: 0 <= i < |Slices(rows)| ==> 0 < |Slices(rows)[i]| <= WRITE_CHUNK
  {
    if |rows| > WRITE_CHUNK {
      ChunksCoverEverything(rows[WRITE_CHUNK..]);
      assert Slices(rows)[1..] == Slices(rows[WRITE_CHUNK..]);
      assert rows == rows[..WRITE_CHUNK] + rows[WRITE_CHUNK..];
    }
  }

  /** `existingIds`: looked up 500 at a time, the same as looked up at once. */
  method ExistingIds(tx: Transaction, model: Text, ids: seq<Text>, tenant: Option<Text>) returns (found: set<Text>)
    ensures found == FoundIds(tx.db, model, ids, tenant)
  {
    found := {};
    var batches := Chunk(ids);
    ChunksCoverEverything(ids);
    for i := 0 to |batches|
      invariant found == FoundIds(tx.db, model, Concat(batches[..i]), tenant)
    {
      var more := tx.FindIds(model, batches[i], tenant);
      ConcatAppend(batches, i);
      found := found + more;
    }
    assert batches[..|batches|] == batches;
  }

  lemma {:induction false} ConcatAppend<T>(parts: seq<seq<T>>, i: nat)
    requires i < |parts|
    ensures Concat(parts[..i + 1]) == Concat(parts[..i]) + parts[i]
  {
    if i == 0 {
      assert parts[..1][1..] == [];
      assert parts[..0] == [];
    } else {
      ConcatAppend(parts[1..], i - 1);
      assert parts[..i + 1][1..] == parts[1..][..i] && parts[..i][1..] == parts[1..][..i - 1];
      assert parts[..i + 1][0] == parts[0] == parts[..i][0] && parts[1..][i - 1] == parts[i];
    }
  }

  // -------------------------------------------------------------- delete phase

  ghost function Finish(c: Result<Cleared, DbError>, counts: map<Text, nat>): Result<Cleared, DbError> {
    match c
    case Err(e) => Err(e)
    case Ok(cleared) => Ok(Cleared(cleared.db, cleared.counts + counts))
  }

  method ClearModels(tx: Transaction, order: seq<Text>, content: Content, tenant: Text) returns (r: Result<map<Text, nat>, DbError>)
    requires NoDuplicates(order)
    modifies tx
    ensures match DeletePhase(old(tx.db), order, content, tenant)
            case Err(e) => r == Err(e)
            case Ok(cleared) => r == Ok(cleared.counts) && tx.db == cleared.db
  {
    var deleted: map<Text, nat> := map[];
    var i := 0;
    assert order[0..] == order;
    NothingDeleted(DeletePhase(tx.db, order, content, tenant));
    while i < |order|
      invariant 0 <= i <= |order|
      invariant forall m :: m in deleted ==> m in order[..i]
      invariant DeletePhase(old(tx.db), order, content, tenant) == Finish(DeletePhase(tx.db, order[i..], content, tenant), deleted)
    {
      var m := order[i];
      assert order[i..][0] == m && order[i..][1..] == order[i + 1..];
      assert order[..i + 1] == order[..i] + [m];
      if m in content {
        var count := tx.DeleteMany(m, tenant);
        if count.Err? {
          return Err(count.error);
        }
        assert m !in deleted;
        CountsCommute(DeletePhase(tx.db, order[i + 1..], content, tenant), deleted, m, count.value);
        deleted := deleted[m := count.value];
      }
      i := i + 1;
    }
    assert order[i..] == [];
    assert map[] + deleted == deleted;
    r := Ok(deleted);
  }

  lemma NothingDeleted(c: Result<Cleared, DbError>)
    ensures Finish(c, map[]) == c
  {
    if c.Ok? {
      assert c.value.counts + map[] == c.value.counts;
    }
  }

  lemma CountsCommute(rest: Result<Cleared, DbError>, counts: map<Text, nat>, m: Text, n: nat)
    requires m !in counts
    ensures rest.Ok? ==> rest.value.counts[m := n] + counts == rest.value.counts + counts[m := n]
  {
  }

  // -------------------------------------------------------------- insert phase

  ghost function PlusCount(r: Result<Inserted, DbError>, count: nat): Result<Inserted, DbError> {
    match r
    case Err(e) => Err(e)
    case Ok(i) => Ok(Inserted(i.db, count + i.count))
  }

  method InsertAll(tx: Transaction, model: Text, rows: seq<NewRow>, skipDuplicates: bool) returns (r: Result<nat, DbError>)
    modifies tx
    ensures match InsertChunks(old(tx.db), model, Chunks(rows), skipDuplicates)
            case Err(e) => r == Err(e)
            case Ok(written) => r == Ok(written.count) && tx.db == written.db
  {
    hide CreateMany;
    var chunks := Chunk(rows);
    SlicesAreChunks(rows);
    var created := 0;
    var i := 0;
    while i < |chunks|
      invariant 0 <= i <= |chunks|
      invariant InsertChunks(old(tx.db), model, chunks, skipDuplicates) == PlusCount(InsertChunks(tx.db, model, chunks[i..], skipDuplicates), created)
    {
      assert chunks[i..][0] == chunks[i] && chunks[i..][1..] == chunks[i + 1..];
      var inserted := tx.InsertMany(model, chunks[i], skipDuplicates);
      if inserted.Err? {
        return Err(inserted.error);
      }
      created := created + inserted.value;
      i := i + 1;
    }
    r := Ok(created);
  }

  ghost function PlusResults(r: Result<Restored, DbError>, results: seq<ModelResult>): Result<Restored, DbError> {
    match r
    case Err(e) => Err(e)
    case Ok(d) => Ok(Restored(d.db, results + d.results))
  }

  method WriteReplace(tx: Transaction, order: seq<Text>, content: Content, deleted: map<Text, nat>)
    returns (r: Result<seq<ModelResult>, DbError>)
    modifies tx
    ensures match ReplacePhase(old(tx.db), order, content, deleted)
            case Err(e) => r == Err(e)
            case Ok(done) => r == Ok(done.results) && tx.db == done.db
  {
    hide InsertChunks, Chunks;
    var perModel: seq<ModelResult> := [];
    var i := 0;
    EmptyResults(ReplacePhase(tx.db, order, content, deleted));
    assert order[0..] == order;
    while i < |order|
      invariant 0 <= i <= |order|
      invariant ReplacePhase(old(tx.db), order, content, deleted) == PlusResults(ReplacePhase(tx.db, order[i..], content, deleted), perModel)
    {
      var m := order[i];
      assert order[i..][0] == m && order[i..][1..] == order[i + 1..];
      if m in content {
        var created := InsertAll(tx, m, content[m], false);
        if created.Err? {
          return Err(created.error);
        }
        var result := ModelResult(m, |content[m]|, 0, created.value, 0, if m in deleted then deleted[m] else 0);
        MoreResults(ReplacePhase(tx.db, order[i + 1..], content, deleted), perModel, result);
        perModel := perModel + [result];
      }
      i := i + 1;
    }
    assert order[i..] == [] && perModel + [] == perModel;
    r := Ok(perModel);
  }

  lemma EmptyResults(r: Result<Restored, DbError>)
    ensures PlusResults(r, []) == r
  {
    if r.Ok? {
      assert [] + r.value.results == r.value.results;
    }
  }

  lemma MoreResults(r: Result<Restored, DbError>, results: seq<ModelResult>, one: ModelResult)
    ensures r.Ok? ==> results + ([one] + r.value.results) == (results + [one]) + r.value.results
  {
  }

  // --------------------------------------------------------------------- merge

  lemma {:induction false} FoundAreExisting(db: Db, model: Text, rows: seq<NewRow>, tenant: Option<Text>, ids: seq<Text>)
    requires ids == seq(|rows|, i requires 0 <= i < |rows| => rows[i].id)
    ensures FoundIds(db, model, ids, tenant) == Existing(db, model, rows, tenant)
  {
    forall id
      ensures id in FoundIds(db, model, ids, tenant) <==> id in Existing(db, model, rows, tenant)
    {
      if id in FoundIds(db, model, ids, tenant) {
        var i :| 0 <= i < |ids| && ids[i] == id;
        assert rows[i] in rows;
      }
      if id in Existing(db, model, rows, tenant) {
        var x :| x in rows && Key(model, x.id) in db && (tenant == None || db[Key(model, x.id)].tenant == tenant.value) && x.id == id;
        var i :| 0 <= i < |rows| && rows[i] == x;
        assert ids[i] == id;
      }
    }
  }

  method UpdateRows(tx: Transaction, model: Text, rows: seq<NewRow>) returns (r: Result<nat, DbError>)
    requires forall x :: x in rows ==> Key(model, x.id) in tx.db
    modifies tx
    ensures match UpdateAll(old(tx.db), model, rows)
            case Err(e) => r == Err(e)
            case Ok(after) => r == Ok(|rows|) && tx.db == after
  {
    var updated := 0;
    while updated < |rows|
      invariant 0 <= updated <= |rows|
      invariant tx.db.Keys == old(tx.db.Keys)
      invariant forall x :: x in rows[updated..] ==> Key(model, x.id) in tx.db
      invariant UpdateAll(old(tx.db), model, rows) == UpdateAll(tx.db, model, rows[updated..])
    {
      assert rows[updated..][0] == rows[updated] && rows[updated..][1..] == rows[updated + 1..];
      assert rows[updated] in rows[updated..];
      var written := tx.Update(Key(model, rows[updated].id), rows[updated].row);
      if written.Err? {
        return Err(written.error);
      }
      updated := updated + 1;
    }
    r := Ok(updated);
  }

  method MergeRows(tx: Transaction, model: Text, rows: seq<NewRow>, tenant: Option<Text>) returns (r: Result<ModelResult, DbError>)
    modifies tx
    ensures match MergeModel(old(tx.db), model, rows, tenant)
            case Err(e) => r == Err(e)
            case Ok(m) => r == Ok(m.result) && tx.db == m.db
  {
    hide InsertChunks, Chunks;
    var ids := seq(|rows|, i requires 0 <= i < |rows| => rows[i].id);
    var existing := ExistingIds(tx, model, ids, tenant);
    FoundAreExisting(tx.db, model, rows, tenant, ids);
    var toCreate := ToCreate(rows, existing);
    var toUpdate := ToUpdate(rows, existing);
    var created := InsertAll(tx, model, toCreate, true);
    if created.Err? {
      return Err(created.error);
    }
    InsertChunksKeepsKeys(old(tx.db), model, Chunks(toCreate), true);
    var updated := UpdateRows(tx, model, toUpdate);
    if updated.Err? {
      return Err(updated.error);
    }
    r := Ok(ModelResult(model, |rows|, |existing|, created.value, updated.value, 0));
  }

  method WriteMerge(tx: Transaction, order: seq<Text>, content: Content, tenant: Option<Text>)
    returns (r: Result<seq<ModelResult>, DbError>)
    modifies tx
    ensures match Merge(old(tx.db), order, content, tenant)
            case Err(e) => r == Err(e)
            case Ok(done) => r == Ok(done.results) && tx.db == done.db
  {
    hide MergeModel;
    var perModel: seq<ModelResult> := [];
    var i := 0;
    EmptyResults(Merge(tx.db, order, content, tenant));
    assert order[0..] == order;
    while i < |order|
      invariant 0 <= i <= |order|
      invariant Merge(old(tx.db), order, content, tenant) == PlusResults(Merge(tx.db, order[i..], content, tenant), perModel)
    {
      var m := order[i];
      assert order[i..][0] == m && order[i..][1..] == order[i + 1..];
      if m in content {
        var result := MergeRows(tx, m, content[m], tenant);
        if result.Err? {
          return Err(result.error);
        }
        MoreResults(Merge(tx.db, order[i + 1..], content, tenant), perModel, result.value);
        perModel := perModel + [result.value];
      }
      i := i + 1;
    }
    assert order[i..] == [] && perModel + [] == perModel;
    r := Ok(perModel);
  }

  // ------------------------------------------------------------------- restore

  datatype Mode = Validate | DryRun | Apply

  datatype Strategy = MergeRowsIn | ReplaceFactory

  datatype RestoreError = Forbidden | NotConfirmed | NoSingleFactory | Failed(error: DbError)

  /** `REPLACE <tenantId>`, `REPLACE ALL`, or anything else. */
  datatype Confirmation = Factory(tenant: Text) | All | Unconfirmed

  datatype Request = Request(mode: Mode, strategy: Strategy, confirm: Confirmation, superAdmin: bool, valid: bool)

  /** The words that confirm a replace of this snapshot. */
  function Expected(tenant: Option<Text>): Confirmation {
    if tenant == None then All else Factory(tenant.value)
  }

  datatype Totals = Totals(created: nat, updated: nat, deleted: nat)

  datatype Report = Report(valid: bool, perModel: seq<ModelResult>, totals: Totals, rolledBack: bool)

  function Sum(results: seq<ModelResult>): Totals {
    if results == [] then Totals(0, 0, 0)
    else
      var rest := Sum(results[1..]);
      Totals(results[0].created + rest.created, results[0].updated + rest.updated, results[0].deleted + rest.deleted)
  }

  /** Validation only counts the rows of the file. */
  function Inventory(order: seq<Text>, content: Content): seq<ModelResult> {
    if order == [] then []
    else if order[0] !in content then Inventory(order[1..], content)
    else [ModelResult(order[0], |content[order[0]]|, 0, 0, 0, 0)] + Inventory(order[1..], content)
  }

  // ------------------------------------------------------- what the totals and the inventory are

  /** The totals of a list of results are those of its parts together, and of one result its own counts. */
  lemma {:induction false} TotalsAdd(a: seq<ModelResult>, b: seq<ModelResult>, one: ModelResult)
    ensures Sum(a + b) == Totals(Sum(a).created + Sum(b).created, Sum(a).updated + Sum(b).updated, Sum(a).deleted + Sum(b).deleted)
    ensures Sum([]) == Totals(0, 0, 0) && Sum([one]) == Totals(one.created, one.updated, one.deleted)
  {
    assert [one][1..] == [];
    if a == [] {
      assert [] + b == b;
    } else {
      assert (a + b)[1..] == a[1..] + b;
      TotalsAdd(a[1..], b, one);
    }
  }

  ghost predicate Reports(results: seq<ModelResult>, m: Text) {
    exists i :: 0 <= i < |results| && results[i].model == m
  }

  ghost predicate ReportsOnce(results: seq<ModelResult>) {
    forall i, j :: 0 <= i < j < |results| ==> results[i].model != results[j].model
  }

  /** Each result counts the rows the file has of its model, and nothing done to them. */
  ghost predicate CountsOnly(results: seq<ModelResult>, content: Content) {
    forall i :: 0 <= i < |results| ==>
      results[i].model in content && results[i] == ModelResult(results[i].model, |content[results[i].model]|, 0, 0, 0, 0)
  }

  /** The inventory has exactly the models of the order that the file covers, each once, with its rows. */
  lemma {:induction false} InventoryCounts(order: seq<Text>, content: Content)
    requires NoDuplicates(order)
    ensures forall m :: Reports(Inventory(order, content), m) <==> m in order && m in content
    ensures ReportsOnce(Inventory(order, content)) && CountsOnly(Inventory(order, content), content)
  {
    if order != [] {
      RR.TailNoDuplicates(order);
      assert order == [order[0]] + order[1..];
      InventoryCounts(order[1..], content);
      if order[0] in content {
        OneMoreResult(ModelResult(order[0], |content[order[0]]|, 0, 0, 0, 0), Inventory(order[1..], content), content);
      }
    }
  }

  lemma OneMoreResult(one: ModelResult, rest: seq<ModelResult>, content: Content)
    requires ReportsOnce(rest) && CountsOnly(rest, content) && !Reports(rest, one.model)
    requires one.model in content && one == ModelResult(one.model, |content[one.model]|, 0, 0, 0, 0)
    ensures forall m :: Reports([one] + rest, m) <==> m == one.model || Reports(rest, m)
    ensures ReportsOnce([one] + rest) && CountsOnly([one] + rest, content)
  {
    var all := [one] + rest;
    forall m
      ensures Reports(all, m) <==> m == one.model || Reports(rest, m)
    {
      assert all[0].model == one.model;
      if Reports(rest, m) {
        var i :| 0 <= i < |rest| && rest[i].model == m;
        assert all[i + 1].model == m;
      }
      if Reports(all, m) {
        var i :| 0 <= i < |all| && all[i].model == m;
        assert i > 0 ==> rest[i - 1].model == m;
      }
    }
  }

  // ------------------------------------------------------- what a restore may do

  /** No row is gone, and rows the file does not name are as they were. */
  ghost predicate OnlyMerged(before: Db, after: Db, content: Content) {
    forall k :: (k in before ==> k in after) && (!RR.InFile(content, k) ==> (k in after <==> k in before) && (k in before ==> after[k] == before[k]))
  }

  /** Of the covered models the factory has exactly the rows of the file, each as the file gives it. */
  ghost predicate FactoryReplaced(after: Db, order: seq<Text>, content: Content, tenant: Text) {
    forall k: Key :: k.model in content && k.model in order ==>
      && (k in after && after[k].tenant == tenant ==> RR.InFile(content, k))
      && (RR.InFile(content, k) ==> exists r :: r in content[k.model] && r.id == k.id && k in after && after[k] == r.row)
  }

  lemma MergeOnlyMerges(db: Db, order: seq<Text>, content: Content, tenant: Option<Text>)
    ensures Merge(db, order, content, tenant).Ok? ==> OnlyMerged(db, Merge(db, order, content, tenant).value.db, content)
  {
    if Merge(db, order, content, tenant).Ok? {
      forall k
        ensures var after := Merge(db, order, content, tenant).value.db;
                && (k in db ==> k in after)
                && (!RR.InFile(content, k) ==> (k in after <==> k in db) && (k in db ==> after[k] == db[k]))
      {
        RM.MergeTouchesNothingElse(db, order, content, tenant, k);
      }
    }
  }

  lemma ReplaceReplaces(db: Db, order: seq<Text>, content: Content, tenant: Text)
    requires NoDuplicates(order)
    ensures var r := Replace(db, order, Reverse(order), content, tenant);
            r.Ok? ==> FactoryReplaced(r.value.db, order, content, tenant)
  {
    hide Replace, RR.WillReplace, Doomed;
    var known := RR.Known(order, content);
    RR.UnknownModelsAreIgnored(db, order, content, tenant);
    RR.ReplaceSucceedsExactlyWhen(db, order, known, tenant);
    var r := Replace(db, order, Reverse(order), content, tenant);
    if r.Ok? {
      forall k: Key | k.model in content && k.model in order
        ensures k in r.value.db && r.value.db[k].tenant == tenant ==> RR.InFile(content, k)
        ensures RR.InFile(content, k) ==> exists row :: row in content[k.model] && row.id == k.id && k in r.value.db && r.value.db[k] == row.row
      {
        RR.ReplaceLeaves(db, order, known, tenant, k);
        if k in r.value.db && !RR.InFile(content, k) {
          RC.NothingCoveredIsLeft(db, known, tenant, k);
        }
      }
    }
  }

  /** One transaction: a merge, or the replacement of the one factory the snapshot is of. */
  method ApplyInTransaction(tx: Transaction, order: seq<Text>, deleteOrder: seq<Text>, content: Content, tenant: Option<Text>, strategy: Strategy)
    returns (r: Result<seq<ModelResult>, RestoreError>)
    requires NoDuplicates(deleteOrder)
    modifies tx
    ensures strategy == MergeRowsIn ==>
              match Merge(old(tx.db), order, content, tenant)
              case Err(e) => r == Err(Failed(e))
              case Ok(done) => r == Ok(done.results) && tx.db == done.db && OnlyMerged(old(tx.db), tx.db, content)
    ensures strategy == ReplaceFactory && tenant == None ==> r == Err(NoSingleFactory) && tx.db == old(tx.db)
    ensures strategy == ReplaceFactory && tenant.Some? ==>
              match Replace(old(tx.db), order, deleteOrder, content, tenant.value)
              case Err(e) => r == Err(Failed(e))
              case Ok(done) =>
                && r == Ok(done.results) && tx.db == done.db
                && (NoDuplicates(order) && deleteOrder == Reverse(order) ==> FactoryReplaced(tx.db, order, content, tenant.value))
  {
    hide Merge, DeletePhase, ReplacePhase, OnlyMerged, FactoryReplaced, Reverse;
    if strategy == ReplaceFactory {
      if tenant == None {
        return Err(NoSingleFactory);
      }
      if NoDuplicates(order) {
        ReplaceReplaces(tx.db, order, content, tenant.value);
      }
      var deleted := ClearModels(tx, deleteOrder, content, tenant.value);
      if deleted.Err? {
        return Err(Failed(deleted.error));
      }
      var written := WriteReplace(tx, order, content, deleted.value);
      if written.Err? {
        return Err(Failed(written.error));
      }
      r := Ok(written.value);
    } else {
      MergeOnlyMerges(tx.db, order, content, tenant);
      var merged := WriteMerge(tx, order, content, tenant);
      if merged.Err? {
        return Err(Failed(merged.error));
      }
      r := Ok(merged.value);
    }
  }

  /** A request that gets as far as the transaction. */
  ghost predicate Admitted(request: Request, tenant: Option<Text>) {
    && request.valid && request.mode != Validate
    && (request.strategy == ReplaceFactory ==>
          request.superAdmin && (request.mode == Apply ==> request.confirm == if tenant.Some? then Factory(tenant.value) else All))
  }

  class Store {
    var db: Db

    constructor (db: Db)
      ensures this.db == db
    {
      this.db := db;
    }

    /**
     Everything happens in one transaction that is kept only on a successful
     `apply`; a dry run does the same writes, reports the same counts and rolls back.
     */
    method Restore(order: seq<Text>, deleteOrder: seq<Text>, types: map<Text, ColumnTypes>, file: Snapshot.SnapshotFile, request: Request)
      returns (r: Result<Report, RestoreError>)
      requires NoDuplicates(deleteOrder)
      modifies this
      ensures !request.valid ==> r.Ok? && !r.value.valid && r.value.perModel == []
      ensures request.valid && request.mode == Validate ==>
                r == Ok(Report(true, Inventory(order, Snapshot.ContentOf(types, file.data)), Totals(0, 0, 0), false))
      // The gates of a replace: a super admin, and for good only with the factory's own words.
      ensures request.valid && request.mode != Validate ==>
                && (r == Err(Forbidden) <==> request.strategy == ReplaceFactory && !request.superAdmin)
                && (r == Err(NotConfirmed) <==>
                      request.strategy == ReplaceFactory && request.superAdmin && request.mode == Apply
                      && request.confirm != if file.tenant.Some? then Factory(file.tenant.value) else All)
      // A merge loses nothing and leaves alone what the file does not name.
      ensures Admitted(request, file.tenant) && request.strategy == MergeRowsIn ==>
                match Merge(old(db), order, Snapshot.ContentOf(types, file.data), file.tenant)
                case Err(e) => r == Err(Failed(e))
                case Ok(done) =>
                  && r == Ok(Report(true, done.results, Sum(done.results), request.mode == DryRun))
                  && (request.mode == Apply ==> db == done.db && OnlyMerged(old(db), db, Snapshot.ContentOf(types, file.data)))
      // A replace is of one factory, which then has the rows of the file.
      ensures Admitted(request, file.tenant) && request.strategy == ReplaceFactory && file.tenant == None ==> r == Err(NoSingleFactory)
      ensures Admitted(request, file.tenant) && request.strategy == ReplaceFactory && file.tenant.Some? ==>
                match Replace(old(db), order, deleteOrder, Snapshot.ContentOf(types, file.data), file.tenant.value)
                case Err(e) => r == Err(Failed(e))
                case Ok(done) =>
                  && r == Ok(Report(true, done.results, Sum(done.results), request.mode == DryRun))
                  && (request.mode == Apply ==>
                        db == done.db
                        && (NoDuplicates(order) && deleteOrder == Reverse(order) ==>
                              FactoryReplaced(db, order, Snapshot.ContentOf(types, file.data), file.tenant.value)))
      ensures !request.valid || request.mode != Apply || r.Err? ==> db == old(db)
    {
      hide Merge, Replace, OnlyMerged, FactoryReplaced, Reverse;
      if !request.valid {
        return Ok(Report(false, [], Totals(0, 0, 0), false));
      }
      var content := Snapshot.ContentOf(types, file.data);
      if request.mode == Validate {
        return Ok(Report(true, Inventory(order, content), Totals(0, 0, 0), false));
      }
      if request.strategy == ReplaceFactory {
        if !request.superAdmin {
          return Err(Forbidden);
        }
        if request.mode == Apply && request.confirm != Expected(file.tenant) {
          return Err(NotConfirmed);
        }
      }
      var tx := new Transaction(db);
      var results := ApplyInTransaction(tx, order, deleteOrder, content, file.tenant, request.strategy);
      if results.Err? {
        return Err(results.error);
      }
      if request.mode == DryRun {
        return Ok(Report(true, results.value, Sum(results.value), true));
      }
      db := tx.db;
      r := Ok(Report(true, results.value, Sum(results.value), false));
    }
  }
}
