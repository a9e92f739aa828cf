/**
 The `merge` strategy: create the rows that are missing, overwrite the ones the
 factory has (backend-nest/src/backup/restore.service.ts:326-346).
 */
module RestoreMerge {
  import opened Wrappers
  import opened JsText
  import opened Database
  import opened Restore
  import opened RestoreInserts
  import RR = RestoreReplace

  /** The lookup of existing ids finds this row: it belongs to the file's factory, if the file names one. */
  ghost predicate Owned(db: Db, tenant: Option<Text>, k: Key)
    requires k in db
  {
    tenant == None || db[k].tenant == tenant.value
  }

  /** The merge writes this row: its id is new, or the lookup finds it. */
  ghost predicate Writes(db: Db, tenant: Option<Text>, k: Key) {
    k in db ==> Owned(db, tenant, k)
  }

  /** Each foreign key of the rows that are written is met by the database, by their own table in the file or by a model merged before. */
  ghost predicate Resolved(db: Db, models: seq<Text>, content: Content, tenant: Option<Text>) {
    forall i, r, c :: 0 <= i < |models| && models[i] in content && r in content[models[i]]
                      && Writes(db, tenant, Key(models[i], r.id)) && c in r.row.refs ==>
      var t := r.row.refs[c].target;
      t in db || (RR.InFile(content, t) && (t.model == models[i] || exists j :: 0 <= j < i && models[j] == t.model))
  }

  ghost predicate RowsResolved(db: Db, model: Text, rows: seq<NewRow>, tenant: Option<Text>) {
    forall r, c :: r in rows && Writes(db, tenant, Key(model, r.id)) && c in r.row.refs ==>
      r.row.refs[c].target in db || (r.row.refs[c].target.model == model && HasId(rows, r.row.refs[c].target.id))
  }

  /** What a merge makes of the row under `k`, where `r` is the file's row of that id. */
  ghost predicate MergedWith(db: Db, tenant: Option<Text>, k: Key, r: NewRow, after: Row) {
    if k !in db then after == r.row
    else if Owned(db, tenant, k) then after == Overwritten(db[k], r.row)
    else after == db[k]
  }

  /** The table after merging `rows` into one model. */
  ghost predicate ModelMerged(db: Db, tenant: Option<Text>, model: Text, rows: seq<NewRow>, after: Db) {
    && (forall k :: k in after <==> k in db || (k.model == model && HasId(rows, k.id)))
    && (forall r :: r in rows ==> Key(model, r.id) in after && MergedWith(db, tenant, Key(model, r.id), r, after[Key(model, r.id)]))
    && (forall k :: k in db && !(k.model == model && HasId(rows, k.id)) ==> after[k] == db[k])
  }

  lemma {:induction false} FilteredDistinct(rows: seq<NewRow>, existing: set<Text>)
    requires DistinctIds(rows)
    ensures DistinctIds(ToCreate(rows, existing)) && DistinctIds(ToUpdate(rows, existing))
  {
    if rows != [] {
      TailIds(rows, 1);
      assert rows[0] in rows[..1];
      FilteredDistinct(rows[1..], existing);
      var create, update := ToCreate(rows[1..], existing), ToUpdate(rows[1..], existing);
      assert [] + create == create && [] + update == update;
      ConsDistinct(rows[0], create);
      ConsDistinct(rows[0], update);
    }
  }

  lemma ConsDistinct(first: NewRow, rest: seq<NewRow>)
    requires DistinctIds(rest) && forall i :: 0 <= i < |rest| ==> rest[i].id != first.id
    ensures DistinctIds([first] + rest)
  {
  }

  lemma SameId(rows: seq<NewRow>, a: NewRow, b: NewRow)
    requires DistinctIds(rows) && a in rows && b in rows && a.id == b.id
    ensures a == b
  {
    var i :| 0 <= i < |rows| && rows[i] == a;
    var j :| 0 <= j < |rows| && rows[j] == b;
  }

  lemma HasIdRow(rows: seq<NewRow>, id: Text) returns (r: NewRow)
    requires HasId(rows, id)
    ensures r in rows && r.id == id
  {
    var i :| 0 <= i < |rows| && rows[i].id == id;
    r := rows[i];
  }

  /** The rows that were looked up and found. */
  lemma ExistingIds(db: Db, model: Text, rows: seq<NewRow>, tenant: Option<Text>, r: NewRow)
    requires DistinctIds(rows) && r in rows
    ensures r.id in Existing(db, model, rows, tenant) <==> Key(model, r.id) in db && Owned(db, tenant, Key(model, r.id))
  {
    if r.id in Existing(db, model, rows, tenant) {
      var x :| x in rows && Key(model, x.id) in db && (tenant == None || db[Key(model, x.id)].tenant == tenant.value) && x.id == r.id;
      SameId(rows, x, r);
    }
  }

  ghost predicate RefsMet(db: Db, rows: seq<NewRow>) {
    forall r, c :: r in rows && c in r.row.refs ==> r.row.refs[c].target in db
  }

  /** The updates go through exactly when every reference they write is met; then the named rows are overwritten. */
  lemma {:induction false} UpdatesApply(db: Db, model: Text, rows: seq<NewRow>)
    requires DistinctIds(rows) && forall r :: r in rows ==> Key(model, r.id) in db
    ensures UpdateAll(db, model, rows).Ok? <==> RefsMet(db, rows)
    ensures UpdateAll(db, model, rows).Ok? ==> Updated(db, model, rows, UpdateAll(db, model, rows).value)
    decreases |rows|
  {
    if rows != [] {
      var first, tail := rows[0], rows[1..];
      var key := Key(model, first.id);
      TailIds(rows, 1);
      assert first in rows[..1] && first in rows;
      assert forall r :: r in rows <==> r == first || r in tail;
      if forall c :: c in first.row.refs ==> first.row.refs[c].target in db {
        var next := db[key := Overwritten(db[key], first.row)];
        assert UpdateRow(db, key, first.row) == Ok(next);
        UpdatesApply(next, model, tail);
        assert RefsMet(next, tail) <==> RefsMet(db, rows);
        if UpdateAll(next, model, tail).Ok? {
          UpdatedStep(db, model, rows, UpdateAll(next, model, tail).value);
        }
      }
    }
  }

  /** The rows named are overwritten once each, and nothing else changes. */
  ghost predicate Updated(db: Db, model: Text, rows: seq<NewRow>, after: Db)
    requires forall r :: r in rows ==> Key(model, r.id) in db
  {
    && after.Keys == db.Keys
    && (forall k :: k in db && !(k.model == model && HasId(rows, k.id)) ==> after[k] == db[k])
    && (forall r :: r in rows ==> after[Key(model, r.id)] == Overwritten(db[Key(model, r.id)], r.row))
  }

  lemma UpdatedStep(db: Db, model: Text, rows: seq<NewRow>, after: Db)
    requires rows != [] && DistinctIds(rows) && forall r :: r in rows ==> Key(model, r.id) in db
    requires rows[0] in rows && forall r :: r in rows[1..] ==> r in rows
    requires var key := Key(model, rows[0].id);
             Updated(db[key := Overwritten(db[key], rows[0].row)], model, rows[1..], after)
    ensures Updated(db, model, rows, after)
  {
    var first, tail := rows[0], rows[1..];
    TailIds(rows, 1);
    assert first in rows[..1];
    assert after.Keys == db.Keys;
    forall k | k in db && !(k.model == model && HasId(rows, k.id))
      ensures after[k] == db[k]
    {
      assert rows[0].id == first.id;
      if HasId(tail, k.id) {
        var i :| 0 <= i < |tail| && tail[i].id == k.id;
        assert rows[i + 1].id == k.id;
      }
    }
    forall r | r in rows
      ensures after[Key(model, r.id)] == Overwritten(db[Key(model, r.id)], r.row)
    {
      if r in tail {
        assert r.id != first.id;
      } else {
        assert r == first;
        if HasId(tail, first.id) {
          var x := HasIdRow(tail, first.id);
        }
      }
    }
  }

  /** Creating only what is new, then overwriting what is owned. */
  lemma MergeOne(db: Db, model: Text, rows: seq<NewRow>, tenant: Option<Text>)
    requires DistinctIds(rows)
    ensures var create := ToCreate(rows, Existing(db, model, rows, tenant));
            && (MergeModel(db, model, rows, tenant).Ok? <==> RowsResolved(db, model, rows, tenant) && InTime(db, model, create))
            && (MergeModel(db, model, rows, tenant).Ok? ==>
                  ModelMerged(db, tenant, model, rows, MergeModel(db, model, rows, tenant).value.db)
                  && MergeModel(db, model, rows, tenant).value.result
                       == ModelResult(model, |rows|, |Existing(db, model, rows, tenant)|, |NotSeen(db, model, create)|,
                                      |ToUpdate(rows, Existing(db, model, rows, tenant))|, 0))
  {
    hide InsertChunks, Chunks, Put, NotSeen, InTime, UpdateAll, ToCreate, ToUpdate, Existing, ModelMerged, OthersPresent, RefsMet, RowsResolved, DistinctIds;
    var existing := Existing(db, model, rows, tenant);
    var create, update := ToCreate(rows, existing), ToUpdate(rows, existing);
    FilteredDistinct(rows, existing);
    MergeInsert(db, model, create);
    if InTime(db, model, create) {
      var written := Put(db, model, NotSeen(db, model, create));
      UpdatesThere(db, model, rows, tenant);
      UpdatesApply(written, model, update);
      ResolvedExactlyWhen(db, model, rows, tenant);
      if UpdateAll(written, model, update).Ok? {
        MergedPointwise(db, model, rows, tenant, UpdateAll(written, model, update).value);
      }
    }
  }

  lemma UpdatesThere(db: Db, model: Text, rows: seq<NewRow>, tenant: Option<Text>)
    requires DistinctIds(rows)
    ensures var existing := Existing(db, model, rows, tenant);
            forall r :: r in ToUpdate(rows, existing) ==> Key(model, r.id) in Put(db, model, NotSeen(db, model, ToCreate(rows, existing)))
  {
    forall r | r in rows
      ensures Key(model, r.id) in Put(db, model, NotSeen(db, model, ToCreate(rows, Existing(db, model, rows, tenant))))
    {
      FileRowIsThere(db, model, rows, tenant, r);
    }
  }

  /** What the creations and the updates of one model need, together. */
  lemma ResolvedExactlyWhen(db: Db, model: Text, rows: seq<NewRow>, tenant: Option<Text>)
    requires DistinctIds(rows) && InTime(db, model, ToCreate(rows, Existing(db, model, rows, tenant)))
    ensures var existing := Existing(db, model, rows, tenant);
            var create, update := ToCreate(rows, existing), ToUpdate(rows, existing);
            RowsResolved(db, model, rows, tenant) <==> OthersPresent(db, model, create) && RefsMet(Put(db, model, NotSeen(db, model, create)), update)
  {
    hide InTime, ToCreate, ToUpdate, Existing, Put, NotSeen, DistinctIds;
    var existing := Existing(db, model, rows, tenant);
    var create, update := ToCreate(rows, existing), ToUpdate(rows, existing);
    var written := Put(db, model, NotSeen(db, model, create));
    forall r | r in rows
      ensures r in update <==> Key(model, r.id) in db && Owned(db, tenant, Key(model, r.id))
    {
      ExistingIds(db, model, rows, tenant, r);
    }
    forall t: Key
      ensures t in written <==> t in db || (t.model == model && HasId(rows, t.id))
    {
      WrittenKeys(db, model, rows, tenant, t);
    }
    if OthersPresent(db, model, create) && RefsMet(written, update) {
      forall r, c | r in rows && Writes(db, tenant, Key(model, r.id)) && c in r.row.refs
        ensures r.row.refs[c].target in db || (r.row.refs[c].target.model == model && HasId(rows, r.row.refs[c].target.id))
      {
        if Key(model, r.id) !in db && r.row.refs[c].target.model == model {
          CreatedInTime(db, model, rows, tenant, r, c);
        }
      }
    }
  }

  lemma WrittenKeys(db: Db, model: Text, rows: seq<NewRow>, tenant: Option<Text>, t: Key)
    requires DistinctIds(rows)
    ensures t in Put(db, model, NotSeen(db, model, ToCreate(rows, Existing(db, model, rows, tenant))))
       <==> t in db || (t.model == model && HasId(rows, t.id))
  {
    var made := NotSeen(db, model, ToCreate(rows, Existing(db, model, rows, tenant)));
    PutKeys(db, model, made, t);
    if t.model == model && HasId(rows, t.id) {
      var x := HasIdRow(rows, t.id);
      FileRowIsThere(db, model, rows, tenant, x);
    }
    if HasId(made, t.id) {
      var x := HasIdRow(made, t.id);
      MemberId(rows, x);
    }
  }

  lemma CreatedInTime(db: Db, model: Text, rows: seq<NewRow>, tenant: Option<Text>, r: NewRow, c: Text)
    requires DistinctIds(rows) && InTime(db, model, ToCreate(rows, Existing(db, model, rows, tenant)))
    requires r in rows && Key(model, r.id) !in db && c in r.row.refs && r.row.refs[c].target.model == model
    ensures r.row.refs[c].target in db || HasId(rows, r.row.refs[c].target.id)
  {
    var create := ToCreate(rows, Existing(db, model, rows, tenant));
    var t := r.row.refs[c].target;
    ExistingIds(db, model, rows, tenant, r);
    assert r in create;
    var i :| 0 <= i < |create| && create[i] == r;
    assert RowInTime(db, model, create, i);
    if t !in db {
      var j :| 0 <= j < |create| && create[j].id == t.id && j / WRITE_CHUNK <= i / WRITE_CHUNK;
      assert create[j] in create;
      MemberId(rows, create[j]);
    }
  }

  lemma FileRowIsThere(db: Db, model: Text, rows: seq<NewRow>, tenant: Option<Text>, r: NewRow)
    requires DistinctIds(rows) && r in rows
    ensures Key(model, r.id) in Put(db, model, NotSeen(db, model, ToCreate(rows, Existing(db, model, rows, tenant))))
  {
    var made := NotSeen(db, model, ToCreate(rows, Existing(db, model, rows, tenant)));
    PutKeys(db, model, made, Key(model, r.id));
    ExistingIds(db, model, rows, tenant, r);
    if Key(model, r.id) !in db {
      MemberId(made, r);
    }
  }

  lemma MergedPointwise(db: Db, model: Text, rows: seq<NewRow>, tenant: Option<Text>, after: Db)
    requires DistinctIds(rows)
    requires var existing := Existing(db, model, rows, tenant);
             var written := Put(db, model, NotSeen(db, model, ToCreate(rows, existing)));
             var update := ToUpdate(rows, existing);
             (forall r :: r in update ==> Key(model, r.id) in written) && Updated(written, model, update, after)
    ensures ModelMerged(db, tenant, model, rows, after)
  {
    var existing := Existing(db, model, rows, tenant);
    var create, update := ToCreate(rows, existing), ToUpdate(rows, existing);
    var made := NotSeen(db, model, create);
    var written := Put(db, model, made);
    FilteredDistinct(rows, existing);
    NotSeenDistinct(db, model, create);
    forall k: Key
      ensures k in after <==> k in db || (k.model == model && HasId(rows, k.id))
      ensures k in db && !(k.model == model && HasId(rows, k.id)) ==> after[k] == db[k]
    {
      PutKeys(db, model, made, k);
      assert k in after.Keys <==> k in written.Keys;
      if HasId(made, k.id) {
        var x := HasIdRow(made, k.id);
        MemberId(rows, x);
      }
      if HasId(update, k.id) {
        var x := HasIdRow(update, k.id);
        MemberId(rows, x);
      }
      if k.model == model && HasId(rows, k.id) {
        var x := HasIdRow(rows, k.id);
        FileRowIsThere(db, model, rows, tenant, x);
      }
    }
    forall r | r in rows
      ensures Key(model, r.id) in after && MergedWith(db, tenant, Key(model, r.id), r, after[Key(model, r.id)])
    {
      RowMerged(db, model, rows, tenant, after, r);
    }
  }

  lemma RowMerged(db: Db, model: Text, rows: seq<NewRow>, tenant: Option<Text>, after: Db, r: NewRow)
    requires DistinctIds(rows) && r in rows
    requires var existing := Existing(db, model, rows, tenant);
             var written := Put(db, model, NotSeen(db, model, ToCreate(rows, existing)));
             var update := ToUpdate(rows, existing);
             (forall r :: r in update ==> Key(model, r.id) in written) && Updated(written, model, update, after)
    ensures Key(model, r.id) in after && MergedWith(db, tenant, Key(model, r.id), r, after[Key(model, r.id)])
  {
    var existing := Existing(db, model, rows, tenant);
    var create, update := ToCreate(rows, existing), ToUpdate(rows, existing);
    var made := NotSeen(db, model, create);
    var written := Put(db, model, made);
    var k := Key(model, r.id);
    FilteredDistinct(rows, existing);
    NotSeenDistinct(db, model, create);
    ExistingIds(db, model, rows, tenant, r);
    FileRowIsThere(db, model, rows, tenant, r);
    assert k in after.Keys;
    PutKeys(db, model, made, k);
    if HasId(made, r.id) {
      var x := HasIdRow(made, r.id);
      SameId(rows, x, r);
      PutHolds(db, model, made, r);
    }
    if HasId(update, r.id) {
      var x := HasIdRow(update, r.id);
      SameId(rows, x, r);
    }
  }

  // ---------------------------------------------------------------- all models

  /** The creations of one model go through: no parent is created in a later statement than its child. */
  ghost predicate Creatable(db: Db, model: Text, content: Content, tenant: Option<Text>) {
    model in content ==> InTime(db, model, ToCreate(content[model], Existing(db, model, content[model], tenant)))
  }

  ghost predicate SameTable(a: Db, b: Db, model: Text) {
    forall k: Key :: k.model == model ==> (k in a <==> k in b) && (k in a && k in b ==> a[k] == b[k])
  }

  lemma CreatableCarriesOver(a: Db, b: Db, model: Text, content: Content, tenant: Option<Text>)
    requires SameTable(a, b, model)
    ensures Creatable(a, model, content, tenant) <==> Creatable(b, model, content, tenant)
  {
    if model in content {
      var rows := content[model];
      assert Existing(a, model, rows, tenant) == Existing(b, model, rows, tenant);
      var create := ToCreate(rows, Existing(a, model, rows, tenant));
      forall i | 0 <= i < |create|
        ensures RowInTime(a, model, create, i) <==> RowInTime(b, model, create, i)
      {
        assert Key(model, create[i].id) in a <==> Key(model, create[i].id) in b;
        forall c | c in create[i].row.refs && create[i].row.refs[c].target.model == model
          ensures ArrivesInTime(a, create, create[i].row.refs[c].target, i) <==> ArrivesInTime(b, create, create[i].row.refs[c].target, i)
        {
        }
      }
      assert InTime(a, model, create) <==> InTime(b, model, create);
    }
  }

  /** The tables after merging the file's rows of these models. */
  ghost predicate AllMerged(db: Db, tenant: Option<Text>, models: seq<Text>, content: Content, after: Db) {
    && (forall k :: k in after <==> k in db || (k.model in models && RR.InFile(content, k)))
    && (forall m, r :: m in models && m in content && r in content[m] ==>
          Key(m, r.id) in after && MergedWith(db, tenant, Key(m, r.id), r, after[Key(m, r.id)]))
    && (forall k :: k in db && !(k.model in models && RR.InFile(content, k)) ==> after[k] == db[k])
  }

  lemma ResolvedStep(db: Db, models: seq<Text>, content: Content, tenant: Option<Text>, next: Db)
    requires models != [] && NoDuplicates(models)
    requires models[0] in content ==> ModelMerged(db, tenant, models[0], content[models[0]], next)
    requires models[0] !in content ==> next == db
    ensures Resolved(db, models, content, tenant)
       <==> (models[0] in content ==> RowsResolved(db, models[0], content[models[0]], tenant)) && Resolved(next, models[1..], content, tenant)
  {
    hide ModelMerged;
    if Resolved(db, models, content, tenant) {
      RowsResolvedNow(db, models, content, tenant);
      ResolvedAfter(db, models, content, tenant, next);
    }
    if (models[0] in content ==> RowsResolved(db, models[0], content[models[0]], tenant)) && Resolved(next, models[1..], content, tenant) {
      ResolvedBefore(db, models, content, tenant, next);
    }
  }

  lemma ResolvedAfter(db: Db, models: seq<Text>, content: Content, tenant: Option<Text>, next: Db)
    requires models != [] && NoDuplicates(models) && Resolved(db, models, content, tenant)
    requires models[0] in content ==> ModelMerged(db, tenant, models[0], content[models[0]], next)
    requires models[0] !in content ==> next == db
    ensures Resolved(next, models[1..], content, tenant)
  {
    var tail := models[1..];
    forall i, r, c | 0 <= i < |tail| && tail[i] in content && r in content[tail[i]]
                     && Writes(next, tenant, Key(tail[i], r.id)) && c in r.row.refs
      ensures var t := r.row.refs[c].target;
              t in next || (RR.InFile(content, t) && (t.model == tail[i] || exists j :: 0 <= j < i && tail[j] == t.model))
    {
      var t := r.row.refs[c].target;
      assert tail[i] == models[i + 1] && tail[i] != models[0];
      assert Writes(db, tenant, Key(tail[i], r.id));
      if t !in next && t.model != tail[i] {
        assert t !in db;
        var j :| 0 <= j < i + 1 && models[j] == t.model;
        assert j > 0 && tail[j - 1] == t.model;
      }
    }
  }

  lemma ResolvedBefore(db: Db, models: seq<Text>, content: Content, tenant: Option<Text>, next: Db)
    requires models != [] && NoDuplicates(models) && Resolved(next, models[1..], content, tenant)
    requires models[0] in content ==> RowsResolved(db, models[0], content[models[0]], tenant)
    requires models[0] in content ==> ModelMerged(db, tenant, models[0], content[models[0]], next)
    requires models[0] !in content ==> next == db
    ensures Resolved(db, models, content, tenant)
  {
    var tail := models[1..];
    forall i, r, c | 0 <= i < |models| && models[i] in content && r in content[models[i]]
                     && Writes(db, tenant, Key(models[i], r.id)) && c in r.row.refs
      ensures var t := r.row.refs[c].target;
              t in db || (RR.InFile(content, t) && (t.model == models[i] || exists j :: 0 <= j < i && models[j] == t.model))
    {
      var t := r.row.refs[c].target;
      if i > 0 && t !in db {
        assert tail[i - 1] == models[i] && models[i] != models[0];
        assert Writes(next, tenant, Key(tail[i - 1], r.id));
        if t in next {
          assert models[0] == t.model;
        } else if t.model != models[i] {
          var j :| 0 <= j < i - 1 && tail[j] == t.model;
          assert models[j + 1] == t.model;
        }
      }
    }
  }

  lemma RowsResolvedNow(db: Db, models: seq<Text>, content: Content, tenant: Option<Text>)
    requires models != [] && Resolved(db, models, content, tenant)
    ensures models[0] in content ==> RowsResolved(db, models[0], content[models[0]], tenant)
  {
  }

  lemma AllMergedStep(db: Db, tenant: Option<Text>, models: seq<Text>, content: Content, next: Db, after: Db)
    requires models != [] && NoDuplicates(models)
    requires models[0] in content ==> ModelMerged(db, tenant, models[0], content[models[0]], next)
    requires models[0] !in content ==> next == db
    requires AllMerged(next, tenant, models[1..], content, after)
    ensures AllMerged(db, tenant, models, content, after)
  {
    var m0, tail := models[0], models[1..];
    assert m0 !in tail;
    forall m, r | m in models && m in content && r in content[m]
      ensures Key(m, r.id) in after && MergedWith(db, tenant, Key(m, r.id), r, after[Key(m, r.id)])
    {
      var k := Key(m, r.id);
      if m in tail {
        assert k in after && MergedWith(next, tenant, k, r, after[k]);
        assert k in next <==> k in db;
      } else {
        assert m == m0 && k in next && MergedWith(db, tenant, k, r, next[k]);
      }
    }
  }

  /** A merge of any file goes through exactly when every reference it writes is met in time. */
  lemma {:induction false} MergeSucceedsExactlyWhen(db: Db, models: seq<Text>, content: Content, tenant: Option<Text>)
    requires NoDuplicates(models) && RR.DistinctContent(content)
    ensures Merge(db, models, content, tenant).Ok?
       <==> Resolved(db, models, content, tenant) && forall i :: 0 <= i < |models| ==> Creatable(db, models[i], content, tenant)
    ensures Merge(db, models, content, tenant).Ok? ==> AllMerged(db, tenant, models, content, Merge(db, models, content, tenant).value.db)
    decreases |models|
  {
    if models != [] {
      hide MergeModel, ModelMerged, AllMerged, Creatable, Resolved, RowsResolved, SameTable, RR.DistinctContent;
      var m, tail := models[0], models[1..];
      assert NoDuplicates(tail) by { RR.TailNoDuplicates(models); }
      FirstMerge(db, models, content, tenant);
      if m !in content || MergeModel(db, m, content[m], tenant).Ok? {
        var next := if m in content then MergeModel(db, m, content[m], tenant).value.db else db;
        ResolvedStep(db, models, content, tenant, next);
        CreatableStep(db, models, content, tenant, next);
        MergeSucceedsExactlyWhen(next, tail, content, tenant);
        if Merge(next, tail, content, tenant).Ok? {
          AllMergedStep(db, tenant, models, content, next, Merge(next, tail, content, tenant).value.db);
        }
      } else if Resolved(db, models, content, tenant) {
        RowsResolvedNow(db, models, content, tenant);
      }
    } else {
      NothingMerged(db, content, tenant);
    }
  }

  lemma CreatableStep(db: Db, models: seq<Text>, content: Content, tenant: Option<Text>, next: Db)
    requires models != [] && NoDuplicates(models)
    requires models[0] in content ==> ModelMerged(db, tenant, models[0], content[models[0]], next)
    requires models[0] !in content ==> next == db
    ensures (forall i :: 0 <= i < |models| ==> Creatable(db, models[i], content, tenant))
       <==> Creatable(db, models[0], content, tenant) && forall i :: 0 <= i < |models[1..]| ==> Creatable(next, models[1..][i], content, tenant)
  {
    hide ModelMerged, Creatable;
    var m, tail := models[0], models[1..];
    assert forall i :: 0 <= i < |tail| ==> tail[i] == models[i + 1] && tail[i] != m;
    assert forall i :: 0 < i < |models| ==> models[i] == tail[i - 1];
    forall i | 0 <= i < |tail|
      ensures Creatable(next, tail[i], content, tenant) <==> Creatable(db, tail[i], content, tenant)
    {
      if m in content {
        OtherTablesUnchanged(db, tenant, m, content[m], next, tail[i]);
      }
      CreatableCarriesOver(next, db, tail[i], content, tenant);
    }
  }

  lemma NothingMerged(db: Db, content: Content, tenant: Option<Text>)
    ensures Merge(db, [], content, tenant) == Ok(Restored(db, [])) && AllMerged(db, tenant, [], content, db)
    ensures Resolved(db, [], content, tenant)
  {
  }

  lemma FirstMerge(db: Db, models: seq<Text>, content: Content, tenant: Option<Text>)
    requires models != [] && RR.DistinctContent(content)
    ensures models[0] !in content ==> Creatable(db, models[0], content, tenant)
    ensures models[0] in content ==>
              (MergeModel(db, models[0], content[models[0]], tenant).Ok?
               <==> RowsResolved(db, models[0], content[models[0]], tenant) && Creatable(db, models[0], content, tenant))
    ensures models[0] in content && MergeModel(db, models[0], content[models[0]], tenant).Ok? ==>
              ModelMerged(db, tenant, models[0], content[models[0]], MergeModel(db, models[0], content[models[0]], tenant).value.db)
  {
    hide MergeModel, ModelMerged, RowsResolved, InTime;
    if models[0] in content {
      MergeOne(db, models[0], content[models[0]], tenant);
    }
  }

  lemma OtherTablesUnchanged(db: Db, tenant: Option<Text>, m: Text, rows: seq<NewRow>, next: Db, other: Text)
    requires ModelMerged(db, tenant, m, rows, next) && other != m
    ensures SameTable(next, db, other)
  {
  }

  /** A key the order does not know of stops a merge that has to create both rows. */
  lemma UndeclaredKeyStopsTheMerge(db: Db, models: seq<Text>, content: Content, tenant: Option<Text>, i: nat, r: NewRow, c: Text)
    requires NoDuplicates(models) && RR.DistinctContent(content)
    requires i < |models| && models[i] in content && r in content[models[i]] && Writes(db, tenant, Key(models[i], r.id))
    requires c in r.row.refs && r.row.refs[c].target !in db && r.row.refs[c].target.model !in models[..i + 1]
    ensures Merge(db, models, content, tenant).Err?
  {
    hide Merge, Creatable;
    MergeSucceedsExactlyWhen(db, models, content, tenant);
    var t := r.row.refs[c].target;
    assert forall j :: 0 <= j <= i ==> models[..i + 1][j] == models[j];
    assert !Resolved(db, models, content, tenant);
  }

  // ------------------------------------------------------------------ promises

  /** The row holds every value the file gives it. */
  ghost predicate Carries(row: Row, given: Row) {
    && row.tenant == given.tenant && row.refs == given.refs
    && forall c :: c in given.columns ==> c in row.columns && row.columns[c] == given.columns[c]
  }

  ghost predicate OneFactory(content: Content, tenant: Text) {
    forall m, r :: m in content && r in content[m] ==> r.row.tenant == tenant
  }

  /**
   After a merge every row of a factory's file is there with the file's values exactly
   when no other factory holds one of its ids; such an id is skipped without a word.
   */
  lemma MergedRowsArriveExactlyWhen(db: Db, models: seq<Text>, content: Content, tenant: Text)
    requires NoDuplicates(models) && RR.DistinctContent(content)
    requires OneFactory(content, tenant) && forall m :: m in content ==> m in models
    requires Merge(db, models, content, Some(tenant)).Ok?
    ensures var after := Merge(db, models, content, Some(tenant)).value.db;
            (forall m, r :: m in content && r in content[m] ==> Key(m, r.id) in after && Carries(after[Key(m, r.id)], r.row))
              <==> RR.ClashFree(db, content, tenant)
  {
    hide Merge;
    MergeSucceedsExactlyWhen(db, models, content, Some(tenant));
    var after := Merge(db, models, content, Some(tenant)).value.db;
    forall m, r | m in content && r in content[m]
      ensures Key(m, r.id) in after
      ensures Carries(after[Key(m, r.id)], r.row) <==> (Key(m, r.id) in db ==> db[Key(m, r.id)].tenant == tenant)
    {
      var k := Key(m, r.id);
      assert MergedWith(db, Some(tenant), k, r, after[k]);
    }
  }

  /** Cells of a row that the file does not give stay as they were, and a row of another factory stays altogether. */
  lemma MergeKeepsOtherCells(db: Db, models: seq<Text>, content: Content, tenant: Option<Text>, m: Text, r: NewRow, c: Text)
    requires NoDuplicates(models) && RR.DistinctContent(content) && Merge(db, models, content, tenant).Ok?
    requires m in models && m in content && r in content[m] && Key(m, r.id) in db
    ensures var (before, after) := (db[Key(m, r.id)], Merge(db, models, content, tenant).value.db);
            && Key(m, r.id) in after
            && (c !in r.row.columns ==>
                  (c in after[Key(m, r.id)].columns <==> c in before.columns)
                  && (c in before.columns ==> after[Key(m, r.id)].columns[c] == before.columns[c]))
            && (tenant.Some? && before.tenant != tenant.value ==> after[Key(m, r.id)] == before)
  {
    hide Merge;
    MergeSucceedsExactlyWhen(db, models, content, tenant);
    var after := Merge(db, models, content, tenant).value.db;
    assert MergedWith(db, tenant, Key(m, r.id), r, after[Key(m, r.id)]);
  }

  /** From one state of a merge to the next: no row goes, and only rows under these ids of the model come or change. */
  ghost predicate OnlyRowsOf(before: Db, after: Db, model: Text, rows: seq<NewRow>) {
    && (forall k :: k in before ==> k in after)
    && forall k: Key :: !(k.model == model && HasId(rows, k.id)) ==> (k in after <==> k in before) && (k in before ==> after[k] == before[k])
  }

  lemma OnlyPartOf(before: Db, after: Db, model: Text, part: seq<NewRow>, rows: seq<NewRow>)
    requires OnlyRowsOf(before, after, model, part) && forall r :: r in part ==> r in rows
    ensures OnlyRowsOf(before, after, model, rows)
  {
    forall id | HasId(part, id)
      ensures HasId(rows, id)
    {
      var r := HasIdRow(part, id);
      MemberId(rows, r);
    }
  }

  lemma {:induction false} InsertsTouchOnly(db: Db, model: Text, rows: seq<NewRow>, skipDuplicates: bool)
    requires InsertChunks(db, model, Chunks(rows), skipDuplicates).Ok?
    ensures OnlyRowsOf(db, InsertChunks(db, model, Chunks(rows), skipDuplicates).value.db, model, rows)
    decreases |rows|
  {
    hide CreateMany, InsertChunks, Chunks, OnlyRowsOf;
    if rows == [] {
      assert InsertChunks(db, model, Chunks(rows), skipDuplicates).value.db == db by { NoInserts(db, model, skipDuplicates); }
      NothingTouched(db, model, rows);
    } else if |rows| <= WRITE_CHUNK {
      OneChunk(db, model, rows, skipDuplicates);
      StatementTouchesOnly(db, model, rows, skipDuplicates);
    } else {
      var a, b := rows[..WRITE_CHUNK], rows[WRITE_CHUNK..];
      ManyChunks(db, model, rows, skipDuplicates);
      StatementTouchesOnly(db, model, a, skipDuplicates);
      var first := CreateMany(db, model, a, skipDuplicates).value.db;
      InsertsTouchOnly(first, model, b, skipDuplicates);
      var last := InsertChunks(first, model, Chunks(b), skipDuplicates).value.db;
      OnlyPartOf(db, first, model, a, rows);
      OnlyPartOf(first, last, model, b, rows);
      TouchedTwice(db, first, last, model, rows);
    }
  }

  lemma NoInserts(db: Db, model: Text, skipDuplicates: bool)
    ensures InsertChunks(db, model, Chunks([]), skipDuplicates) == Ok(Inserted(db, 0))
  {
  }

  lemma NothingTouched(db: Db, model: Text, rows: seq<NewRow>)
    ensures OnlyRowsOf(db, db, model, rows)
  {
  }

  lemma TouchedTwice(a: Db, b: Db, c: Db, model: Text, rows: seq<NewRow>)
    requires OnlyRowsOf(a, b, model, rows) && OnlyRowsOf(b, c, model, rows)
    ensures OnlyRowsOf(a, c, model, rows)
  {
  }

  lemma StatementTouchesOnly(db: Db, model: Text, rows: seq<NewRow>, skipDuplicates: bool)
    requires CreateMany(db, model, rows, skipDuplicates).Ok?
    ensures OnlyRowsOf(db, CreateMany(db, model, rows, skipDuplicates).value.db, model, rows)
  {
    var written := if skipDuplicates then Unseen(db, model, rows) else rows;
    var after := Put(db, model, written);
    forall k: Key
      ensures k in db ==> k in after
      ensures !(k.model == model && HasId(written, k.id)) ==> (k in after <==> k in db) && (k in db ==> after[k] == db[k])
    {
      PutKeys(db, model, written, k);
    }
    OnlyPartOf(db, after, model, written, rows);
  }

  lemma {:induction false} UpdatesTouchOnly(db: Db, model: Text, rows: seq<NewRow>)
    requires (forall r :: r in rows ==> Key(model, r.id) in db) && UpdateAll(db, model, rows).Ok?
    ensures OnlyRowsOf(db, UpdateAll(db, model, rows).value, model, rows)
    decreases |rows|
  {
    if rows != [] {
      var key := Key(model, rows[0].id);
      assert rows[0] in rows;
      MemberId(rows, rows[0]);
      var next := UpdateRow(db, key, rows[0].row).value;
      UpdatesTouchOnly(next, model, rows[1..]);
      OnlyPartOf(next, UpdateAll(next, model, rows[1..]).value, model, rows[1..], rows);
    }
  }

  lemma ModelMergeTouchesOnly(db: Db, model: Text, rows: seq<NewRow>, tenant: Option<Text>)
    requires MergeModel(db, model, rows, tenant).Ok?
    ensures OnlyRowsOf(db, MergeModel(db, model, rows, tenant).value.db, model, rows)
  {
    hide InsertChunks, Chunks, UpdateAll, OnlyRowsOf, ToCreate, ToUpdate, Existing;
    var existing := Existing(db, model, rows, tenant);
    var create, update := ToCreate(rows, existing), ToUpdate(rows, existing);
    var written := InsertChunks(db, model, Chunks(create), true).value.db;
    InsertsTouchOnly(db, model, create, true);
    OnlyPartOf(db, written, model, create, rows);
    forall r | r in update
      ensures Key(model, r.id) in written
    {
      FoundIsThere(db, model, rows, tenant, r);
      InsertChunksKeepsKeys(db, model, Chunks(create), true);
      assert Key(model, r.id) in db.Keys;
    }
    UpdatesTouchOnly(written, model, update);
    OnlyPartOf(written, UpdateAll(written, model, update).value, model, update, rows);
    TouchedTwice(db, written, UpdateAll(written, model, update).value, model, rows);
  }

  lemma FoundIsThere(db: Db, model: Text, rows: seq<NewRow>, tenant: Option<Text>, r: NewRow)
    requires r in ToUpdate(rows, Existing(db, model, rows, tenant))
    ensures Key(model, r.id) in db
  {
  }

  /** Whatever the file: no row goes, and rows that it does not name stay exactly as they were. */
  lemma {:induction false} MergeTouchesNothingElse(db: Db, models: seq<Text>, content: Content, tenant: Option<Text>, k: Key)
    requires Merge(db, models, content, tenant).Ok?
    ensures var after := Merge(db, models, content, tenant).value.db;
            && (k in db ==> k in after)
            && (!RR.InFile(content, k) ==> (k in after <==> k in db) && (k in db ==> after[k] == db[k]))
    decreases |models|
  {
    if models != [] {
      hide MergeModel;
      if models[0] !in content {
        MergeTouchesNothingElse(db, models[1..], content, tenant, k);
      } else {
        ModelMergeTouchesOnly(db, models[0], content[models[0]], tenant);
        MergeTouchesNothingElse(MergeModel(db, models[0], content[models[0]], tenant).value.db, models[1..], content, tenant, k);
      }
    }
  }

  /** Every row the file names is there, and merging the values of an owned one in changes nothing. */
  ghost predicate Settled(db: Db, models: seq<Text>, content: Content, tenant: Option<Text>) {
    forall m, r :: m in models && m in content && r in content[m] ==>
      Key(m, r.id) in db
      && (Owned(db, tenant, Key(m, r.id)) ==>
            Overwritten(db[Key(m, r.id)], r.row) == db[Key(m, r.id)] && forall c :: c in r.row.refs ==> r.row.refs[c].target in db)
  }

  lemma MergedIsSettled(db: Db, models: seq<Text>, content: Content, tenant: Option<Text>, after: Db)
    requires RR.DistinctContent(content) && Resolved(db, models, content, tenant)
    requires AllMerged(db, tenant, models, content, after)
    ensures Settled(after, models, content, tenant)
  {
    forall m, r | m in models && m in content && r in content[m]
      ensures Key(m, r.id) in after
      ensures Owned(after, tenant, Key(m, r.id)) ==>
                Overwritten(after[Key(m, r.id)], r.row) == after[Key(m, r.id)] && forall c :: c in r.row.refs ==> r.row.refs[c].target in after
    {
      var k := Key(m, r.id);
      assert MergedWith(db, tenant, k, r, after[k]);
      if k !in db {
        assert r.row.columns + r.row.columns == r.row.columns;
      } else if Owned(db, tenant, k) {
        assert (db[k].columns + r.row.columns) + r.row.columns == db[k].columns + r.row.columns;
      }
      if Owned(after, tenant, k) {
        assert Writes(db, tenant, k);
        var i :| 0 <= i < |models| && models[i] == m;
        forall c | c in r.row.refs
          ensures r.row.refs[c].target in after
        {
          var t := r.row.refs[c].target;
          if t !in db {
            assert RR.InFile(content, t) && t.model in models;
          }
        }
      }
    }
  }

  lemma {:induction false} UpdatesChangeNothing(db: Db, model: Text, rows: seq<NewRow>)
    requires forall r :: r in rows ==> Key(model, r.id) in db && Overwritten(db[Key(model, r.id)], r.row) == db[Key(model, r.id)]
    requires forall r, c :: r in rows && c in r.row.refs ==> r.row.refs[c].target in db
    ensures UpdateAll(db, model, rows) == Ok(db)
    decreases |rows|
  {
    if rows != [] {
      assert rows[0] in rows && forall r :: r in rows[1..] ==> r in rows;
      assert db[Key(model, rows[0].id) := db[Key(model, rows[0].id)]] == db;
      UpdatesChangeNothing(db, model, rows[1..]);
    }
  }

  lemma {:induction false} NoneToWrite(db: Db, model: Text, rows: seq<NewRow>)
    requires forall r :: r in rows ==> Key(model, r.id) in db
    ensures NotSeen(db, model, rows) == []
  {
    if rows != [] {
      assert rows[0] in rows;
      NoneToWrite(db, model, rows[1..]);
    }
  }

  lemma MergeOneAgain(db: Db, models: seq<Text>, model: Text, content: Content, tenant: Option<Text>)
    requires RR.DistinctContent(content) && Settled(db, models, content, tenant)
    requires model in models && model in content
    ensures MergeModel(db, model, content[model], tenant).Ok?
    ensures MergeModel(db, model, content[model], tenant).value.db == db
    ensures MergeModel(db, model, content[model], tenant).value.result.created == 0
  {
    hide InsertChunks, Chunks;
    var rows := content[model];
    var existing := Existing(db, model, rows, tenant);
    var create, update := ToCreate(rows, existing), ToUpdate(rows, existing);
    FilteredDistinct(rows, existing);
    NoneToWrite(db, model, create);
    MergeInsert(db, model, create);
    forall r | r in update
      ensures Owned(db, tenant, Key(model, r.id))
    {
      ExistingIds(db, model, rows, tenant, r);
    }
    UpdatesChangeNothing(db, model, update);
  }

  lemma {:induction false} MergeSettled(db: Db, models: seq<Text>, all: seq<Text>, content: Content, tenant: Option<Text>)
    requires RR.DistinctContent(content) && Settled(db, all, content, tenant) && forall m :: m in models ==> m in all
    ensures Merge(db, models, content, tenant).Ok? && Merge(db, models, content, tenant).value.db == db
    ensures forall i :: 0 <= i < |Merge(db, models, content, tenant).value.results| ==> Merge(db, models, content, tenant).value.results[i].created == 0
    decreases |models|
  {
    if models != [] {
      hide MergeModel, Settled;
      assert models[0] in models;
      if models[0] in content {
        MergeOneAgain(db, all, models[0], content, tenant);
      }
      MergeSettled(db, models[1..], all, content, tenant);
    }
  }

  /** Merging the same file again creates nothing and changes nothing. */
  lemma MergeTwice(db: Db, models: seq<Text>, content: Content, tenant: Option<Text>)
    requires NoDuplicates(models) && RR.DistinctContent(content)
    requires Merge(db, models, content, tenant).Ok?
    ensures var after := Merge(db, models, content, tenant).value.db;
            var again := Merge(after, models, content, tenant);
            again.Ok? && again.value.db == after && forall i :: 0 <= i < |again.value.results| ==> again.value.results[i].created == 0
  {
    MergeSucceedsExactlyWhen(db, models, content, tenant);
    var after := Merge(db, models, content, tenant).value.db;
    MergedIsSettled(db, models, content, tenant, after);
    MergeSettled(after, models, models, content, tenant);
  }
}
