/**
 The `replace` strategy: clear the factory's rows children first, write the file's
 rows parents first (backend-nest/src/backup/restore.service.ts:279-325).
 */
module RestoreReplace {
  import opened Wrappers
  import opened JsText
  import opened ModelGraph
  import opened Database
  import opened Restore
  import opened RestoreClearing
  import opened RestoreInserts

  // -------------------------------------------------------------- insert phase

  ghost function PutAll(db: Db, models: seq<Text>, content: Content): Db
    decreases |models|
  {
    if models == [] then db
    else if models[0] !in content then PutAll(db, models[1..], content)
    else PutAll(Put(db, models[0], content[models[0]]), models[1..], content)
  }

  ghost predicate InFile(content: Content, k: Key) {
    k.model in content && HasId(content[k.model], k.id)
  }

  ghost predicate DistinctContent(content: Content) {
    forall m :: m in content ==> DistinctIds(content[m])
  }

  /** Foreign keys into other models are met by the table or by a model written earlier. */
  ghost predicate Supplied(db: Db, models: seq<Text>, content: Content) {
    forall i, r, c :: 0 <= i < |models| && models[i] in content && r in content[models[i]] && c in r.row.refs
                      && r.row.refs[c].target.model != models[i]
      ==> r.row.refs[c].target in db
          || (InFile(content, r.row.refs[c].target) && exists j :: 0 <= j < i && models[j] == r.row.refs[c].target.model)
  }

  /** The model's ids are new, each given once, and no parent arrives in a later statement than its child. */
  ghost predicate Insertable(db: Db, model: Text, content: Content) {
    model in content ==> DistinctIds(content[model]) && NoneSeen(db, model, content[model]) && InTime(db, model, content[model])
  }

  /** The file can be written into this database: something to check before writing it. */
  ghost predicate CanWrite(db: Db, models: seq<Text>, content: Content) {
    Supplied(db, models, content) && forall i :: 0 <= i < |models| ==> Insertable(db, models[i], content)
  }

  function ReplaceResults(models: seq<Text>, content: Content, deleted: map<Text, nat>): seq<ModelResult> {
    if models == [] then []
    else if models[0] !in content then ReplaceResults(models[1..], content, deleted)
    else
      var rows := content[models[0]];
      [ModelResult(models[0], |rows|, 0, |rows|, 0, if models[0] in deleted then deleted[models[0]] else 0)]
        + ReplaceResults(models[1..], content, deleted)
  }

  lemma OtherModelsUnaffected(db: Db, model: Text, rows: seq<NewRow>, other: Text, content: Content)
    requires other != model
    ensures Insertable(Put(db, model, rows), other, content) <==> Insertable(db, other, content)
  {
    var after := Put(db, model, rows);
    forall k: Key | k.model == other
      ensures k in after <==> k in db
    {
      PutKeys(db, model, rows, k);
    }
    if other in content {
      var own := content[other];
      assert NoneSeen(after, other, own) <==> NoneSeen(db, other, own);
      forall i | 0 <= i < |own|
        ensures RowInTime(after, other, own, i) <==> RowInTime(db, other, own, i)
      {
        assert Key(other, own[i].id) in after <==> Key(other, own[i].id) in db;
        forall c | c in own[i].row.refs && own[i].row.refs[c].target.model == other
          ensures ArrivesInTime(after, own, own[i].row.refs[c].target, i) <==> ArrivesInTime(db, own, own[i].row.refs[c].target, i)
        {
        }
      }
      assert InTime(after, other, own) <==> InTime(db, other, own);
    }
  }

  /** The first model's references are met and the rest is supplied once it is written, or the other way round. */
  lemma SuppliedStep(db: Db, models: seq<Text>, content: Content)
    requires models != [] && NoDuplicates(models)
    ensures models[0] !in content ==> (Supplied(db, models, content) <==> Supplied(db, models[1..], content))
    ensures models[0] in content && NoneSeen(db, models[0], content[models[0]]) ==>
              (Supplied(db, models, content) <==>
                OthersPresent(db, models[0], content[models[0]]) && Supplied(Put(db, models[0], content[models[0]]), models[1..], content))
  {
    hide OthersPresent, Supplied, Put;
    if models[0] in content {
      if Supplied(db, models, content) {
        SuppliedAfter(db, models, content);
      }
      if NoneSeen(db, models[0], content[models[0]]) && OthersPresent(db, models[0], content[models[0]])
         && Supplied(Put(db, models[0], content[models[0]]), models[1..], content) {
        SuppliedBefore(db, Put(db, models[0], content[models[0]]), models, content);
      }
    } else {
      if Supplied(db, models, content) {
        SuppliedAfter(db, models, content);
      }
      if Supplied(db, models[1..], content) {
        SuppliedBefore(db, db, models, content);
      }
    }
  }

  lemma SuppliedAfter(db: Db, models: seq<Text>, content: Content)
    requires models != [] && Supplied(db, models, content)
    ensures models[0] in content ==> Supplied(Put(db, models[0], content[models[0]]), models[1..], content)
    ensures models[0] !in content ==> Supplied(db, models[1..], content)
    ensures models[0] in content ==> OthersPresent(db, models[0], content[models[0]])
  {
    var m := models[0];
    var after := if m in content then Put(db, m, content[m]) else db;
    var tail := models[1..];
    forall i, r, c | 0 <= i < |tail| && tail[i] in content && r in content[tail[i]] && c in r.row.refs && r.row.refs[c].target.model != tail[i]
      ensures r.row.refs[c].target in after
          || (InFile(content, r.row.refs[c].target) && exists j :: 0 <= j < i && tail[j] == r.row.refs[c].target.model)
    {
      var t := r.row.refs[c].target;
      assert tail[i] == models[i + 1];
      if m in content {
        PutKeys(db, m, content[m], t);
      }
      if t !in after {
        var j :| 0 <= j < i + 1 && models[j] == t.model;
        assert j > 0 && tail[j - 1] == t.model;
      }
    }
  }

  lemma SuppliedBefore(db: Db, after: Db, models: seq<Text>, content: Content)
    requires models != [] && Supplied(after, models[1..], content)
    requires models[0] in content ==> after == Put(db, models[0], content[models[0]])
    requires models[0] in content ==> NoneSeen(db, models[0], content[models[0]]) && OthersPresent(db, models[0], content[models[0]])
    requires models[0] !in content ==> after == db
    ensures Supplied(db, models, content)
  {
    var m, tail := models[0], models[1..];
    forall i, r, c | 0 <= i < |models| && models[i] in content && r in content[models[i]] && c in r.row.refs && r.row.refs[c].target.model != models[i]
      ensures r.row.refs[c].target in db
          || (InFile(content, r.row.refs[c].target) && exists j :: 0 <= j < i && models[j] == r.row.refs[c].target.model)
    {
      var t := r.row.refs[c].target;
      if i > 0 {
        assert models[i] == tail[i - 1];
        if m in content {
          PutKeys(db, m, content[m], t);
        }
        if t !in after {
          var j :| 0 <= j < i - 1 && tail[j] == t.model;
          assert models[j + 1] == t.model;
        } else if t !in db {
          assert models[0] == t.model;
        }
      }
    }
  }

  /** Writing any file in any order goes through exactly when every reference is met in time and no id is taken or repeated. */
  lemma {:induction false} ReplaceWrites(db: Db, models: seq<Text>, content: Content, deleted: map<Text, nat>)
    requires NoDuplicates(models)
    ensures ReplacePhase(db, models, content, deleted).Ok? <==> CanWrite(db, models, content)
    ensures ReplacePhase(db, models, content, deleted).Ok? ==>
              ReplacePhase(db, models, content, deleted) == Ok(Restored(PutAll(db, models, content), ReplaceResults(models, content, deleted)))
    decreases |models|
  {
    if models != [] {
      hide InsertChunks, Chunks, Put, Insertable, Supplied, InTime, NoneSeen, OthersPresent;
      var m, tail := models[0], models[1..];
      assert NoDuplicates(tail) by { TailNoDuplicates(models); }
      assert forall i :: 0 <= i < |tail| ==> tail[i] == models[i + 1] && tail[i] != m;
      assert forall i :: 0 < i < |models| ==> models[i] == tail[i - 1];
      assert (forall i :: 0 <= i < |models| ==> Insertable(db, models[i], content))
        <==> Insertable(db, m, content) && forall i :: 0 <= i < |tail| ==> Insertable(db, tail[i], content);
      FirstInsertable(db, m, content);
      SuppliedStep(db, models, content);
      if m !in content {
        ReplaceWrites(db, tail, content, deleted);
      } else if Insertable(db, m, content) {
        InsertableNew(db, m, content);
        var after := Put(db, m, content[m]);
        ReplaceWrites(after, tail, content, deleted);
        forall i | 0 <= i < |tail|
          ensures Insertable(after, tail[i], content) <==> Insertable(db, tail[i], content)
        {
          OtherModelsUnaffected(db, m, content[m], tail[i], content);
        }
      }
    } else {
      NoModels(db, content);
    }
  }

  lemma NoModels(db: Db, content: Content)
    ensures Supplied(db, [], content)
  {
  }

  lemma TailNoDuplicates(models: seq<Text>)
    requires models != [] && NoDuplicates(models)
    ensures NoDuplicates(models[1..]) && models[0] !in models[1..]
  {
  }

  lemma InsertableNew(db: Db, m: Text, content: Content)
    requires m in content && Insertable(db, m, content)
    ensures NoneSeen(db, m, content[m])
  {
  }

  lemma FirstInsertable(db: Db, m: Text, content: Content)
    ensures m !in content ==> Insertable(db, m, content)
    ensures m in content ==>
              (InsertChunks(db, m, Chunks(content[m]), false).Ok? <==> Insertable(db, m, content) && OthersPresent(db, m, content[m]))
    ensures m in content && InsertChunks(db, m, Chunks(content[m]), false).Ok? ==>
              InsertChunks(db, m, Chunks(content[m]), false) == Ok(Inserted(Put(db, m, content[m]), |content[m]|))
  {
    hide InsertChunks, Chunks, Put, InTime, NoneSeen, OthersPresent, DistinctIds;
    if m in content {
      ReplaceInsert(db, m, content[m]);
    }
  }

  /** What is in the tables after all models have been written. */
  lemma {:induction false} PutAllHolds(db: Db, models: seq<Text>, content: Content, k: Key)
    requires NoDuplicates(models) && DistinctContent(content)
    ensures k in PutAll(db, models, content) <==> k in db || (k.model in models && InFile(content, k))
    ensures k in PutAll(db, models, content) && !(k.model in models && InFile(content, k)) ==> PutAll(db, models, content)[k] == db[k]
    ensures k.model in models && InFile(content, k) ==>
              exists r :: r in content[k.model] && r.id == k.id && PutAll(db, models, content)[k] == r.row
    decreases |models|
  {
    if models != [] {
      var m, tail := models[0], models[1..];
      assert k.model in tail ==> k.model != m;
      if m in content {
        var after := Put(db, m, content[m]);
        PutKeys(db, m, content[m], k);
        PutAllHolds(after, tail, content, k);
        if k.model == m && InFile(content, k) {
          var i :| 0 <= i < |content[m]| && content[m][i].id == k.id;
          PutHolds(db, m, content[m], content[m][i]);
          assert k.model !in tail;
        }
      } else {
        PutAllHolds(db, tail, content, k);
      }
    }
  }

  // ------------------------------------------------------------------- replace

  /** Every reference of the file into a model it covers follows a declared edge or stays in its model, and is met by the file. */
  ghost predicate FileClosed(content: Content, edges: Edges) {
    forall m, r, c :: m in content && r in content[m] && c in r.row.refs && r.row.refs[c].target.model in content ==>
      var t := r.row.refs[c].target;
      InFile(content, t) && (t.model == m || (m in edges && t.model in edges[m]))
  }

  /** No row of another factory has an id that the file uses. */
  ghost predicate ClashFree(db: Db, content: Content, tenant: Text) {
    forall m, r :: m in content && r in content[m] && Key(m, r.id) in db ==> db[Key(m, r.id)].tenant == tenant
  }

  /** In the file every parent of the same model stands in the same run of 500 rows or an earlier one. */
  ghost predicate ParentsInChunkOrder(model: Text, rows: seq<NewRow>) {
    forall i, c :: 0 <= i < |rows| && c in rows[i].row.refs && rows[i].row.refs[c].target.model == model ==>
      exists j :: 0 <= j < |rows| && rows[j].id == rows[i].row.refs[c].target.id && j / WRITE_CHUNK <= i / WRITE_CHUNK
  }

  ghost predicate AllInChunkOrder(content: Content) {
    forall m :: m in content ==> ParentsInChunkOrder(m, content[m])
  }

  /** What clearing leaves. */
  ghost function Left(db: Db, content: Content, tenant: Text): Db {
    Remaining(db, Doomed(db, Covered(db, content, tenant)))
  }

  ghost predicate IdsFree(left: Db, content: Content) {
    forall m, r :: m in content && r in content[m] ==> Key(m, r.id) !in left
  }

  /** Rows of models the file does not cover, roles and the factory itself among them, that the file points at. */
  ghost predicate OutsidePresent(left: Db, content: Content) {
    forall m, r, c :: m in content && r in content[m] && c in r.row.refs && r.row.refs[c].target.model !in content ==>
      r.row.refs[c].target in left
  }

  /** What it takes to write a file whose own references are in order. */
  ghost predicate Fits(left: Db, content: Content) {
    IdsFree(left, content) && OutsidePresent(left, content) && AllInChunkOrder(content)
  }

  /** Whether a `replace` of this file will go through: something to check before starting it. */
  ghost predicate WillReplace(db: Db, order: seq<Text>, content: Content, tenant: Text) {
    MayClear(db, Reverse(order), content, tenant) && CanWrite(Left(db, content, tenant), order, content)
  }

  /** A file that a parents-first order can write. */
  ghost predicate Writable(order: seq<Text>, content: Content, edges: Edges) {
    && InsertOrder(edges, order)
    && (forall m :: m in content ==> m in edges)
    && DistinctContent(content)
    && FileClosed(content, edges)
  }

  lemma InsertableWhen(left: Db, content: Content, edges: Edges, m: Text)
    requires FileClosed(content, edges) && m in content
    ensures Insertable(left, m, content) <==> DistinctIds(content[m]) && NoneSeen(left, m, content[m]) && ParentsInChunkOrder(m, content[m])
  {
    var rows := content[m];
    if NoneSeen(left, m, rows) {
      forall i | 0 <= i < |rows|
        ensures RowInTime(left, m, rows, i) <==>
          forall c :: c in rows[i].row.refs && rows[i].row.refs[c].target.model == m ==>
            exists j :: 0 <= j < |rows| && rows[j].id == rows[i].row.refs[c].target.id && j / WRITE_CHUNK <= i / WRITE_CHUNK
      {
        assert rows[i] in rows;
        forall c | c in rows[i].row.refs && rows[i].row.refs[c].target.model == m
          ensures rows[i].row.refs[c].target !in left
        {
          var t := rows[i].row.refs[c].target;
          assert InFile(content, t);
          var j :| 0 <= j < |rows| && rows[j].id == t.id;
          assert rows[j] in rows && Key(m, rows[j].id) == t;
        }
      }
    }
  }

  lemma SuppliedWhen(left: Db, order: seq<Text>, content: Content, edges: Edges)
    requires Writable(order, content, edges)
    ensures Supplied(left, order, content) <==> OutsidePresent(left, content)
  {
    if OutsidePresent(left, content) {
      forall i, r, c | 0 <= i < |order| && order[i] in content && r in content[order[i]] && c in r.row.refs
                       && r.row.refs[c].target.model != order[i]
        ensures r.row.refs[c].target in left
            || (InFile(content, r.row.refs[c].target) && exists j :: 0 <= j < i && order[j] == r.row.refs[c].target.model)
      {
        var t := r.row.refs[c].target;
        if t.model in content {
          var j := EarlierTarget(edges, {}, order, i, t.model);
        }
      }
    }
    if Supplied(left, order, content) {
      forall m, r, c | m in content && r in content[m] && c in r.row.refs && r.row.refs[c].target.model !in content
        ensures r.row.refs[c].target in left
      {
        assert m in edges.Keys && m in order;
        var i :| 0 <= i < |order| && order[i] == m;
      }
    }
  }

  /**
   A reference-closed file can be written exactly when no id is taken, everything it points at outside itself is there
   and every parent of the same table stands in the same chunk or an earlier one.
   */
  lemma ClosedFileFits(left: Db, order: seq<Text>, content: Content, edges: Edges)
    requires Writable(order, content, edges)
    ensures CanWrite(left, order, content) <==> Fits(left, content)
  {
    hide FileClosed, NoneSeen, InTime, ParentsInChunkOrder, Insertable, Supplied, OutsidePresent, DistinctIds;
    SuppliedWhen(left, order, content, edges);
    forall m | m in content
      ensures Insertable(left, m, content) <==> NoneSeen(left, m, content[m]) && ParentsInChunkOrder(m, content[m])
      ensures exists i :: 0 <= i < |order| && order[i] == m
    {
      InsertableWhen(left, content, edges, m);
      assert m in edges.Keys && m in order;
    }
    forall m | m !in content
      ensures Insertable(left, m, content)
    {
      NotInFile(left, m, content);
    }
    if forall i :: 0 <= i < |order| ==> Insertable(left, order[i], content) {
      forall m | m in content
        ensures Insertable(left, m, content)
      {
        var i :| 0 <= i < |order| && order[i] == m;
      }
    }
    IdsFreeByModel(left, content);
  }

  lemma NotInFile(left: Db, m: Text, content: Content)
    requires m !in content
    ensures Insertable(left, m, content)
  {
  }

  lemma IdsFreeByModel(left: Db, content: Content)
    ensures IdsFree(left, content) <==> forall m :: m in content ==> NoneSeen(left, m, content[m])
  {
  }

  /**
   Replacing a factory from any file, in any database and any order, goes through exactly when no row that stays
   restricts the clearing and the file can be written into what it leaves.
   */
  lemma ReplaceSucceedsExactlyWhen(db: Db, order: seq<Text>, content: Content, tenant: Text)
    requires NoDuplicates(order) && forall m :: m in content ==> m in order
    ensures Replace(db, order, Reverse(order), content, tenant).Ok? <==> WillReplace(db, order, content, tenant)
    ensures WillReplace(db, order, content, tenant) ==>
              Replace(db, order, Reverse(order), content, tenant)
                == Ok(Restored(PutAll(Left(db, content, tenant), order, content),
                               ReplaceResults(order, content, CountsFrom(db, Reverse(order), content, tenant, 0))))
  {
    hide DeletePhase, ReplacePhase, PutAll, ReplaceResults, CountsFrom, CanWrite, MayClear;
    forall m | m in content
      ensures m in Reverse(order)
    {
      var i :| 0 <= i < |order| && order[i] == m;
      assert Reverse(order)[|order| - 1 - i] == m;
    }
    ClearingExactly(db, Reverse(order), content, tenant);
    ReplaceWrites(Left(db, content, tenant), order, content, CountsFrom(db, Reverse(order), content, tenant, 0));
  }

  /** After a successful replace: the file's rows, and of the other rows exactly what clearing leaves. */
  lemma ReplaceLeaves(db: Db, order: seq<Text>, content: Content, tenant: Text, k: Key)
    requires NoDuplicates(order) && forall m :: m in content ==> m in order
    requires WillReplace(db, order, content, tenant)
    ensures Replace(db, order, Reverse(order), content, tenant).Ok?
    ensures var after := Replace(db, order, Reverse(order), content, tenant).value.db;
            && (k in after <==> InFile(content, k) || (k in db && k !in Doomed(db, Covered(db, content, tenant))))
            && (k in after && !InFile(content, k) ==> after[k] == WithoutRefs(db[k], Doomed(db, Covered(db, content, tenant))))
            && (InFile(content, k) ==> exists r :: r in content[k.model] && r.id == k.id && after[k] == r.row)
  {
    hide Replace, PutAll, ReplaceResults, CountsFrom, MayClear, CanWrite, DistinctIds;
    ReplaceSucceedsExactlyWhen(db, order, content, tenant);
    WritableIsDistinct(Left(db, content, tenant), order, content);
    PutAllHolds(Left(db, content, tenant), order, content, k);
  }

  lemma WritableIsDistinct(left: Db, order: seq<Text>, content: Content)
    requires CanWrite(left, order, content) && forall m :: m in content ==> m in order
    ensures DistinctContent(content) && IdsFree(left, content)
  {
    hide Supplied, InTime, DistinctIds;
    forall m | m in content
      ensures DistinctIds(content[m]) && NoneSeen(left, m, content[m])
    {
      var i :| 0 <= i < |order| && order[i] == m;
      assert Insertable(left, order[i], content);
    }
  }

  /**
   A key the order does not know of: a file with a row that points at one of its rows in a model written later cannot
   be restored by `replace` at all, whatever the database holds.
   */
  lemma UndeclaredKeyStopsTheReplace(db: Db, order: seq<Text>, content: Content, tenant: Text, i: nat, r: NewRow, c: Text)
    requires NoDuplicates(order) && forall m :: m in content ==> m in order
    requires i < |order| && order[i] in content && r in content[order[i]] && c in r.row.refs
    requires InFile(content, r.row.refs[c].target) && r.row.refs[c].target.model !in order[..i + 1]
    ensures Replace(db, order, Reverse(order), content, tenant).Err?
  {
    hide Replace, MayClear, Left, CanWrite;
    ReplaceSucceedsExactlyWhen(db, order, content, tenant);
    LaterTargetFails(Left(db, content, tenant), order, content, i, r, c);
  }

  /** Either the row it points at is there, and cannot be inserted, or it is missing when the reference is written. */
  lemma LaterTargetFails(left: Db, order: seq<Text>, content: Content, i: nat, r: NewRow, c: Text)
    requires NoDuplicates(order) && forall m :: m in content ==> m in order
    requires i < |order| && order[i] in content && r in content[order[i]] && c in r.row.refs
    requires InFile(content, r.row.refs[c].target) && r.row.refs[c].target.model !in order[..i + 1]
    ensures !CanWrite(left, order, content)
  {
    var t := r.row.refs[c].target;
    assert forall j :: 0 <= j <= i ==> order[..i + 1][j] == order[j];
    assert order[..i + 1][i] == order[i];
    if t in left {
      var p :| 0 <= p < |content[t.model]| && content[t.model][p].id == t.id;
      assert content[t.model][p] in content[t.model] && t == Key(t.model, content[t.model][p].id);
      var j :| 0 <= j < |order| && order[j] == t.model;
      assert !Insertable(left, order[j], content);
    } else {
      assert !Supplied(left, order, content);
    }
  }

  /** What a file says of models outside the order, it says in vain. */
  ghost function Known(order: seq<Text>, content: Content): Content {
    map m | m in content && m in order :: content[m]
  }

  lemma UnknownModelsAreIgnored(db: Db, order: seq<Text>, content: Content, tenant: Text)
    ensures Replace(db, order, Reverse(order), content, tenant) == Replace(db, order, Reverse(order), Known(order, content), tenant)
  {
    assert forall m :: m in Reverse(order) ==> m in order;
    SameClearing(db, Reverse(order), content, Known(order, content), tenant);
    var cleared := DeletePhase(db, Reverse(order), content, tenant);
    if cleared.Ok? {
      SameWriting(cleared.value.db, order, content, Known(order, content), cleared.value.counts);
    }
  }

  lemma {:induction false} SameClearing(db: Db, order: seq<Text>, a: Content, b: Content, tenant: Text)
    requires forall m :: m in order ==> (m in a <==> m in b)
    ensures DeletePhase(db, order, a, tenant) == DeletePhase(db, order, b, tenant)
    decreases |order|
  {
    if order != [] {
      hide DeleteRows;
      assert order[0] in order && forall m :: m in order[1..] ==> m in order;
      if order[0] !in a {
        SameClearing(db, order[1..], a, b, tenant);
      } else if DeleteRows(db, TenantKeys(db, order[0], tenant)).Ok? {
        SameClearing(DeleteRows(db, TenantKeys(db, order[0], tenant)).value, order[1..], a, b, tenant);
      }
    }
  }

  lemma {:induction false} SameWriting(db: Db, order: seq<Text>, a: Content, b: Content, deleted: map<Text, nat>)
    requires forall m :: m in order ==> (m in a <==> m in b) && (m in a ==> a[m] == b[m])
    ensures ReplacePhase(db, order, a, deleted) == ReplacePhase(db, order, b, deleted)
    decreases |order|
  {
    if order != [] {
      hide InsertChunks, Chunks;
      assert order[0] in order && forall m :: m in order[1..] ==> m in order;
      if order[0] !in a {
        SameWriting(db, order[1..], a, b, deleted);
      } else if InsertChunks(db, order[0], Chunks(a[order[0]]), false).Ok? {
        SameWriting(InsertChunks(db, order[0], Chunks(a[order[0]]), false).value.db, order[1..], a, b, deleted);
      }
    }
  }

  /** No row of another factory points into this one; composite foreign keys see to that. */
  ghost predicate FactoryApart(db: Db, tenant: Text) {
    forall k, c :: k in db && c in db[k].refs && db[k].refs[c].target in db && db[db[k].refs[c].target].tenant == tenant
      ==> db[k].tenant == tenant
  }

  /** Rows of other factories, and of no factory, stay exactly as they were. */
  lemma OtherFactoriesUntouched(db: Db, content: Content, tenant: Text, k: Key)
    requires FactoryApart(db, tenant) && k in db && db[k].tenant != tenant
    ensures k in Left(db, content, tenant) && Left(db, content, tenant)[k] == db[k]
  {
    var covered := Covered(db, content, tenant);
    var own := set x | x in db && db[x].tenant == tenant;
    forall x | x in Followers(db, own)
      ensures x in own
    {
      var c :| c in db[x].refs.Keys && db[x].refs[c].onDelete == Cascade && db[x].refs[c].target in own;
    }
    DoomedLeast(db, covered, own);
    forall c | c in db[k].refs
      ensures db[k].refs[c].target !in Doomed(db, covered)
    {
    }
    assert WithoutRefs(db[k], Doomed(db, covered)).refs == db[k].refs;
  }

  /** Between factories kept apart, an id is taken after clearing exactly when another factory has it. */
  lemma IdsFreeExactlyWhenClashFree(db: Db, content: Content, tenant: Text)
    requires FactoryApart(db, tenant)
    ensures IdsFree(Left(db, content, tenant), content) <==> ClashFree(db, content, tenant)
  {
    var left := Left(db, content, tenant);
    forall m, r | m in content && r in content[m]
      ensures Key(m, r.id) in left <==> Key(m, r.id) in db && db[Key(m, r.id)].tenant != tenant
    {
      var k := Key(m, r.id);
      if k in left {
        NothingCoveredIsLeft(db, content, tenant, k);
      }
      if k in db && db[k].tenant != tenant {
        OtherFactoriesUntouched(db, content, tenant, k);
      }
    }
  }
}
