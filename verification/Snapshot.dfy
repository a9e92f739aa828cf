/**
 Reading a factory page by page into a snapshot file
 (backend-nest/src/backup/snapshot.service.ts:62-133) and putting it back.
 */
module Snapshot {
  import opened Wrappers
  import opened JsText
  import opened ModelGraph
  import opened SnapshotCodec
  import opened Database
  import opened Restore
  import opened RestoreClearing
  import opened RestoreReplace
  import RM = RestoreMerge

  const PAGE_SIZE: nat := 1000

  /** One row of the file: identity, factory and foreign keys as they are, the other columns encoded. */
  datatype FileRow = FileRow(id: Text, tenant: Text, refs: map<Text, Ref>, columns: JsonColumns)

  type FileData = map<Text, seq<FileRow>>

  datatype SnapshotFile = SnapshotFile(tenant: Option<Text>, data: FileData, counts: map<Text, nat>)

  /** The rows a scoped client sees; the unscoped client sees every factory. */
  ghost function ScopedIds(db: Db, model: Text, scope: Option<Text>): set<Text> {
    set k | k in db && k.model == model && (scope == None || db[k].tenant == scope.value) :: k.id
  }

  ghost function RowsAt(db: Db, model: Text, ids: seq<Text>): (rows: seq<NewRow>)
    requires forall i :: 0 <= i < |ids| ==> Key(model, ids[i]) in db
    ensures |rows| == |ids|
  {
    seq(|ids|, i requires 0 <= i < |ids| => NewRow(ids[i], db[Key(model, ids[i])]))
  }

  ghost function Encoded(rows: seq<NewRow>): (out: seq<FileRow>)
    ensures |out| == |rows|
  {
    seq(|rows|, i requires 0 <= i < |rows| =>
      FileRow(rows[i].id, rows[i].row.tenant, rows[i].row.refs, EncodedColumns(rows[i].row.columns)))
  }

  /** All rows of a model in ascending id order. */
  ghost function AllRows(db: Db, model: Text, scope: Option<Text>): seq<NewRow> {
    RowsAt(db, model, Enumerate(ScopedIds(db, model, scope)))
  }

  ghost function IdsAfter(db: Db, model: Text, scope: Option<Text>, cursor: Option<Text>): set<Text> {
    set id | id in ScopedIds(db, model, scope) && (cursor == None || Less(cursor.value, id))
  }

  function FirstOf(ids: seq<Text>, take: nat): seq<Text> {
    if |ids| <= take then ids else ids[..take]
  }

  /** What a page holds: the first `take` rows in id order, after the cursor row when there is one. */
  ghost function PageAt(db: Db, model: Text, scope: Option<Text>, cursor: Option<Text>, take: nat): seq<NewRow> {
    RowsAt(db, model, FirstOf(Enumerate(IdsAfter(db, model, scope, cursor)), take))
  }

  /** `findMany`: the first `take` rows in id order, after the cursor row when there is one. */
  method FindPage(db: Db, model: Text, scope: Option<Text>, cursor: Option<Text>, take: nat) returns (page: seq<NewRow>)
    ensures page == PageAt(db, model, scope, cursor, take)
  {
    var rest := set k | k in db && k.model == model && (scope == None || db[k].tenant == scope.value)
                        && (cursor == None || Less(cursor.value, k.id)) :: k.id;
    assert rest == IdsAfter(db, model, scope, cursor);
    var found := ListOf(rest);
    var sorted := Sort(found);
    AscendingUnique(sorted, Enumerate(IdsAfter(db, model, scope, cursor)));
    var ids := if |sorted| <= take then sorted else sorted[..take];
    assert forall i :: 0 <= i < |ids| ==> ids[i] in sorted;
    page := seq(|ids|, i requires 0 <= i < |ids| => NewRow(ids[i], db[Key(model, ids[i])]));
  }

  method ListOf(s: set<Text>) returns (xs: seq<Text>)
    ensures NoDuplicates(xs) && forall t :: t in xs <==> t in s
  {
    xs := [];
    var rest := s;
    while rest != {}
      invariant rest <= s && NoDuplicates(xs)
      invariant forall t :: t in xs <==> t in s && t !in rest
      decreases rest
    {
      var t :| t in rest;
      AppendDistinct(xs, t);
      xs := xs + [t];
      rest := rest - {t};
    }
  }

  lemma PageSplit(db: Db, model: Text, scope: Option<Text>, k: nat)
    requires 0 < k <= |Enumerate(ScopedIds(db, model, scope))|
    ensures Enumerate(IdsAfter(db, model, scope, Some(Enumerate(ScopedIds(db, model, scope))[k - 1])))
              == Enumerate(ScopedIds(db, model, scope))[k..]
  {
    var all := Enumerate(ScopedIds(db, model, scope));
    var after := IdsAfter(db, model, scope, Some(all[k - 1]));
    forall t
      ensures t in all[k..] <==> t in after
    {
      if t in after {
        assert t in all;
        var i :| 0 <= i < |all| && all[i] == t;
        if i <= k - 1 {
          if i < k - 1 {
            assert Less(all[i], all[k - 1]);
            LessTransitive(all[k - 1], t, all[k - 1]);
          }
          LessIrreflexive(all[k - 1]);
        }
        assert all[k..][i - k] == t;
      }
      if t in all[k..] {
        var i :| 0 <= i < |all| - k && all[k..][i] == t;
        assert all[k + i] == t && t in all;
      }
    }
    assert Ascending(all[k..]);
    AscendingUnique(all[k..], Enumerate(after));
  }

  method EncodeRows(page: seq<NewRow>) returns (out: seq<FileRow>)
    ensures out == Encoded(page)
  {
    out := [];
    for i := 0 to |page|
      invariant |out| == i
      invariant forall j :: 0 <= j < i ==> out[j] == Encoded(page)[j]
    {
      var keys := ListOf(page[i].row.columns.Keys);
      var columns := EncodeRow(page[i].row.columns, keys);
      out := out + [FileRow(page[i].id, page[i].row.tenant, page[i].row.refs, columns)];
    }
  }

  /** The first `n` rows of a model, encoded. */
  ghost function FirstRows(db: Db, model: Text, scope: Option<Text>, n: nat): seq<FileRow>
    requires n <= |ScopedList(db, model, scope)|
  {
    Encoded(RowsAt(db, model, ScopedList(db, model, scope)[..n]))
  }

  ghost function ScopedList(db: Db, model: Text, scope: Option<Text>): (ids: seq<Text>)
    ensures forall i :: 0 <= i < |ids| ==> Key(model, ids[i]) in db && ids[i] in ScopedIds(db, model, scope)
  {
    Enumerate(ScopedIds(db, model, scope))
  }

  /** Where the loop stands: `done` rows read, and the cursor on the last of them. */
  ghost predicate ReadUpTo(db: Db, model: Text, scope: Option<Text>, cursor: Option<Text>, done: nat) {
    && done <= |ScopedList(db, model, scope)|
    && cursor == (if done == 0 then None else Some(ScopedList(db, model, scope)[done - 1]))
  }

  lemma NextPage(db: Db, model: Text, scope: Option<Text>, cursor: Option<Text>, done: nat, page: seq<NewRow>)
    requires ReadUpTo(db, model, scope, cursor, done)
    requires page == PageAt(db, model, scope, cursor, PAGE_SIZE)
    ensures done + |page| <= |ScopedList(db, model, scope)|
    ensures |page| < PAGE_SIZE ==> done + |page| == |ScopedList(db, model, scope)|
    ensures FirstRows(db, model, scope, done + |page|) == FirstRows(db, model, scope, done) + Encoded(page)
    ensures page != [] ==> ReadUpTo(db, model, scope, Some(page[|page| - 1].id), done + |page|)
  {
    hide Encoded, RowsAt, PageAt, ScopedList, FirstRows, FirstOf;
    var all := ScopedList(db, model, scope);
    var ids := FirstOf(all[done..], PAGE_SIZE);
    NextIds(all, done);
    PageIsNext(db, model, scope, cursor, done);
    MoreRows(db, model, scope, done, ids);
    if ids != [] {
      LastRow(db, model, ids);
    }
  }

  lemma PageIsNext(db: Db, model: Text, scope: Option<Text>, cursor: Option<Text>, done: nat)
    requires ReadUpTo(db, model, scope, cursor, done)
    ensures var ids := FirstOf(ScopedList(db, model, scope)[done..], PAGE_SIZE);
            && (forall i :: 0 <= i < |ids| ==> Key(model, ids[i]) in db)
            && PageAt(db, model, scope, cursor, PAGE_SIZE) == RowsAt(db, model, ids)
  {
    hide RowsAt;
    RestOfPages(db, model, scope, cursor, done);
    NextIds(ScopedList(db, model, scope), done);
  }

  lemma MoreRows(db: Db, model: Text, scope: Option<Text>, done: nat, ids: seq<Text>)
    requires done + |ids| <= |ScopedList(db, model, scope)|
    requires ScopedList(db, model, scope)[..done + |ids|] == ScopedList(db, model, scope)[..done] + ids
    requires forall i :: 0 <= i < |ids| ==> Key(model, ids[i]) in db
    ensures FirstRows(db, model, scope, done + |ids|) == FirstRows(db, model, scope, done) + Encoded(RowsAt(db, model, ids))
  {
    hide Encoded, RowsAt, ScopedList;
    RowsAppend(db, model, ScopedList(db, model, scope)[..done], ids);
  }

  lemma NextIds(all: seq<Text>, done: nat)
    requires done <= |all|
    ensures var rest := all[done..];
            var ids := FirstOf(rest, PAGE_SIZE);
            && done + |ids| <= |all| && all[..done + |ids|] == all[..done] + ids
            && (forall i :: 0 <= i < |ids| ==> ids[i] == all[done + i])
            && (|ids| < PAGE_SIZE ==> done + |ids| == |all|)
            && (ids != [] ==> ids[|ids| - 1] == all[done + |ids| - 1])
  {
  }

  lemma RestOfPages(db: Db, model: Text, scope: Option<Text>, cursor: Option<Text>, done: nat)
    requires ReadUpTo(db, model, scope, cursor, done)
    ensures Enumerate(IdsAfter(db, model, scope, cursor)) == ScopedList(db, model, scope)[done..]
  {
    if done == 0 {
      FirstPage(db, model, scope);
      assert ScopedList(db, model, scope)[0..] == ScopedList(db, model, scope);
    } else {
      PageSplit(db, model, scope, done);
    }
  }

  lemma RowsAppend(db: Db, model: Text, ids: seq<Text>, more: seq<Text>)
    requires forall i :: 0 <= i < |ids| ==> Key(model, ids[i]) in db
    requires forall i :: 0 <= i < |more| ==> Key(model, more[i]) in db
    ensures Encoded(RowsAt(db, model, ids + more)) == Encoded(RowsAt(db, model, ids)) + Encoded(RowsAt(db, model, more))
  {
    assert RowsAt(db, model, ids + more) == RowsAt(db, model, ids) + RowsAt(db, model, more);
  }

  lemma LastRow(db: Db, model: Text, ids: seq<Text>)
    requires ids != [] && forall i :: 0 <= i < |ids| ==> Key(model, ids[i]) in db
    ensures RowsAt(db, model, ids)[|ids| - 1].id == ids[|ids| - 1]
  {
  }

  /** The paging loop reads every row once, in id order, whatever the size of the table. */
  method ReadModel(db: Db, model: Text, scope: Option<Text>) returns (rows: seq<FileRow>)
    requires [] !in ScopedIds(db, model, scope)
    ensures rows == Encoded(AllRows(db, model, scope))
  {
    hide Encoded, RowsAt, IdsAfter, Enumerate, PageAt;
    ghost var all := ScopedList(db, model, scope);
    ghost var done: nat := 0;
    rows := [];
    NothingRead(db, model, scope);
    var cursor: Option<Text> := None;
    while true
      invariant ReadUpTo(db, model, scope, cursor, done)
      invariant rows == FirstRows(db, model, scope, done)
      decreases |all| - done
    {
      // An empty cursor counts as none; no row has an empty id.
      var page := FindPage(db, model, scope, if cursor.Some? && cursor.value == [] then None else cursor, PAGE_SIZE);
      NextPage(db, model, scope, cursor, done, page);
      if |page| == 0 {
        break;
      }
      var encoded := EncodeRows(page);
      rows := rows + encoded;
      done := done + |page|;
      if |page| < PAGE_SIZE {
        break;
      }
      cursor := Some(page[|page| - 1].id);
    }
    EverythingRead(db, model, scope);
  }

  lemma NothingRead(db: Db, model: Text, scope: Option<Text>)
    ensures FirstRows(db, model, scope, 0) == []
  {
  }

  lemma EverythingRead(db: Db, model: Text, scope: Option<Text>)
    ensures FirstRows(db, model, scope, |ScopedList(db, model, scope)|) == Encoded(AllRows(db, model, scope))
  {
    var all := ScopedList(db, model, scope);
    assert all[..|all|] == all;
  }

  lemma FirstPage(db: Db, model: Text, scope: Option<Text>)
    ensures Enumerate(IdsAfter(db, model, scope, None)) == Enumerate(ScopedIds(db, model, scope))
  {
    assert IdsAfter(db, model, scope, None) == ScopedIds(db, model, scope);
  }

  ghost function SnapshotData(db: Db, order: seq<Text>, scope: Option<Text>): FileData {
    map m | m in order :: Encoded(AllRows(db, m, scope))
  }

  /** The snapshot of everything a client can see, model by model. */
  method CreateSnapshot(db: Db, order: seq<Text>, scope: Option<Text>) returns (file: SnapshotFile)
    requires forall k :: k in db ==> k.id != []
    ensures file.tenant == scope && file.data == SnapshotData(db, order, scope)
    ensures file.counts == map m | m in file.data :: |file.data[m]|
  {
    hide Encoded, AllRows, ScopedIds;
    NoEmptyIds(db, scope);
    var data: FileData := map[];
    var counts: map<Text, nat> := map[];
    for i := 0 to |order|
      invariant forall m :: m in data <==> m in order[..i]
      invariant forall m :: m in data ==> data[m] == Encoded(AllRows(db, m, scope))
      invariant counts.Keys == data.Keys && forall m :: m in data ==> counts[m] == |data[m]|
    {
      var rows := ReadModel(db, order[i], scope);
      data := data[order[i] := rows];
      counts := counts[order[i] := |rows|];
    }
    file := SnapshotFile(scope, data, counts);
  }

  lemma NoEmptyIds(db: Db, scope: Option<Text>)
    requires forall k :: k in db ==> k.id != []
    ensures forall m :: [] !in ScopedIds(db, m, scope)
  {
  }

  /** The rows of a model a snapshot is to hold: a factory's own, or all of them when it is of no one factory. */
  ghost predicate InScope(db: Db, scope: Option<Text>, k: Key) {
    k in db && (scope.Some? ==> db[k].tenant == scope.value)
  }

  /**
   What a snapshot holds of each model of the order: every row in scope once, in ascending id order, with its factory,
   its references and its cells encoded; of every factory alike when the snapshot is not scoped.
   */
  lemma SnapshotHolds(db: Db, order: seq<Text>, scope: Option<Text>, m: Text)
    requires m in order
    ensures m in SnapshotData(db, order, scope)
    ensures var rows := SnapshotData(db, order, scope)[m];
            && (forall i, j :: 0 <= i < j < |rows| ==> Less(rows[i].id, rows[j].id))
            && (forall k: Key :: k.model == m ==> (InScope(db, scope, k) <==> exists i :: 0 <= i < |rows| && rows[i].id == k.id))
            && (forall i :: 0 <= i < |rows| ==>
                  var row := db[Key(m, rows[i].id)];
                  rows[i] == FileRow(rows[i].id, row.tenant, row.refs, EncodedColumns(row.columns)))
  {
    hide EncodedColumns;
    var ids := Enumerate(ScopedIds(db, m, scope));
    var rows := SnapshotData(db, order, scope)[m];
    assert |rows| == |ids| && forall i :: 0 <= i < |ids| ==> rows[i].id == ids[i];
    forall k: Key | k.model == m
      ensures InScope(db, scope, k) <==> exists i :: 0 <= i < |rows| && rows[i].id == k.id
    {
      if InScope(db, scope, k) {
        assert k.id in ids;
        var i :| 0 <= i < |ids| && ids[i] == k.id;
        assert rows[i].id == k.id;
      }
      if i :| 0 <= i < |rows| && rows[i].id == k.id {
        assert ids[i] in ids;
      }
    }
    forall i | 0 <= i < |rows|
      ensures Key(m, rows[i].id) in db
    {
      assert ids[i] in ids;
    }
  }

  // ------------------------------------------------------------- and back again

  function DecodedRow(types: ColumnTypes, r: FileRow): NewRow {
    NewRow(r.id, Row(r.tenant, r.refs, StoredColumns(types, DecodedColumns(r.columns))))
  }

  /** The rows the database is given, in its own terms; `types` has the column types of every model. */
  function ContentOf(types: map<Text, ColumnTypes>, data: FileData): (content: Content)
    ensures content.Keys == data.Keys
    ensures forall m :: m in data ==> |content[m]| == |data[m]|
  {
    map m | m in data :: seq(|data[m]|, i requires 0 <= i < |data[m]| => DecodedRow(if m in types then types[m] else map[], data[m][i]))
  }

  ghost predicate TypedDb(types: map<Text, ColumnTypes>, db: Db) {
    forall k :: k in db ==> k.model in types && Typed(types[k.model], db[k].columns)
  }

  /**
   References of the factory's rows into models of the order lead to its own rows, along declared edges. Nothing is
   asked of references into other models, such as a user's role or the factory itself.
   */
  ghost predicate FactoryClosed(db: Db, order: seq<Text>, tenant: Text, edges: Edges) {
    forall k, c :: k in db && k.model in order && db[k].tenant == tenant && c in db[k].refs && db[k].refs[c].target.model in order ==>
      var t := db[k].refs[c].target;
      && t in db && db[t].tenant == tenant
      && (t.model == k.model || (k.model in edges && t.model in edges[k.model]))
  }

  ghost predicate NoCollision(db: Db, k: Key)
    requires k in db
  {
    forall c :: c in db[k].columns ==> !Collides(db[k].columns[c])
  }

  ghost function Restorable(types: map<Text, ColumnTypes>, db: Db, order: seq<Text>, tenant: Text): Content {
    ContentOf(types, SnapshotData(db, order, Some(tenant)))
  }

  ghost predicate OwnRow(db: Db, order: seq<Text>, tenant: Text, k: Key) {
    k in db && k.model in order && db[k].tenant == tenant
  }

  /** The file holds the factory's rows of each model, in id order. */
  lemma FileIds(types: map<Text, ColumnTypes>, db: Db, order: seq<Text>, tenant: Text, m: Text)
    requires m in order
    ensures var content: Content := Restorable(types, db, order, tenant);
            var ids := Enumerate(ScopedIds(db, m, Some(tenant)));
            m in content && |content[m]| == |ids| && forall i :: 0 <= i < |ids| ==> content[m][i].id == ids[i]
  {
  }

  lemma FileRows(types: map<Text, ColumnTypes>, db: Db, order: seq<Text>, tenant: Text, k: Key)
    ensures InFile(Restorable(types, db, order, tenant), k) <==> OwnRow(db, order, tenant, k)
  {
    var content: Content := Restorable(types, db, order, tenant);
    if k.model in order {
      FileIds(types, db, order, tenant, k.model);
      var ids := Enumerate(ScopedIds(db, k.model, Some(tenant)));
      if OwnRow(db, order, tenant, k) {
        assert k.id in ids;
        var i :| 0 <= i < |ids| && ids[i] == k.id;
        assert content[k.model][i].id == k.id;
      }
      if InFile(content, k) {
        var i :| 0 <= i < |content[k.model]| && content[k.model][i].id == k.id;
        assert ids[i] in ids;
      }
    }
  }

  /** Written to the file and decoded again, a row is what it was, up to cells that collide with encoded bytes. */
  lemma DecodedRowIsOriginal(types: ColumnTypes, rows: seq<NewRow>, i: nat)
    requires i < |rows| && Typed(types, rows[i].row.columns)
    ensures var r := DecodedRow(types, Encoded(rows)[i]);
            && r.id == rows[i].id && r.row.tenant == rows[i].row.tenant && r.row.refs == rows[i].row.refs
            && r.row.columns.Keys == rows[i].row.columns.Keys
            && (r.row == rows[i].row <==> forall c :: c in rows[i].row.columns ==> !Collides(rows[i].row.columns[c]))
  {
    RowRoundTrip(types, rows[i].row.columns);
  }

  /** A row of the file is the row of the database, up to cells that collide with encoded bytes. */
  lemma FileRowIsOriginal(types: map<Text, ColumnTypes>, db: Db, order: seq<Text>, tenant: Text, m: Text, r: NewRow)
    requires TypedDb(types, db) && m in order && r in Restorable(types, db, order, tenant)[m]
    ensures OwnRow(db, order, tenant, Key(m, r.id))
    ensures r.row.tenant == tenant && r.row.refs == db[Key(m, r.id)].refs
    ensures r.row.columns.Keys == db[Key(m, r.id)].columns.Keys
    ensures r.row == db[Key(m, r.id)] <==> NoCollision(db, Key(m, r.id))
  {
    hide DecodedRow, Encoded, Collides, Typed;
    var rows := Restorable(types, db, order, tenant)[m];
    var ids := Enumerate(ScopedIds(db, m, Some(tenant)));
    var i :| 0 <= i < |rows| && rows[i] == r;
    FileIds(types, db, order, tenant, m);
    assert ids[i] in ids;
    var k := Key(m, ids[i]);
    var original := AllRows(db, m, Some(tenant));
    assert original[i] == NewRow(ids[i], db[k]);
    assert r == DecodedRow(types[m], Encoded(original)[i]);
    DecodedRowIsOriginal(types[m], original, i);
  }

  lemma FileIsDistinct(types: map<Text, ColumnTypes>, db: Db, order: seq<Text>, tenant: Text)
    ensures DistinctContent(Restorable(types, db, order, tenant))
  {
    var content: Content := Restorable(types, db, order, tenant);
    forall m | m in content
      ensures DistinctIds(content[m])
    {
      FileIds(types, db, order, tenant, m);
    }
  }

  lemma FileIsClosed(types: map<Text, ColumnTypes>, db: Db, order: seq<Text>, tenant: Text, edges: Edges)
    requires TypedDb(types, db) && InsertOrder(edges, order) && FactoryClosed(db, order, tenant, edges)
    ensures Writable(order, Restorable(types, db, order, tenant), edges)
  {
    var content: Content := Restorable(types, db, order, tenant);
    FileIsDistinct(types, db, order, tenant);
    assert forall m :: m in content ==> m in edges.Keys;
    forall m, r, c | m in content && r in content[m] && c in r.row.refs && r.row.refs[c].target.model in content
      ensures var t := r.row.refs[c].target;
              InFile(content, t) && (t.model == m || (m in edges && t.model in edges[m]))
    {
      FileRowIsOriginal(types, db, order, tenant, m, r);
      FileRows(types, db, order, tenant, r.row.refs[c].target);
    }
  }

  /**
   Snapshot now, replace later, for any factory and any later database: the restore goes through exactly when it may
   clear and the file can be written into what clearing leaves. Then the factory has exactly the rows it had at
   snapshot time, cell by cell unless a cell collides, and of all other rows those stay that clearing leaves, as
   clearing leaves them.
   */
  lemma SnapshotThenReplace(types: map<Text, ColumnTypes>, db: Db, later: Db, order: seq<Text>, tenant: Text)
    requires NoDuplicates(order) && TypedDb(types, db)
    ensures var content: Content := Restorable(types, db, order, tenant);
            var outcome := Replace(later, order, Reverse(order), content, tenant);
            && (outcome.Ok? <==> WillReplace(later, order, content, tenant))
            && (outcome.Ok? ==>
                  && (forall k :: OwnRow(outcome.value.db, order, tenant, k) <==> OwnRow(db, order, tenant, k))
                  && (forall k :: OwnRow(db, order, tenant, k) ==> (outcome.value.db[k] == db[k] <==> NoCollision(db, k)))
                  && (forall k :: !OwnRow(db, order, tenant, k) ==>
                        (k in outcome.value.db <==> k in Left(later, content, tenant))
                        && (k in Left(later, content, tenant) ==> outcome.value.db[k] == Left(later, content, tenant)[k])))
  {
    hide Replace, WillReplace, Restorable, Doomed;
    var content: Content := Restorable(types, db, order, tenant);
    assert content.Keys == (set m | m in order) by { FileModels(types, db, order, tenant); }
    assert forall m :: m in content ==> m in order by { assert forall m :: m in content ==> m in content.Keys; }
    ReplaceSucceedsExactlyWhen(later, order, content, tenant);
    var outcome := Replace(later, order, Reverse(order), content, tenant);
    if outcome.Ok? {
      forall k
        ensures OwnRow(outcome.value.db, order, tenant, k) <==> OwnRow(db, order, tenant, k)
        ensures OwnRow(db, order, tenant, k) ==> (outcome.value.db[k] == db[k] <==> NoCollision(db, k))
        ensures !OwnRow(db, order, tenant, k) ==>
                  (k in outcome.value.db <==> k in Left(later, content, tenant))
                  && (k in Left(later, content, tenant) ==> outcome.value.db[k] == Left(later, content, tenant)[k])
      {
        ReplaceLeaves(later, order, content, tenant, k);
        FileRows(types, db, order, tenant, k);
        if OwnRow(db, order, tenant, k) {
          var r :| r in content[k.model] && r.id == k.id && outcome.value.db[k] == r.row;
          FileRowIsOriginal(types, db, order, tenant, k.model, r);
        } else if k in outcome.value.db && k.model in order {
          NothingCoveredIsLeft(later, content, tenant, k);
        }
      }
    }
  }

  /** A factory whose references follow the declared edges can be put back wherever nothing restricts and the file fits. */
  lemma ClosedFactoryComesBack(types: map<Text, ColumnTypes>, db: Db, later: Db, order: seq<Text>, tenant: Text, edges: Edges)
    requires InsertOrder(edges, order) && TypedDb(types, db) && FactoryClosed(db, order, tenant, edges)
    ensures var content: Content := Restorable(types, db, order, tenant);
            WillReplace(later, order, content, tenant)
            <==> MayClear(later, Reverse(order), content, tenant) && Fits(Left(later, content, tenant), content)
  {
    hide Restorable, Writable, CanWrite, Fits, Left, MayClear;
    var content: Content := Restorable(types, db, order, tenant);
    FileIsClosed(types, db, order, tenant, edges);
    ClosedFileFits(Left(later, content, tenant), order, content, edges);
  }

  lemma FileModels(types: map<Text, ColumnTypes>, db: Db, order: seq<Text>, tenant: Text)
    ensures Restorable(types, db, order, tenant).Keys == set m | m in order
  {
  }

  /** Where no row of another factory points into this one, all other factories' rows come through untouched. */
  lemma ReplaceLeavesOtherFactoriesAlone(types: map<Text, ColumnTypes>, db: Db, later: Db, order: seq<Text>, tenant: Text, k: Key)
    requires NoDuplicates(order) && TypedDb(types, db)
    requires FactoryApart(later, tenant) && k in later && later[k].tenant != tenant
    ensures var outcome := Replace(later, order, Reverse(order), Restorable(types, db, order, tenant), tenant);
            outcome.Ok? ==> k in outcome.value.db && outcome.value.db[k] == later[k]
  {
    hide Replace, WillReplace, Restorable, Left;
    var content: Content := Restorable(types, db, order, tenant);
    SnapshotThenReplace(types, db, later, order, tenant);
    OtherFactoriesUntouched(later, content, tenant, k);
    if WillReplace(later, order, content, tenant) && OwnRow(db, order, tenant, k) {
      FileRows(types, db, order, tenant, k);
      FileModels(types, db, order, tenant);
      IdIsFree(later, order, content, tenant, k);
    }
  }

  lemma IdIsFree(later: Db, order: seq<Text>, content: Content, tenant: Text, k: Key)
    requires WillReplace(later, order, content, tenant) && InFile(content, k) && content.Keys == set m | m in order
    ensures k !in Left(later, content, tenant)
  {
    hide CanWrite, Left;
    assert forall m :: m in content ==> m in content.Keys && m in order;
    WritableIsDistinct(Left(later, content, tenant), order, content);
    var i :| 0 <= i < |content[k.model]| && content[k.model][i].id == k.id;
    assert content[k.model][i] in content[k.model];
  }

  /**
   Snapshot now, merge later, for any factory and any later database: the merge goes through exactly when every
   reference it writes is met in time. Then every row the factory had is there, with the cells, factory and references
   it had exactly when no cell collides and the id is not another factory's, whose row stays as it is; and no row that
   was not in the snapshot changes.
   */
  lemma SnapshotThenMerge(types: map<Text, ColumnTypes>, db: Db, later: Db, order: seq<Text>, tenant: Text)
    requires NoDuplicates(order) && TypedDb(types, db)
    ensures var content: Content := Restorable(types, db, order, tenant);
            var outcome := Merge(later, order, content, Some(tenant));
            && (outcome.Ok? <==> RM.Resolved(later, order, content, Some(tenant))
                                 && forall i :: 0 <= i < |order| ==> RM.Creatable(later, order[i], content, Some(tenant)))
            && (outcome.Ok? ==>
                  && (forall k :: OwnRow(db, order, tenant, k) ==>
                        k in outcome.value.db
                        && (RM.Carries(outcome.value.db[k], db[k]) <==> NoCollision(db, k) && (k in later ==> later[k].tenant == tenant))
                        && (k in later && later[k].tenant != tenant ==> outcome.value.db[k] == later[k]))
                  && (forall k :: !OwnRow(db, order, tenant, k) ==>
                        (k in outcome.value.db <==> k in later) && (k in later ==> outcome.value.db[k] == later[k])))
  {
    hide Merge, Restorable, RM.Resolved, RM.Creatable, DistinctContent;
    var content: Content := Restorable(types, db, order, tenant);
    FileIsDistinct(types, db, order, tenant);
    RM.MergeSucceedsExactlyWhen(later, order, content, Some(tenant));
    var outcome := Merge(later, order, content, Some(tenant));
    if outcome.Ok? {
      var after := outcome.value.db;
      forall k
        ensures OwnRow(db, order, tenant, k) ==>
                  k in after
                  && (RM.Carries(after[k], db[k]) <==> NoCollision(db, k) && (k in later ==> later[k].tenant == tenant))
                  && (k in later && later[k].tenant != tenant ==> after[k] == later[k])
        ensures !OwnRow(db, order, tenant, k) ==> (k in after <==> k in later) && (k in later ==> after[k] == later[k])
      {
        FileRows(types, db, order, tenant, k);
        if OwnRow(db, order, tenant, k) {
          var r := RM.HasIdRow(content[k.model], k.id);
          assert RM.MergedWith(later, Some(tenant), Key(k.model, r.id), r, after[k]);
          FileRowIsOriginal(types, db, order, tenant, k.model, r);
          MergedCells(later, Some(tenant), k, r, after[k], db[k]);
        }
      }
    }
  }

  /** A merged row carries the original exactly when the file does and the row was written. */
  lemma MergedCells(later: Db, tenant: Option<Text>, k: Key, r: NewRow, after: Row, original: Row)
    requires tenant.Some? && RM.MergedWith(later, tenant, k, r, after)
    requires r.row.tenant == original.tenant == tenant.value && r.row.refs == original.refs && r.row.columns.Keys == original.columns.Keys
    ensures RM.Carries(after, original) <==> r.row == original && RM.Writes(later, tenant, k)
  {
    if RM.Writes(later, tenant, k) {
      assert forall c :: c in r.row.columns ==> c in after.columns && after.columns[c] == r.row.columns[c];
      assert forall c :: c in r.row.columns.Keys <==> c in original.columns.Keys;
      if RM.Carries(after, original) {
        assert forall c :: c in original.columns ==> r.row.columns[c] == original.columns[c];
        assert r.row.columns == original.columns;
      }
    }
  }
}
