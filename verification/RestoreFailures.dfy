/** Inputs on which a restore does less than its comments say, each small enough to try, and an ordinary one on which it works. */
module RestoreFailures {
  import opened Wrappers
  import opened JsText
  import opened ModelGraph
  import opened Database
  import opened Restore
  import opened RestoreClearing
  import opened RestoreInserts
  import opened RestoreReplace
  import opened SnapshotCodec
  import RM = RestoreMerge
  import Snapshot

  const ACCOUNT: Text := [97]
  const BUS: Text := [98]
  const ATTENDANCE: Text := [99]
  const HERE: Text := [104]
  const THERE: Text := [116]
  const COLUMN: Text := [112]

  // ------------------------------------------------------------------ 501 accounts

  /** 501 accounts of which the first names the last as its parent; ids are in order, as a snapshot lists them. */
  function Accounts(): (rows: seq<NewRow>)
    ensures |rows| == 501
  {
    seq(501, i requires 0 <= i < 501 =>
      NewRow([i], Row(HERE, if i == 0 then map[COLUMN := Ref(Key(ACCOUNT, [500]), Restrict)] else map[], map[])))
  }

  lemma AccountsApart()
    ensures DistinctIds(Accounts()) && forall j :: 0 <= j < |Accounts()| && Accounts()[j].id == [500] ==> j == 500
  {
    var rows := Accounts();
    assert forall j :: 0 <= j < |rows| ==> rows[j].id[0] == j;
    forall i, j | 0 <= i < j < |rows|
      ensures rows[i].id != rows[j].id
    {
      assert rows[i].id[0] == i && rows[j].id[0] == j;
    }
  }

  /** The file is closed and its ids are new, yet its only table cannot be written: the parent is in the second chunk. */
  lemma LateParentStopsTheInsert()
    ensures DistinctIds(Accounts()) && NoneSeen(map[], ACCOUNT, Accounts()) && OthersPresent(map[], ACCOUNT, Accounts())
    ensures FileClosed(map[ACCOUNT := Accounts()], map[ACCOUNT := {}])
    ensures InsertChunks(map[], ACCOUNT, Chunks(Accounts()), false).Err?
  {
    hide InsertChunks, Chunks;
    var rows := Accounts();
    AccountsApart();
    assert rows[0].row.refs[COLUMN].target == Key(ACCOUNT, [500]) && rows[500].id == [500];
    assert !ArrivesInTime(map[], rows, Key(ACCOUNT, [500]), 0);
    assert !RowInTime(map[], ACCOUNT, rows, 0);
    assert HasId(rows, [500]);
    ReplaceInsert(map[], ACCOUNT, rows);
  }

  // ------------------------------------------------------------------ bus attendance

  const ONE_BUS: Db := map[Key(BUS, [1]) := Row(HERE, map[], map[])]

  const ATTENDED: Db := ONE_BUS[Key(ATTENDANCE, [2]) := Row(HERE, map[COLUMN := Ref(Key(BUS, [1]), Cascade)], map[])]

  const BUS_FILE: Content := map[BUS := [NewRow([1], Row(HERE, map[], map[]))]]

  /** A file of the buses alone: the restore succeeds and the attendance of every bus is gone. */
  lemma AttendanceIsLost()
    ensures var r := Replace(ATTENDED, [BUS], [BUS], BUS_FILE, HERE);
            r.Ok? && Key(ATTENDANCE, [2]) in ATTENDED && r.value.db == ONE_BUS
  {
    hide Replace, Fits, Writable, MayClear, CanWrite, Left, PutAll, Doomed;
    BusFileIsWritable();
    AttendedIsCleared();
    NothingToFit();
    ClosedFileFits(map[], [BUS], BUS_FILE, map[BUS := {}]);
    assert Reverse([BUS]) == [BUS];
    assert forall m :: m in BUS_FILE ==> m == BUS;
    ReplaceSucceedsExactlyWhen(ATTENDED, [BUS], BUS_FILE, HERE);
    BusIsWritten();
  }

  lemma AttendedIsCleared()
    ensures MayClear(ATTENDED, [BUS], BUS_FILE, HERE) && Left(ATTENDED, BUS_FILE, HERE) == map[]
  {
    hide Doomed, Restricts, WithoutRefs;
    BusIsDoomed();
    NothingGone(ATTENDED);
    assert Covered(ATTENDED, BUS_FILE, HERE) == {Key(BUS, [1])};
    forall i | 0 <= i <= 1
      ensures NothingRestricts(ATTENDED, Swept(ATTENDED, [BUS], BUS_FILE, HERE, i))
    {
      if i == 0 {
        assert GoneBefore(ATTENDED, [BUS], BUS_FILE, HERE, 0) == {};
      } else {
        assert [BUS][..1] == [BUS];
        assert GoneBefore(ATTENDED, [BUS], BUS_FILE, HERE, 1) == {Key(BUS, [1])};
      }
    }
  }

  lemma NothingToFit()
    ensures Fits(map[], BUS_FILE)
  {
  }

  lemma BusIsWritten()
    ensures PutAll(map[], [BUS], BUS_FILE) == ONE_BUS
  {
    var none: Db := map[];
    var rows := BUS_FILE[BUS];
    assert rows[1..] == [] && [BUS][1..] == [];
    assert Put(none[Key(BUS, [1]) := rows[0].row], BUS, rows[1..]) == ONE_BUS;
    assert Put(none, BUS, rows) == ONE_BUS;
    assert PutAll(ONE_BUS, [BUS][1..], BUS_FILE) == ONE_BUS;
  }

  lemma BusIsDoomed()
    ensures Doomed(ATTENDED, {Key(BUS, [1])}) == {Key(BUS, [1]), Key(ATTENDANCE, [2])}
  {
    var bus, attendance := Key(BUS, [1]), Key(ATTENDANCE, [2]);
    var row := ATTENDED[attendance];
    assert COLUMN in row.refs.Keys && row.refs[COLUMN].target == bus;
    assert CascadesInto(row, {bus});
    assert attendance in Followers(ATTENDED, {bus});
    assert Followers(ATTENDED, {bus}) == {attendance};
    assert Followers(ATTENDED, {bus, attendance}) == {attendance};
  }

  lemma BusFileIsWritable()
    ensures Writable([BUS], BUS_FILE, map[BUS := {}])
  {
    assert [BUS][0] == BUS;
  }

  // ------------------------------------------------------------------ an id of another factory

  const TAKEN: Db := map[Key(ACCOUNT, [1]) := Row(THERE, map[], map[])]

  const OWN_FILE: Content := map[ACCOUNT := [NewRow([1], Row(HERE, map[], map[]))]]

  /** Another factory has the row's id: the merge reports success, creates nothing and leaves the row out. */
  lemma TakenIdIsSkipped()
    ensures var r := Merge(TAKEN, [ACCOUNT], OWN_FILE, Some(HERE));
            r == Ok(Restored(TAKEN, [ModelResult(ACCOUNT, 1, 0, 0, 0, 0)]))
  {
    var rows := OWN_FILE[ACCOUNT];
    var k := Key(ACCOUNT, [1]);
    assert rows[1..] == [] && [ACCOUNT][1..] == [];
    assert HERE[0] != THERE[0];
    assert Existing(TAKEN, ACCOUNT, rows, Some(HERE)) == {};
    assert ToCreate(rows, {}) == rows && ToUpdate(rows, {}) == [];
    var chunks := Chunks(rows);
    assert chunks == [rows] && chunks[1..] == [];
    assert Unseen(TAKEN, ACCOUNT, rows) == [];
    assert CreateMany(TAKEN, ACCOUNT, rows, true) == Ok(Inserted(TAKEN, 0));
    assert InsertChunks(TAKEN, ACCOUNT, chunks[1..], true) == Ok(Inserted(TAKEN, 0));
    assert InsertChunks(TAKEN, ACCOUNT, chunks, true) == Ok(Inserted(TAKEN, 0));
    assert MergeModel(TAKEN, ACCOUNT, rows, Some(HERE)) == Ok(Merged(TAKEN, ModelResult(ACCOUNT, 1, 0, 0, 0, 0)));
    var order := [ACCOUNT];
    assert order[0] in OWN_FILE && OWN_FILE[order[0]] == rows;
    assert Merge(TAKEN, order[1..], OWN_FILE, Some(HERE)) == Ok(Restored(TAKEN, []));
    var result := ModelResult(ACCOUNT, 1, 0, 0, 0, 0);
    assert [result] + [] == [result];
    assert Merge(TAKEN, order, OWN_FILE, Some(HERE)) == Ok(Restored(TAKEN, [result]));
  }

  // ------------------------------------------------------------------ and one on which it does

  const ROLE: Text := [114]
  const USER: Text := [117]

  /** A role, of no factory, and a user of the factory that has it; the role may not be deleted under a user. */
  const STAFFED: Db := map[Key(ROLE, [1]) := Row([], map[], map[]),
                           Key(USER, [2]) := Row(HERE, map[COLUMN := Ref(Key(ROLE, [1]), Restrict)], map[])]

  const TYPES: map<Text, ColumnTypes> := map[ROLE := map[], USER := map[]]

  /** A user with a role is snapshot and put back: references into models outside the file are no obstacle. */
  lemma UserWithARoleIsRestored()
    ensures var edges: Edges := map[USER := {}];
            && InsertOrder(edges, [USER]) && Snapshot.TypedDb(TYPES, STAFFED) && Snapshot.FactoryClosed(STAFFED, [USER], HERE, edges)
            && Replace(STAFFED, [USER], Reverse([USER]), Snapshot.Restorable(TYPES, STAFFED, [USER], HERE), HERE).Ok?
  {
    hide Replace, Snapshot.Restorable, Fits, Left, MayClear, CanWrite;
    var content: Content := Snapshot.Restorable(TYPES, STAFFED, [USER], HERE);
    StaffIsClosed();
    Snapshot.FileModels(TYPES, STAFFED, [USER], HERE);
    assert content.Keys == {USER};
    StaffMayClear(content);
    StaffFits(content);
    assert Reverse([USER]) == [USER];
    Snapshot.ClosedFactoryComesBack(TYPES, STAFFED, STAFFED, [USER], HERE, map[USER := {}]);
    Snapshot.SnapshotThenReplace(TYPES, STAFFED, STAFFED, [USER], HERE);
  }

  lemma StaffIsClosed()
    ensures var edges: Edges := map[USER := {}];
            InsertOrder(edges, [USER]) && Snapshot.TypedDb(TYPES, STAFFED) && Snapshot.FactoryClosed(STAFFED, [USER], HERE, edges)
  {
    assert [USER][0] == USER && ROLE[0] != USER[0];
  }

  lemma StaffMayClear(content: Content)
    requires content.Keys == {USER}
    ensures MayClear(STAFFED, [USER], content, HERE)
    ensures Left(STAFFED, content, HERE).Keys == {Key(ROLE, [1])}
  {
    var user := Key(USER, [2]);
    assert ROLE[0] != USER[0] && HERE != [];
    assert Covered(STAFFED, content, HERE) == {user};
    NothingGone(STAFFED);
    assert Followers(STAFFED, {user}) == {};
    assert Doomed(STAFFED, {user}) == {user};
    forall i | 0 <= i <= 1
      ensures NothingRestricts(STAFFED, Swept(STAFFED, [USER], content, HERE, i))
    {
      if i == 0 {
        assert GoneBefore(STAFFED, [USER], content, HERE, 0) == {};
      } else {
        assert [USER][..1] == [USER];
        assert GoneBefore(STAFFED, [USER], content, HERE, 1) == {user};
      }
    }
  }

  lemma StaffFits(content: Content)
    requires content == Snapshot.Restorable(TYPES, STAFFED, [USER], HERE) && content.Keys == {USER}
    requires Left(STAFFED, content, HERE).Keys == {Key(ROLE, [1])}
    ensures Fits(Left(STAFFED, content, HERE), content)
  {
    hide Left, Snapshot.Restorable;
    StaffIsClosed();
    assert ROLE[0] != USER[0];
    forall r | r in content[USER]
      ensures r.id == [2] && r.row.refs == map[COLUMN := Ref(Key(ROLE, [1]), Restrict)]
    {
      Snapshot.FileRowIsOriginal(TYPES, STAFFED, [USER], HERE, USER, r);
    }
    assert forall i :: 0 <= i < |content[USER]| ==> content[USER][i] in content[USER];
    assert Key(ROLE, [1]) in Left(STAFFED, content, HERE).Keys;
    assert Key(USER, [2]) !in Left(STAFFED, content, HERE).Keys;
  }

  // ------------------------------------------------------------------ a key the model graph does not know

  const PRODUCT: Text := [112]
  const MOVEMENT: Text := [115]
  const TAX: Text := [116]

  const TENANT: Text := [102]

  /** Three lines of the dependency table. */
  const STOCK_TABLE: Table := [Declaration(PRODUCT, [TENANT, TAX]), Declaration(MOVEMENT, [TENANT]), Declaration(TAX, [TENANT])]

  /** Without the factory itself products point at tax rates, stock movements at nothing. */
  const STOCK_EDGES: Edges := map[PRODUCT := {TAX}, MOVEMENT := {}, TAX := {}]

  const STOCK_ORDER: seq<Text> := [MOVEMENT, TAX, PRODUCT]

  const STOCK_TYPES: map<Text, ColumnTypes> := map[PRODUCT := map[], MOVEMENT := map[], TAX := map[]]

  /** A product and a movement of it, tied to it by the key of the migration. */
  const STOCKED: Db := map[Key(PRODUCT, [1]) := Row(HERE, map[], map[]),
                           Key(MOVEMENT, [2]) := Row(HERE, map[COLUMN := Ref(Key(PRODUCT, [1]), Restrict)], map[])]

  lemma NextWave(edges: Edges, placed: set<Text>, wave: seq<Text>, rest: seq<Text>)
    requires wave != [] && Ascending(wave) && NoDuplicates(wave) && Ready(edges, placed) == set t | t in wave
    requires OrderFrom(edges, placed + set t | t in wave) == Some(rest)
    ensures OrderFrom(edges, placed) == Some(wave + rest)
  {
    assert wave[0] in Ready(edges, placed);
    AscendingUnique(Enumerate(Ready(edges, placed)), wave);
  }

  lemma EdgesOfStock()
    ensures EdgesIn(STOCK_TABLE, {TENANT}) == STOCK_EDGES
  {
    EdgesAreNeeds(STOCK_TABLE, {TENANT});
    var edges := EdgesIn(STOCK_TABLE, {TENANT});
    assert STOCK_TABLE[0] in STOCK_TABLE && STOCK_TABLE[1] in STOCK_TABLE && STOCK_TABLE[2] in STOCK_TABLE;
    forall n
      ensures n in edges <==> n in STOCK_EDGES
      ensures n in STOCK_EDGES ==> edges[n] == STOCK_EDGES[n]
    {
      assert PRODUCT[0] != TAX[0] && PRODUCT[0] != MOVEMENT[0] && MOVEMENT[0] != TAX[0] && TENANT[0] != TAX[0];
    }
  }

  /** The sort puts movements, which wait for nothing, before products, which wait for tax rates. */
  lemma MovementsComeFirst()
    ensures OrderFrom(EdgesIn(STOCK_TABLE, {TENANT}), {}) == Some(STOCK_ORDER)
    ensures InsertOrder(STOCK_EDGES, STOCK_ORDER)
  {
    hide OrderFrom, EdgesIn;
    EdgesOfStock();
    assert OrderFrom(STOCK_EDGES, STOCK_EDGES.Keys) == Some([]) by { NothingLeft(STOCK_EDGES); }
    assert (set t | t in [PRODUCT]) == {PRODUCT} && {MOVEMENT, TAX} + {PRODUCT} == STOCK_EDGES.Keys;
    NextWave(STOCK_EDGES, {MOVEMENT, TAX}, [PRODUCT], []);
    assert [PRODUCT] + [] == [PRODUCT] && [MOVEMENT, TAX] + [PRODUCT] == STOCK_ORDER;
    assert (set t | t in [MOVEMENT, TAX]) == {MOVEMENT, TAX} && {} + {MOVEMENT, TAX} == {MOVEMENT, TAX};
    assert Less(MOVEMENT, TAX);
    NextWave(STOCK_EDGES, {}, [MOVEMENT, TAX], [PRODUCT]);
    OrderPutsParentsFirst(STOCK_EDGES);
  }

  lemma NothingLeft(edges: Edges)
    ensures OrderFrom(edges, edges.Keys) == Some([])
  {
  }

  /** A whole factory with a stock movement cannot even be cleared: products go before movements. */
  lemma MovementStopsTheClearing()
    ensures InsertOrder(STOCK_EDGES, STOCK_ORDER) && Integrity(STOCKED) && Snapshot.TypedDb(STOCK_TYPES, STOCKED)
    ensures !Snapshot.FactoryClosed(STOCKED, STOCK_ORDER, HERE, STOCK_EDGES)
    ensures DeletePhase(STOCKED, Reverse(STOCK_ORDER), Snapshot.Restorable(STOCK_TYPES, STOCKED, STOCK_ORDER, HERE), HERE).Err?
  {
    hide DeletePhase, Snapshot.Restorable, InsertOrder, Integrity, Snapshot.TypedDb, Snapshot.FactoryClosed;
    MovementsComeFirst();
    StockedFacts();
    var content: Content := Snapshot.Restorable(STOCK_TYPES, STOCKED, STOCK_ORDER, HERE);
    Snapshot.FileModels(STOCK_TYPES, STOCKED, STOCK_ORDER, HERE);
    StockCannotBeCleared(content);
  }

  lemma StockCannotBeCleared(content: Content)
    requires content.Keys == set m | m in STOCK_ORDER
    ensures DeletePhase(STOCKED, Reverse(STOCK_ORDER), content, HERE).Err?
  {
    hide DeletePhase, MayClear, Swept, GoneBefore, Covered;
    var order := Reverse(STOCK_ORDER);
    assert order == [PRODUCT, TAX, MOVEMENT] && order[..1] == [PRODUCT] && PRODUCT[0] != MOVEMENT[0];
    StockIsCovered(content);
    ProductGoesFirst(content, order);
    RestrictedOutOfTurn(STOCKED, order, content, HERE, 1, Key(MOVEMENT, [2]), COLUMN);
    forall m | m in content
      ensures m in order
    {
      assert m in content.Keys && STOCK_ORDER[0] in order && STOCK_ORDER[1] in order && STOCK_ORDER[2] in order;
    }
    ClearingExactly(STOCKED, order, content, HERE);
  }

  lemma ProductGoesFirst(content: Content, order: seq<Text>)
    requires order == [PRODUCT, TAX, MOVEMENT] && Key(PRODUCT, [1]) in Covered(STOCKED, content, HERE)
    ensures Key(PRODUCT, [1]) in GoneBefore(STOCKED, order, content, HERE, 1)
    ensures !CascadesInto(STOCKED[Key(MOVEMENT, [2])], Swept(STOCKED, order, content, HERE, 1))
  {
    hide Doomed, Covered;
    assert order[..1] == [PRODUCT];
  }

  /** Nor can its snapshot be written by a replace of any other database: movements come before products. */
  lemma MovementStopsTheReplace(later: Db)
    ensures Replace(later, STOCK_ORDER, Reverse(STOCK_ORDER), Snapshot.Restorable(STOCK_TYPES, STOCKED, STOCK_ORDER, HERE), HERE).Err?
  {
    hide Replace, Snapshot.Restorable, InFile;
    var content: Content := Snapshot.Restorable(STOCK_TYPES, STOCKED, STOCK_ORDER, HERE);
    Snapshot.FileModels(STOCK_TYPES, STOCKED, STOCK_ORDER, HERE);
    StockIsCovered(content);
    assert NoDuplicates(STOCK_ORDER) by { MovementsComeFirst(); }
    var r := MovementInFile(content);
    assert STOCK_ORDER[0] == MOVEMENT && STOCK_ORDER[2] == PRODUCT && STOCK_ORDER[..1] == [MOVEMENT] && PRODUCT[0] != MOVEMENT[0];
    Snapshot.FileRows(STOCK_TYPES, STOCKED, STOCK_ORDER, HERE, Key(PRODUCT, [1]));
    UndeclaredKeyStopsTheReplace(later, STOCK_ORDER, content, HERE, 0, r, COLUMN);
  }

  lemma StockedFacts()
    ensures Integrity(STOCKED) && Snapshot.TypedDb(STOCK_TYPES, STOCKED) && !Snapshot.FactoryClosed(STOCKED, STOCK_ORDER, HERE, STOCK_EDGES)
  {
    assert STOCK_ORDER[0] == MOVEMENT && STOCK_ORDER[2] == PRODUCT;
    var movement := Key(MOVEMENT, [2]);
    assert movement in STOCKED && COLUMN in STOCKED[movement].refs && STOCK_EDGES[MOVEMENT] == {} && PRODUCT[0] != MOVEMENT[0];
  }

  lemma StockIsCovered(content: Content)
    requires content.Keys == set m | m in STOCK_ORDER
    ensures forall m :: m in content ==> m in STOCK_ORDER
    ensures Key(MOVEMENT, [2]) in Covered(STOCKED, content, HERE) && Key(PRODUCT, [1]) in Covered(STOCKED, content, HERE)
  {
    assert STOCK_ORDER[0] == MOVEMENT && STOCK_ORDER[2] == PRODUCT;
    assert forall m :: m in content ==> m in content.Keys;
    assert MOVEMENT in content.Keys && PRODUCT in content.Keys;
  }

  /** Nor can it be merged into an empty database: the movement comes before its product. */
  lemma MovementStopsTheMerge()
    ensures Merge(map[], STOCK_ORDER, Snapshot.Restorable(STOCK_TYPES, STOCKED, STOCK_ORDER, HERE), Some(HERE)).Err?
  {
    hide Merge, Snapshot.Restorable, DistinctContent, InFile;
    var content: Content := Snapshot.Restorable(STOCK_TYPES, STOCKED, STOCK_ORDER, HERE);
    Snapshot.FileIsDistinct(STOCK_TYPES, STOCKED, STOCK_ORDER, HERE);
    assert NoDuplicates(STOCK_ORDER) by { MovementsComeFirst(); }
    var r := MovementInFile(content);
    assert STOCK_ORDER[0] == MOVEMENT && STOCK_ORDER[..1] == [MOVEMENT] && PRODUCT[0] != MOVEMENT[0];
    RM.UndeclaredKeyStopsTheMerge(map[], STOCK_ORDER, content, Some(HERE), 0, r, COLUMN);
  }

  lemma MovementInFile(content: Content) returns (r: NewRow)
    requires content == Snapshot.Restorable(STOCK_TYPES, STOCKED, STOCK_ORDER, HERE)
    ensures MOVEMENT in content && r in content[MOVEMENT] && r.id == [2]
    ensures r.row.refs == map[COLUMN := Ref(Key(PRODUCT, [1]), Restrict)]
  {
    hide Snapshot.Restorable;
    StockedFacts();
    assert STOCK_ORDER[0] == MOVEMENT;
    Snapshot.FileRows(STOCK_TYPES, STOCKED, STOCK_ORDER, HERE, Key(MOVEMENT, [2]));
    r := RM.HasIdRow(content[MOVEMENT], [2]);
    Snapshot.FileRowIsOriginal(STOCK_TYPES, STOCKED, STOCK_ORDER, HERE, MOVEMENT, r);
  }
}
