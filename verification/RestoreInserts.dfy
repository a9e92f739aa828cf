/** When a chunked insert goes through, and what it leaves behind. */
module RestoreInserts {
  import opened Wrappers
  import opened JsText
  import opened Database
  import opened Restore

  /** Rows the table does not have yet. */
  function NotSeen(db: Db, model: Text, rows: seq<NewRow>): (r: seq<NewRow>)
    ensures forall x :: x in r <==> x in rows && Key(model, x.id) !in db
  {
    if rows == [] then []
    else (if Key(model, rows[0].id) in db then [] else [rows[0]]) + NotSeen(db, model, rows[1..])
  }

  ghost predicate NoneSeen(db: Db, model: Text, rows: seq<NewRow>) {
    forall r :: r in rows ==> Key(model, r.id) !in db
  }

  /** Foreign keys into other models are already satisfied for every row that will be written. */
  ghost predicate OthersPresent(db: Db, model: Text, rows: seq<NewRow>) {
    forall r, c :: r in rows && Key(model, r.id) !in db && c in r.row.refs && r.row.refs[c].target.model != model
      ==> r.row.refs[c].target in db
  }

  /** A row of the same table is there already or comes with the same insert statement or an earlier one. */
  ghost predicate ArrivesInTime(db: Db, rows: seq<NewRow>, target: Key, i: nat) {
    target in db || exists j :: 0 <= j < |rows| && rows[j].id == target.id && j / WRITE_CHUNK <= i / WRITE_CHUNK
  }

  ghost predicate RowInTime(db: Db, model: Text, rows: seq<NewRow>, i: nat)
    requires i < |rows|
  {
    Key(model, rows[i].id) !in db ==>
      forall c :: c in rows[i].row.refs && rows[i].row.refs[c].target.model == model ==> ArrivesInTime(db, rows, rows[i].row.refs[c].target, i)
  }

  /** Every self-reference written is satisfied by the end of its own insert statement. */
  ghost predicate InTime(db: Db, model: Text, rows: seq<NewRow>) {
    forall i :: 0 <= i < |rows| ==> RowInTime(db, model, rows, i)
  }

  lemma TailIds(rows: seq<NewRow>, n: nat)
    requires DistinctIds(rows) && n <= |rows|
    ensures DistinctIds(rows[..n]) && DistinctIds(rows[n..])
    ensures forall a, b :: a in rows[..n] && b in rows[n..] ==> a.id != b.id
  {
    forall a, b | a in rows[..n] && b in rows[n..]
      ensures a.id != b.id
    {
      var i :| 0 <= i < n && rows[i] == a;
      var j :| 0 <= j < |rows| - n && rows[n..][j] == b;
      assert rows[n + j] == b;
    }
    var tail := rows[n..];
    assert forall i :: 0 <= i < |tail| ==> tail[i] == rows[n + i];
  }

  lemma {:induction false} UnseenIsNotSeen(db: Db, model: Text, rows: seq<NewRow>)
    requires DistinctIds(rows)
    ensures Unseen(db, model, rows) == NotSeen(db, model, rows)
    decreases |rows|
  {
    if rows != [] {
      TailIds(rows, 1);
      var next := db[Key(model, rows[0].id) := rows[0].row];
      UnseenIsNotSeen(next, model, rows[1..]);
      UnseenIsNotSeen(db, model, rows[1..]);
      assert rows[0] in rows[..1];
      SameNotSeen(db, next, model, rows[1..]);
    }
  }

  lemma {:induction false} SameNotSeen(a: Db, b: Db, model: Text, rows: seq<NewRow>)
    requires forall r :: r in rows ==> (Key(model, r.id) in a <==> Key(model, r.id) in b)
    ensures NotSeen(a, model, rows) == NotSeen(b, model, rows)
  {
    if rows != [] {
      assert rows[0] in rows;
      SameNotSeen(a, b, model, rows[1..]);
    }
  }

  lemma {:induction false} NotSeenAppend(db: Db, model: Text, a: seq<NewRow>, b: seq<NewRow>)
    ensures NotSeen(db, model, a + b) == NotSeen(db, model, a) + NotSeen(db, model, b)
  {
    if a == [] {
      assert a + b == b;
    } else {
      assert (a + b)[1..] == a[1..] + b;
      NotSeenAppend(db, model, a[1..], b);
    }
  }

  lemma {:induction false} NotSeenDistinct(db: Db, model: Text, rows: seq<NewRow>)
    requires DistinctIds(rows)
    ensures DistinctIds(NotSeen(db, model, rows))
  {
    if rows != [] {
      TailIds(rows, 1);
      NotSeenDistinct(db, model, rows[1..]);
      assert rows[0] in rows[..1];
      var rest := NotSeen(db, model, rows[1..]);
      assert forall i :: 0 <= i < |rest| ==> rest[i] in rows[1..];
    }
  }

  lemma {:induction false} PutAppend(db: Db, model: Text, a: seq<NewRow>, b: seq<NewRow>)
    ensures Put(db, model, a + b) == Put(Put(db, model, a), model, b)
    decreases |a|
  {
    if a == [] {
      assert a + b == b;
    } else {
      assert (a + b)[1..] == a[1..] + b;
      PutAppend(db[Key(model, a[0].id) := a[0].row], model, a[1..], b);
    }
  }

  /** One statement with `skipDuplicates`: writes what is new, provided its foreign keys end up satisfied. */
  lemma SkipStatement(db: Db, model: Text, rows: seq<NewRow>)
    requires DistinctIds(rows)
    ensures var after := Put(db, model, NotSeen(db, model, rows));
            CreateMany(db, model, rows, true)
              == if RefsPresent(after, NotSeen(db, model, rows)) then Ok(Inserted(after, |NotSeen(db, model, rows)|)) else Err(ForeignKeyViolation)
  {
    UnseenIsNotSeen(db, model, rows);
  }

  /** The first statement of a chunked insert fails exactly when one of its self-references comes too late. */
  lemma FirstStatement(db: Db, model: Text, rows: seq<NewRow>, n: nat)
    requires DistinctIds(rows) && OthersPresent(db, model, rows)
    requires n == if |rows| < WRITE_CHUNK then |rows| else WRITE_CHUNK
    ensures var a := NotSeen(db, model, rows[..n]);
            RefsPresent(Put(db, model, a), a) <==> forall i :: 0 <= i < n ==> RowInTime(db, model, rows, i)
  {
    var a := NotSeen(db, model, rows[..n]);
    var after := Put(db, model, a);
    forall i | 0 <= i < n && Key(model, rows[i].id) !in db
      ensures rows[i] in a
      ensures RowInTime(db, model, rows, i) <==> forall c :: c in rows[i].row.refs ==> rows[i].row.refs[c].target in after
    {
      assert rows[..n][i] == rows[i];
      forall c | c in rows[i].row.refs
        ensures rows[i].row.refs[c].target in after <==>
          (rows[i].row.refs[c].target.model == model ==> ArrivesInTime(db, rows, rows[i].row.refs[c].target, i))
      {
        TargetAfterFirst(db, model, rows, n, i, c);
      }
    }
    if RefsPresent(after, a) {
      forall i | 0 <= i < n
        ensures RowInTime(db, model, rows, i)
      {
        if Key(model, rows[i].id) !in db {
          var p :| 0 <= p < |a| && a[p] == rows[i];
          assert forall c :: c in a[p].row.refs.Keys ==> a[p].row.refs[c].target in after;
        }
      }
    }
    if forall i :: 0 <= i < n ==> RowInTime(db, model, rows, i) {
      forall p | 0 <= p < |a|
        ensures forall c :: c in a[p].row.refs.Keys ==> a[p].row.refs[c].target in after
      {
        assert a[p] in a && a[p] in rows[..n];
        var i :| 0 <= i < n && rows[i] == a[p];
        assert RowInTime(db, model, rows, i);
      }
    }
  }

  lemma TargetAfterFirst(db: Db, model: Text, rows: seq<NewRow>, n: nat, i: nat, c: Text)
    requires DistinctIds(rows) && OthersPresent(db, model, rows)
    requires n == if |rows| < WRITE_CHUNK then |rows| else WRITE_CHUNK
    requires i < n && Key(model, rows[i].id) !in db && c in rows[i].row.refs
    ensures var t := rows[i].row.refs[c].target;
            t in Put(db, model, NotSeen(db, model, rows[..n])) <==> (t.model == model ==> ArrivesInTime(db, rows, t, i))
  {
    hide Put, DistinctIds;
    var t := rows[i].row.refs[c].target;
    var a := NotSeen(db, model, rows[..n]);
    assert rows[i] in rows;
    PutKeys(db, model, a, t);
    if t.model == model && t !in db {
      if HasId(a, t.id) {
        var p :| 0 <= p < |a| && a[p].id == t.id;
        assert a[p] in a && a[p] in rows[..n];
        var j :| 0 <= j < n && rows[j] == a[p];
        assert j / WRITE_CHUNK == 0;
      }
      if j :| 0 <= j < |rows| && rows[j].id == t.id && j / WRITE_CHUNK <= i / WRITE_CHUNK {
        assert i / WRITE_CHUNK == 0;
        assert j < n;
        assert rows[..n][j] == rows[j] && Key(model, rows[j].id) == t;
        MemberId(a, rows[j]);
      }
    }
  }

  lemma MemberId(rows: seq<NewRow>, r: NewRow)
    requires r in rows
    ensures HasId(rows, r.id)
  {
    var i :| 0 <= i < |rows| && rows[i] == r;
  }

  lemma LaterStatements(db: Db, after: Db, model: Text, rows: seq<NewRow>)
    requires DistinctIds(rows) && |rows| > WRITE_CHUNK && OthersPresent(db, model, rows)
    requires after == Put(db, model, NotSeen(db, model, rows[..WRITE_CHUNK]))
    ensures OthersPresent(after, model, rows[WRITE_CHUNK..])
    ensures NotSeen(after, model, rows[WRITE_CHUNK..]) == NotSeen(db, model, rows[WRITE_CHUNK..])
    ensures InTime(after, model, rows[WRITE_CHUNK..]) <==> forall i :: WRITE_CHUNK <= i < |rows| ==> RowInTime(db, model, rows, i)
  {
    var n := WRITE_CHUNK;
    var tail := rows[n..];
    TailIds(rows, n);
    assert forall r :: r in tail ==> r in rows;
    forall r | r in tail
      ensures Key(model, r.id) in after <==> Key(model, r.id) in db
    {
      SeenOnlyBefore(db, model, NotSeen(db, model, rows[..n]), r);
    }
    forall r, c | r in tail && Key(model, r.id) !in after && c in r.row.refs && r.row.refs[c].target.model != model
      ensures r.row.refs[c].target in after
    {
      PutKeys(db, model, NotSeen(db, model, rows[..n]), r.row.refs[c].target);
    }
    SameNotSeen(after, db, model, tail);
    forall i | n <= i < |rows|
      ensures RowInTime(db, model, rows, i) <==> RowInTime(after, model, tail, i - n)
    {
      LaterRow(db, after, model, rows, i);
    }
    if InTime(after, model, tail) {
      forall i | n <= i < |rows|
        ensures RowInTime(db, model, rows, i)
      {
        assert RowInTime(after, model, tail, i - n);
      }
    }
    if forall i :: n <= i < |rows| ==> RowInTime(db, model, rows, i) {
      forall i | 0 <= i < |tail|
        ensures RowInTime(after, model, tail, i)
      {
        assert RowInTime(db, model, rows, i + n);
      }
    }
  }

  lemma LaterRow(db: Db, after: Db, model: Text, rows: seq<NewRow>, i: nat)
    requires DistinctIds(rows) && WRITE_CHUNK <= i < |rows|
    requires after == Put(db, model, NotSeen(db, model, rows[..WRITE_CHUNK]))
    ensures RowInTime(db, model, rows, i) <==> RowInTime(after, model, rows[WRITE_CHUNK..], i - WRITE_CHUNK)
  {
    var n := WRITE_CHUNK;
    var tail := rows[n..];
    TailIds(rows, n);
    assert tail[i - n] == rows[i] && tail[i - n] in tail;
    SeenOnlyBefore(db, model, NotSeen(db, model, rows[..n]), rows[i]);
    forall c | c in rows[i].row.refs && rows[i].row.refs[c].target.model == model
      ensures ArrivesInTime(db, rows, rows[i].row.refs[c].target, i) <==> ArrivesInTime(after, tail, rows[i].row.refs[c].target, i - n)
    {
      LaterTargetArrives(db, after, model, rows, i, rows[i].row.refs[c].target);
      LaterTargetArrived(db, after, model, rows, i, rows[i].row.refs[c].target);
    }
  }

  lemma LaterTargetArrives(db: Db, after: Db, model: Text, rows: seq<NewRow>, i: nat, t: Key)
    requires t.model == model && WRITE_CHUNK <= i < |rows|
    requires after == Put(db, model, NotSeen(db, model, rows[..WRITE_CHUNK]))
    ensures ArrivesInTime(db, rows, t, i) ==> ArrivesInTime(after, rows[WRITE_CHUNK..], t, i - WRITE_CHUNK)
  {
    hide Put;
    var n := WRITE_CHUNK;
    var a := NotSeen(db, model, rows[..n]);
    PutKeys(db, model, a, t);
    if t !in db && ArrivesInTime(db, rows, t, i) {
      var j :| 0 <= j < |rows| && rows[j].id == t.id && j / n <= i / n;
      if j < n {
        assert rows[..n][j] == rows[j] && Key(model, rows[j].id) == t;
        MemberId(a, rows[j]);
      } else {
        ChunkBefore(j, i);
        assert rows[n..][j - n] == rows[j];
      }
    }
  }

  lemma ChunkBefore(j: nat, i: nat)
    requires WRITE_CHUNK <= j && WRITE_CHUNK <= i
    ensures j / WRITE_CHUNK <= i / WRITE_CHUNK <==> (j - WRITE_CHUNK) / WRITE_CHUNK <= (i - WRITE_CHUNK) / WRITE_CHUNK
  {
  }

  lemma LaterTargetArrived(db: Db, after: Db, model: Text, rows: seq<NewRow>, i: nat, t: Key)
    requires t.model == model && WRITE_CHUNK <= i < |rows|
    requires after == Put(db, model, NotSeen(db, model, rows[..WRITE_CHUNK]))
    ensures ArrivesInTime(after, rows[WRITE_CHUNK..], t, i - WRITE_CHUNK) ==> ArrivesInTime(db, rows, t, i)
  {
    hide Put;
    var n := WRITE_CHUNK;
    var a := NotSeen(db, model, rows[..n]);
    PutKeys(db, model, a, t);
    if t !in db && t in after {
      var p :| 0 <= p < |a| && a[p].id == t.id;
      assert a[p] in a && a[p] in rows[..n];
      var j :| 0 <= j < n && rows[j] == a[p];
      assert j / n == 0;
    } else if t !in after && ArrivesInTime(after, rows[n..], t, i - n) {
      var j :| 0 <= j < |rows[n..]| && rows[n..][j].id == t.id && j / n <= (i - n) / n;
      ChunkBefore(n + j, i);
      assert rows[n + j] == rows[n..][j];
    }
  }

  /** A chunked insert that skips duplicates goes through exactly when no self-reference comes too late. */
  lemma {:induction false} SkippingInsert(db: Db, model: Text, rows: seq<NewRow>)
    requires DistinctIds(rows) && OthersPresent(db, model, rows)
    ensures SkippingInsertDone(db, model, rows)
    decreases |rows|, 1
  {
    hide *;
    if rows == [] {
      InsertNothing(db, model);
    } else if |rows| <= WRITE_CHUNK {
      assert rows[..|rows|] == rows;
      FirstStatement(db, model, rows, |rows|);
      SkipStatement(db, model, rows);
      OneChunk(db, model, rows, true);
      SkippingInsertBase(db, model, rows);
    } else {
      SkippingInsertStep(db, model, rows);
    }
  }

  ghost predicate SkippingInsertDone(db: Db, model: Text, rows: seq<NewRow>) {
    InsertChunks(db, model, Chunks(rows), true)
      == if InTime(db, model, rows) then Ok(Inserted(Put(db, model, NotSeen(db, model, rows)), |NotSeen(db, model, rows)|)) else Err(ForeignKeyViolation)
  }

  lemma InsertNothing(db: Db, model: Text)
    ensures SkippingInsertDone(db, model, [])
  {
  }

  lemma SkippingInsertBase(db: Db, model: Text, rows: seq<NewRow>)
    requires InsertChunks(db, model, Chunks(rows), true) == CreateMany(db, model, rows, true)
    requires CreateMany(db, model, rows, true)
      == if RefsPresent(Put(db, model, NotSeen(db, model, rows)), NotSeen(db, model, rows))
         then Ok(Inserted(Put(db, model, NotSeen(db, model, rows)), |NotSeen(db, model, rows)|)) else Err(ForeignKeyViolation)
    requires RefsPresent(Put(db, model, NotSeen(db, model, rows)), NotSeen(db, model, rows)) <==> forall i :: 0 <= i < |rows| ==> RowInTime(db, model, rows, i)
    ensures SkippingInsertDone(db, model, rows)
  {
    hide CreateMany, InsertChunks, Chunks, Put, NotSeen, RefsPresent, RowInTime;
  }

  lemma SkippingInsertStep(db: Db, model: Text, rows: seq<NewRow>)
    requires DistinctIds(rows) && OthersPresent(db, model, rows) && |rows| > WRITE_CHUNK
    ensures SkippingInsertDone(db, model, rows)
    decreases |rows|, 0
  {
    hide CreateMany, InsertChunks, Chunks, Put, NotSeen, RefsPresent, RowInTime, OthersPresent, DistinctIds;
    var a, b := rows[..WRITE_CHUNK], rows[WRITE_CHUNK..];
    TailIds(rows, WRITE_CHUNK);
    FirstStatement(db, model, rows, WRITE_CHUNK);
    SkipStatement(db, model, a);
    ManyChunks(db, model, rows, true);
    var after := Put(db, model, NotSeen(db, model, a));
    LaterStatements(db, after, model, rows);
    SkippingInsert(after, model, b);
    SplitRows(db, model, rows);
  }

  lemma SplitRows(db: Db, model: Text, rows: seq<NewRow>)
    requires |rows| > WRITE_CHUNK
    ensures var a, b := rows[..WRITE_CHUNK], rows[WRITE_CHUNK..];
            NotSeen(db, model, rows) == NotSeen(db, model, a) + NotSeen(db, model, b)
            && Put(db, model, NotSeen(db, model, rows)) == Put(Put(db, model, NotSeen(db, model, a)), model, NotSeen(db, model, b))
  {
    var a, b := rows[..WRITE_CHUNK], rows[WRITE_CHUNK..];
    assert rows == a + b;
    NotSeenAppend(db, model, a, b);
    PutAppend(db, model, NotSeen(db, model, a), NotSeen(db, model, b));
  }

  lemma OneChunk(db: Db, model: Text, rows: seq<NewRow>, skipDuplicates: bool)
    requires 0 < |rows| <= WRITE_CHUNK
    ensures InsertChunks(db, model, Chunks(rows), skipDuplicates) == CreateMany(db, model, rows, skipDuplicates)
  {
    assert Chunks(rows)[1..] == [];
  }

  lemma ManyChunks(db: Db, model: Text, rows: seq<NewRow>, skipDuplicates: bool)
    requires |rows| > WRITE_CHUNK
    ensures InsertChunks(db, model, Chunks(rows), skipDuplicates) ==
              match CreateMany(db, model, rows[..WRITE_CHUNK], skipDuplicates)
              case Err(e) => Err(e)
              case Ok(first) =>
                match InsertChunks(first.db, model, Chunks(rows[WRITE_CHUNK..]), skipDuplicates)
                case Err(e) => Err(e)
                case Ok(rest) => Ok(Inserted(rest.db, first.count + rest.count))
  {
    hide *;
    FirstChunk(rows);
    InsertStep(db, model, Chunks(rows), skipDuplicates);
  }

  lemma FirstChunk(rows: seq<NewRow>)
    requires |rows| > WRITE_CHUNK
    ensures Chunks(rows) != [] && Chunks(rows)[0] == rows[..WRITE_CHUNK] && Chunks(rows)[1..] == Chunks(rows[WRITE_CHUNK..])
  {
  }

  lemma InsertStep(db: Db, model: Text, chunks: seq<seq<NewRow>>, skipDuplicates: bool)
    requires chunks != []
    ensures InsertChunks(db, model, chunks, skipDuplicates) ==
              match CreateMany(db, model, chunks[0], skipDuplicates)
              case Err(e) => Err(e)
              case Ok(first) =>
                match InsertChunks(first.db, model, chunks[1..], skipDuplicates)
                case Err(e) => Err(e)
                case Ok(rest) => Ok(Inserted(rest.db, first.count + rest.count))
  {
  }

  /** Without skipping, it also needs every id to be new. */
  lemma {:induction false} StrictInsert(db: Db, model: Text, rows: seq<NewRow>)
    requires DistinctIds(rows)
    ensures StrictInsertDone(db, model, rows)
    decreases |rows|, 1
  {
    if rows == [] {
    } else if |rows| <= WRITE_CHUNK {
      hide CreateMany, InsertChunks, Chunks;
      StrictStatement(db, model, rows);
      OneChunk(db, model, rows, true);
      OneChunk(db, model, rows, false);
    } else {
      StrictInsertStep(db, model, rows);
    }
  }

  ghost predicate StrictInsertDone(db: Db, model: Text, rows: seq<NewRow>) {
    if NoneSeen(db, model, rows) then InsertChunks(db, model, Chunks(rows), false) == InsertChunks(db, model, Chunks(rows), true)
    else InsertChunks(db, model, Chunks(rows), false).Err?
  }

  lemma StrictInsertStep(db: Db, model: Text, rows: seq<NewRow>)
    requires DistinctIds(rows) && |rows| > WRITE_CHUNK
    ensures StrictInsertDone(db, model, rows)
    decreases |rows|, 0
  {
    hide CreateMany, InsertChunks, Chunks, Put, NotSeen, RefsPresent, NoneSeen, DistinctIds;
    var a, b := rows[..WRITE_CHUNK], rows[WRITE_CHUNK..];
    assert rows == a + b;
    TailIds(rows, WRITE_CHUNK);
    NoneSeenParts(db, model, a, b);
    ManyChunks(db, model, rows, true);
    ManyChunks(db, model, rows, false);
    StrictStatement(db, model, a);
    if NoneSeen(db, model, a) {
      NotSeenAll(db, model, a);
      SkipStatement(db, model, a);
      StrictInsert(Put(db, model, a), model, b);
      SeenLater(db, model, a, b);
    }
  }

  lemma NoneSeenParts(db: Db, model: Text, a: seq<NewRow>, b: seq<NewRow>)
    ensures NoneSeen(db, model, a + b) <==> NoneSeen(db, model, a) && NoneSeen(db, model, b)
  {
    assert forall r :: r in a + b <==> r in a || r in b;
  }

  lemma SeenLater(db: Db, model: Text, a: seq<NewRow>, b: seq<NewRow>)
    requires forall x, y :: x in a && y in b ==> x.id != y.id
    ensures NoneSeen(Put(db, model, a), model, b) <==> NoneSeen(db, model, b)
  {
    forall r | r in b
      ensures Key(model, r.id) in Put(db, model, a) <==> Key(model, r.id) in db
    {
      SeenOnlyBefore(db, model, a, r);
    }
  }

  lemma SeenOnlyBefore(db: Db, model: Text, a: seq<NewRow>, r: NewRow)
    requires forall x :: x in a ==> x.id != r.id
    ensures Key(model, r.id) in Put(db, model, a) <==> Key(model, r.id) in db
  {
    PutKeys(db, model, a, Key(model, r.id));
    assert forall i :: 0 <= i < |a| ==> a[i] in a;
  }

  lemma {:induction false} NotSeenAll(db: Db, model: Text, rows: seq<NewRow>)
    requires NoneSeen(db, model, rows)
    ensures NotSeen(db, model, rows) == rows
  {
    if rows != [] {
      assert rows[0] in rows;
      NotSeenAll(db, model, rows[1..]);
    }
  }

  lemma StrictStatement(db: Db, model: Text, rows: seq<NewRow>)
    requires DistinctIds(rows)
    ensures NoneSeen(db, model, rows) ==> CreateMany(db, model, rows, false) == CreateMany(db, model, rows, true)
    ensures !NoneSeen(db, model, rows) ==> CreateMany(db, model, rows, false).Err?
  {
    if NoneSeen(db, model, rows) {
      assert forall i :: 0 <= i < |rows| ==> rows[i] in rows;
      SkipStatement(db, model, rows);
      NotSeenAll(db, model, rows);
    } else {
      var r :| r in rows && Key(model, r.id) in db;
      var i :| 0 <= i < |rows| && rows[i] == r;
    }
  }

  /** A strict insert that goes through repeats no id. */
  lemma {:induction false} StrictNeedsDistinct(db: Db, model: Text, rows: seq<NewRow>)
    requires InsertChunks(db, model, Chunks(rows), false).Ok?
    ensures DistinctIds(rows)
    decreases |rows|
  {
    if 0 < |rows| <= WRITE_CHUNK {
      OneChunk(db, model, rows, false);
    } else if |rows| > WRITE_CHUNK {
      hide CreateMany, InsertChunks, Chunks, Put, NotSeen, InTime;
      var a, b := rows[..WRITE_CHUNK], rows[WRITE_CHUNK..];
      ManyChunks(db, model, rows, false);
      StatementNeedsDistinct(db, model, a);
      var after := Put(db, model, a);
      StrictNeedsDistinct(after, model, b);
      StrictInsert(after, model, b);
      DistinctParts(db, model, a, b);
      assert rows == a + b;
    }
  }

  lemma StatementNeedsDistinct(db: Db, model: Text, rows: seq<NewRow>)
    requires CreateMany(db, model, rows, false).Ok?
    ensures DistinctIds(rows) && CreateMany(db, model, rows, false).value.db == Put(db, model, rows)
  {
  }

  lemma DistinctParts(db: Db, model: Text, a: seq<NewRow>, b: seq<NewRow>)
    requires DistinctIds(a) && DistinctIds(b) && NoneSeen(Put(db, model, a), model, b)
    ensures DistinctIds(a + b)
  {
    forall i, j | 0 <= i < |a| && 0 <= j < |b|
      ensures a[i].id != b[j].id
    {
      assert b[j] in b;
      PutKeys(db, model, a, Key(model, b[j].id));
    }
  }

  /** A chunked insert that goes through had all references into other tables of the rows it wrote met before. */
  lemma {:induction false} SkippingNeedsOthers(db: Db, model: Text, rows: seq<NewRow>)
    requires DistinctIds(rows) && InsertChunks(db, model, Chunks(rows), true).Ok?
    ensures OthersPresent(db, model, rows)
    decreases |rows|
  {
    if 0 < |rows| <= WRITE_CHUNK {
      hide CreateMany, InsertChunks, Chunks, Put;
      OneChunk(db, model, rows, true);
      SkipStatement(db, model, rows);
      StatementNeedsOthers(db, model, rows);
    } else if |rows| > WRITE_CHUNK {
      hide CreateMany, InsertChunks, Chunks, Put, RefsPresent, OthersPresent;
      var a, b := rows[..WRITE_CHUNK], rows[WRITE_CHUNK..];
      TailIds(rows, WRITE_CHUNK);
      ManyChunks(db, model, rows, true);
      SkipStatement(db, model, a);
      StatementNeedsOthers(db, model, a);
      SkippingNeedsOthers(Put(db, model, NotSeen(db, model, a)), model, b);
      OthersOfParts(db, model, a, b);
      assert rows == a + b;
    }
  }

  lemma StatementNeedsOthers(db: Db, model: Text, rows: seq<NewRow>)
    requires RefsPresent(Put(db, model, NotSeen(db, model, rows)), NotSeen(db, model, rows))
    ensures OthersPresent(db, model, rows)
  {
    var made := NotSeen(db, model, rows);
    forall r, c | r in rows && Key(model, r.id) !in db && c in r.row.refs && r.row.refs[c].target.model != model
      ensures r.row.refs[c].target in db
    {
      var i :| 0 <= i < |made| && made[i] == r;
      assert c in made[i].row.refs.Keys && made[i].row.refs[c].target in Put(db, model, made);
      PutKeys(db, model, made, r.row.refs[c].target);
    }
  }

  lemma OthersOfParts(db: Db, model: Text, a: seq<NewRow>, b: seq<NewRow>)
    requires forall x, y :: x in a && y in b ==> x.id != y.id
    requires OthersPresent(db, model, a) && OthersPresent(Put(db, model, NotSeen(db, model, a)), model, b)
    ensures OthersPresent(db, model, a + b)
  {
    var made := NotSeen(db, model, a);
    forall r, c | r in b && Key(model, r.id) !in db && c in r.row.refs && r.row.refs[c].target.model != model
      ensures r.row.refs[c].target in db
    {
      SeenOnlyBefore(db, model, made, r);
      PutKeys(db, model, made, r.row.refs[c].target);
    }
  }

  lemma {:induction false} ChunksHold(rows: seq<NewRow>, r: NewRow) returns (i: nat)
    requires r in rows
    ensures i < |Chunks(rows)| && r in Chunks(rows)[i]
    decreases |rows|
  {
    if |rows| <= WRITE_CHUNK {
      i := 0;
    } else if r in rows[..WRITE_CHUNK] {
      i := 0;
    } else {
      assert rows == rows[..WRITE_CHUNK] + rows[WRITE_CHUNK..];
      FirstChunk(rows);
      var j := ChunksHold(rows[WRITE_CHUNK..], r);
      i := j + 1;
    }
  }

  /** The insert `replace` makes for one model, of any rows into any table: when it goes through, and what it leaves. */
  lemma ReplaceInsert(db: Db, model: Text, rows: seq<NewRow>)
    ensures InsertChunks(db, model, Chunks(rows), false).Ok?
       <==> DistinctIds(rows) && NoneSeen(db, model, rows) && InTime(db, model, rows) && OthersPresent(db, model, rows)
    ensures InsertChunks(db, model, Chunks(rows), false).Ok? ==>
              InsertChunks(db, model, Chunks(rows), false) == Ok(Inserted(Put(db, model, rows), |rows|))
  {
    hide InsertChunks, Chunks, Put, InTime, OthersPresent, DistinctIds;
    if InsertChunks(db, model, Chunks(rows), false).Ok? {
      StrictNeedsDistinct(db, model, rows);
    }
    if DistinctIds(rows) {
      StrictInsert(db, model, rows);
      if NoneSeen(db, model, rows) {
        MergeInsert(db, model, rows);
        NotSeenAll(db, model, rows);
      }
    }
  }

  /** The insert `merge` makes for one model, into any table: when it goes through, and what it leaves. */
  lemma MergeInsert(db: Db, model: Text, rows: seq<NewRow>)
    requires DistinctIds(rows)
    ensures InsertChunks(db, model, Chunks(rows), true).Ok? <==> InTime(db, model, rows) && OthersPresent(db, model, rows)
    ensures InsertChunks(db, model, Chunks(rows), true).Ok? ==>
              InsertChunks(db, model, Chunks(rows), true) == Ok(Inserted(Put(db, model, NotSeen(db, model, rows)), |NotSeen(db, model, rows)|))
  {
    hide InsertChunks, Chunks, Put, InTime, OthersPresent, NotSeen, DistinctIds;
    if InsertChunks(db, model, Chunks(rows), true).Ok? {
      SkippingNeedsOthers(db, model, rows);
    }
    if OthersPresent(db, model, rows) {
      SkippingInsert(db, model, rows);
    }
  }
}
