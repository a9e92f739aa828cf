/**
 The delete phase of `replace`, whatever else is in the database
 (backend-nest/src/backup/restore.service.ts:279-296).

 A statement deletes the factory's rows of one model and everything that cascades into them, empties the references
 with SET NULL, and fails when a row that stays has a RESTRICT reference into what goes.
 */
module RestoreClearing {
  import opened Wrappers
  import opened JsText
  import opened ModelGraph
  import opened Database
  import opened Restore

  /** The factory's rows of the models the file covers. */
  ghost function Covered(db: Db, content: Content, tenant: Text): set<Key> {
    set k | k in db && k.model in content && db[k].tenant == tenant
  }

  /** Those of the first `i` models of the order. */
  ghost function GoneBefore(db: Db, order: seq<Text>, content: Content, tenant: Text, i: nat): set<Key>
    requires i <= |order|
  {
    set k | k in Covered(db, content, tenant) && k.model in order[..i]
  }

  /** All that has gone after the first `i` models, cascades included. */
  ghost function Swept(db: Db, order: seq<Text>, content: Content, tenant: Text, i: nat): set<Key>
    requires i <= |order|
  {
    Doomed(db, GoneBefore(db, order, content, tenant, i))
  }

  /** A database without these rows, references with SET NULL emptied. */
  ghost function Remaining(db: Db, gone: set<Key>): Db {
    map k | k in db && k !in gone :: WithoutRefs(db[k], gone)
  }

  ghost predicate NothingRestricts(db: Db, gone: set<Key>) {
    forall k :: k in db && k !in gone ==> !Restricts(db[k], gone)
  }

  /** At no point of the clearing does a row that stays restrict what goes: something to check before starting it. */
  ghost predicate MayClear(db: Db, order: seq<Text>, content: Content, tenant: Text) {
    forall i :: 0 <= i <= |order| ==> NothingRestricts(db, Swept(db, order, content, tenant, i))
  }

  /** What the statements count: the rows of each model that have not gone with an earlier one. */
  ghost function CountsFrom(db: Db, order: seq<Text>, content: Content, tenant: Text, i: nat): map<Text, nat>
    requires i <= |order|
    decreases |order| - i
  {
    if i == |order| then map[]
    else if order[i] !in content then CountsFrom(db, order, content, tenant, i + 1)
    else
      CountsFrom(db, order, content, tenant, i + 1)[order[i] := |TenantKeys(db, order[i], tenant) - Swept(db, order, content, tenant, i)|]
  }

  // -------------------------------------------------------------- cascades

  lemma FollowersGrow(db: Db, a: set<Key>, b: set<Key>)
    requires a <= b
    ensures Followers(db, a) <= Followers(db, b)
  {
    forall k | k in Followers(db, a)
      ensures CascadesInto(db[k], b)
    {
      var c :| c in db[k].refs.Keys && db[k].refs[c].onDelete == Cascade && db[k].refs[c].target in a;
    }
  }

  /** What goes is the least set that contains the start and everything that cascades into it. */
  lemma {:induction false} DoomedLeast(db: Db, gone: set<Key>, closed: set<Key>)
    requires gone <= db.Keys && gone <= closed && Followers(db, closed) <= closed
    ensures Doomed(db, gone) <= closed
    decreases |db.Keys - gone|
  {
    if !(Followers(db, gone) <= gone) {
      FollowersGrow(db, gone, closed);
      var k :| k in Followers(db, gone) && k !in gone;
      assert db.Keys - gone == (db.Keys - (gone + Followers(db, gone))) + (Followers(db, gone) - gone);
      DoomedLeast(db, gone + Followers(db, gone), closed);
    }
  }

  lemma DoomedGrows(db: Db, a: set<Key>, b: set<Key>)
    requires a <= b <= db.Keys
    ensures Doomed(db, a) <= Doomed(db, b)
  {
    DoomedLeast(db, a, Doomed(db, b));
  }

  lemma CascadesAreKept(db: Db, gone: set<Key>, k: Key, more: set<Key>)
    requires k in db && k !in gone
    ensures CascadesInto(Remaining(db, gone)[k], more) <==> CascadesInto(db[k], more)
    ensures Restricts(Remaining(db, gone)[k], more) <==> Restricts(db[k], more)
  {
    var row, left := db[k], Remaining(db, gone)[k];
    if CascadesInto(row, more) {
      var c :| c in row.refs.Keys && row.refs[c].onDelete == Cascade && row.refs[c].target in more;
      assert c in left.refs.Keys && left.refs[c] == row.refs[c];
    }
    if Restricts(row, more) {
      var c :| c in row.refs.Keys && row.refs[c].onDelete == Restrict && row.refs[c].target in more;
      assert c in left.refs.Keys && left.refs[c] == row.refs[c];
    }
  }

  /** Clearing in two steps takes away what clearing at once does. */
  lemma ClearedTogether(db: Db, first: set<Key>, more: set<Key>)
    requires first <= db.Keys && more <= db.Keys
    ensures var gone := Doomed(db, first);
            var cur := Remaining(db, gone);
            more - gone <= cur.Keys && gone + Doomed(cur, more - gone) == Doomed(db, first + more)
  {
    var gone, all := Doomed(db, first), Doomed(db, first + more);
    var cur := Remaining(db, gone);
    var rest := more - gone;
    DoomedGrows(db, first, first + more);
    forall k | k in Followers(cur, all - gone)
      ensures k in all - gone
    {
      CascadesAreKept(db, gone, k, all - gone);
      FollowersGrow(db, all - gone, all);
      assert k in Followers(db, all - gone);
    }
    DoomedLeast(cur, rest, all - gone);
    var both := gone + Doomed(cur, rest);
    forall k | k in Followers(db, both)
      ensures k in both
    {
      var c :| c in db[k].refs.Keys && db[k].refs[c].onDelete == Cascade && db[k].refs[c].target in both;
      if db[k].refs[c].target in gone {
        assert k in Followers(db, gone);
      } else if k !in gone {
        CascadesAreKept(db, gone, k, Doomed(cur, rest));
        assert CascadesInto(db[k], Doomed(cur, rest));
        assert k in Followers(cur, Doomed(cur, rest));
      }
    }
    DoomedLeast(db, first + more, both);
  }

  lemma RemainingTwice(db: Db, a: set<Key>, b: set<Key>)
    ensures Remaining(Remaining(db, a), b) == Remaining(db, a + b)
  {
    forall k | k in db && k !in a && k !in b
      ensures WithoutRefs(WithoutRefs(db[k], a), b) == WithoutRefs(db[k], a + b)
    {
      assert WithoutRefs(WithoutRefs(db[k], a), b).refs == WithoutRefs(db[k], a + b).refs;
    }
  }

  lemma NothingGone(db: Db)
    ensures Doomed(db, {}) == {} && Remaining(db, {}) == db && NothingRestricts(db, {})
  {
    assert Followers(db, {}) == {};
    forall k | k in db
      ensures WithoutRefs(db[k], {}) == db[k]
    {
      assert WithoutRefs(db[k], {}).refs == db[k].refs;
    }
  }

  // -------------------------------------------------------------- one statement

  lemma StatementSweeps(db: Db, order: seq<Text>, content: Content, tenant: Text, i: nat)
    requires i < |order| && order[i] in content
    ensures var here, next := Swept(db, order, content, tenant, i), Swept(db, order, content, tenant, i + 1);
            var cur := Remaining(db, here);
            var gone := TenantKeys(cur, order[i], tenant);
            && gone == TenantKeys(db, order[i], tenant) - here
            && here + Doomed(cur, gone) == next
  {
    var m := order[i];
    var first, more := GoneBefore(db, order, content, tenant, i), TenantKeys(db, m, tenant);
    ClearedTogether(db, first, more);
    assert order[..i + 1] == order[..i] + [m];
    assert first + more == GoneBefore(db, order, content, tenant, i + 1);
  }

  /** One delete statement goes through exactly when nothing that stays restricts all that has gone by then. */
  lemma StatementGoesThrough(db: Db, here: set<Key>, gone: set<Key>, next: set<Key>)
    requires NothingRestricts(db, here)
    requires gone <= Remaining(db, here).Keys && here + Doomed(Remaining(db, here), gone) == next
    ensures DeleteRows(Remaining(db, here), gone) == if NothingRestricts(db, next) then Ok(Remaining(db, next)) else Err(ForeignKeyViolation)
  {
    var cur := Remaining(db, here);
    var doomed := Doomed(cur, gone);
    RemainingTwice(db, here, doomed);
    forall k | k in db && k !in next
      ensures Restricts(cur[k], doomed) <==> Restricts(db[k], next)
    {
      CascadesAreKept(db, here, k, doomed);
      RestrictsEither(db[k], here, doomed);
    }
    if exists k | k in cur.Keys :: k !in doomed && Restricts(cur[k], doomed) {
      var k :| k in cur.Keys && k !in doomed && Restricts(cur[k], doomed);
      assert !NothingRestricts(db, next);
    } else {
      forall k | k in db && k !in next
        ensures !Restricts(db[k], next)
      {
        assert k in cur.Keys && k !in doomed;
      }
      assert (map k | k in cur && k !in doomed :: WithoutRefs(cur[k], doomed)) == Remaining(cur, doomed);
    }
  }

  lemma RestrictsEither(row: Row, a: set<Key>, b: set<Key>)
    ensures Restricts(row, a + b) <==> Restricts(row, a) || Restricts(row, b)
  {
    if Restricts(row, a + b) {
      var c :| c in row.refs.Keys && row.refs[c].onDelete == Restrict && row.refs[c].target in a + b;
    }
    if Restricts(row, a) {
      var c :| c in row.refs.Keys && row.refs[c].onDelete == Restrict && row.refs[c].target in a;
      assert row.refs[c].target in a + b;
    }
    if Restricts(row, b) {
      var c :| c in row.refs.Keys && row.refs[c].onDelete == Restrict && row.refs[c].target in b;
      assert row.refs[c].target in a + b;
    }
  }

  // -------------------------------------------------------------- the whole phase

  lemma {:induction false} ClearsFrom(db: Db, order: seq<Text>, content: Content, tenant: Text, i: nat)
    requires i <= |order| && NothingRestricts(db, Swept(db, order, content, tenant, i))
    ensures var r := DeletePhase(Remaining(db, Swept(db, order, content, tenant, i)), order[i..], content, tenant);
            && (r.Ok? <==> forall j :: i <= j <= |order| ==> NothingRestricts(db, Swept(db, order, content, tenant, j)))
            && (r.Ok? ==> r == Ok(Cleared(Remaining(db, Swept(db, order, content, tenant, |order|)), CountsFrom(db, order, content, tenant, i))))
    decreases |order| - i
  {
    hide Swept, NothingRestricts, Remaining, Doomed, DeleteRows, TenantKeys;
    if i == |order| {
      assert order[i..] == [];
    } else {
      assert order[i..][0] == order[i] && order[i..][1..] == order[i + 1..];
      if order[i] in content {
        StatementSweeps(db, order, content, tenant, i);
        var here, next := Swept(db, order, content, tenant, i), Swept(db, order, content, tenant, i + 1);
        StatementGoesThrough(db, here, TenantKeys(Remaining(db, here), order[i], tenant), next);
      } else {
        SameSwept(db, order, content, tenant, i);
      }
      if NothingRestricts(db, Swept(db, order, content, tenant, i + 1)) {
        ClearsFrom(db, order, content, tenant, i + 1);
      }
    }
  }

  lemma SameSwept(db: Db, order: seq<Text>, content: Content, tenant: Text, i: nat)
    requires i < |order| && order[i] !in content
    ensures Swept(db, order, content, tenant, i + 1) == Swept(db, order, content, tenant, i)
  {
    assert order[..i + 1] == order[..i] + [order[i]];
    assert GoneBefore(db, order, content, tenant, i + 1) == GoneBefore(db, order, content, tenant, i);
  }

  /**
   In any database and any order: the clearing goes through exactly when at no point a row that stays restricts what
   has gone; then the covered rows are gone with all that cascades into them, and every other row stays, its
   references with SET NULL into them emptied.
   */
  lemma ClearingExactly(db: Db, order: seq<Text>, content: Content, tenant: Text)
    requires forall m :: m in content ==> m in order
    ensures DeletePhase(db, order, content, tenant).Ok? <==> MayClear(db, order, content, tenant)
    ensures MayClear(db, order, content, tenant) ==>
              DeletePhase(db, order, content, tenant)
                == Ok(Cleared(Remaining(db, Doomed(db, Covered(db, content, tenant))), CountsFrom(db, order, content, tenant, 0)))
  {
    hide NothingRestricts, Remaining, DeletePhase, CountsFrom;
    NothingGone(db);
    assert GoneBefore(db, order, content, tenant, 0) == {};
    assert order[0..] == order && order[..|order|] == order;
    assert GoneBefore(db, order, content, tenant, |order|) == Covered(db, content, tenant);
    ClearsFrom(db, order, content, tenant, 0);
  }

  /** No row of the factory is left in a covered model. */
  lemma NothingCoveredIsLeft(db: Db, content: Content, tenant: Text, k: Key)
    requires k in Remaining(db, Doomed(db, Covered(db, content, tenant))) && k.model in content
    ensures db[k].tenant != tenant
  {
    assert k !in Covered(db, content, tenant);
  }

  // -------------------------------------------------------------- who can stop it

  /** Covered rows point at covered rows along declared edges, and otherwise only at rows of global models. */
  ghost predicate OwnRefs(db: Db, content: Content, tenant: Text, edges: Edges, globals: set<Text>) {
    forall k, c :: k in Covered(db, content, tenant) && c in db[k].refs ==>
      var t := db[k].refs[c].target;
      t.model in globals || (t in Covered(db, content, tenant) && (t.model == k.model || (k.model in edges && t.model in edges[k.model])))
  }

  /** Rows of global models point only at rows of global models, and no covered model is global. */
  ghost predicate GlobalsApart(db: Db, content: Content, globals: set<Text>) {
    && (forall m :: m in content ==> m !in globals)
    && forall k, c :: k in db && k.model in globals && c in db[k].refs ==> db[k].refs[c].target.model in globals
  }

  /** Children first: no covered row goes before the turn of its own model. */
  lemma CoveredGoInTurn(db: Db, order: seq<Text>, content: Content, tenant: Text, edges: Edges, globals: set<Text>, i: nat)
    requires DeleteOrder(edges, order) && i <= |order|
    requires OwnRefs(db, content, tenant, edges, globals) && GlobalsApart(db, content, globals)
    ensures Swept(db, order, content, tenant, i) * Covered(db, content, tenant) == GoneBefore(db, order, content, tenant, i)
    ensures forall k :: k in Swept(db, order, content, tenant, i) ==> k.model !in globals
  {
    var covered, gone := Covered(db, content, tenant), GoneBefore(db, order, content, tenant, i);
    var closed := gone + (set k | k in db && k !in covered && k.model !in globals);
    forall k | k in Followers(db, closed)
      ensures k in closed
    {
      var c :| c in db[k].refs.Keys && db[k].refs[c].onDelete == Cascade && db[k].refs[c].target in closed;
      var t := db[k].refs[c].target;
      assert t.model !in globals;
      if k in covered {
        PointerGoesFirst(db, order, content, tenant, edges, i, k, t);
      }
    }
    DoomedLeast(db, gone, closed);
  }

  lemma EdgeComesEarlier(edges: Edges, order: seq<Text>, child: Text, parent: Text, i: nat) returns (p: nat)
    requires DeleteOrder(edges, order) && i < |order| && order[i] == parent
    requires child in edges && parent in edges[child]
    ensures p < i && order[p] == child
  {
    assert child in edges.Keys;
    p :| 0 <= p < |order| && order[p] == child;
    assert parent in edges[order[p]];
    var j :| p < j < |order| && order[j] == parent;
  }

  /** The factory's own rows never stop the clearing: it fails exactly on a row outside the cleared ones. */
  lemma OnlyOutsideRowsRestrict(db: Db, order: seq<Text>, content: Content, tenant: Text, edges: Edges, globals: set<Text>)
    requires DeleteOrder(edges, order)
    requires OwnRefs(db, content, tenant, edges, globals) && GlobalsApart(db, content, globals)
    ensures MayClear(db, order, content, tenant)
       <==> forall i, k :: 0 <= i <= |order| && k in db && k !in Covered(db, content, tenant) && k !in Swept(db, order, content, tenant, i)
              ==> !Restricts(db[k], Swept(db, order, content, tenant, i))
  {
    hide Swept, Restricts;
    var covered := Covered(db, content, tenant);
    forall i, k | 0 <= i <= |order| && k in covered && k !in Swept(db, order, content, tenant, i)
      ensures !Restricts(db[k], Swept(db, order, content, tenant, i))
    {
      OwnRowDoesNotRestrict(db, order, content, tenant, edges, globals, i, k);
    }
  }

  lemma OwnRowDoesNotRestrict(db: Db, order: seq<Text>, content: Content, tenant: Text, edges: Edges, globals: set<Text>, i: nat, k: Key)
    requires DeleteOrder(edges, order) && i <= |order|
    requires OwnRefs(db, content, tenant, edges, globals) && GlobalsApart(db, content, globals)
    requires k in Covered(db, content, tenant) && k !in Swept(db, order, content, tenant, i)
    ensures !Restricts(db[k], Swept(db, order, content, tenant, i))
  {
    hide GlobalsApart;
    CoveredGoInTurn(db, order, content, tenant, edges, globals, i);
    forall c | c in db[k].refs
      ensures db[k].refs[c].target !in Swept(db, order, content, tenant, i)
    {
      if db[k].refs[c].target.model !in globals {
        PointerGoesFirst(db, order, content, tenant, edges, i, k, db[k].refs[c].target);
      }
    }
  }

  /** A row goes no later than the row it points at. */
  lemma PointerGoesFirst(db: Db, order: seq<Text>, content: Content, tenant: Text, edges: Edges, i: nat, k: Key, t: Key)
    requires DeleteOrder(edges, order) && i <= |order|
    requires k in Covered(db, content, tenant) && t in Covered(db, content, tenant)
    requires t.model == k.model || (k.model in edges && t.model in edges[k.model])
    ensures t in GoneBefore(db, order, content, tenant, i) ==> k in GoneBefore(db, order, content, tenant, i)
  {
    if t in GoneBefore(db, order, content, tenant, i) && t.model != k.model {
      var q :| 0 <= q < i && order[q] == t.model;
      var p := EdgeComesEarlier(edges, order, k.model, t.model, q);
      assert order[..i][p] == k.model;
    }
  }

  /**
   A reference the order does not know of: where a row has a RESTRICT reference to a row whose model is cleared before
   its own, and does not itself go along by a cascade, the clearing fails.
   */
  lemma RestrictedOutOfTurn(db: Db, order: seq<Text>, content: Content, tenant: Text, i: nat, k: Key, c: Text)
    requires i <= |order| && k in Covered(db, content, tenant) && k.model !in order[..i]
    requires c in db[k].refs && db[k].refs[c].onDelete == Restrict && db[k].refs[c].target in GoneBefore(db, order, content, tenant, i)
    requires !CascadesInto(db[k], Swept(db, order, content, tenant, i))
    ensures !MayClear(db, order, content, tenant)
  {
    var gone, swept := GoneBefore(db, order, content, tenant, i), Swept(db, order, content, tenant, i);
    forall x | x in Followers(db, swept - {k})
      ensures x in swept - {k}
    {
      var d :| d in db[x].refs.Keys && db[x].refs[d].onDelete == Cascade && db[x].refs[d].target in swept - {k};
      assert CascadesInto(db[x], swept);
      assert x in Followers(db, swept);
    }
    DoomedLeast(db, gone, swept - {k});
    assert c in db[k].refs.Keys;
    assert Restricts(db[k], swept);
    assert !NothingRestricts(db, swept);
  }

  // -------------------------------------------------------------- when nothing else is touched

  ghost function Without(db: Db, gone: set<Key>): Db {
    map k | k in db && k !in gone :: db[k]
  }

  /** Only rows that will be cleared point at rows that will be cleared. */
  ghost predicate Isolated(db: Db, content: Content, tenant: Text) {
    forall k, c :: k in db && c in db[k].refs && db[k].refs[c].target in Covered(db, content, tenant)
      ==> k in Covered(db, content, tenant)
  }

  /** References among covered rows follow the declared edges. */
  ghost predicate FollowsEdges(db: Db, content: Content, tenant: Text, edges: Edges) {
    forall k, c :: k in Covered(db, content, tenant) && c in db[k].refs && db[k].refs[c].target in Covered(db, content, tenant) ==>
      var t := db[k].refs[c].target;
      t.model == k.model || (k.model in edges && t.model in edges[k.model])
  }

  lemma IsolatedGoAlone(db: Db, order: seq<Text>, content: Content, tenant: Text, edges: Edges, i: nat)
    requires Isolated(db, content, tenant) && FollowsEdges(db, content, tenant, edges)
    requires DeleteOrder(edges, order) && i <= |order|
    ensures Swept(db, order, content, tenant, i) == GoneBefore(db, order, content, tenant, i)
    ensures forall k, c :: k in db && c in db[k].refs && db[k].refs[c].target in GoneBefore(db, order, content, tenant, i)
              ==> k in GoneBefore(db, order, content, tenant, i)
  {
    var gone := GoneBefore(db, order, content, tenant, i);
    forall k, c | k in db && c in db[k].refs && db[k].refs[c].target in gone
      ensures k in gone
    {
      PointerGoesFirst(db, order, content, tenant, edges, i, k, db[k].refs[c].target);
    }
    forall k | k in Followers(db, gone)
      ensures k in gone
    {
      var c :| c in db[k].refs.Keys && db[k].refs[c].onDelete == Cascade && db[k].refs[c].target in gone;
    }
  }

  lemma UntouchedRemaining(db: Db, gone: set<Key>)
    requires forall k, c :: k in db && c in db[k].refs && db[k].refs[c].target in gone ==> k in gone
    ensures Remaining(db, gone) == Without(db, gone) && NothingRestricts(db, gone)
  {
    forall k | k in db && k !in gone
      ensures WithoutRefs(db[k], gone) == db[k]
    {
      assert WithoutRefs(db[k], gone).refs == db[k].refs;
    }
  }

  /**
   Clearing leaves every other row as it was exactly when nothing restricts it and no other row points at a cleared
   one. In all other cases a row of a model the file does not cover is lost, emptied of a reference or stops the restore.
   */
  lemma OtherRowsSurviveExactlyWhenIsolated(db: Db, order: seq<Text>, content: Content, tenant: Text)
    requires forall m :: m in content ==> m in order
    ensures (DeletePhase(db, order, content, tenant).Ok?
             && DeletePhase(db, order, content, tenant).value.db == Without(db, Covered(db, content, tenant)))
            <==> MayClear(db, order, content, tenant) && Isolated(db, content, tenant)
  {
    hide DeletePhase, CountsFrom, MayClear;
    ClearingExactly(db, order, content, tenant);
    if Isolated(db, content, tenant) {
      var covered := Covered(db, content, tenant);
      forall k | k in Followers(db, covered)
        ensures k in covered
      {
        var c :| c in db[k].refs.Keys && db[k].refs[c].onDelete == Cascade && db[k].refs[c].target in covered;
      }
      UntouchedRemaining(db, covered);
    } else if MayClear(db, order, content, tenant) {
      PointedAtIsNoticed(db, order, content, tenant);
    }
  }

  /** Along declared edges, no other row pointing in: nothing restricts the clearing. */
  lemma IsolatedMayClear(db: Db, order: seq<Text>, content: Content, tenant: Text, edges: Edges)
    requires Isolated(db, content, tenant) && FollowsEdges(db, content, tenant, edges) && DeleteOrder(edges, order)
    ensures MayClear(db, order, content, tenant)
  {
    forall i | 0 <= i <= |order|
      ensures NothingRestricts(db, Swept(db, order, content, tenant, i))
    {
      IsolatedGoAlone(db, order, content, tenant, edges, i);
      UntouchedRemaining(db, Swept(db, order, content, tenant, i));
    }
  }

  /** A row outside that points at a cleared one does not stay as it was. */
  lemma PointedAtIsNoticed(db: Db, order: seq<Text>, content: Content, tenant: Text)
    requires !Isolated(db, content, tenant) && MayClear(db, order, content, tenant)
    requires forall m :: m in content ==> m in order
    ensures Remaining(db, Doomed(db, Covered(db, content, tenant))) != Without(db, Covered(db, content, tenant))
  {
    var covered := Covered(db, content, tenant);
    var doomed := Doomed(db, covered);
    assert order[..|order|] == order;
    assert GoneBefore(db, order, content, tenant, |order|) == covered;
    assert NothingRestricts(db, Swept(db, order, content, tenant, |order|));
    var k, c :| k in db && c in db[k].refs && db[k].refs[c].target in covered && k !in covered;
    assert k in Without(db, covered) && Without(db, covered)[k] == db[k];
    if k in Remaining(db, doomed) {
      assert c in db[k].refs.Keys;
      assert k !in Followers(db, doomed) && !CascadesInto(db[k], doomed) && !Restricts(db[k], doomed);
      assert c !in WithoutRefs(db[k], doomed).refs;
    }
  }
}
