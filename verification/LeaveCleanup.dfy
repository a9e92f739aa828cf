/**
 * Removing overlapping approved leaves (backend-nest/src/admin/admin.controller.ts:80-153).
 *
 * Days are day numbers. The leaves arrive ordered by employee and start, and each employee's are taken in turn.
 */
module LeaveCleanup {
  datatype Leave = Leave(id: nat, employee: string, start: int, end: int)

  predicate Overlap(a: Leave, b: Leave) {
    a.start <= b.end && a.end >= b.start
  }

  predicate DistinctIds(leaves: seq<Leave>) {
    forall i, j :: 0 <= i < j < |leaves| ==> leaves[i].id != leaves[j].id
  }

  predicate DistinctNumbers(s: seq<nat>) {
    forall i, j :: 0 <= i < j < |s| ==> s[i] != s[j]
  }

  ghost predicate Names(leaves: seq<Leave>, d: nat) {
    exists j :: 0 <= j < |leaves| && leaves[j].id == d
  }

  /** The leave at `j` is dropped for one before it that is not dropped itself. */
  ghost predicate Justified(leaves: seq<Leave>, dropped: seq<nat>, j: nat)
    requires j < |leaves|
  {
    exists i :: 0 <= i < j && leaves[i].id !in dropped && Overlap(leaves[i], leaves[j])
  }

  /** What one pass over an employee's leaves must find. */
  ghost predicate Settled(leaves: seq<Leave>, dropped: seq<nat>) {
    && DistinctNumbers(dropped)
    && (forall d {:trigger Names(leaves, d)} :: d in dropped ==> Names(leaves, d))
    && (forall i, j :: 0 <= i < j < |leaves| && leaves[i].id !in dropped && leaves[j].id !in dropped ==> !Overlap(leaves[i], leaves[j]))
    && (forall j :: 0 <= j < |leaves| && leaves[j].id in dropped ==> Justified(leaves, dropped, j))
  }

  /** Settling leaves no choice: the first leave stays, and each later one stays exactly when it overlaps no kept one. */
  lemma {:induction false} SettledIsUnique(leaves: seq<Leave>, one: seq<nat>, two: seq<nat>, j: nat)
    requires DistinctIds(leaves) && Settled(leaves, one) && Settled(leaves, two) && j < |leaves|
    ensures leaves[j].id in one <==> leaves[j].id in two
    decreases j
  {
    if leaves[j].id in one && leaves[j].id !in two {
      UniqueOneWay(leaves, one, two, j);
    } else if leaves[j].id in two && leaves[j].id !in one {
      UniqueOneWay(leaves, two, one, j);
    }
  }

  lemma {:induction false} UniqueOneWay(leaves: seq<Leave>, one: seq<nat>, two: seq<nat>, j: nat)
    requires DistinctIds(leaves) && Settled(leaves, one) && Settled(leaves, two) && j < |leaves|
    ensures leaves[j].id in one ==> leaves[j].id in two
    decreases j, 0
  {
    if leaves[j].id in one {
      assert Justified(leaves, one, j);
      var i :| 0 <= i < j && leaves[i].id !in one && Overlap(leaves[i], leaves[j]);
      UniqueOneWay(leaves, two, one, i);
    }
  }

  /** The nested loops over one employee's leaves. */
  method FindOverlapping(leaves: seq<Leave>) returns (dropped: seq<nat>)
    requires DistinctIds(leaves)
    ensures Settled(leaves, dropped)
  {
    hide Scanned, Settled, DistinctIds;
    dropped := [];
    NothingScanned(leaves);
    for i := 0 to |leaves|
      invariant Scanned(leaves, dropped, i)
    {
      if leaves[i].id in dropped {
        DroppedNeedsNoScan(leaves, dropped, i);
        continue;
      }
      dropped := DropOverlapping(leaves, dropped, i);
    }
    AllScanned(leaves, dropped);
  }

  lemma NothingScanned(leaves: seq<Leave>)
    ensures Scanned(leaves, [], 0)
  {
  }

  lemma DroppedNeedsNoScan(leaves: seq<Leave>, dropped: seq<nat>, i: nat)
    requires i < |leaves| && Scanned(leaves, dropped, i) && leaves[i].id in dropped
    ensures Scanned(leaves, dropped, i + 1)
  {
    forall j | 0 <= j < |leaves| && leaves[j].id in dropped
      ensures JustifiedBy(leaves, dropped, j, i + 1)
    {
      assert JustifiedBy(leaves, dropped, j, i);
    }
  }

  lemma AllScanned(leaves: seq<Leave>, dropped: seq<nat>)
    requires Scanned(leaves, dropped, |leaves|)
    ensures Settled(leaves, dropped)
  {
    forall j | 0 <= j < |leaves| && leaves[j].id in dropped
      ensures Justified(leaves, dropped, j)
    {
      assert JustifiedBy(leaves, dropped, j, |leaves|);
    }
  }

  /** Everything before `n` has been compared with all that follows. */
  ghost predicate Scanned(leaves: seq<Leave>, dropped: seq<nat>, n: int) {
    && DistinctNumbers(dropped)
    && (forall d {:trigger Names(leaves, d)} :: d in dropped ==> Names(leaves, d))
    && (forall i, j :: 0 <= i < n && i < j < |leaves| && leaves[i].id !in dropped && leaves[j].id !in dropped ==> !Overlap(leaves[i], leaves[j]))
    && (forall j :: 0 <= j < |leaves| && leaves[j].id in dropped ==> JustifiedBy(leaves, dropped, j, n))
  }

  ghost predicate JustifiedBy(leaves: seq<Leave>, dropped: seq<nat>, j: nat, n: int)
    requires j < |leaves|
  {
    exists i :: 0 <= i < j && i < n && leaves[i].id !in dropped && Overlap(leaves[i], leaves[j])
  }

  /** The inner loop for one kept leave: what follows and overlaps it is dropped, nothing else. */
  method DropOverlapping(leaves: seq<Leave>, before: seq<nat>, i: nat) returns (dropped: seq<nat>)
    requires DistinctIds(leaves) && i < |leaves| && Scanned(leaves, before, i) && leaves[i].id !in before
    ensures Scanned(leaves, dropped, i + 1)
  {
    dropped := before;
    for j := i + 1 to |leaves|
      invariant DistinctNumbers(dropped)
      invariant forall d :: d in dropped <==> d in before || exists k :: i < k < j && leaves[k].id == d && Overlap(leaves[i], leaves[k])
    {
      if leaves[j].id in dropped {
        continue;
      }
      if Overlap(leaves[i], leaves[j]) {
        dropped := dropped + [leaves[j].id];
      }
    }
    StillScanned(leaves, before, dropped, i);
  }

  lemma StillScanned(leaves: seq<Leave>, before: seq<nat>, dropped: seq<nat>, i: nat)
    requires DistinctIds(leaves) && i < |leaves| && Scanned(leaves, before, i) && leaves[i].id !in before
    requires DistinctNumbers(dropped)
    requires forall d :: d in dropped <==> d in before || exists k :: i < k < |leaves| && leaves[k].id == d && Overlap(leaves[i], leaves[k])
    ensures Scanned(leaves, dropped, i + 1)
  {
    assert leaves[i].id !in dropped;
    forall j | 0 <= j < |leaves| && leaves[j].id in dropped
      ensures JustifiedBy(leaves, dropped, j, i + 1)
    {
      if leaves[j].id in before {
        assert JustifiedBy(leaves, before, j, i);
        var k :| 0 <= k < j && k < i && leaves[k].id !in before && Overlap(leaves[k], leaves[j]);
        assert leaves[k].id !in dropped;
      } else {
        assert i < j && Overlap(leaves[i], leaves[j]);
      }
    }
  }

  // ------------------------------------------------------------------ all employees

  function Group(all: seq<Leave>, employee: string): seq<Leave> {
    if all == [] then []
    else (if all[0].employee == employee then [all[0]] else []) + Group(all[1..], employee)
  }

  lemma {:induction false} GroupMembers(all: seq<Leave>, employee: string, l: Leave)
    ensures l in Group(all, employee) <==> l in all && l.employee == employee
  {
    if all != [] {
      GroupMembers(all[1..], employee, l);
      assert all == [all[0]] + all[1..];
    }
  }

  lemma {:induction false} GroupAppend(all: seq<Leave>, l: Leave, employee: string)
    ensures Group(all + [l], employee) == Group(all, employee) + (if l.employee == employee then [l] else [])
  {
    if all == [] {
      assert all + [l] == [l];
      assert [l][1..] == [];
    } else {
      GroupAppend(all[1..], l, employee);
      assert (all + [l])[1..] == all[1..] + [l];
    }
  }

  lemma {:induction false} GroupKeepsIdsApart(all: seq<Leave>, employee: string)
    requires DistinctIds(all)
    ensures DistinctIds(Group(all, employee))
  {
    if all != [] {
      var first, rest := all[0], all[1..];
      assert forall i :: 0 <= i < |rest| ==> rest[i] == all[i + 1];
      GroupKeepsIdsApart(rest, employee);
      var tail := Group(rest, employee);
      forall i | 0 <= i < |tail|
        ensures tail[i] in rest
      {
        GroupMembers(rest, employee, tail[i]);
      }
      var g := (if first.employee == employee then [first] else []) + tail;
      forall i, j | 0 <= i < j < |g|
        ensures g[i].id != g[j].id
      {
        if first.employee == employee { assert g[j] == tail[j - 1]; }
      }
    }
  }

  lemma IdsNameLeaves(all: seq<Leave>, a: Leave, b: Leave)
    requires DistinctIds(all) && a in all && b in all && a.id == b.id
    ensures a == b
  {
    var i :| 0 <= i < |all| && all[i] == a;
    var j :| 0 <= j < |all| && all[j] == b;
  }

  /** One list per employee met so far, in the order of the leaves. */
  ghost predicate Grouped(all: seq<Leave>, groups: map<string, seq<Leave>>) {
    && (forall i :: 0 <= i < |all| ==> all[i].employee in groups)
    && (forall e :: e in groups ==> groups[e] == Group(all, e))
  }

  lemma {:induction false} GroupOfNobody(all: seq<Leave>, e: string)
    requires forall i :: 0 <= i < |all| ==> all[i].employee != e
    ensures Group(all, e) == []
  {
    if all != [] { GroupOfNobody(all[1..], e); }
  }

  lemma GroupedFurther(all: seq<Leave>, groups: map<string, seq<Leave>>, l: Leave)
    requires Grouped(all, groups)
    ensures var group := if l.employee in groups then groups[l.employee] else [];
            Grouped(all + [l], groups[l.employee := group + [l]])
  {
    hide Group;
    var group := if l.employee in groups then groups[l.employee] else [];
    if l.employee !in groups { GroupOfNobody(all, l.employee); }
    forall e | e in groups[l.employee := group + [l]]
      ensures groups[l.employee := group + [l]][e] == Group(all + [l], e)
    {
      GroupAppend(all, l, e);
      assert Group(all, e) + [] == Group(all, e);
    }
  }

  method GroupByEmployee(all: seq<Leave>) returns (groups: map<string, seq<Leave>>)
    ensures Grouped(all, groups)
  {
    hide Grouped;
    groups := map[];
    assert Grouped([], groups) by { NobodyGrouped(); }
    assert all[..0] == [];
    for n := 0 to |all|
      invariant Grouped(all[..n], groups)
    {
      var l := all[n];
      assert all[..n + 1] == all[..n] + [l];
      GroupedFurther(all[..n], groups, l);
      var group := if l.employee in groups then groups[l.employee] else [];
      groups := groups[l.employee := group + [l]];
    }
    assert all[..|all|] == all;
  }

  lemma NobodyGrouped()
    ensures Grouped([], map[])
  {
  }

  /** The ids each employee loses are settled over that employee's leaves, and they are all that is lost. */
  ghost predicate Cleaned(all: seq<Leave>, before: map<nat, Leave>, rows: map<nat, Leave>, dropped: map<string, seq<nat>>) {
    && (forall e :: e in dropped ==> Settled(Group(all, e), dropped[e]))
    && (forall id :: id in rows ==> id in before && rows[id] == before[id])
    && (forall id :: id in before ==> (id !in rows <==> exists e :: e in dropped && id in dropped[e]))
  }

  /** Deleting one employee's ids keeps what is settled of the others. */
  lemma CleanedFurther(all: seq<Leave>, before: map<nat, Leave>, rows: map<nat, Leave>, dropped: map<string, seq<nat>>, e: string, ids: seq<nat>)
    requires Cleaned(all, before, rows, dropped) && e !in dropped && Settled(Group(all, e), ids)
    ensures Cleaned(all, before, rows - (set d | d in ids), dropped[e := ids])
  {
    hide Settled;
    var dropped' := dropped[e := ids];
    var rows' := rows - (set d | d in ids);
    forall id | id in before
      ensures id !in rows' <==> exists x :: x in dropped' && id in dropped'[x]
    {
      if x :| x in dropped && id in dropped[x] { assert dropped'[x] == dropped[x]; }
      if id in ids { assert id in dropped'[e]; }
    }
  }

  /** An id that one employee loses names a leave of that employee. */
  lemma LostIdIsOwn(all: seq<Leave>, dropped: seq<nat>, e: string, l: Leave)
    requires DistinctIds(all) && Settled(Group(all, e), dropped) && l in all && l.id in dropped
    ensures l.employee == e && l in Group(all, e)
  {
    hide Group, DistinctIds;
    var leaves := Group(all, e);
    assert Names(leaves, l.id);
    var j :| 0 <= j < |leaves| && leaves[j].id == l.id;
    assert leaves[j] in leaves;
    GroupMembers(all, e, leaves[j]);
    IdsNameLeaves(all, leaves[j], l);
  }

  lemma RemainsExactlyWhen(all: seq<Leave>, before: map<nat, Leave>, rows: map<nat, Leave>, dropped: map<string, seq<nat>>, l: Leave)
    requires Cleaned(all, before, rows, dropped) && DistinctIds(all) && l in all && l.id in before
    ensures l.id in rows <==> l.employee !in dropped || l.id !in dropped[l.employee]
  {
    hide Settled, Group, DistinctIds;
    if l.id !in rows {
      var e :| e in dropped && l.id in dropped[e];
      LostIdIsOwn(all, dropped[e], e, l);
    }
  }

  /** No two leaves of one employee that remain overlap. */
  lemma RemainingAreDisjoint(all: seq<Leave>, before: map<nat, Leave>, rows: map<nat, Leave>, dropped: map<string, seq<nat>>, a: Leave, b: Leave)
    requires Cleaned(all, before, rows, dropped) && DistinctIds(all)
    ensures a in all && b in all && a.id in rows && b.id in rows && a.id != b.id && a.employee == b.employee && a.employee in dropped ==> !Overlap(a, b)
  {
    if a in all && b in all && a.id in rows && b.id in rows && a.id != b.id && a.employee == b.employee && a.employee in dropped {
      PairIsDisjoint(all, before, rows, dropped, a, b);
    }
  }

  lemma PairIsDisjoint(all: seq<Leave>, before: map<nat, Leave>, rows: map<nat, Leave>, dropped: map<string, seq<nat>>, a: Leave, b: Leave)
    requires Cleaned(all, before, rows, dropped) && DistinctIds(all) && a.employee in dropped
    requires a in all && b in all && a.id in rows && b.id in rows && a.id != b.id && a.employee == b.employee
    ensures !Overlap(a, b)
  {
    hide Cleaned, DistinctIds, Group;
    assert a.id in before && b.id in before && Settled(Group(all, a.employee), dropped[a.employee]) by { CleanedSays(all, before, rows, dropped, a.employee); }
    RemainsExactlyWhen(all, before, rows, dropped, a);
    RemainsExactlyWhen(all, before, rows, dropped, b);
    GroupMembers(all, a.employee, a);
    GroupMembers(all, a.employee, b);
    KeptAreDisjoint(Group(all, a.employee), dropped[a.employee], a, b);
  }

  lemma CleanedSays(all: seq<Leave>, before: map<nat, Leave>, rows: map<nat, Leave>, dropped: map<string, seq<nat>>, e: string)
    requires Cleaned(all, before, rows, dropped)
    ensures e in dropped ==> Settled(Group(all, e), dropped[e])
    ensures forall id :: id in rows ==> id in before && rows[id] == before[id]
  {
    hide Settled, Group;
  }

  lemma KeptAreDisjoint(leaves: seq<Leave>, dropped: seq<nat>, a: Leave, b: Leave)
    requires Settled(leaves, dropped) && a in leaves && b in leaves && a.id != b.id
    requires a.id !in dropped && b.id !in dropped
    ensures !Overlap(a, b)
  {
    var i :| 0 <= i < |leaves| && leaves[i] == a;
    var j :| 0 <= j < |leaves| && leaves[j] == b;
  }

  lemma DroppedOverlapsAKeptOne(leaves: seq<Leave>, dropped: seq<nat>, l: Leave)
    requires Settled(leaves, dropped) && l in leaves && l.id in dropped
    ensures exists k :: k in leaves && k.id !in dropped && Overlap(k, l)
  {
    var j :| 0 <= j < |leaves| && leaves[j] == l;
    assert Justified(leaves, dropped, j);
    var i :| 0 <= i < j && leaves[i].id !in dropped && Overlap(leaves[i], leaves[j]);
    assert leaves[i] in leaves;
  }

  /** Whatever is deleted overlaps a leave of the same employee that remains. */
  lemma DeletedOverlapsARemainingOne(all: seq<Leave>, before: map<nat, Leave>, rows: map<nat, Leave>, dropped: map<string, seq<nat>>, l: Leave)
    requires Cleaned(all, before, rows, dropped) && DistinctIds(all)
    requires forall k :: k in all ==> k.id in before
    requires l in all && l.id !in rows
    ensures exists k :: k in all && k.employee == l.employee && k.id in rows && Overlap(k, l)
  {
    hide Cleaned, DistinctIds, Group, Settled;
    RemainsExactlyWhen(all, before, rows, dropped, l);
    var e := l.employee;
    CleanedSays(all, before, rows, dropped, e);
    GroupMembers(all, e, l);
    DroppedOverlapsAKeptOne(Group(all, e), dropped[e], l);
    var k :| k in Group(all, e) && k.id !in dropped[e] && Overlap(k, l);
    GroupMembers(all, e, k);
    RemainsExactlyWhen(all, before, rows, dropped, k);
  }

  predicate Covers(l: Leave, day: int) {
    l.start <= day <= l.end
  }

  /** Leaves that begin no later than they end overlap exactly if some calendar day lies in both. */
  lemma OverlapIsASharedDay(a: Leave, b: Leave)
    ensures (exists day :: Covers(a, day) && Covers(b, day)) ==> Overlap(a, b)
    ensures Overlap(a, b) && a.start <= a.end && b.start <= b.end ==> exists day :: Covers(a, day) && Covers(b, day)
  {
    if Overlap(a, b) && a.start <= a.end && b.start <= b.end {
      var day := if a.start > b.start then a.start else b.start;
      assert Covers(a, day) && Covers(b, day);
    }
  }

  /** No calendar day lies in two remaining leaves of one employee. */
  lemma NoDayIsTakenTwice(all: seq<Leave>, before: map<nat, Leave>, rows: map<nat, Leave>, dropped: map<string, seq<nat>>, a: Leave, b: Leave, day: int)
    requires Cleaned(all, before, rows, dropped) && DistinctIds(all)
    requires a in all && b in all && a.id in rows && b.id in rows && a.id != b.id && a.employee == b.employee && a.employee in dropped
    ensures !(Covers(a, day) && Covers(b, day))
  {
    hide Cleaned, DistinctIds, Covers;
    RemainingAreDisjoint(all, before, rows, dropped, a, b);
    OverlapIsASharedDay(a, b);
  }

  /** Every deleted leave shares a day with one of the same employee that remains. */
  lemma DeletedSharesADay(all: seq<Leave>, before: map<nat, Leave>, rows: map<nat, Leave>, dropped: map<string, seq<nat>>, l: Leave)
    requires Cleaned(all, before, rows, dropped) && DistinctIds(all)
    requires forall k :: k in all ==> k.id in before && k.start <= k.end
    requires l in all && l.id !in rows
    ensures exists k, day :: k in all && k.employee == l.employee && k.id in rows && Covers(k, day) && Covers(l, day)
  {
    hide Cleaned, DistinctIds, Covers;
    DeletedOverlapsARemainingOne(all, before, rows, dropped, l);
    var k :| k in all && k.employee == l.employee && k.id in rows && Overlap(k, l);
    OverlapIsASharedDay(k, l);
  }

  /** An employee not yet treated has lost nothing. */
  lemma StillThere(all: seq<Leave>, before: map<nat, Leave>, rows: map<nat, Leave>, dropped: map<string, seq<nat>>, e: string)
    requires Cleaned(all, before, rows, dropped) && DistinctIds(all) && e !in dropped
    requires forall k :: k in all ==> k.id in before && before[k.id] == k
    ensures forall i :: 0 <= i < |Group(all, e)| ==> Group(all, e)[i].id in rows && rows[Group(all, e)[i].id] == Group(all, e)[i]
  {
    hide Cleaned, DistinctIds, Group, Settled;
    var leaves := Group(all, e);
    CleanedSays(all, before, rows, dropped, e);
    forall i | 0 <= i < |leaves|
      ensures leaves[i].id in rows && rows[leaves[i].id] == leaves[i]
    {
      assert leaves[i] in leaves;
      GroupMembers(all, e, leaves[i]);
      RemainsExactlyWhen(all, before, rows, dropped, leaves[i]);
    }
  }

  class LeaveTable {
    var rows: map<nat, Leave>

    constructor (rows: map<nat, Leave>)
      ensures this.rows == rows
    {
      this.rows := rows;
    }

    /**
     * The pass over one employee: afterwards that employee's remaining leaves are pairwise disjoint, every deleted
     * one overlapped a remaining one that came before it, and no other row is touched.
     */
    method CleanEmployee(leaves: seq<Leave>) returns (deleted: seq<nat>)
      requires DistinctIds(leaves)
      requires forall i :: 0 <= i < |leaves| ==> leaves[i].id in rows && rows[leaves[i].id] == leaves[i]
      modifies this
      ensures Settled(leaves, deleted)
      ensures rows == old(rows) - (set d | d in deleted)
    {
      deleted := [];
      ghost var before := rows;
      if |leaves| < 2 {
        assert rows == before - (set d | d in deleted);
        return;
      }
      deleted := FindOverlapping(leaves);
      for i := 0 to |deleted|
        invariant rows == before - (set d | d in deleted[..i])
      {
        assert deleted[..i + 1] == deleted[..i] + [deleted[i]];
        rows := rows - {deleted[i]};
      }
      assert deleted[..|deleted|] == deleted;
    }

    /** `cleanupOverlappingLeaves`. */
    method CleanUp(all: seq<Leave>) returns (ghost dropped: map<string, seq<nat>>)
      requires DistinctIds(all)
      requires forall k :: k in all ==> k.id in rows && rows[k.id] == k
      modifies this
      ensures Cleaned(all, old(rows), rows, dropped)
      ensures forall i :: 0 <= i < |all| ==> all[i].employee in dropped
    {
      hide Cleaned, DistinctIds, Settled, Group;
      dropped := map[];
      ghost var before := rows;
      var groups := GroupByEmployee(all);
      var rest := groups.Keys;
      NothingCleaned(all, rows);
      while rest != {}
        invariant rest <= groups.Keys && dropped.Keys == groups.Keys - rest
        invariant Cleaned(all, before, rows, dropped)
        decreases rest
      {
        var e :| e in rest;
        rest := rest - {e};
        GroupKeepsIdsApart(all, e);
        StillThere(all, before, rows, dropped, e);
        ghost var was := rows;
        var deleted := CleanEmployee(groups[e]);
        CleanedFurther(all, before, was, dropped, e, deleted);
        dropped := dropped[e := deleted];
      }
    }
  }

  lemma NothingCleaned(all: seq<Leave>, rows: map<nat, Leave>)
    ensures Cleaned(all, rows, rows, map[])
  {
  }
}
