/** Choosing which batches to draw from (backend-nest/src/batches/batches.service.ts:546-608, 625-671). */
module Fefo {
  import opened Basics
  import opened Wrappers
  import opened BatchLedger
  import opened ExpirySweep

  datatype Strategy = FEFO | FIFO

  datatype Candidate = Candidate(batch: BatchKey, location: string, available: Units, expiry: Option<int>, createdAt: int)

  /** The ORDER BY of the query: expiry ascending with undated stock last, then receipt date; or receipt date alone. */
  predicate InOrder(s: Strategy, a: Candidate, b: Candidate) {
    match s
    case FIFO => a.createdAt <= b.createdAt
    case FEFO =>
      if a.expiry.None? then b.expiry.None? && a.createdAt <= b.createdAt
      else b.expiry.None? || a.expiry.value < b.expiry.value || (a.expiry.value == b.expiry.value && a.createdAt <= b.createdAt)
  }

  predicate Here(location: Option<string>, l: string) {
    location == None || location == Some(l)
  }

  /** The rows of the query: each sellable level with units available once, in order. Ties may come either way. */
  ghost predicate CandidateRows(b: Books, sku: string, location: Option<string>, s: Strategy, rows: seq<Candidate>) {
    && (forall i, j :: 0 <= i < j < |rows| ==> InOrder(s, rows[i], rows[j]))
    && (forall i, j :: 0 <= i < j < |rows| ==> rows[i].batch != rows[j].batch || rows[i].location != rows[j].location)
    && (forall i :: 0 <= i < |rows| ==>
          Drawable(b, rows[i].batch, rows[i].location)
          && rows[i].batch.sku == sku && Here(location, rows[i].location)
          && rows[i].available == b.levels[rows[i].batch][rows[i].location].available
          && rows[i].expiry == b.batches[rows[i].batch].expiry
          && rows[i].createdAt == b.batches[rows[i].batch].createdAt)
    && (forall key, l :: Drawable(b, key, l) && key.sku == sku && Here(location, l) ==>
          exists i :: 0 <= i < |rows| && rows[i].batch == key && rows[i].location == l)
  }

  function Sum(p: seq<nat>): nat {
    if p == [] then 0 else p[0] + Sum(p[1..])
  }

  function Availables(rows: seq<Candidate>): (p: seq<nat>)
    ensures |p| == |rows| && forall i :: 0 <= i < |rows| ==> p[i] == rows[i].available
  {
    seq(|rows|, i requires 0 <= i < |rows| => rows[i].available)
  }

  /** As much as possible from each in turn. */
  function Greedy(available: seq<nat>, n: nat): (p: seq<nat>)
    ensures |p| == |available| && forall i :: 0 <= i < |available| ==> p[i] <= available[i]
  {
    if available == [] then []
    else
      var take := Min(n, available[0]);
      [take] + Greedy(available[1..], n - take)
  }

  /** What the greedy loop takes from each row. */
  function Takes(rows: seq<Candidate>, n: nat): (p: seq<nat>)
    ensures |p| == |rows| && forall i :: 0 <= i < |rows| ==> p[i] <= rows[i].available
  {
    Greedy(Availables(rows), n)
  }

  /** The allocations written down: one per row that gives anything. */
  function Plan(rows: seq<Candidate>, p: seq<nat>): seq<Allocation>
    requires |p| == |rows|
  {
    if rows == [] then []
    else (if p[0] > 0 then [Allocation(rows[0].batch, rows[0].location, p[0])] else []) + Plan(rows[1..], p[1..])
  }

  datatype Proposal = Proposal(requested: nat, drawn: nat, shortfall: nat, allocations: seq<Allocation>)

  /** The allocation loop. */
  method Allocate(rows: seq<Candidate>, quantity: int) returns (r: Result<Proposal, LedgerError>)
    ensures quantity <= 0 ==> r == Err(InvalidQuantity)
    ensures quantity > 0 ==>
              r.Ok? && r.value.requested == quantity
              && r.value.allocations == Plan(rows, Takes(rows, quantity))
              && r.value.drawn == Sum(Takes(rows, quantity)) && r.value.drawn + r.value.shortfall == quantity
              && TotalUnits(r.value.allocations) == r.value.drawn
  {
    hide Greedy, Takes, Availables, Sum, Plan, TotalUnits;
    if quantity <= 0 {
      return Err(InvalidQuantity);
    }
    var allocations: seq<Allocation> := [];
    var remaining: nat := quantity;
    var i := 0;
    while i < |rows|
      invariant 0 <= i <= |rows|
      invariant Plan(rows, Takes(rows, quantity)) == allocations + Plan(rows[i..], Takes(rows[i..], remaining))
      invariant Sum(Takes(rows, quantity)) == quantity - remaining + Sum(Takes(rows[i..], remaining))
    {
      assert rows[i..][0] == rows[i] && rows[i..][1..] == rows[i + 1..];
      if remaining <= 0 {
        NothingLeft(rows[i..]);
        break;
      }
      var take := Min(remaining, rows[i].available);
      PlanStep(rows[i..], remaining, allocations);
      allocations := allocations + [Allocation(rows[i].batch, rows[i].location, take)];
      remaining := remaining - take;
      i := i + 1;
    }
    if i == |rows| {
      assert rows[i..] == [];
      EmptyPlan(remaining);
    }
    assert allocations + [] == allocations;
    PlanTotals(rows, Takes(rows, quantity));
    r := Ok(Proposal(quantity, quantity - remaining, remaining, allocations));
  }

  lemma PlanStep(rows: seq<Candidate>, n: nat, before: seq<Allocation>)
    requires rows != [] && n > 0
    ensures var take := Min(n, rows[0].available);
            && before + Plan(rows, Takes(rows, n))
                 == (before + [Allocation(rows[0].batch, rows[0].location, take)]) + Plan(rows[1..], Takes(rows[1..], n - take))
            && Sum(Takes(rows, n)) == take + Sum(Takes(rows[1..], n - take))
  {
    hide Greedy, Takes, Availables, Sum, Plan;
    TakesStep(rows, n);
    var take := Min(n, rows[0].available);
    PlanUnfolds(rows, Takes(rows, n));
    var one, rest := [Allocation(rows[0].batch, rows[0].location, take)], Plan(rows[1..], Takes(rows[1..], n - take));
    assert before + (one + rest) == (before + one) + rest;
  }

  lemma PlanUnfolds(rows: seq<Candidate>, p: seq<nat>)
    requires rows != [] && |p| == |rows|
    ensures p[0] > 0 ==> Plan(rows, p) == [Allocation(rows[0].batch, rows[0].location, p[0])] + Plan(rows[1..], p[1..])
  {
  }

  lemma TakesStep(rows: seq<Candidate>, n: nat)
    requires rows != []
    ensures var take := Min(n, rows[0].available);
            Takes(rows, n)[0] == take && Takes(rows, n)[1..] == Takes(rows[1..], n - take)
            && Sum(Takes(rows, n)) == take + Sum(Takes(rows[1..], n - take))
  {
    assert Availables(rows)[1..] == Availables(rows[1..]);
  }

  lemma EmptyPlan(n: nat)
    ensures Plan([], Takes([], n)) == [] && Sum(Takes([], n)) == 0
  {
  }

  lemma {:induction false} NothingLeft(rows: seq<Candidate>)
    ensures Plan(rows, Takes(rows, 0)) == [] && Sum(Takes(rows, 0)) == 0
  {
    if rows != [] {
      TakesStep(rows, 0);
      NothingLeft(rows[1..]);
    }
  }

  lemma {:induction false} SumSplit(p: seq<nat>, k: nat)
    requires k <= |p|
    ensures Sum(p) == Sum(p[..k]) + Sum(p[k..])
  {
    if k == 0 {
      assert p[..0] == [] && p[0..] == p;
    } else {
      SumSplit(p[1..], k - 1);
      assert p[..k][1..] == p[1..][..k - 1] && p[k..] == p[1..][k - 1..];
    }
  }

  lemma {:induction false} SumBelow(p: seq<nat>, q: seq<nat>)
    requires |p| == |q| && forall i :: 0 <= i < |p| ==> p[i] <= q[i]
    ensures Sum(p) <= Sum(q)
  {
    if p != [] {
      SumBelow(p[1..], q[1..]);
    }
  }

  /** The first `k` rows give what is asked or all they have, whichever is less. */
  lemma {:induction false} GreedyPrefix(available: seq<nat>, n: nat, k: nat)
    requires k <= |available|
    ensures Sum(Greedy(available, n)[..k]) == Min(n, Sum(available[..k]))
  {
    var p := Greedy(available, n);
    if k == 0 {
      assert p[..0] == [] && available[..0] == [];
    } else {
      var take := Min(n, available[0]);
      GreedyPrefix(available[1..], n - take, k - 1);
      assert p[..k][1..] == Greedy(available[1..], n - take)[..k - 1];
      assert available[..k][1..] == available[1..][..k - 1];
    }
  }

  /** The proposal covers the request or everything that is sellable, whichever is less. */
  lemma DrawsWhatThereIs(rows: seq<Candidate>, n: nat)
    ensures Sum(Takes(rows, n)) == Min(n, Sum(Availables(rows)))
  {
    GreedyPrefix(Availables(rows), n, |rows|);
    assert Takes(rows, n)[..|rows|] == Takes(rows, n) && Availables(rows)[..|rows|] == Availables(rows);
  }

  function TotalUnits(allocations: seq<Allocation>): nat {
    if allocations == [] then 0 else allocations[0].quantity + TotalUnits(allocations[1..])
  }

  lemma {:induction false} PlanTotals(rows: seq<Candidate>, p: seq<nat>)
    requires |p| == |rows|
    ensures TotalUnits(Plan(rows, p)) == Sum(p)
  {
    if rows != [] {
      PlanTotals(rows[1..], p[1..]);
      var rest := Plan(rows[1..], p[1..]);
      if p[0] > 0 {
        var one := Allocation(rows[0].batch, rows[0].location, p[0]);
        assert Plan(rows, p) == [one] + rest && ([one] + rest)[1..] == rest;
      } else {
        assert Plan(rows, p) == rest;
      }
    }
  }

  /** The proposal names each row that gives anything, with exactly what it gives, and no other. */
  lemma {:induction false} PlanSaysWhatIsTaken(rows: seq<Candidate>, p: seq<nat>, a: Allocation)
    requires |p| == |rows|
    ensures a in Plan(rows, p) <==> exists i :: 0 <= i < |rows| && p[i] > 0 && a == Allocation(rows[i].batch, rows[i].location, p[i])
  {
    if rows != [] {
      var tail, q := rows[1..], p[1..];
      PlanSaysWhatIsTaken(tail, q, a);
      assert forall i :: 0 <= i < |tail| ==> tail[i] == rows[i + 1] && q[i] == p[i + 1];
      if a in Plan(tail, q) {
        var i :| 0 <= i < |tail| && q[i] > 0 && a == Allocation(tail[i].batch, tail[i].location, q[i]);
        assert p[i + 1] > 0 && a == Allocation(rows[i + 1].batch, rows[i + 1].location, p[i + 1]);
      }
      if i :| 0 < i < |rows| && p[i] > 0 && a == Allocation(rows[i].batch, rows[i].location, p[i]) {
        assert q[i - 1] > 0 && a == Allocation(tail[i - 1].batch, tail[i - 1].location, q[i - 1]);
      }
    }
  }

  /** Another way of drawing the same number of units from the same rows. */
  ghost predicate Feasible(rows: seq<Candidate>, n: nat, p: seq<nat>) {
    && |p| == |rows| && (forall i :: 0 <= i < |rows| ==> p[i] <= rows[i].available)
    && Sum(p) == Sum(Takes(rows, n))
  }

  predicate ExpiresBy(c: Candidate, date: int) {
    c.expiry.Some? && c.expiry.value <= date
  }

  predicate ReceivedBy(c: Candidate, date: int) {
    c.createdAt <= date
  }

  /** Expires before the date, or on it and was received by `received`; without a date, all dated goods and the undated received by then. */
  predicate ExpiresBefore(c: Candidate, date: Option<int>, received: int) {
    if c.expiry.None? then date.None? && c.createdAt <= received
    else date.None? || c.expiry.value < date.value || (c.expiry.value == date.value && c.createdAt <= received)
  }

  /** Units a plan draws from the chosen rows. */
  ghost function Drawn(rows: seq<Candidate>, p: seq<nat>, chosen: Candidate -> bool): nat
    requires |p| == |rows|
  {
    if rows == [] then 0
    else (if chosen(rows[0]) then p[0] else 0) + Drawn(rows[1..], p[1..], chosen)
  }

  ghost predicate Sorted(rows: seq<Candidate>, s: Strategy) {
    forall i, j :: 0 <= i < j < |rows| ==> InOrder(s, rows[i], rows[j])
  }

  /** No chosen row stands behind one that is not. */
  ghost predicate ChosenFirst(rows: seq<Candidate>, chosen: Candidate -> bool) {
    forall i, j :: 0 <= i < j < |rows| && chosen(rows[j]) ==> chosen(rows[i])
  }

  lemma {:induction false} ChosenAreAPrefix(rows: seq<Candidate>, chosen: Candidate -> bool) returns (k: nat)
    requires ChosenFirst(rows, chosen)
    ensures k <= |rows| && forall i :: 0 <= i < |rows| ==> (chosen(rows[i]) <==> i < k)
  {
    if rows == [] || !chosen(rows[0]) {
      k := 0;
    } else {
      var tail := rows[1..];
      assert forall i :: 0 <= i < |tail| ==> tail[i] == rows[i + 1];
      k := ChosenAreAPrefix(tail, chosen);
      k := k + 1;
      assert forall i :: 0 < i < |rows| ==> rows[i] == tail[i - 1];
    }
  }

  lemma {:induction false} DrawnFromPrefix(rows: seq<Candidate>, p: seq<nat>, chosen: Candidate -> bool, k: nat)
    requires |p| == |rows| && k <= |rows|
    requires forall i :: 0 <= i < |rows| ==> (chosen(rows[i]) <==> i < k)
    ensures Drawn(rows, p, chosen) == Sum(p[..k])
  {
    if rows != [] {
      var tail := rows[1..];
      assert forall i :: 0 <= i < |tail| ==> tail[i] == rows[i + 1];
      DrawnFromPrefix(tail, p[1..], chosen, if k > 0 then k - 1 else 0);
      if k > 0 {
        assert p[..k][1..] == p[1..][..k - 1];
      } else {
        assert p[..0] == [] && p[1..][..0] == [];
      }
    }
  }

  /** Of rows that come first no plan of the same size draws more. */
  lemma FirstRowsDominate(rows: seq<Candidate>, n: nat, p: seq<nat>, chosen: Candidate -> bool)
    requires ChosenFirst(rows, chosen) && Feasible(rows, n, p)
    ensures Drawn(rows, p, chosen) <= Drawn(rows, Takes(rows, n), chosen)
  {
    var k := ChosenAreAPrefix(rows, chosen);
    DrawnFromPrefix(rows, p, chosen, k);
    DrawnFromPrefix(rows, Takes(rows, n), chosen, k);
    GreedyPrefix(Availables(rows), n, k);
    SumBelow(p[..k], Availables(rows)[..k]);
    SumSplit(p, k);
    DrawsWhatThereIs(rows, n);
  }

  /** First expired, first out: no plan of the same size draws more of what expires by any given date. */
  lemma FefoDominates(rows: seq<Candidate>, n: nat, p: seq<nat>, date: int)
    requires Sorted(rows, FEFO) && Feasible(rows, n, p)
    ensures Drawn(rows, p, (c: Candidate) => ExpiresBy(c, date)) <= Drawn(rows, Takes(rows, n), (c: Candidate) => ExpiresBy(c, date))
  {
    FirstRowsDominate(rows, n, p, (c: Candidate) => ExpiresBy(c, date));
  }

  /** Nor, of goods of one date or of none, more of what was received by any given time together with all that expires before. */
  lemma FefoDominatesWithinADate(rows: seq<Candidate>, n: nat, p: seq<nat>, date: Option<int>, received: int)
    requires Sorted(rows, FEFO) && Feasible(rows, n, p)
    ensures Drawn(rows, p, (c: Candidate) => ExpiresBefore(c, date, received))
              <= Drawn(rows, Takes(rows, n), (c: Candidate) => ExpiresBefore(c, date, received))
  {
    FirstRowsDominate(rows, n, p, (c: Candidate) => ExpiresBefore(c, date, received));
  }

  /** First in, first out: no plan of the same size draws more of what was received by any given time. */
  lemma FifoDominates(rows: seq<Candidate>, n: nat, p: seq<nat>, date: int)
    requires Sorted(rows, FIFO) && Feasible(rows, n, p)
    ensures Drawn(rows, p, (c: Candidate) => ReceivedBy(c, date)) <= Drawn(rows, Takes(rows, n), (c: Candidate) => ReceivedBy(c, date))
  {
    FirstRowsDominate(rows, n, p, (c: Candidate) => ReceivedBy(c, date));
  }

  lemma DatedBeforeUndated(rows: seq<Candidate>, i: nat, j: nat)
    requires Sorted(rows, FEFO) && i < |rows| && j < |rows|
    requires rows[i].expiry.None? && rows[j].expiry.Some?
    ensures j < i
  {
    assert !InOrder(FEFO, rows[i], rows[j]);
  }

  /** Undated stock is drawn only once every dated row has given all it has. */
  lemma DatedStockGoesFirst(rows: seq<Candidate>, n: nat, i: nat, j: nat)
    requires Sorted(rows, FEFO) && i < |rows| && j < |rows|
    requires rows[i].expiry.None? && Takes(rows, n)[i] > 0
    requires rows[j].expiry.Some?
    ensures Takes(rows, n)[j] == rows[j].available
  {
    hide Greedy, Sorted;
    DatedBeforeUndated(rows, i, j);
    LaterMeansDrained(Availables(rows), n, j, i);
  }

  /** A row is drawn from only when every row before it is drained. */
  lemma {:induction false} LaterMeansDrained(available: seq<nat>, n: nat, j: nat, i: nat)
    requires j < i < |available| && Greedy(available, n)[i] > 0
    ensures Greedy(available, n)[j] == available[j]
  {
    hide Greedy;
    var take := Min(n, available[0]);
    var tail := available[1..];
    GreedyAt(available, n, i);
    GreedyAt(available, n, j);
    if j > 0 {
      LaterMeansDrained(tail, n - take, j - 1, i - 1);
      assert tail[j - 1] == available[j];
    } else if n == take {
      TakesNothing(tail, i - 1);
    }
  }

  lemma GreedyAt(available: seq<nat>, n: nat, i: nat)
    requires i < |available|
    ensures Greedy(available, n)[i] == if i == 0 then Min(n, available[0]) else Greedy(available[1..], n - Min(n, available[0]))[i - 1]
  {
  }

  lemma {:induction false} TakesNothing(available: seq<nat>, i: nat)
    requires i < |available|
    ensures Greedy(available, 0)[i] == 0
  {
    if i > 0 {
      TakesNothing(available[1..], i - 1);
    }
  }

  /** A fresh proposal names only batches that can be drawn, and never more than they have. */
  lemma {:induction false} ProposalIsAvailable(b: Books, rows: seq<Candidate>, p: seq<nat>, a: Allocation)
    requires |p| == |rows| && a in Plan(rows, p)
    requires forall i :: 0 <= i < |rows| ==> p[i] <= rows[i].available && Drawable(b, rows[i].batch, rows[i].location)
                                             && rows[i].available == b.levels[rows[i].batch][rows[i].location].available
    ensures Drawable(b, a.batch, a.location) && HasAvailable(b, a)
  {
    if p[0] > 0 && a == Allocation(rows[0].batch, rows[0].location, p[0]) {
    } else {
      ProposalIsAvailable(b, rows[1..], p[1..], a);
    }
  }

  /** After a sweep no proposal contains stale goods. */
  lemma NoStaleProposal(b: Books, c: Catalogue, now: int, sku: string, location: Option<string>, s: Strategy, rows: seq<Candidate>, n: nat, a: Allocation)
    requires Balanced(b)
    ensures CandidateRows(Scanned(b, c, now), sku, location, s, rows) && a in Plan(rows, Takes(rows, n)) ==>
              a.batch in Scanned(b, c, now).batches && !Stale(Scanned(b, c, now).batches[a.batch], RuleFor(c, a.batch.sku), now)
  {
    if CandidateRows(Scanned(b, c, now), sku, location, s, rows) && a in Plan(rows, Takes(rows, n)) {
      ProposalIsAvailable(Scanned(b, c, now), rows, Takes(rows, n), a);
      NothingStaleIsDrawable(b, c, now, a.batch, a.location);
    }
  }
}
