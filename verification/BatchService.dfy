/**
 The ledger service as it runs: rows updated one statement at a time inside the
 caller's transaction, which rolls everything back on an error
 (backend-nest/src/batches/batches.service.ts:383-533, 680-780,
 backend-nest/src/batches/expiry.service.ts:231-359).
 */
module BatchService {
  import opened Basics
  import opened Wrappers
  import opened BatchLedger
  import opened ExpirySweep
  import opened BatchRuns

  /** The batches that have come into a status. */
  ghost function Turned(before: map<BatchKey, Batch>, after: map<BatchKey, Batch>, s: Status): set<BatchKey> {
    set k | k in before && k in after && before[k].status != s && after[k].status == s
  }

  /** One more batch is decided on: it joins those that came into a status if that is the one it gets. */
  lemma OneMoreTurned(before: map<BatchKey, Batch>, after: map<BatchKey, Batch>, key: BatchKey, batch: Batch, s: Status)
    requires key in before && key in after && after[key] == before[key] && before[key].status != s
    ensures |Turned(before, after[key := batch], s)| == |Turned(before, after, s)| + if batch.status == s then 1 else 0
  {
    var few, more := Turned(before, after, s), Turned(before, after[key := batch], s);
    assert key !in few;
    assert more == if batch.status == s then few + {key} else few;
  }

  /** A notice goes out for what expired, was quarantined or is within a warning window, even if marked before. */
  predicate DueNotice(expiry: int, rule: Windows, now: int) {
    || expiry < now
    || (rule.blockDays > 0 && expiry < now + (rule.blockDays + 1) * 86400000)
    || expiry < now + (rule.criticalDays + 1) * 86400000
    || expiry < now + (rule.warnDays + 1) * 86400000
  }

  lemma NoticeIsDue(expiry: int, rule: Windows, now: int)
    ensures DueNotice(expiry, rule, now)
       <==> BandOf(DaysLeft(expiry, now), rule) != Fine || (rule.blockDays > 0 && DaysLeft(expiry, now) <= rule.blockDays)
  {
    DayArithmetic(expiry - now);
    WholeDays(expiry - now, rule.blockDays);
    WholeDays(expiry - now, rule.warnDays);
    WholeDays(expiry - now, rule.criticalDays);
  }

  /** Those of the batches for which one goes out. */
  ghost function Noticed(keys: seq<BatchKey>, b: Books, c: Catalogue, now: int): set<BatchKey> {
    set k | k in keys && k in b.batches && b.batches[k].expiry.Some? && DueNotice(b.batches[k].expiry.value, RuleFor(c, k.sku), now)
  }

  lemma OneMoreNoticed(keys: seq<BatchKey>, key: BatchKey, b: Books, c: Catalogue, now: int)
    requires key !in keys && key in b.batches && b.batches[key].expiry.Some?
    ensures |Noticed(keys + [key], b, c, now)|
              == |Noticed(keys, b, c, now)| + if DueNotice(b.batches[key].expiry.value, RuleFor(c, key.sku), now) then 1 else 0
  {
    hide DueNotice, RuleFor;
    var few, more := Noticed(keys, b, c, now), Noticed(keys + [key], b, c, now);
    assert more == if DueNotice(b.batches[key].expiry.value, RuleFor(c, key.sku), now) then few + {key} else few;
  }

  /** What the movement of an order means for every batch and location. */
  ghost predicate AllMovedBy(b: Books, after: Books, kind: Movement, allocations: seq<Allocation>) {
    forall key, location {:trigger OnHand(after, key, location)} :: MovedBy(b, after, kind, allocations, key, location)
  }

  /** Orders keep the ledgers balanced and move their units, releases as long as they give back what is held. */
  lemma KeptByMoves(b: Books, kind: Movement, allocations: seq<Allocation>)
    ensures Balanced(b) && Admissible(b, kind, allocations) && MoveAll(b, kind, allocations).Ok? ==>
              var after := MoveAll(b, kind, allocations).value; Balanced(after) && AllMovedBy(b, after, kind, allocations)
    ensures kind != Release ==> Admissible(b, kind, allocations)
  {
    if Balanced(b) && Admissible(b, kind, allocations) && MoveAll(b, kind, allocations).Ok? {
      hide Balanced, MoveAll, Admissible, MovedBy;
      MoveAllKeepsBalance(b, kind, allocations);
      forall key, location
        ensures MovedBy(b, MoveAll(b, kind, allocations).value, kind, allocations, key, location)
      {
        OrdersMoveTheirUnits(b, kind, allocations, key, location);
      }
    }
  }

  lemma KeptByStatus(b: Books, key: BatchKey, status: Status)
    requires key in b.batches
    ensures Balanced(b) ==> Balanced(b.(batches := b.batches[key := b.batches[key].(status := status)]))
  {
    if Balanced(b) {
      NewStatusKeepsBalance(b, key, status);
    }
  }

  lemma KeptByReceipt(b: Books, read: Option<Batch>, product: Option<Product>, input: Receipt, now: int)
    requires read.Some? ==> read.value.quantity >= 0
    ensures Balanced(b) && ReceiveRead(b, read, product, input, now).Ok? ==> Balanced(ReceiveRead(b, read, product, input, now).value)
  {
    hide ReceiveRead, Balanced;
    if Balanced(b) && ReceiveRead(b, read, product, input, now).Ok? {
      ReceiveKeepsBalance(b, read, product, input, now);
    }
  }

  /** The rows the sweep reads: every batch in stock, dated and on sale, once. */
  ghost predicate SweptRows(b: Books, found: seq<BatchKey>) {
    && (forall i, j :: 0 <= i < j < |found| ==> found[i] != found[j])
    && (forall i :: 0 <= i < |found| ==> found[i] in b.batches && Swept(b.batches[found[i]]))
    && forall k :: k in b.batches && Swept(b.batches[k]) ==> k in found
  }

  /** What a change of one stock cell means: refused exactly when too little is there, and otherwise exact. */
  ghost predicate StockMoved(before: map<StockKey, Level>, after: map<StockKey, Level>, key: StockKey, change: int, ok: bool) {
    && (ok <==> change > 0 || (change < 0 && key in before && before[key].quantity + change >= 0))
    && (!ok ==> after == before)
    && (ok ==>
          && key in after && after - {key} == before - {key}
          && after[key].reserved == (if key in before then before[key].reserved else 0)
          && ((key in before ==> before[key].quantity >= 0) ==>
                after[key].quantity == (if key in before then before[key].quantity else 0) + change)
          && (after[key].reserved <= after[key].quantity ==> after[key].available + after[key].reserved == after[key].quantity))
  }

  class Ledger {
    var batches: map<BatchKey, Batch>
    var levels: map<BatchKey, map<string, Level>>
    var stock: map<StockKey, Level>

    function Now(): Books
      reads this
    {
      Books(batches, levels, stock)
    }

    /** The three ledgers agree. */
    ghost predicate Valid()
      reads this
    {
      Balanced(Now())
    }

    constructor ()
      ensures Now() == EMPTY_BOOKS && Valid()
    {
      batches, levels, stock := map[], map[], map[];
      new;
      EmptyBooksBalance();
    }

    method Rollback(saved: Books)
      modifies this
      ensures Now() == saved
    {
      batches, levels, stock := saved.batches, saved.levels, saved.stock;
    }

    /**
     One cell of the stock ledger moves by exactly the change, or nothing does; a deduction is refused when the cell
     is missing or has too little, so the clamp of the statement never takes effect on a cell that is not negative.
     */
    method ApplyStockChangeWithin(key: StockKey, change: int) returns (r: Result<(), LedgerError>)
      modifies this`stock
      ensures StockMoved(old(stock), stock, key, change, r.Ok?)
      ensures match ApplyStockChange(old(stock), key, change)
              case Err(e) => r == Err(e) && stock == old(stock)
              case Ok(after) => r == Ok(()) && stock == after
    {
      if change == 0 {
        return Err(InvalidQuantity);
      }
      if change < 0 {
        if key !in stock {
          return Err(NoStockLevel);
        }
        if stock[key].quantity + change < 0 {
          return Err(InsufficientStock);
        }
      }
      if key in stock {
        var on := Max(0, stock[key].quantity + change);
        stock := stock[key := Level(on, stock[key].reserved, Max(0, on - stock[key].reserved))];
      } else {
        stock := stock[key := Level(Max(0, change), 0, Max(0, change))];
      }
      r := Ok(());
    }

    /**
     The same batch number again tops up the row that was found, however old: it is written by id, and creating it
     fails if it has come into being since.
     */
    method WriteBatchRow(existing: Option<Batch>, input: Receipt, expiry: Option<int>, cost: int, now: int) returns (r: Result<(), LedgerError>)
      requires input.quantity > 0 && (existing.Some? ==> existing.value.quantity >= 0)
      modifies this`batches
      ensures match ReceivedBatch(old(batches), existing, input, expiry, cost, now)
              case Err(e) => r == Err(e) && batches == old(batches)
              case Ok(batch) => r == Ok(()) && batches == old(batches)[input.batch := batch]
    {
      hide BlendedCost;
      if existing.Some? {
        if input.batch !in batches {
          return Err(UnknownBatch);
        }
        var current := batches[input.batch];
        batches := batches[input.batch := current.(
          quantity := current.quantity + input.quantity,
          initialQuantity := current.initialQuantity + input.quantity,
          unitCost := BlendedCost(existing.value.unitCost, existing.value.quantity, cost, input.quantity),
          expiry := if existing.value.expiry.Some? then existing.value.expiry else expiry,
          status := if input.status.Some? then input.status.value else existing.value.status)];
      } else {
        if input.batch in batches {
          return Err(BatchTaken);
        }
        batches := batches[input.batch :=
          Batch(if input.status.Some? then input.status.value else Available, expiry, now, input.quantity, input.quantity, 0, cost)];
      }
      r := Ok(());
    }

    /**
     A receipt: the batch row, the level row and the stock cell, in that order. `existing` is what the lookup of the
     batch found, at this moment or at any time before.
     */
    method ReceiveIntoBatchWithin(existing: Option<Batch>, product: Option<Product>, input: Receipt, now: int) returns (r: Result<BatchKey, LedgerError>)
      requires existing.Some? ==> existing.value.quantity >= 0
      modifies this
      ensures old(Valid()) ==> Valid()
      ensures match ReceiveRead(old(Now()), existing, product, input, now)
              case Err(e) => r == Err(e) && Now() == old(Now())
              case Ok(after) => r == Ok(input.batch) && Now() == after
    {
      hide Balanced, ReceivedBatch, AddToLevel, ResolveExpiry, StockMoved;
      KeptByReceipt(Now(), existing, product, input, now);
      if input.quantity <= 0 {
        return Err(InvalidQuantity);
      }
      if product == None {
        return Err(UnknownProduct);
      }
      var expiry := ResolveExpiry(input.expiry, input.production, product.value.shelfLifeDays);
      if product.value.batchTracked {
        if input.batch.number == "" {
          return Err(BatchNumberMissing);
        }
        if expiry == None {
          return Err(ExpiryMissing);
        }
      }
      var written := WriteBatchRow(existing, input, expiry, PriceOf(product.value, input), now);
      if written.Err? {
        return Err(written.error);
      }
      levels := levels[input.batch := AddToLevel(LevelsOf(Now(), input.batch), input.location, input.quantity)];
      // An addition is never refused.
      var _ := ApplyStockChangeWithin(StockKey(input.batch.sku, input.location), input.quantity);
      r := Ok(input.batch);
    }

    /** One row of a consumption: the level if it still has the units, the batch, then the stock cell. */
    method ConsumeRow(a: Allocation) returns (r: Result<(), LedgerError>)
      modifies this
      ensures match ConsumeOne(old(Now()), a)
              case Err(e) => r == Err(e)
              case Ok(after) => r == Ok(()) && Now() == after
    {
      hide StockMoved;
      if !HasAvailable(Now(), a) {
        return Err(Conflict(a.batch));
      }
      if a.batch !in batches {
        return Err(UnknownBatch);
      }
      var l := levels[a.batch][a.location];
      levels := levels[a.batch := levels[a.batch][a.location := Level(l.quantity - a.quantity, l.reserved, l.available - a.quantity)]];
      var batch := batches[a.batch].(quantity := batches[a.batch].quantity - a.quantity);
      batches := batches[a.batch := batch];
      if batch.quantity <= 0 && batch.status != Consumed {
        batches := batches[a.batch := batch.(status := Consumed)];
      }
      var moved := ApplyStockChangeWithin(StockKey(a.batch.sku, a.location), -(a.quantity as int));
      if moved.Err? {
        return Err(moved.error);
      }
      assert batches == ConsumeOne(old(Now()), a).value.batches;
      r := Ok(());
    }

    /** `consumeWithin`: each row re-checked when it is taken, never trusted from the proposal. */
    method ConsumeWithin(allocations: seq<Allocation>) returns (r: Result<(), LedgerError>)
      modifies this
      ensures old(Valid()) ==> Valid()
      ensures old(Valid()) && r.Ok? ==> AllMovedBy(old(Now()), Now(), Consume, allocations)
      ensures match MoveAll(old(Now()), Consume, allocations)
              case Err(e) => r == Err(e) && Now() == old(Now())
              case Ok(after) => r == Ok(()) && Now() == after
    {
      hide ConsumeOne, Balanced, AllMovedBy;
      var saved := Now();
      KeptByMoves(saved, Consume, allocations);
      var i := 0;
      while i < |allocations|
        invariant 0 <= i <= |allocations|
        invariant MoveAll(saved, Consume, allocations) == MoveAll(Now(), Consume, allocations[i..])
      {
        assert allocations[i..][0] == allocations[i] && allocations[i..][1..] == allocations[i + 1..];
        var taken := ConsumeRow(allocations[i]);
        if taken.Err? {
          Rollback(saved);
          return Err(taken.error);
        }
        i := i + 1;
      }
      assert allocations[i..] == [];
      r := Ok(());
    }

    method ReserveWithin(allocations: seq<Allocation>) returns (r: Result<(), LedgerError>)
      modifies this
      ensures old(Valid()) ==> Valid()
      ensures old(Valid()) && r.Ok? ==> AllMovedBy(old(Now()), Now(), Reserve, allocations)
      ensures match MoveAll(old(Now()), Reserve, allocations)
              case Err(e) => r == Err(e) && Now() == old(Now())
              case Ok(after) => r == Ok(()) && Now() == after
    {
      hide Balanced, AllMovedBy;
      var saved := Now();
      KeptByMoves(saved, Reserve, allocations);
      var i := 0;
      while i < |allocations|
        invariant 0 <= i <= |allocations|
        invariant MoveAll(saved, Reserve, allocations) == MoveAll(Now(), Reserve, allocations[i..])
      {
        var a := allocations[i];
        assert allocations[i..][0] == a && allocations[i..][1..] == allocations[i + 1..];
        if !HasAvailable(Now(), a) {
          Rollback(saved);
          return Err(Conflict(a.batch));
        }
        if a.batch !in batches {
          Rollback(saved);
          return Err(UnknownBatch);
        }
        var l := levels[a.batch][a.location];
        levels := levels[a.batch := levels[a.batch][a.location := Level(l.quantity, l.reserved + a.quantity, l.available - a.quantity)]];
        batches := batches[a.batch := batches[a.batch].(reserved := batches[a.batch].reserved + a.quantity)];
        i := i + 1;
      }
      assert allocations[i..] == [];
      r := Ok(());
    }

    /** One row of a release: the location gives back at most what it holds, the batch the full quantity. */
    method ReleaseRow(a: Allocation) returns (r: Result<(), LedgerError>)
      modifies this
      ensures match ReleaseOne(old(Now()), a)
              case Err(e) => r == Err(e) && Now() == old(Now())
              case Ok(after) => r == Ok(()) && Now() == after
    {
      if a.batch !in batches {
        return Err(UnknownBatch);
      }
      if a.batch in levels && a.location in levels[a.batch] {
        var l := levels[a.batch][a.location];
        levels := levels[a.batch := levels[a.batch][a.location :=
          Level(l.quantity, Max(0, l.reserved - a.quantity), l.available + Min(l.reserved, a.quantity))]];
      }
      batches := batches[a.batch := batches[a.batch].(reserved := batches[a.batch].reserved - a.quantity)];
      r := Ok(());
    }

    method ReleaseWithin(allocations: seq<Allocation>) returns (r: Result<(), LedgerError>)
      modifies this
      ensures old(Valid()) && Admissible(old(Now()), Release, allocations) ==> Valid()
      ensures old(Valid()) && Admissible(old(Now()), Release, allocations) && r.Ok? ==> AllMovedBy(old(Now()), Now(), Release, allocations)
      ensures match MoveAll(old(Now()), Release, allocations)
              case Err(e) => r == Err(e) && Now() == old(Now())
              case Ok(after) => r == Ok(()) && Now() == after
    {
      hide Balanced, Admissible, ReleaseOne, AllMovedBy;
      var saved := Now();
      KeptByMoves(saved, Release, allocations);
      var i := 0;
      while i < |allocations|
        invariant 0 <= i <= |allocations|
        invariant MoveAll(saved, Release, allocations) == MoveAll(Now(), Release, allocations[i..])
      {
        assert allocations[i..][0] == allocations[i] && allocations[i..][1..] == allocations[i + 1..];
        var given := ReleaseRow(allocations[i]);
        if given.Err? {
          Rollback(saved);
          return Err(given.error);
        }
        i := i + 1;
      }
      assert allocations[i..] == [];
      r := Ok(());
    }

    /**
     No units move and no other batch is touched. The reservations are those of `found`, what the lookup gave at this
     moment or at any time before: a batch that had units on open orders then is not taken off sale, and none at all
     when nothing came in between.
     */
    method ChangeStatus(key: BatchKey, found: Option<Batch>, status: Status) returns (r: Result<(), LedgerError>)
      modifies this`batches
      ensures old(Valid()) ==> Valid()
      ensures r.Ok? <==> found.Some? && key in old(batches) && (found.value.reserved > 0 ==> status == Available || status == NearExpiry)
      ensures batches == if r.Ok? then old(batches)[key := old(batches)[key].(status := status)] else old(batches)
      ensures r.Ok? && found == RowOf(old(Now()), key) ==> OpenOrdersCanShip(Now(), key)
      ensures match SetStatusRead(old(Now()), key, found, status)
              case Err(e) => r == Err(e) && Now() == old(Now())
              case Ok(after) => r == Ok(()) && Now() == after
    {
      hide Balanced;
      if found == None {
        return Err(UnknownBatch);
      }
      if found.value.reserved > 0 && !Sellable(status) {
        return Err(StillReserved);
      }
      if key !in batches {
        return Err(UnknownBatch);
      }
      KeptByStatus(Now(), key, status);
      batches := batches[key := batches[key].(status := status)];
      r := Ok(());
    }

    /** One batch of the sweep: expire, else quarantine, else mark as near expiry. */
    method SweepBatch(key: BatchKey, rule: Windows, now: int) returns (expired: bool, quarantined: bool, notified: bool)
      requires key in batches && Swept(batches[key])
      modifies this`batches
      ensures batches == old(batches)[key := old(batches[key]).(status := StatusAfter(old(batches[key]), rule, now))]
      ensures expired <==> batches[key].status == Expired
      ensures quarantined <==> batches[key].status == Quarantine
      ensures notified <==> DueNotice(old(batches[key]).expiry.value, rule, now)
    {
      var batch := batches[key];
      NoticeIsDue(batch.expiry.value, rule, now);
      var daysLeft := DaysLeft(batch.expiry.value, now);
      var band := BandOf(daysLeft, rule);
      if band == PastDate {
        batches := batches[key := batch.(status := Expired)];
        return true, false, true;
      }
      if rule.blockDays > 0 && daysLeft <= rule.blockDays {
        batches := batches[key := batch.(status := Quarantine)];
        return false, true, true;
      }
      if band == Critical || band == Warning {
        if batch.status != NearExpiry {
          batches := batches[key := batch.(status := NearExpiry)];
        }
        assert batches == old(batches)[key := batch.(status := NearExpiry)];
        return false, false, true;
      }
      assert batches == old(batches)[key := batch];
      return false, false, false;
    }

    /** The sweep over the batches that were read, one after another. */
    method Scan(found: seq<BatchKey>, c: Catalogue, now: int) returns (counts: ScanCounts)
      requires SweptRows(Now(), found)
      modifies this`batches
      ensures Now() == Scanned(old(Now()), c, now)
      ensures old(Valid()) ==> Valid()
      ensures counts.scanned == |found|
      ensures counts.expired == |Turned(old(batches), batches, Expired)|
      ensures counts.quarantined == |Turned(old(batches), batches, Quarantine)|
      ensures counts.notified == |Noticed(found, old(Now()), c, now)|
    {
      hide RuleFor, BandOf, DaysLeft, StatusAfter, Turned, DueNotice, Noticed, SweptSoFar, Scanned, Balanced;
      ghost var before := Now();
      if Balanced(before) {
        ScanKeepsBalance(before, c, now);
      }
      NothingSwept(before, c, now);
      var expired, quarantined, notified := 0, 0, 0;
      var i := 0;
      while i < |found|
        invariant 0 <= i <= |found|
        invariant levels == before.levels && stock == before.stock
        invariant SweptSoFar(before, batches, found[..i], c, now)
        invariant expired == |Turned(before.batches, batches, Expired)| && quarantined == |Turned(before.batches, batches, Quarantine)|
        invariant notified == |Noticed(found[..i], before, c, now)|
      {
        var key := found[i];
        assert found[..i + 1] == found[..i] + [key] && key !in found[..i];
        OneMoreNoticed(found[..i], key, before, c, now);
        StillToSweep(before, batches, found, i, c, now);
        ghost var was := batches;
        var e, q, n := SweepBatch(key, RuleFor(c, key.sku), now);
        OneMoreTurned(before.batches, was, key, batches[key], Expired);
        OneMoreTurned(before.batches, was, key, batches[key], Quarantine);
        OneMoreSwept(before, was, found, i, c, now);
        if e {
          expired := expired + 1;
        }
        if q {
          quarantined := quarantined + 1;
        }
        if n {
          notified := notified + 1;
        }
        i := i + 1;
      }
      assert found[..i] == found;
      EverythingSwept(before, batches, found, c, now);
      ScanTouchesBatches(before, c, now);
      counts := ScanCounts(expired, quarantined, notified, |found|);
    }
  }

  ghost predicate SweptSoFar(before: Books, batches: map<BatchKey, Batch>, done: seq<BatchKey>, c: Catalogue, now: int) {
    && batches.Keys == before.batches.Keys
    && forall k :: k in batches ==>
         batches[k] == if k in done then before.batches[k].(status := StatusAfter(before.batches[k], RuleFor(c, k.sku), now)) else before.batches[k]
  }

  lemma NothingSwept(before: Books, c: Catalogue, now: int)
    ensures SweptSoFar(before, before.batches, [], c, now) && Noticed([], before, c, now) == {}
    ensures Turned(before.batches, before.batches, Expired) == {} && Turned(before.batches, before.batches, Quarantine) == {}
  {
  }

  lemma StillToSweep(before: Books, batches: map<BatchKey, Batch>, found: seq<BatchKey>, i: nat, c: Catalogue, now: int)
    requires SweptRows(before, found) && i < |found| && SweptSoFar(before, batches, found[..i], c, now)
    ensures found[i] in batches && found[i] in before.batches && batches[found[i]] == before.batches[found[i]] && Swept(batches[found[i]])
  {
    hide StatusAfter, RuleFor;
    assert found[i] !in found[..i];
  }

  lemma OneMoreSwept(before: Books, batches: map<BatchKey, Batch>, found: seq<BatchKey>, i: nat, c: Catalogue, now: int)
    requires SweptRows(before, found) && i < |found| && SweptSoFar(before, batches, found[..i], c, now)
    requires found[i] in batches && found[i] in before.batches && batches[found[i]] == before.batches[found[i]]
    ensures var after := batches[found[i] := batches[found[i]].(status := StatusAfter(batches[found[i]], RuleFor(c, found[i].sku), now))];
            SweptSoFar(before, after, found[..i + 1], c, now)
  {
    hide StatusAfter, RuleFor;
    assert found[..i + 1] == found[..i] + [found[i]];
  }

  lemma ScanTouchesBatches(before: Books, c: Catalogue, now: int)
    ensures Scanned(before, c, now).levels == before.levels && Scanned(before, c, now).stock == before.stock
  {
  }

  lemma EverythingSwept(before: Books, batches: map<BatchKey, Batch>, found: seq<BatchKey>, c: Catalogue, now: int)
    requires SweptRows(before, found) && SweptSoFar(before, batches, found, c, now)
    ensures batches == Scanned(before, c, now).batches
  {
    hide RuleFor, BandOf, DaysLeft;
    forall k | k in batches
      ensures batches[k] == Scanned(before, c, now).batches[k]
    {
      if k !in found {
        assert !Swept(before.batches[k]);
      }
    }
  }

  // ------------------------------------------------------------------ the sweep as steps of a run

  /** The books after the first `i` writes of a sweep that read all its batches at the start. */
  ghost function WrittenUpTo(b: Books, found: seq<BatchKey>, c: Catalogue, now: int, i: nat): Books
    requires i <= |found| && forall j :: 0 <= j < |found| ==> found[j] in b.batches
  {
    if i == 0 then b
    else
      var key := found[i - 1];
      Step(WrittenUpTo(b, found, c, now, i - 1), SweepWriting(key, b.batches[key], RuleFor(c, key.sku), now))
  }

  lemma {:induction false} SweepAdvances(b: Books, found: seq<BatchKey>, c: Catalogue, now: int, i: nat)
    requires SweptRows(b, found) && i <= |found|
    ensures var at := WrittenUpTo(b, found, c, now, i);
            SweptSoFar(b, at.batches, found[..i], c, now) && at.levels == b.levels && at.stock == b.stock
  {
    hide StatusAfter, RuleFor, SweptSoFar, Written;
    if i == 0 {
      NothingSwept(b, c, now);
    } else {
      var key, before := found[i - 1], WrittenUpTo(b, found, c, now, i - 1);
      SweepAdvances(b, found, c, now, i - 1);
      StillToSweep(b, before.batches, found, i - 1, c, now);
      FreshWriteIsTheSweep(b.batches[key], RuleFor(c, key.sku), now);
      OneMoreSwept(b, before.batches, found, i - 1, c, now);
    }
  }

  /** With nothing in between, the writes of a sweep one after another are the sweep at once. */
  lemma SweepInStepsIsTheSweep(b: Books, found: seq<BatchKey>, c: Catalogue, now: int)
    requires SweptRows(b, found)
    ensures WrittenUpTo(b, found, c, now, |found|) == Scanned(b, c, now)
  {
    hide Scanned, SweptSoFar;
    SweepAdvances(b, found, c, now, |found|);
    assert found[..|found|] == found;
    EverythingSwept(b, WrittenUpTo(b, found, c, now, |found|).batches, found, c, now);
    ScanTouchesBatches(b, c, now);
  }
}
