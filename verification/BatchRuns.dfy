/**
 Runs of the ledger: any number of orders interleaved, each transaction applied to
 whatever books it finds, with proposals that may long be out of date.
 */
module BatchRuns {
  import opened Basics
  import opened Wrappers
  import opened MapSums
  import opened BatchLedger
  import opened ExpirySweep

  // ------------------------------------------------------- one step at a time

  lemma StockNotNegative(b: Books, s: StockKey)
    requires Balanced(b) && s in b.stock
    ensures b.stock[s].quantity >= 0
  {
    var at := AtLocation(b, s);
    forall k | k in at
      ensures at[k] >= 0
    {
      assert LevelValid(b.levels[k][s.location]);
    }
    TotalBounds(at, BatchKey("", ""));
  }

  ghost predicate CanReceive(b: Books, read: Option<Batch>) {
    Balanced(b) && (read.Some? ==> read.value.quantity >= 0)
  }

  /** However old the row it read. */
  lemma ReceiveKeepsBalance(b: Books, read: Option<Batch>, product: Option<Product>, input: Receipt, now: int)
    requires CanReceive(b, read) && ReceiveRead(b, read, product, input, now).Ok?
    ensures Balanced(ReceiveRead(b, read, product, input, now).value)
  {
    hide Balanced, BlendedCost, LevelValid;
    var after := ReceiveRead(b, read, product, input, now).value;
    var s := StockKey(input.batch.sku, input.location);
    if s in b.stock {
      StockNotNegative(b, s);
    }
    ReceivedLevel(b, input);
    MoveKeepsBalance(b, input.batch, input.location,
                     AddToLevel(LevelsOf(b, input.batch), input.location, input.quantity)[input.location],
                     after.batches[input.batch], after.stock[s]);
    ReceiveIsMove(b, read, product, input, now);
  }

  lemma ReceivedLevel(b: Books, input: Receipt)
    requires Balanced(b) && input.quantity > 0
    ensures LevelValid(AddToLevel(LevelsOf(b, input.batch), input.location, input.quantity)[input.location])
    ensures input.batch in b.batches <==> input.batch in b.levels
  {
    if input.location in LevelsOf(b, input.batch) {
      assert LevelValid(b.levels[input.batch][input.location]);
    }
    assert input.batch in b.batches.Keys <==> input.batch in b.levels.Keys;
  }

  lemma ReceiveIsMove(b: Books, read: Option<Batch>, product: Option<Product>, input: Receipt, now: int)
    requires CanReceive(b, read) && ReceiveRead(b, read, product, input, now).Ok?
    ensures var after := ReceiveRead(b, read, product, input, now).value;
            after == WithLevel(b, input.batch, input.location,
                               AddToLevel(LevelsOf(b, input.batch), input.location, input.quantity)[input.location],
                               after.batches[input.batch], after.stock[StockKey(input.batch.sku, input.location)])
  {
    hide Balanced, BlendedCost;
  }

  /** What the books guarantee about a level that exists. */
  lemma LevelFacts(b: Books, a: Allocation)
    requires Balanced(b) && a.batch in b.levels && a.location in b.levels[a.batch]
    ensures a.batch in b.batches && LevelValid(b.levels[a.batch][a.location])
    ensures var s := StockKey(a.batch.sku, a.location);
            s in b.stock && b.stock[s].quantity >= b.levels[a.batch][a.location].quantity
  {
    assert a.batch in b.levels.Keys && a.batch in b.batches.Keys;
    LevelBounds(b, a.batch, a.location);
  }

  /** A consumption goes through exactly when the location still has the units: stock never refuses it. */
  lemma ConsumeNeedsOnlyAvailability(b: Books, a: Allocation)
    requires Balanced(b)
    ensures ConsumeOne(b, a).Ok? <==> HasAvailable(b, a)
    ensures ConsumeOne(b, a).Ok? ==> Balanced(ConsumeOne(b, a).value)
  {
    hide Balanced;
    if HasAvailable(b, a) {
      LevelFacts(b, a);
      var l := b.levels[a.batch][a.location];
      var after := ConsumeOne(b, a).value;
      MoveKeepsBalance(b, a.batch, a.location, Level(l.quantity - a.quantity, l.reserved, l.available - a.quantity),
                       after.batches[a.batch], after.stock[StockKey(a.batch.sku, a.location)]);
      ConsumeIsMove(b, a);
    }
  }

  lemma ConsumeIsMove(b: Books, a: Allocation)
    requires HasAvailable(b, a) && ConsumeOne(b, a).Ok?
    ensures var l := b.levels[a.batch][a.location];
            var after := ConsumeOne(b, a).value;
            after == WithLevel(b, a.batch, a.location, Level(l.quantity - a.quantity, l.reserved, l.available - a.quantity),
                               after.batches[a.batch], after.stock[StockKey(a.batch.sku, a.location)])
  {
  }

  lemma ReserveKeepsBalance(b: Books, a: Allocation)
    requires Balanced(b)
    ensures ReserveOne(b, a).Ok? <==> HasAvailable(b, a)
    ensures ReserveOne(b, a).Ok? ==> Balanced(ReserveOne(b, a).value)
  {
    hide Balanced;
    if HasAvailable(b, a) {
      LevelFacts(b, a);
      var l := b.levels[a.batch][a.location];
      var after := ReserveOne(b, a).value;
      var level := Level(l.quantity, l.reserved + a.quantity, l.available - a.quantity);
      MoveKeepsBalance(b, a.batch, a.location, level, after.batches[a.batch], b.stock[StockKey(a.batch.sku, a.location)]);
      SameStock(b, a, level, after);
    }
  }

  lemma SameStock(b: Books, a: Allocation, level: Level, after: Books)
    requires a.batch in b.batches && a.batch in b.levels && StockKey(a.batch.sku, a.location) in b.stock
    requires a.batch in after.batches
    requires after == b.(batches := b.batches[a.batch := after.batches[a.batch]],
                         levels := b.levels[a.batch := b.levels[a.batch][a.location := level]])
    ensures after == WithLevel(b, a.batch, a.location, level, after.batches[a.batch], b.stock[StockKey(a.batch.sku, a.location)])
  {
    var s := StockKey(a.batch.sku, a.location);
    assert b.stock[s := b.stock[s]] == b.stock;
  }

  /** Units an allocation still holds at its location. */
  ghost function Held(b: Books, a: Allocation): int {
    OnHand(b, a.batch, a.location).reserved
  }

  /** A release keeps the books balanced exactly when the location holds all it gives back. */
  lemma ReleaseExactlyWhenHeld(b: Books, a: Allocation)
    requires Balanced(b) && a.batch in b.batches
    ensures ReleaseOne(b, a).Ok? && (Balanced(ReleaseOne(b, a).value) <==> a.quantity <= Held(b, a))
  {
    assert a.batch in b.levels.Keys;
    if a.quantity <= Held(b, a) {
      HeldReleaseKeepsBalance(b, a);
    } else {
      ExcessReleaseBreaksBalance(b, a);
    }
  }

  lemma HeldReleaseKeepsBalance(b: Books, a: Allocation)
    requires Balanced(b) && a.quantity <= Held(b, a)
    ensures ReleaseOne(b, a).Ok? && Balanced(ReleaseOne(b, a).value)
  {
    hide Balanced;
    LevelFacts(b, a);
    var l := b.levels[a.batch][a.location];
    var after := ReleaseOne(b, a).value;
    var level := Level(l.quantity, l.reserved - a.quantity, l.available + a.quantity);
    MoveKeepsBalance(b, a.batch, a.location, level, after.batches[a.batch], b.stock[StockKey(a.batch.sku, a.location)]);
    SameStock(b, a, level, after);
  }

  lemma ExcessReleaseBreaksBalance(b: Books, a: Allocation)
    requires Balanced(b) && a.batch in b.batches && a.quantity > Held(b, a)
    ensures ReleaseOne(b, a).Ok? && !Balanced(ReleaseOne(b, a).value)
  {
    assert a.batch in b.levels.Keys;
    var after := ReleaseOne(b, a).value;
    assert BatchBalanced(b.batches[a.batch], b.levels[a.batch]);
    if a.location in b.levels[a.batch] {
      assert LevelValid(b.levels[a.batch][a.location]);
      SumsMove(b.levels[a.batch], a.location, after.levels[a.batch][a.location]);
    }
    assert !BatchBalanced(after.batches[a.batch], after.levels[a.batch]);
  }

  // ------------------------------------------------------- how many units a movement moves

  /**
   At the allocation's location and on its batch the quantity has changed by `units` and the reservations by `held`,
   in the stock cell the quantity by `units`; what is available is the rest, and nothing else has changed but the status.
   */
  ghost predicate Shifted(b: Books, after: Books, a: Allocation, units: int, held: int) {
    && a.batch in b.batches && a.batch in after.batches && a.batch in b.levels && a.batch in after.levels
    && a.location in b.levels[a.batch] && a.location in after.levels[a.batch]
    && (var was, l := b.levels[a.batch][a.location], after.levels[a.batch][a.location];
        l == Level(was.quantity + units, was.reserved + held, was.available + units - held))
    && (var was, batch := b.batches[a.batch], after.batches[a.batch];
        batch == was.(quantity := was.quantity + units, reserved := was.reserved + held, status := batch.status))
    && after.batches - {a.batch} == b.batches - {a.batch} && after.levels - {a.batch} == b.levels - {a.batch}
    && after.levels[a.batch] - {a.location} == b.levels[a.batch] - {a.location}
    && (var cell := StockKey(a.batch.sku, a.location);
        && cell in b.stock && cell in after.stock && after.stock - {cell} == b.stock - {cell}
        && after.stock[cell].quantity == b.stock[cell].quantity + units && after.stock[cell].reserved == b.stock[cell].reserved)
  }

  /** An accepted reservation moves its units from available to reserved, here and on the batch, and touches nothing else. */
  lemma ReserveMovesItsUnits(b: Books, a: Allocation)
    requires Balanced(b) && ReserveOne(b, a).Ok?
    ensures Shifted(b, ReserveOne(b, a).value, a, 0, a.quantity)
    ensures ReserveOne(b, a).value.batches[a.batch].status == b.batches[a.batch].status
  {
    hide Balanced;
    LevelFacts(b, a);
  }

  /** A release of what is held gives its units back, all of them. */
  lemma ReleaseMovesItsUnits(b: Books, a: Allocation)
    requires Balanced(b) && a.quantity <= Held(b, a)
    ensures ReleaseOne(b, a).Ok? && Shifted(b, ReleaseOne(b, a).value, a, 0, -(a.quantity as int))
    ensures ReleaseOne(b, a).value.batches[a.batch].status == b.batches[a.batch].status
  {
    hide Balanced;
    LevelFacts(b, a);
  }

  /** A consumption takes its units away; the batch counts as consumed exactly if none are left, and else keeps its status. */
  lemma ConsumeMovesItsUnits(b: Books, a: Allocation)
    requires Balanced(b) && ConsumeOne(b, a).Ok?
    ensures Shifted(b, ConsumeOne(b, a).value, a, -(a.quantity as int), 0)
    ensures var batch := ConsumeOne(b, a).value.batches[a.batch];
            batch.quantity >= 0 && batch.status == if batch.quantity == 0 then Consumed else b.batches[a.batch].status
  {
    hide Balanced;
    LevelFacts(b, a);
    BoundsOfBatch(b, a.batch, a.location);
  }

  lemma BoundsOfBatch(b: Books, key: BatchKey, location: string)
    requires Balanced(b) && key in b.levels && location in b.levels[key]
    ensures key in b.batches && b.batches[key].quantity >= b.levels[key][location].quantity
  {
    LevelBounds(b, key, location);
  }

  /** What callers of a release owe: each allocation is still held when its turn comes. */
  ghost predicate Admissible(b: Books, kind: Movement, allocations: seq<Allocation>)
    decreases |allocations|
  {
    kind == Release && allocations != [] ==>
      (allocations[0].batch in b.batches ==> allocations[0].quantity <= Held(b, allocations[0]))
      && (MoveOne(b, kind, allocations[0]).Ok? ==> Admissible(MoveOne(b, kind, allocations[0]).value, kind, allocations[1..]))
  }

  lemma MoveOneKeepsBalance(b: Books, kind: Movement, a: Allocation)
    requires Balanced(b)
    ensures MoveOne(b, kind, a).Ok? && (kind == Release ==> a.quantity <= Held(b, a)) ==> Balanced(MoveOne(b, kind, a).value)
  {
    hide Balanced, Held;
    match kind
    case Consume => ConsumeNeedsOnlyAvailability(b, a);
    case Reserve => ReserveKeepsBalance(b, a);
    case Release => if a.quantity <= Held(b, a) { HeldReleaseKeepsBalance(b, a); }
  }

  lemma {:induction false} MoveAllKeepsBalance(b: Books, kind: Movement, allocations: seq<Allocation>)
    requires Balanced(b) && Admissible(b, kind, allocations) && MoveAll(b, kind, allocations).Ok?
    ensures Balanced(MoveAll(b, kind, allocations).value)
    decreases |allocations|
  {
    if allocations != [] {
      hide Balanced, Held;
      MoveOneKeepsBalance(b, kind, allocations[0]);
      MoveAllKeepsBalance(MoveOne(b, kind, allocations[0]).value, kind, allocations[1..]);
    }
  }

  lemma SetStatusKeepsBalance(b: Books, key: BatchKey, read: Option<Batch>, status: Status)
    requires Balanced(b) && SetStatusRead(b, key, read, status).Ok?
    ensures Balanced(SetStatusRead(b, key, read, status).value)
  {
    NewStatusKeepsBalance(b, key, status);
  }

  lemma NewStatusKeepsBalance(b: Books, key: BatchKey, status: Status)
    requires Balanced(b) && key in b.batches
    ensures Balanced(b.(batches := b.batches[key := b.batches[key].(status := status)]))
  {
    hide AtLocation, LevelValid, BatchBalanced;
    var after := b.(batches := b.batches[key := b.batches[key].(status := status)]);
    forall k | k in after.batches
      ensures BatchBalanced(after.batches[k], after.levels[k])
    {
      assert k in b.batches.Keys && BatchBalanced(b.batches[k], b.levels[k]);
      OnlyStatusDiffers(b.batches[k], after.batches[k], b.levels[k]);
    }
    forall s | s in after.stock
      ensures AtLocation(after, s) == AtLocation(b, s)
    {
      SameLocations(b, after, s);
    }
    assert after.levels.Keys == after.batches.Keys;
  }

  // ---------------------------------------------------------------------- runs

  /**
   One transaction. Allocations may come from any proposal, however old. Receipts and status changes write what they
   decided on the row as they read it, and a sweep is one step, or one such step for each batch it writes.
   */
  datatype Op =
    | Receiving(product: Option<Product>, input: Receipt, now: int, read: Option<Batch>)
    | Moving(kind: Movement, allocations: seq<Allocation>)
    | SettingStatus(key: BatchKey, status: Status, read: Option<Batch>)
    | Scanning(catalogue: Catalogue, now: int)
    | SweepWriting(key: BatchKey, found: Batch, rule: Windows, now: int)

  /** A negative batch quantity cannot come up; balanced books rule it out. */
  ghost function Apply(b: Books, op: Op): Result<Books, LedgerError> {
    match op
    case Receiving(product, input, now, read) =>
      if read.Some? && read.value.quantity < 0 then Err(InvalidQuantity) else ReceiveRead(b, read, product, input, now)
    case Moving(kind, allocations) => MoveAll(b, kind, allocations)
    case SettingStatus(key, status, read) => SetStatusRead(b, key, read, status)
    case Scanning(c, now) => Ok(Scanned(b, c, now))
    case SweepWriting(key, read, rule, now) =>
      if key !in b.batches then Err(UnknownBatch)
      else Ok(b.(batches := b.batches[key := Written(b.batches[key], read, rule, now)]))
  }

  /** A failed transaction is rolled back. */
  ghost function Step(b: Books, op: Op): Books {
    match Apply(b, op)
    case Err(_) => b
    case Ok(after) => after
  }

  ghost predicate OpAdmissible(b: Books, op: Op) {
    op.Moving? ==> Admissible(b, op.kind, op.allocations)
  }

  lemma StepKeepsBalance(b: Books, op: Op)
    requires Balanced(b) && OpAdmissible(b, op)
    ensures Balanced(Step(b, op))
  {
    hide Balanced, Admissible, ReceiveRead, MoveAll, SetStatusRead, Scanned;
    if Apply(b, op).Ok? {
      match op
      case Receiving(product, input, now, read) => ReceiveKeepsBalance(b, read, product, input, now);
      case Moving(kind, allocations) => MoveAllKeepsBalance(b, kind, allocations);
      case SettingStatus(key, status, read) => SetStatusKeepsBalance(b, key, read, status);
      case Scanning(c, now) => ScanKeepsBalance(b, c, now);
      case SweepWriting(key, read, rule, now) => NewStatusKeepsBalance(b, key, Written(b.batches[key], read, rule, now).status);
    }
  }

  /** A receipt of this batch read it in one of these states. */
  ghost predicate ReadIn(states: seq<Books>, from: nat, to: nat, op: Op)
    requires to < |states|
  {
    op.Receiving? ==> exists q :: from <= q <= to && RowOf(states[q], op.input.batch) == op.read
  }

  /** The states of a run from empty books, each transaction admissible where it is applied and no read from the future. */
  ghost predicate IsRun(states: seq<Books>, ops: seq<Op>) {
    && |states| == |ops| + 1
    && states[0] == EMPTY_BOOKS
    && (forall i :: 0 <= i < |ops| ==> OpAdmissible(states[i], ops[i]) && states[i + 1] == Step(states[i], ops[i]))
    && forall i :: 0 <= i < |ops| ==> ReadIn(states, 0, i, ops[i])
  }

  const EMPTY_BOOKS := Books(map[], map[], map[])

  lemma EmptyBooksBalance()
    ensures Balanced(EMPTY_BOOKS)
  {
  }

  /** The ledgers agree after every step of every interleaving. */
  lemma {:induction false} RunsStayBalanced(states: seq<Books>, ops: seq<Op>, i: nat)
    requires IsRun(states, ops) && i < |states|
    ensures Balanced(states[i])
  {
    hide Balanced, Step, OpAdmissible;
    if i == 0 {
      EmptyBooksBalance();
    } else {
      RunsStayBalanced(states, ops, i - 1);
      StepKeepsBalance(states[i - 1], ops[i - 1]);
    }
  }

  /** What a location shows: never less than nothing, and reserved plus available. */
  lemma NothingIsOversold(states: seq<Books>, ops: seq<Op>, i: nat, key: BatchKey, location: string)
    requires IsRun(states, ops) && i < |states|
    requires key in states[i].levels && location in states[i].levels[key]
    ensures var l := states[i].levels[key][location];
            l.quantity == l.reserved + l.available && l.reserved >= 0 && l.available >= 0
            && key in states[i].batches && states[i].batches[key].quantity >= l.quantity
            && StockKey(key.sku, location) in states[i].stock
            && states[i].stock[StockKey(key.sku, location)].quantity >= l.quantity
  {
    RunsStayBalanced(states, ops, i);
    LevelBounds(states[i], key, location);
    assert LevelValid(states[i].levels[key][location]);
  }

  // -------------------------------------------------------------- conservation

  ghost function Taken(allocations: seq<Allocation>, key: BatchKey): nat {
    if allocations == [] then 0
    else (if allocations[0].batch == key then allocations[0].quantity else 0) + Taken(allocations[1..], key)
  }

  /** Those of them at one location. */
  ghost function TakenAt(allocations: seq<Allocation>, key: BatchKey, location: string): nat {
    if allocations == [] then 0
    else
      (if allocations[0].batch == key && allocations[0].location == location then allocations[0].quantity else 0)
      + TakenAt(allocations[1..], key, location)
  }

  /** Units of the batch that a transaction brought in and sent out, if it went through. */
  ghost function ReceivedBy(b: Books, op: Op, key: BatchKey): int {
    if Apply(b, op).Ok? && op.Receiving? && op.input.batch == key then op.input.quantity else 0
  }

  ghost function ConsumedBy(b: Books, op: Op, key: BatchKey): int {
    if Apply(b, op).Ok? && op.Moving? && op.kind == Consume then Taken(op.allocations, key) else 0
  }

  ghost function ReceivedIn(states: seq<Books>, ops: seq<Op>, key: BatchKey, n: nat): int
    requires IsRun(states, ops) && n <= |ops|
  {
    if n == 0 then 0 else ReceivedIn(states, ops, key, n - 1) + ReceivedBy(states[n - 1], ops[n - 1], key)
  }

  ghost function ConsumedIn(states: seq<Books>, ops: seq<Op>, key: BatchKey, n: nat): int
    requires IsRun(states, ops) && n <= |ops|
  {
    if n == 0 then 0 else ConsumedIn(states, ops, key, n - 1) + ConsumedBy(states[n - 1], ops[n - 1], key)
  }

  ghost function QuantityOf(b: Books, key: BatchKey): int {
    if key in b.batches then b.batches[key].quantity else 0
  }

  ghost function EverReceived(b: Books, key: BatchKey): int {
    if key in b.batches then b.batches[key].initialQuantity else 0
  }

  lemma {:induction false} MoveAllAccounts(b: Books, kind: Movement, allocations: seq<Allocation>, key: BatchKey)
    requires MoveAll(b, kind, allocations).Ok?
    ensures var after := MoveAll(b, kind, allocations).value;
            && QuantityOf(after, key) == QuantityOf(b, key) - (if kind == Consume then Taken(allocations, key) else 0)
            && EverReceived(after, key) == EverReceived(b, key)
    decreases |allocations|
  {
    if allocations != [] {
      MoveAllAccounts(MoveOne(b, kind, allocations[0]).value, kind, allocations[1..], key);
    }
  }

  lemma StepAccounts(b: Books, op: Op, key: BatchKey)
    ensures QuantityOf(Step(b, op), key) == QuantityOf(b, key) + ReceivedBy(b, op, key) - ConsumedBy(b, op, key)
    ensures EverReceived(Step(b, op), key) == EverReceived(b, key) + ReceivedBy(b, op, key)
  {
    if Apply(b, op).Ok? && op.Moving? {
      MoveAllAccounts(b, op.kind, op.allocations, key);
    }
  }

  /** Units received are units consumed plus units on hand, for every batch after every run. */
  lemma {:induction false} UnitsAreConserved(states: seq<Books>, ops: seq<Op>, key: BatchKey, n: nat)
    requires IsRun(states, ops) && n <= |ops|
    ensures QuantityOf(states[n], key) + ConsumedIn(states, ops, key, n) == ReceivedIn(states, ops, key, n)
    ensures EverReceived(states[n], key) == ReceivedIn(states, ops, key, n)
    ensures ConsumedIn(states, ops, key, n) <= ReceivedIn(states, ops, key, n)
    decreases n
  {
    if n > 0 {
      UnitsAreConserved(states, ops, key, n - 1);
      StepAccounts(states[n - 1], ops[n - 1], key);
    }
    RunsStayBalanced(states, ops, n);
    if key in states[n].batches {
      BatchesNotNegative(states[n], key);
    }
  }

  // -------------------------------------------------------------- conservation of reservations

  ghost function ReservedOf(b: Books, key: BatchKey): int {
    if key in b.batches then b.batches[key].reserved else 0
  }

  /** What a movement adds to the units of a batch or location it names, and to those held there. */
  ghost function UnitsMoved(kind: Movement, taken: nat): int { if kind == Consume then -(taken as int) else 0 }

  ghost function HoldsMoved(kind: Movement, taken: nat): int {
    match kind
    case Consume => 0
    case Reserve => taken
    case Release => -(taken as int)
  }

  lemma OneMoves(b: Books, kind: Movement, a: Allocation)
    requires Balanced(b) && MoveOne(b, kind, a).Ok? && (kind == Release ==> a.quantity <= Held(b, a))
    ensures Shifted(b, MoveOne(b, kind, a).value, a, UnitsMoved(kind, a.quantity), HoldsMoved(kind, a.quantity))
  {
    hide Balanced, Shifted;
    match kind
    case Consume => ConsumeMovesItsUnits(b, a);
    case Reserve => ReserveMovesItsUnits(b, a);
    case Release => ReleaseMovesItsUnits(b, a);
  }

  /** What the movement of a whole order leaves of a batch and of a location. */
  ghost predicate MovedBy(b: Books, after: Books, kind: Movement, allocations: seq<Allocation>, key: BatchKey, location: string) {
    && ReservedOf(after, key) == ReservedOf(b, key) + HoldsMoved(kind, Taken(allocations, key))
    && (var taken := TakenAt(allocations, key, location);
        && OnHand(after, key, location).quantity == OnHand(b, key, location).quantity + UnitsMoved(kind, taken)
        && OnHand(after, key, location).reserved == OnHand(b, key, location).reserved + HoldsMoved(kind, taken)
        && OnHand(after, key, location).available == OnHand(b, key, location).available + UnitsMoved(kind, taken) - HoldsMoved(kind, taken))
  }

  lemma ShiftedSeenFrom(b: Books, after: Books, kind: Movement, a: Allocation, key: BatchKey, location: string)
    requires Shifted(b, after, a, UnitsMoved(kind, a.quantity), HoldsMoved(kind, a.quantity))
    requires b.levels.Keys == b.batches.Keys && after.levels.Keys == after.batches.Keys
    ensures MovedBy(b, after, kind, [a], key, location)
  {
    assert [a][1..] == [];
    if key != a.batch {
      assert key in after.batches - {a.batch} <==> key in b.batches - {a.batch};
      assert key in after.levels - {a.batch} <==> key in b.levels - {a.batch};
      assert key in b.batches ==> (after.batches - {a.batch})[key] == (b.batches - {a.batch})[key];
      assert key in b.levels ==> (after.levels - {a.batch})[key] == (b.levels - {a.batch})[key];
    } else if location != a.location {
      var rest, was := after.levels[key] - {a.location}, b.levels[key] - {a.location};
      assert location in rest <==> location in was;
      assert location in was ==> rest[location] == was[location];
    }
  }

  lemma MovedTogether(b: Books, c: Books, d: Books, kind: Movement, allocations: seq<Allocation>, key: BatchKey, location: string)
    requires allocations != [] && MovedBy(b, c, kind, [allocations[0]], key, location) && MovedBy(c, d, kind, allocations[1..], key, location)
    ensures MovedBy(b, d, kind, allocations, key, location)
  {
    hide ReservedOf, OnHand;
    var first := [allocations[0]];
    assert first[0] == allocations[0] && first[1..] == [];
    assert Taken(allocations, key) == Taken(first, key) + Taken(allocations[1..], key);
    assert TakenAt(allocations, key, location) == TakenAt(first, key, location) + TakenAt(allocations[1..], key, location);
  }

  /** An order that goes through moves exactly its units: reserves, gives back or takes away what its allocations say. */
  lemma {:induction false} OrdersMoveTheirUnits(b: Books, kind: Movement, allocations: seq<Allocation>, key: BatchKey, location: string)
    requires Balanced(b) && Admissible(b, kind, allocations) && MoveAll(b, kind, allocations).Ok?
    ensures MovedBy(b, MoveAll(b, kind, allocations).value, kind, allocations, key, location)
    decreases |allocations|
  {
    if allocations != [] {
      hide Balanced, Held, Shifted, MovedBy;
      var next := MoveOne(b, kind, allocations[0]).value;
      MoveOneKeepsBalance(b, kind, allocations[0]);
      OneIsHeld(b, kind, allocations);
      OneMoves(b, kind, allocations[0]);
      SameDomains(b);
      SameDomains(next);
      ShiftedSeenFrom(b, next, kind, allocations[0], key, location);
      OrdersMoveTheirUnits(next, kind, allocations[1..], key, location);
      MovedTogether(b, next, MoveAll(b, kind, allocations).value, kind, allocations, key, location);
    } else {
      assert MoveAll(b, kind, allocations) == Ok(b);
    }
  }

  lemma OneIsHeld(b: Books, kind: Movement, allocations: seq<Allocation>)
    requires allocations != [] && Admissible(b, kind, allocations) && MoveAll(b, kind, allocations).Ok?
    ensures kind == Release ==> allocations[0].quantity <= Held(b, allocations[0])
  {
  }

  lemma SameDomains(b: Books)
    requires Balanced(b)
    ensures b.levels.Keys == b.batches.Keys
  {
  }

  /** Units that a transaction holds back or gives back, and moves at a location, if it goes through. */
  ghost function ReservedBy(b: Books, op: Op, key: BatchKey): int {
    if Apply(b, op).Ok? && op.Moving? then HoldsMoved(op.kind, Taken(op.allocations, key)) else 0
  }

  ghost function ReservedAt(b: Books, op: Op, key: BatchKey, location: string): int {
    if Apply(b, op).Ok? && op.Moving? then HoldsMoved(op.kind, TakenAt(op.allocations, key, location)) else 0
  }

  ghost function BroughtTo(b: Books, op: Op, key: BatchKey, location: string): int {
    if !Apply(b, op).Ok? then 0
    else
      match op
      case Receiving(_, input, _, _) => if input.batch == key && input.location == location then input.quantity else 0
      case Moving(kind, allocations) => UnitsMoved(kind, TakenAt(allocations, key, location))
      case _ => 0
  }

  lemma StepMovesUnits(b: Books, op: Op, key: BatchKey, location: string)
    requires Balanced(b) && OpAdmissible(b, op)
    ensures ReservedOf(Step(b, op), key) == ReservedOf(b, key) + ReservedBy(b, op, key)
    ensures OnHand(Step(b, op), key, location).reserved == OnHand(b, key, location).reserved + ReservedAt(b, op, key, location)
    ensures OnHand(Step(b, op), key, location).quantity == OnHand(b, key, location).quantity + BroughtTo(b, op, key, location)
  {
    hide Balanced, Admissible, ReceiveRead, MoveAll, StatusAfter;
    if Apply(b, op).Ok? {
      match op
      case Moving(kind, allocations) => OrdersMoveTheirUnits(b, kind, allocations, key, location);
      case Receiving(product, input, now, read) => ReceiptBringsUnits(b, read, product, input, now, key, location);
      case _ =>
    }
  }

  lemma ReceiptBringsUnits(b: Books, read: Option<Batch>, product: Option<Product>, input: Receipt, now: int, key: BatchKey, location: string)
    requires CanReceive(b, read) && ReceiveRead(b, read, product, input, now).Ok?
    ensures var after := ReceiveRead(b, read, product, input, now).value;
            && ReservedOf(after, key) == ReservedOf(b, key) && OnHand(after, key, location).reserved == OnHand(b, key, location).reserved
            && OnHand(after, key, location).quantity
                 == OnHand(b, key, location).quantity + if input.batch == key && input.location == location then input.quantity else 0
  {
    hide BlendedCost, ApplyStockChange, ResolveExpiry, PriceOf;
  }

  ghost function ReservedIn(states: seq<Books>, ops: seq<Op>, key: BatchKey, n: nat): int
    requires IsRun(states, ops) && n <= |ops|
  {
    if n == 0 then 0 else ReservedIn(states, ops, key, n - 1) + ReservedBy(states[n - 1], ops[n - 1], key)
  }

  ghost function HeldIn(states: seq<Books>, ops: seq<Op>, key: BatchKey, location: string, n: nat): int
    requires IsRun(states, ops) && n <= |ops|
  {
    if n == 0 then 0 else HeldIn(states, ops, key, location, n - 1) + ReservedAt(states[n - 1], ops[n - 1], key, location)
  }

  ghost function BroughtIn(states: seq<Books>, ops: seq<Op>, key: BatchKey, location: string, n: nat): int
    requires IsRun(states, ops) && n <= |ops|
  {
    if n == 0 then 0 else BroughtIn(states, ops, key, location, n - 1) + BroughtTo(states[n - 1], ops[n - 1], key, location)
  }

  /**
   After every run: units reserved less units released are the units the batch holds reserved, and at each location
   likewise; units received there less units taken there are what the location has.
   */
  lemma {:induction false} ReservationsAreConserved(states: seq<Books>, ops: seq<Op>, key: BatchKey, location: string, n: nat)
    requires IsRun(states, ops) && n <= |ops|
    ensures ReservedOf(states[n], key) == ReservedIn(states, ops, key, n)
    ensures OnHand(states[n], key, location).reserved == HeldIn(states, ops, key, location, n)
    ensures OnHand(states[n], key, location).quantity == BroughtIn(states, ops, key, location, n)
    decreases n
  {
    if n > 0 {
      hide Step, OpAdmissible, OnHand, ReservedOf, ReservedBy, ReservedAt, BroughtTo;
      ReservationsAreConserved(states, ops, key, location, n - 1);
      RunsStayBalanced(states, ops, n - 1);
      StepMovesUnits(states[n - 1], ops[n - 1], key, location);
    }
  }

  // -------------------------------------------------------------- sold out

  /** What an order that takes units of a batch makes of its status. */
  lemma {:induction false} SoldOutExactlyWhenNothingIsLeft(b: Books, allocations: seq<Allocation>, key: BatchKey)
    requires Balanced(b) && MoveAll(b, Consume, allocations).Ok? && key in b.batches
    ensures var after := MoveAll(b, Consume, allocations).value;
            && key in after.batches && after.batches[key].quantity >= 0
            && (Taken(allocations, key) == 0 ==> after.batches[key].status == b.batches[key].status)
            && (Taken(allocations, key) > 0 ==>
                  after.batches[key].status == if after.batches[key].quantity == 0 then Consumed else b.batches[key].status)
    decreases |allocations|
  {
    hide Balanced, Held, ConsumeOne;
    BatchesNotNegative(b, key);
    if allocations != [] {
      var next := ConsumeOne(b, allocations[0]).value;
      OneLeaves(b, allocations[0], key);
      SoldOutExactlyWhenNothingIsLeft(next, allocations[1..], key);
      MoveAllAccounts(next, Consume, allocations[1..], key);
    }
  }

  /** One allocation taken leaves every other batch as it was. */
  lemma OneLeaves(b: Books, a: Allocation, key: BatchKey)
    requires Balanced(b) && ConsumeOne(b, a).Ok? && key in b.batches
    ensures var next := ConsumeOne(b, a).value;
            && Balanced(next) && key in next.batches
            && (a.batch != key ==> next.batches[key] == b.batches[key])
            && (a.batch == key ==>
                  next.batches[key].quantity == b.batches[key].quantity - a.quantity
                  && next.batches[key].status == if next.batches[key].quantity == 0 then Consumed else b.batches[key].status)
  {
    hide Balanced, Held, ConsumeOne;
    var next := ConsumeOne(b, a).value;
    ConsumeMovesItsUnits(b, a);
    MoveOneKeepsBalance(b, Consume, a);
    if a.batch != key {
      assert (next.batches - {a.batch})[key] == (b.batches - {a.batch})[key];
    }
  }

  /** In any run a sale leaves the batch consumed exactly if it took the last units, or if it counted as consumed before. */
  lemma SalesEmptyBatches(states: seq<Books>, ops: seq<Op>, i: nat, key: BatchKey)
    requires IsRun(states, ops) && i < |ops| && key in states[i].batches && ConsumedBy(states[i], ops[i], key) > 0
    ensures key in states[i + 1].batches
    ensures states[i + 1].batches[key].status == Consumed
       <==> states[i + 1].batches[key].quantity == 0 || states[i].batches[key].status == Consumed
  {
    hide Balanced;
    RunsStayBalanced(states, ops, i);
    SoldOutExactlyWhenNothingIsLeft(states[i], ops[i].allocations, key);
  }

  // -------------------------------------------------------------- a sweep among other orders

  /** The batch is off sale if it is stale. */
  ghost predicate Safe(b: Books, key: BatchKey, rule: Windows, now: int) {
    key in b.batches && SafeRow(b.batches[key], rule, now)
  }

  predicate SafeRow(batch: Batch, rule: Windows, now: int) {
    Sellable(batch.status) ==> !Stale(batch, rule, now)
  }

  /** The status and date a receipt is about to write, decided when it read the batch. */
  function StatusBrought(input: Receipt, read: Batch): Status {
    if input.status.Some? then input.status.value else read.status
  }

  function DateBrought(product: Product, input: Receipt, read: Batch): Option<int> {
    if read.expiry.Some? then read.expiry else ResolveExpiry(input.expiry, input.production, product.shelfLifeDays)
  }

  /** Whether a transaction leaves a safe batch safe: a condition on the row just before it. */
  ghost predicate Harmless(b: Books, op: Op, key: BatchKey, rule: Windows, now: int)
    requires key in b.batches
  {
    match op
    case Receiving(product, input, _, read) =>
      input.batch == key && Apply(b, op).Ok? ==>
        SafeRow(b.batches[key].(status := StatusBrought(input, read.value), expiry := DateBrought(product.value, input, read.value)), rule, now)
    case Moving(_, _) => true
    case SettingStatus(k, status, _) => k == key && Apply(b, op).Ok? ==> SafeRow(b.batches[key].(status := status), rule, now)
    case Scanning(_, _) => true
    case SweepWriting(k, read, r, t) => k == key ==> SafeRow(Written(b.batches[key], read, r, t), rule, now)
  }

  lemma {:induction false} MovedBatch(b: Books, kind: Movement, allocations: seq<Allocation>, key: BatchKey)
    requires MoveAll(b, kind, allocations).Ok? && key in b.batches
    ensures var after := MoveAll(b, kind, allocations).value;
            key in after.batches && after.batches[key].expiry == b.batches[key].expiry
            && (after.batches[key].status == b.batches[key].status || after.batches[key].status == Consumed)
    decreases |allocations|
  {
    if allocations != [] {
      MovedBatch(MoveOne(b, kind, allocations[0]).value, kind, allocations[1..], key);
    }
  }

  /** One transaction on a safe batch. */
  lemma StepIsHarmlessExactlyWhen(b: Books, op: Op, key: BatchKey, rule: Windows, now: int)
    requires Safe(b, key, rule, now)
    ensures Safe(Step(b, op), key, rule, now) <==> Harmless(b, op, key, rule, now)
  {
    hide BlendedCost, DaysLeft, BandOf;
    if op.Moving? && Apply(b, op).Ok? {
      MovedBatch(b, op.kind, op.allocations, key);
    }
  }

  /** From a state in which the batch is safe it stays so over a run exactly while every transaction is harmless at its moment. */
  lemma {:induction false} SafeExactlyWhileStepsAreHarmless(states: seq<Books>, ops: seq<Op>, m: nat, n: nat, key: BatchKey, rule: Windows, now: int)
    requires IsRun(states, ops) && m <= n <= |ops| && Safe(states[m], key, rule, now)
    ensures (forall s :: m <= s <= n ==> Safe(states[s], key, rule, now))
       <==> forall j :: m <= j < n ==> key in states[j].batches && Harmless(states[j], ops[j], key, rule, now)
    decreases n
  {
    hide Step, SafeRow, Harmless;
    if m < n {
      SafeExactlyWhileStepsAreHarmless(states, ops, m, n - 1, key, rule, now);
      if Safe(states[n - 1], key, rule, now) {
        assert states[n] == Step(states[n - 1], ops[n - 1]);
        StepIsHarmlessExactlyWhen(states[n - 1], ops[n - 1], key, rule, now);
      }
      assert (forall s :: m <= s <= n ==> Safe(states[s], key, rule, now))
        <==> Safe(states[n], key, rule, now) && forall s :: m <= s <= n - 1 ==> Safe(states[s], key, rule, now);
    }
  }

  /** Somebody decides on the status of the batch: by hand, with a receipt, or another sweep from what it read earlier. */
  predicate Decides(op: Op, key: BatchKey) {
    match op
    case Receiving(_, input, _, _) => input.batch == key && input.status.Some?
    case Moving(_, _) => false
    case SettingStatus(k, _, _) => k == key
    case Scanning(_, _) => false
    case SweepWriting(k, _, _, _) => k == key
  }

  /** A dated batch keeps its date unless a receipt writes one it had read otherwise. */
  lemma DateStays(b: Books, op: Op, key: BatchKey)
    requires key in b.batches && b.batches[key].expiry.Some?
    requires op.Receiving? && op.input.batch == key && op.read.Some? ==> op.read.value.expiry == b.batches[key].expiry
    ensures key in Step(b, op).batches && Step(b, op).batches[key].expiry == b.batches[key].expiry
  {
    hide BlendedCost, StatusAfter;
    if op.Moving? && Apply(b, op).Ok? {
      MovedBatch(b, op.kind, op.allocations, key);
    }
  }

  /** The receipts of the batch among these transactions had all read it in state `from` or later. */
  ghost predicate ReadSince(states: seq<Books>, ops: seq<Op>, key: BatchKey, from: nat, m: nat, n: nat)
    requires m <= n <= |ops| < |states|
  {
    forall j :: m <= j < n && ops[j].Receiving? && ops[j].input.batch == key ==> ReadIn(states, from, j, ops[j])
  }

  lemma {:induction false} DateStaysOverRuns(states: seq<Books>, ops: seq<Op>, r: nat, n: nat, key: BatchKey)
    requires IsRun(states, ops) && r <= n <= |ops| && ReadSince(states, ops, key, r, r, n)
    requires key in states[r].batches && states[r].batches[key].expiry.Some?
    ensures key in states[n].batches && states[n].batches[key].expiry == states[r].batches[key].expiry
    decreases n
  {
    hide Step;
    if r < n {
      var op := ops[n - 1];
      DateStaysOverRuns(states, ops, r, n - 1, key);
      if op.Receiving? && op.input.batch == key {
        var q :| r <= q <= n - 1 && RowOf(states[q], key) == op.read;
        DateStaysOverRuns(states, ops, r, q, key);
      }
      DateStays(states[n - 1], op, key);
    }
  }

  /**
   A sweep that reads a batch at one time and writes it at another, with any orders in between and after: from its
   write on the batch is off sale if it is past its date or inside its block window, until somebody decides otherwise,
   as long as no receipt of it writes back a row it read before: one written before the sweep's write must have read
   the batch no earlier than the sweep did, one written after it no earlier than that write.
   */
  lemma {:induction false} SweptBatchStaysSafe(states: seq<Books>, ops: seq<Op>, r: nat, i: nat, n: nat, key: BatchKey, rule: Windows, now: int)
    requires IsRun(states, ops) && r <= i < n <= |ops|
    requires key in states[r].batches && Swept(states[r].batches[key])
    requires ops[i] == SweepWriting(key, states[r].batches[key], rule, now)
    requires ReadSince(states, ops, key, r, r, i)
    requires ReadSince(states, ops, key, i + 1, i + 1, n) && forall j :: i < j < n ==> !Decides(ops[j], key)
    ensures Safe(states[n], key, rule, now) && states[n].batches[key].expiry.Some?
    decreases n
  {
    hide Step, SafeRow, StatusAfter, Stale;
    if n == i + 1 {
      DateStaysOverRuns(states, ops, r, i, key);
      SweepWriteIsSafe(states[i], key, states[r].batches[key], rule, now);
    } else {
      var op := ops[n - 1];
      SweptBatchStaysSafe(states, ops, r, i, n - 1, key, rule, now);
      if op.Receiving? && op.input.batch == key {
        var q :| i + 1 <= q <= n - 1 && RowOf(states[q], key) == op.read;
        SweptBatchStaysSafe(states, ops, r, i, q, key, rule, now);
      }
      StaysSafe(states[n - 1], op, key, rule, now);
    }
  }

  lemma StaysSafe(b: Books, op: Op, key: BatchKey, rule: Windows, now: int)
    requires Safe(b, key, rule, now) && b.batches[key].expiry.Some? && !Decides(op, key)
    requires op.Receiving? && op.input.batch == key ==> op.read.Some? && op.read.value.expiry.Some? && SafeRow(op.read.value, rule, now)
    ensures Safe(Step(b, op), key, rule, now) && Step(b, op).batches[key].expiry.Some?
  {
    hide BlendedCost, DaysLeft, BandOf;
    StepIsHarmlessExactlyWhen(b, op, key, rule, now);
    if op.Moving? && Apply(b, op).Ok? {
      MovedBatch(b, op.kind, op.allocations, key);
    }
  }

  lemma SweepWriteIsSafe(b: Books, key: BatchKey, read: Batch, rule: Windows, now: int)
    requires key in b.batches && Swept(read) && b.batches[key].expiry == read.expiry
    ensures var after := Step(b, SweepWriting(key, read, rule, now));
            Safe(after, key, rule, now) && after.batches[key].expiry == read.expiry
  {
    hide StatusAfter;
    if Stale(b.batches[key], rule, now) {
      WrittenStaleIsOffSale(b.batches[key], read, rule, now);
    }
  }

  // -------------------------------------------------------------- receipts that come late

  /** A status set between a receipt's read and its write survives exactly when the receipt brings it or had read it. */
  lemma StatusSurvivesReceiptExactlyWhen(b: Books, read: Batch, product: Option<Product>, input: Receipt, now: int)
    requires read.quantity >= 0 && ReceiveRead(b, Some(read), product, input, now).Ok?
    ensures input.batch in b.batches
    ensures ReceiveRead(b, Some(read), product, input, now).value.batches[input.batch].status == b.batches[input.batch].status
       <==> (input.status.Some? && input.status.value == b.batches[input.batch].status)
            || (input.status.None? && read.status == b.batches[input.batch].status)
  {
    hide BlendedCost;
  }

  /**
   A receipt reads a batch, the sweep takes it off sale because it is stale, the receipt writes: the batch is on sale
   again, stale, though nobody decided so. Receipts for purchase invoices bring no status, so each that comes in
   between does this.
   */
  lemma StaleReceiptUndoesTheSweep(b: Books, key: BatchKey, rule: Windows, now: int, product: Option<Product>, input: Receipt, t: int)
    requires key in b.batches && Swept(b.batches[key]) && Stale(b.batches[key], rule, now)
    requires input.batch == key && input.status.None?
    ensures var swept := Step(b, SweepWriting(key, b.batches[key], rule, now));
            var received := ReceiveRead(swept, Some(b.batches[key]), product, input, t);
            !Sellable(swept.batches[key].status)
            && (received.Ok? ==> Sellable(received.value.batches[key].status) && Stale(received.value.batches[key], rule, now))
  {
    hide BlendedCost;
    WrittenStaleIsOffSale(b.batches[key], b.batches[key], rule, now);
  }

  const LOT := BatchKey("flour", "L1")

  const PLAIN := Product(true, None, 100)

  const DELIVERY := Receipt(LOT, "A", 5, None, None, Some(0), None)

  /** Received, found past its date by a sweep the day after, received again by a transaction that had read it before. */
  function ComeBack(): (run: (seq<Books>, seq<Op>)) {
    var s0 := EMPTY_BOOKS;
    var s1 := Received(s0, None, 0);
    var sweep := SweepWriting(LOT, s1.batches[LOT], DEFAULT_WINDOWS, DAY);
    var s2 := s1.(batches := s1.batches[LOT := Written(s1.batches[LOT], s1.batches[LOT], DEFAULT_WINDOWS, DAY)]);
    ([s0, s1, s2, Received(s2, Some(s1.batches[LOT]), DAY)],
     [Receiving(Some(PLAIN), DELIVERY, 0, None), sweep, Receiving(Some(PLAIN), DELIVERY, DAY, Some(s1.batches[LOT]))])
  }

  function Received(b: Books, read: Option<Batch>, now: int): (after: Books)
    requires read.Some? ==> read.value.quantity >= 0
    requires read.Some? <==> LOT in b.batches
    ensures LOT in after.batches && ReceiveRead(b, read, Some(PLAIN), DELIVERY, now) == Ok(after)
    ensures read.None? ==> after.batches[LOT] == Batch(Available, Some(0), now, 5, 5, 0, 100)
  {
    ReceiveRead(b, read, Some(PLAIN), DELIVERY, now).value
  }

  /** A run in which goods past their date come back on sale by a late receipt. */
  lemma ExpiredGoodsComeBack()
    ensures var (states, ops) := ComeBack();
            && IsRun(states, ops)
            && !Sellable(states[2].batches[LOT].status) && Stale(states[2].batches[LOT], DEFAULT_WINDOWS, DAY)
            && Sellable(states[3].batches[LOT].status) && Stale(states[3].batches[LOT], DEFAULT_WINDOWS, DAY)
  {
    hide ReceiveRead, StatusAfter;
    var (states, ops) := ComeBack();
    var read := states[1].batches[LOT];
    StaleReceiptUndoesTheSweep(states[1], LOT, DEFAULT_WINDOWS, DAY, Some(PLAIN), DELIVERY, DAY);
    assert RowOf(states[0], LOT) == None && RowOf(states[1], LOT) == Some(read);
    assert ReadIn(states, 0, 0, ops[0]) && ReadIn(states, 0, 2, ops[2]);
  }

  // -------------------------------------------------------------- status changes that come late

  /** A batch with units on open orders is not off sale. */
  ghost predicate OpenOrdersCanShip(b: Books, key: BatchKey) {
    key in b.batches && (b.batches[key].reserved > 0 ==> Sellable(b.batches[key].status))
  }

  /** An accepted status change leaves no reserved units off sale exactly when none are reserved now or they may be sold. */
  lemma LateStatusIsHarmlessExactlyWhen(b: Books, key: BatchKey, read: Option<Batch>, status: Status)
    requires SetStatusRead(b, key, read, status).Ok?
    ensures OpenOrdersCanShip(SetStatusRead(b, key, read, status).value, key) <==> SetStatus(b, key, status).Ok?
    ensures RowOf(b, key) == read ==> OpenOrdersCanShip(SetStatusRead(b, key, read, status).value, key)
  {
  }

  /** Units reserved between the check and the write are taken off sale with the batch, whatever the order. */
  lemma ReservedMeanwhileGoesOffSale(b: Books, a: Allocation, status: Status)
    requires Balanced(b) && HasAvailable(b, a) && a.batch in b.batches && b.batches[a.batch].reserved == 0 && !Sellable(status)
    ensures ReserveOne(b, a).Ok?
    ensures var late := SetStatusRead(ReserveOne(b, a).value, a.batch, RowOf(b, a.batch), status);
            late.Ok? && !OpenOrdersCanShip(late.value, a.batch)
  {
  }

  // -------------------------------------------------------------- sale and cost

  /**
   What a receipt brings. A date given with it wins; otherwise one is derived from the production date, the shelf life
   in whole days later, and without either there is none. A date the batch has stays, and so does when it first came. A price given with it wins over
   the product's, and is the cost of a batch that had nothing.
   */
  lemma WhatAReceiptBrings(b: Books, product: Option<Product>, input: Receipt, now: int)
    requires CanReceive(b, RowOf(b, input.batch)) && Receive(b, product, input, now).Ok?
    ensures var batch := Receive(b, product, input, now).value.batches[input.batch];
            var days := product.value.shelfLifeDays;
            && (input.batch in b.batches && b.batches[input.batch].expiry.Some? ==> batch.expiry == b.batches[input.batch].expiry)
            && (input.batch !in b.batches || b.batches[input.batch].expiry.None? ==>
                  && (input.expiry.Some? ==> batch.expiry == input.expiry)
                  && (input.expiry.None? && input.production.Some? && days.Some? && days.value > 0 ==>
                        batch.expiry.Some? && batch.expiry.value - input.production.value == days.value * (24 * 60 * 60 * 1000))
                  && (input.expiry.None? && (input.production.None? || days.None? || days.value <= 0) ==> batch.expiry.None?))
            && batch.createdAt == (if input.batch in b.batches then b.batches[input.batch].createdAt else now)
            && (input.batch !in b.batches || b.batches[input.batch].quantity == 0 ==>
                  && (input.unitCost.Some? ==> batch.unitCost == input.unitCost.value)
                  && (input.unitCost.None? ==> batch.unitCost == product.value.costPrice))
  {
    hide Balanced, BlendedCost, ApplyStockChange;
    if input.batch in b.batches && b.batches[input.batch].quantity == 0 {
      BlendIsBetween(b.batches[input.batch].unitCost, 0, PriceOf(product.value, input), input.quantity);
    }
  }

  /** A receipt goes through exactly with a positive quantity of a known product, which if batch-tracked needs a number and a date. */
  lemma ReceivedExactlyWhen(b: Books, product: Option<Product>, input: Receipt, now: int)
    requires CanReceive(b, RowOf(b, input.batch))
    ensures Receive(b, product, input, now).Ok?
       <==> input.quantity > 0 && product.Some?
            && (product.value.batchTracked ==>
                  input.batch.number != ""
                  && (input.expiry.Some? || (input.production.Some? && product.value.shelfLifeDays.Some? && product.value.shelfLifeDays.value > 0)))
  {
    hide Balanced, BlendedCost;
  }

  /** Goods received into a batch can be sold from there exactly when the receipt or the batch as it was read says so. */
  lemma TopUpKeepsTheGate(b: Books, read: Option<Batch>, product: Option<Product>, input: Receipt, now: int)
    requires CanReceive(b, read) && ReceiveRead(b, read, product, input, now).Ok?
    ensures Drawable(ReceiveRead(b, read, product, input, now).value, input.batch, input.location) <==>
              Sellable(if input.status.Some? then input.status.value else if read.Some? then read.value.status else Available)
  {
    hide Balanced, BlendedCost, ApplyStockChange, ResolveExpiry;
    ReceivedLevel(b, input);
    SomethingArrives(b, input);
  }

  lemma SomethingArrives(b: Books, input: Receipt)
    requires Balanced(b) && input.quantity > 0
    ensures AddToLevel(LevelsOf(b, input.batch), input.location, input.quantity)[input.location].available > 0
  {
    if input.location in LevelsOf(b, input.batch) {
      assert LevelValid(b.levels[input.batch][input.location]);
    }
  }

  /** A batch that was sold out stays off sale when it is topped up without a status. */
  lemma SoldOutBatchStaysHidden(b: Books, read: Option<Batch>, product: Option<Product>, input: Receipt, now: int)
    requires CanReceive(b, read) && ReceiveRead(b, read, product, input, now).Ok?
    requires read.Some? && read.value.status == Consumed && input.status.None?
    ensures !Drawable(ReceiveRead(b, read, product, input, now).value, input.batch, input.location)
  {
    TopUpKeepsTheGate(b, read, product, input, now);
  }

  lemma BlendIsBetween(c: int, q: int, d: int, p: int)
    requires q >= 0 && p > 0
    ensures Min(c, d) <= BlendedCost(c, q, d, p) <= Max(c, d)
    ensures q == 0 ==> BlendedCost(c, q, d, p) == d
  {
    var lo, hi, n := Min(c, d), Max(c, d), q + p;
    var total := c * q + d * p;
    assert lo * n == lo * q + lo * p && hi * n == hi * q + hi * p;
    assert lo * q <= c * q && lo * p <= d * p && c * q <= hi * q && d * p <= hi * p by {
      ProductMonotone(lo, c, q);
      ProductMonotone(lo, d, p);
      ProductMonotone(c, hi, q);
      ProductMonotone(d, hi, p);
    }
    RoundedBetween(total, n, lo, hi);
    if q == 0 {
      assert total == d * n;
      RoundedBetween(total, n, d, d);
    }
  }

  lemma ProductMonotone(a: int, b: int, k: int)
    requires a <= b && k >= 0
    ensures a * k <= b * k
  {
  }

  lemma RoundedBetween(total: int, n: int, lo: int, hi: int)
    requires n > 0 && lo * n <= total <= hi * n
    ensures lo <= RoundedRatio(total, n) <= hi
  {
    var r := RoundedRatio(total, n);
    RoundingError(total, n);
    assert (lo - 1) * n == lo * n - n && (hi + 1) * n == hi * n + n;
    if r < lo {
      ProductMonotone(r, lo - 1, n);
    }
    if r > hi {
      ProductMonotone(hi + 1, r, n);
    }
  }

  /** The rounded cost times the quantity misses the exact value by at most half a ten-thousandth a unit. */
  lemma RoundingError(total: int, n: int)
    requires n > 0
    ensures -n < 2 * (RoundedRatio(total, n) * n - total) <= n
  {
    var r := RoundedRatio(total, n);
    var m := (2 * total + n) % (2 * n);
    assert 2 * total + n == r * (2 * n) + m;
    assert r * (2 * n) == 2 * (r * n);
  }

  lemma BlendIsExactToRounding(c: int, q: int, d: int, p: int)
    requires q >= 0 && p > 0
    ensures -(q + p) <= 2 * (BlendedCost(c, q, d, p) * (q + p) - (c * q + d * p)) <= q + p
  {
    RoundingError(c * q + d * p, q + p);
  }

  /** Units on hand times their cost. */
  function ValueOf(b: Books, key: BatchKey): int {
    if key in b.batches then b.batches[key].unitCost * b.batches[key].quantity else 0
  }

  /** A receipt adds its own price times its quantity to the value of the batch, but for half a ten-thousandth a unit. */
  lemma ReceiptValueIsExactToRounding(b: Books, product: Option<Product>, input: Receipt, now: int)
    requires CanReceive(b, RowOf(b, input.batch)) && Receive(b, product, input, now).Ok?
    ensures var after := Receive(b, product, input, now).value;
            var n := after.batches[input.batch].quantity;
            -n <= 2 * (ValueOf(after, input.batch) - ValueOf(b, input.batch) - PriceOf(product.value, input) * input.quantity) <= n
  {
    hide Balanced, BlendedCost, ApplyStockChange;
    var d, p := PriceOf(product.value, input), input.quantity;
    if input.batch in b.batches {
      var c, q := b.batches[input.batch].unitCost, b.batches[input.batch].quantity;
      BlendIsExactToRounding(c, q, d, p);
    }
  }

  /**
   Two receipts of one batch overlap: both quantities arrive, for they are increments, but the second cost is blended
   from the stale row. The first receipt's units are then valued at that blend instead of their own price, and
   nothing else goes wrong but the rounding.
   */
  lemma OverlappingReceiptLosesAPrice(b: Books, product: Option<Product>, first: Receipt, second: Receipt, now: int, later: int)
    requires CanReceive(b, RowOf(b, first.batch)) && first.batch in b.batches && second.batch == first.batch
    requires Receive(b, product, first, now).Ok?
    requires ReceiveRead(Receive(b, product, first, now).value, RowOf(b, first.batch), product, second, later).Ok?
    ensures var key := first.batch;
            var after := ReceiveRead(Receive(b, product, first, now).value, RowOf(b, key), product, second, later).value;
            var exact := ValueOf(b, key) + PriceOf(product.value, first) * first.quantity + PriceOf(product.value, second) * second.quantity;
            var lost := first.quantity * (PriceOf(product.value, first) - after.batches[key].unitCost);
            var n := b.batches[key].quantity + second.quantity;
            && after.batches[key].quantity == b.batches[key].quantity + first.quantity + second.quantity
            && -n <= 2 * (ValueOf(after, key) - (exact - lost)) <= n
  {
    hide Balanced, BlendedCost, ApplyStockChange;
    var read := b.batches[first.batch];
    var after := ReceiveRead(Receive(b, product, first, now).value, RowOf(b, first.batch), product, second, later).value;
    var blend := after.batches[first.batch].unitCost;
    BlendIsExactToRounding(read.unitCost, read.quantity, PriceOf(product.value, second), second.quantity);
    Distributes(blend, read.quantity + second.quantity, first.quantity);
    Distributes(first.quantity, PriceOf(product.value, first), -blend);
  }

  lemma Distributes(a: int, x: int, y: int)
    ensures a * (x + y) == a * x + a * y
  {
  }

  /** All costs on the books lie between two prices. */
  ghost predicate CostsWithin(b: Books, lo: int, hi: int) {
    forall k :: k in b.batches ==> lo <= b.batches[k].unitCost <= hi
  }

  ghost predicate PriceWithin(op: Op, lo: int, hi: int) {
    op.Receiving? && op.product.Some? ==> lo <= PriceOf(op.product.value, op.input) <= hi
  }

  lemma {:induction false} MoveAllKeepsCosts(b: Books, kind: Movement, allocations: seq<Allocation>)
    requires MoveAll(b, kind, allocations).Ok?
    ensures MoveAll(b, kind, allocations).value.batches.Keys == b.batches.Keys
    ensures forall k :: k in b.batches ==> MoveAll(b, kind, allocations).value.batches[k].unitCost == b.batches[k].unitCost
    decreases |allocations|
  {
    if allocations != [] {
      MoveAllKeepsCosts(MoveOne(b, kind, allocations[0]).value, kind, allocations[1..]);
    }
  }

  lemma StepKeepsCosts(b: Books, op: Op, lo: int, hi: int)
    requires CostsWithin(b, lo, hi) && PriceWithin(op, lo, hi)
    requires op.Receiving? && op.read.Some? ==> lo <= op.read.value.unitCost <= hi
    ensures CostsWithin(Step(b, op), lo, hi)
  {
    hide BlendedCost, StatusAfter;
    if Apply(b, op).Ok? {
      match op
      case Receiving(product, input, now, read) =>
        if read.Some? {
          BlendIsBetween(read.value.unitCost, read.value.quantity, PriceOf(product.value, input), input.quantity);
        }
      case Moving(kind, allocations) => MoveAllKeepsCosts(b, kind, allocations);
      case SettingStatus(key, status, read) =>
      case Scanning(c, now) =>
      case SweepWriting(key, read, rule, now) =>
    }
  }

  /** Over any run, overlapping receipts included, the cost of every batch stays between the lowest and the highest price received. */
  lemma {:induction false} CostsStayWithinPrices(states: seq<Books>, ops: seq<Op>, lo: int, hi: int, n: nat)
    requires IsRun(states, ops) && n <= |ops|
    requires forall i :: 0 <= i < n ==> PriceWithin(ops[i], lo, hi)
    ensures CostsWithin(states[n], lo, hi)
    decreases n
  {
    if n > 0 {
      hide Step, PriceWithin;
      var op := ops[n - 1];
      CostsStayWithinPrices(states, ops, lo, hi, n - 1);
      if op.Receiving? {
        assert ReadIn(states, 0, n - 1, op);
        var q :| 0 <= q <= n - 1 && RowOf(states[q], op.input.batch) == op.read;
        CostsStayWithinPrices(states, ops, lo, hi, q);
      }
      StepKeepsCosts(states[n - 1], op, lo, hi);
    }
  }
}
