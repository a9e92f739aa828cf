/**
 The three stock ledgers: batches, batches per location and aggregate stock
 (backend-nest/src/batches/batches.service.ts:383-533, 680-780 with
 backend-nest/src/inventory/inventory.service.ts:439-509). Each function is one
 transaction on the books; a failure leaves the books as they were.
 */
module BatchLedger {
  import opened Basics
  import opened Wrappers
  import opened MapSums

  datatype Status = Available | Quarantine | NearExpiry | Expired | Consumed | Rejected

  /** Statuses a batch may be sold from. */
  predicate Sellable(s: Status) { s == Available || s == NearExpiry }

  /** Batches are unique by product and batch number. */
  datatype BatchKey = BatchKey(sku: string, number: string)

  /** Dates are milliseconds; the unit cost counts ten-thousandths. */
  datatype Batch = Batch(
    status: Status, expiry: Option<int>, createdAt: int,
    initialQuantity: int, quantity: int, reserved: int, unitCost: int)

  datatype Level = Level(quantity: int, reserved: int, available: int)

  datatype StockKey = StockKey(sku: string, location: string)

  datatype Books = Books(
    batches: map<BatchKey, Batch>,
    levels: map<BatchKey, map<string, Level>>,
    stock: map<StockKey, Level>)

  type Units = n: int | n > 0 witness 1

  datatype Allocation = Allocation(batch: BatchKey, location: string, quantity: Units)

  datatype LedgerError = InvalidQuantity | UnknownProduct | BatchNumberMissing | ExpiryMissing
                       | Conflict(batch: BatchKey) | UnknownBatch | BatchTaken | NoStockLevel | InsufficientStock | StillReserved

  // ----------------------------------------------------------- aggregate stock

  function ApplyStockChange(stock: map<StockKey, Level>, key: StockKey, change: int): Result<map<StockKey, Level>, LedgerError> {
    if change == 0 then Err(InvalidQuantity)
    else if change < 0 && key !in stock then Err(NoStockLevel)
    else if change < 0 && stock[key].quantity + change < 0 then Err(InsufficientStock)
    else if key !in stock then Ok(stock[key := Level(Max(0, change), 0, Max(0, change))])
    else
      var on := Max(0, stock[key].quantity + change);
      Ok(stock[key := Level(on, stock[key].reserved, Max(0, on - stock[key].reserved))])
  }

  // ------------------------------------------------------------------- receipt

  datatype Product = Product(batchTracked: bool, shelfLifeDays: Option<int>, costPrice: int)

  datatype Receipt = Receipt(
    batch: BatchKey, location: string, quantity: int, unitCost: Option<int>,
    production: Option<int>, expiry: Option<int>, status: Option<Status>)

  const DAY: int := 86400000

  /** An explicit date wins; otherwise production date plus shelf life. */
  function ResolveExpiry(expiry: Option<int>, production: Option<int>, shelfLifeDays: Option<int>): Option<int> {
    if expiry.Some? then expiry
    else if production.Some? && shelfLifeDays.Some? && shelfLifeDays.value > 0 then Some(production.value + shelfLifeDays.value * DAY)
    else None
  }

  /** Round half up to a whole number of ten-thousandths. */
  function RoundedRatio(amount: int, parts: int): int
    requires parts > 0
  {
    (2 * amount + parts) / (2 * parts)
  }

  function BlendedCost(oldCost: int, oldQuantity: int, cost: int, quantity: int): int
    requires oldQuantity + quantity >= 0
  {
    if oldQuantity + quantity == 0 then cost
    else RoundedRatio(oldCost * oldQuantity + cost * quantity, oldQuantity + quantity)
  }

  function AddToLevel(levels: map<string, Level>, location: string, quantity: int): map<string, Level> {
    if location in levels then
      var l := levels[location];
      levels[location := Level(l.quantity + quantity, l.reserved, l.available + quantity)]
    else levels[location := Level(quantity, 0, quantity)]
  }

  function LevelsOf(b: Books, key: BatchKey): map<string, Level> {
    if key in b.levels then b.levels[key] else map[]
  }

  function RowOf(b: Books, key: BatchKey): Option<Batch> {
    if key in b.batches then Some(b.batches[key]) else None
  }

  /**
   What a receipt writes onto a batch that it had read as `read`: quantities are increments of the row as it is now,
   cost, date and status are decided on the row as it was read.
   */
  function ToppedUp(current: Batch, read: Batch, input: Receipt, expiry: Option<int>, cost: int): Batch
    requires input.quantity > 0 && read.quantity >= 0
  {
    current.(quantity := current.quantity + input.quantity,
             initialQuantity := current.initialQuantity + input.quantity,
             unitCost := BlendedCost(read.unitCost, read.quantity, cost, input.quantity),
             expiry := if read.expiry.Some? then read.expiry else expiry,
             status := if input.status.Some? then input.status.value else read.status)
  }

  /** The batch row after a receipt that found `read`: topped up, or new unless somebody created it meanwhile. */
  function ReceivedBatch(batches: map<BatchKey, Batch>, read: Option<Batch>, input: Receipt, expiry: Option<int>, cost: int, now: int): Result<Batch, LedgerError>
    requires input.quantity > 0 && (read.Some? ==> read.value.quantity >= 0)
  {
    if read.Some? then
      if input.batch in batches then Ok(ToppedUp(batches[input.batch], read.value, input, expiry, cost)) else Err(UnknownBatch)
    else if input.batch in batches then Err(BatchTaken)
    else Ok(Batch(if input.status.Some? then input.status.value else Available, expiry, now, input.quantity, input.quantity, 0, cost))
  }

  function PriceOf(product: Product, input: Receipt): int {
    if input.unitCost.Some? then input.unitCost.value else product.costPrice
  }

  /** A receipt whose lookup of the batch gave `read`, at this moment or at any time before. */
  function ReceiveRead(b: Books, read: Option<Batch>, product: Option<Product>, input: Receipt, now: int): Result<Books, LedgerError>
    requires read.Some? ==> read.value.quantity >= 0
  {
    if input.quantity <= 0 then Err(InvalidQuantity)
    else if product == None then Err(UnknownProduct)
    else
      var expiry := ResolveExpiry(input.expiry, input.production, product.value.shelfLifeDays);
      if product.value.batchTracked && input.batch.number == "" then Err(BatchNumberMissing)
      else if product.value.batchTracked && expiry == None then Err(ExpiryMissing)
      else
        match ReceivedBatch(b.batches, read, input, expiry, PriceOf(product.value, input), now)
        case Err(e) => Err(e)
        case Ok(batch) =>
          match ApplyStockChange(b.stock, StockKey(input.batch.sku, input.location), input.quantity)
          case Err(e) => Err(e)
          case Ok(stock) =>
            Ok(Books(b.batches[input.batch := batch],
                     b.levels[input.batch := AddToLevel(LevelsOf(b, input.batch), input.location, input.quantity)],
                     stock))
  }

  /** A receipt with nothing in between. */
  function Receive(b: Books, product: Option<Product>, input: Receipt, now: int): Result<Books, LedgerError>
    requires input.batch in b.batches ==> b.batches[input.batch].quantity >= 0
  {
    ReceiveRead(b, RowOf(b, input.batch), product, input, now)
  }

  // --------------------------------------------------------------- consumption

  predicate HasAvailable(b: Books, a: Allocation) {
    a.batch in b.levels && a.location in b.levels[a.batch] && b.levels[a.batch][a.location].available >= a.quantity
  }

  function ConsumeOne(b: Books, a: Allocation): Result<Books, LedgerError> {
    if !HasAvailable(b, a) then Err(Conflict(a.batch))
    else if a.batch !in b.batches then Err(UnknownBatch)
    else
      var l := b.levels[a.batch][a.location];
      var existing := b.batches[a.batch];
      var left := existing.quantity - a.quantity;
      var batch := existing.(quantity := left, status := if left <= 0 then Consumed else existing.status);
      match ApplyStockChange(b.stock, StockKey(a.batch.sku, a.location), -(a.quantity as int))
      case Err(e) => Err(e)
      case Ok(stock) =>
        Ok(Books(b.batches[a.batch := batch],
                 b.levels[a.batch := b.levels[a.batch][a.location := Level(l.quantity - a.quantity, l.reserved, l.available - a.quantity)]],
                 stock))
  }

  function ReserveOne(b: Books, a: Allocation): Result<Books, LedgerError> {
    if !HasAvailable(b, a) then Err(Conflict(a.batch))
    else if a.batch !in b.batches then Err(UnknownBatch)
    else
      var l := b.levels[a.batch][a.location];
      var existing := b.batches[a.batch];
      Ok(b.(batches := b.batches[a.batch := existing.(reserved := existing.reserved + a.quantity)],
            levels := b.levels[a.batch := b.levels[a.batch][a.location := Level(l.quantity, l.reserved + a.quantity, l.available - a.quantity)]]))
  }

  /** The location gives back at most what it holds; the batch is decremented by the full quantity. */
  function ReleaseOne(b: Books, a: Allocation): Result<Books, LedgerError> {
    if a.batch !in b.batches then Err(UnknownBatch)
    else
      var existing := b.batches[a.batch];
      var batches := b.batches[a.batch := existing.(reserved := existing.reserved - a.quantity)];
      if a.location in LevelsOf(b, a.batch) then
        var l := b.levels[a.batch][a.location];
        Ok(b.(batches := batches,
              levels := b.levels[a.batch := b.levels[a.batch][a.location :=
                Level(l.quantity, Max(0, l.reserved - a.quantity), l.available + Min(l.reserved, a.quantity))]]))
      else Ok(b.(batches := batches))
  }

  datatype Movement = Consume | Reserve | Release

  function MoveOne(b: Books, kind: Movement, a: Allocation): Result<Books, LedgerError> {
    match kind
    case Consume => ConsumeOne(b, a)
    case Reserve => ReserveOne(b, a)
    case Release => ReleaseOne(b, a)
  }

  /** The loop over an order's allocations, all or nothing. */
  function MoveAll(b: Books, kind: Movement, allocations: seq<Allocation>): Result<Books, LedgerError>
    decreases |allocations|
  {
    if allocations == [] then Ok(b)
    else
      match MoveOne(b, kind, allocations[0])
      case Err(e) => Err(e)
      case Ok(after) => MoveAll(after, kind, allocations[1..])
  }

  // -------------------------------------------------------------------- status

  /** A status change whose lookup gave `read`: reservations are checked there, the write goes by id. */
  function SetStatusRead(b: Books, key: BatchKey, read: Option<Batch>, status: Status): Result<Books, LedgerError> {
    if read == None then Err(UnknownBatch)
    else if read.value.reserved > 0 && !Sellable(status) then Err(StillReserved)
    else if key !in b.batches then Err(UnknownBatch)
    else Ok(b.(batches := b.batches[key := b.batches[key].(status := status)]))
  }

  /** A status change with nothing in between. */
  function SetStatus(b: Books, key: BatchKey, status: Status): Result<Books, LedgerError> {
    SetStatusRead(b, key, RowOf(b, key), status)
  }

  // ----------------------------------------------------------------- invariant

  ghost predicate LevelValid(l: Level) {
    l.quantity == l.reserved + l.available && l.quantity >= 0 && l.reserved >= 0 && l.available >= 0
  }

  ghost function Quantities(levels: map<string, Level>): map<string, int> {
    map l | l in levels :: levels[l].quantity
  }

  ghost function Reservations(levels: map<string, Level>): map<string, int> {
    map l | l in levels :: levels[l].reserved
  }

  /** What each batch of the product has at the location. */
  ghost function AtLocation(b: Books, key: StockKey): map<BatchKey, int> {
    map k | k in b.levels && k.sku == key.sku && key.location in b.levels[k] :: b.levels[k][key.location].quantity
  }

  ghost predicate BatchBalanced(batch: Batch, levels: map<string, Level>) {
    batch.quantity == Total(Quantities(levels)) && batch.reserved == Total(Reservations(levels))
  }

  /** Every level adds up, every batch is the sum of its locations, every stock cell the sum of its batches. */
  ghost predicate Balanced(b: Books) {
    && b.levels.Keys == b.batches.Keys
    && (forall k, l :: k in b.levels && l in b.levels[k] ==> LevelValid(b.levels[k][l]))
    && (forall k :: k in b.batches ==> BatchBalanced(b.batches[k], b.levels[k]))
    && (forall s :: s in b.stock ==> b.stock[s].quantity == Total(AtLocation(b, s)))
    && (forall k, l :: k in b.levels && l in b.levels[k] ==> StockKey(k.sku, l) in b.stock)
  }

  /** Replaces one level and its batch and stock rows. */
  ghost function WithLevel(b: Books, key: BatchKey, location: string, level: Level, batch: Batch, stock: Level): Books {
    Books(b.batches[key := batch], b.levels[key := LevelsOf(b, key)[location := level]], b.stock[StockKey(key.sku, location) := stock])
  }

  ghost function OnHand(b: Books, key: BatchKey, location: string): Level {
    if location in LevelsOf(b, key) then b.levels[key][location] else Level(0, 0, 0)
  }

  lemma SumsMove(levels: map<string, Level>, location: string, level: Level)
    ensures var before := if location in levels then levels[location] else Level(0, 0, 0);
            && Total(Quantities(levels[location := level])) == Total(Quantities(levels)) - before.quantity + level.quantity
            && Total(Reservations(levels[location := level])) == Total(Reservations(levels)) - before.reserved + level.reserved
  {
    assert Quantities(levels[location := level]) == Quantities(levels)[location := level.quantity];
    assert Reservations(levels[location := level]) == Reservations(levels)[location := level.reserved];
    TotalUpdate(Quantities(levels), location, level.quantity);
    TotalUpdate(Reservations(levels), location, level.reserved);
  }

  /** Which batches are at a location changes for the one whose level was replaced there, if any. */
  lemma AtLocationMoves(b: Books, key: BatchKey, location: string, level: Level, batch: Batch, stock: Level, s: StockKey)
    requires b.levels.Keys == b.batches.Keys
    ensures var at' := AtLocation(WithLevel(b, key, location, level, batch, stock), s);
            at' == if s == StockKey(key.sku, location) then AtLocation(b, s)[key := level.quantity] else AtLocation(b, s)
  {
    var after := WithLevel(b, key, location, level, batch, stock);
    var at, at' := AtLocation(b, s), AtLocation(after, s);
    forall k
      ensures k != key ==> (k in at' <==> k in at) && (k in at ==> at'[k] == at[k])
      ensures s == StockKey(key.sku, location) ==> key in at' && at'[key] == level.quantity
      ensures s != StockKey(key.sku, location) ==> (key in at' <==> key in at) && (key in at ==> at'[key] == at[key])
    {
    }
  }

  lemma StockMoves(b: Books, key: BatchKey, location: string, level: Level, batch: Batch, stock: Level, s: StockKey)
    requires b.levels.Keys == b.batches.Keys
    ensures var after := WithLevel(b, key, location, level, batch, stock);
            Total(AtLocation(after, s)) == Total(AtLocation(b, s))
              + if s == StockKey(key.sku, location) then level.quantity - OnHand(b, key, location).quantity else 0
  {
    AtLocationMoves(b, key, location, level, batch, stock, s);
    if s == StockKey(key.sku, location) {
      TotalUpdate(AtLocation(b, s), key, level.quantity);
    }
  }

  /** Moving one level together with its batch and its stock cell keeps the books balanced. */
  lemma MoveKeepsBalance(b: Books, key: BatchKey, location: string, level: Level, batch: Batch, stock: Level)
    requires Balanced(b) && LevelValid(level)
    requires var before := OnHand(b, key, location);
             var s := StockKey(key.sku, location);
             && batch.quantity == (if key in b.batches then b.batches[key].quantity else 0) + level.quantity - before.quantity
             && batch.reserved == (if key in b.batches then b.batches[key].reserved else 0) + level.reserved - before.reserved
             && stock.quantity == (if s in b.stock then b.stock[s].quantity else 0) + level.quantity - before.quantity
    ensures Balanced(WithLevel(b, key, location, level, batch, stock))
  {
    hide *;
    BatchRowMoves(b, key, location, level, batch, stock);
    StockRowsMove(b, key, location, level, batch, stock);
    PutTogether(b, key, location, level, batch, stock);
  }

  lemma PutTogether(b: Books, key: BatchKey, location: string, level: Level, batch: Batch, stock: Level)
    requires Balanced(b) && LevelValid(level)
    requires BatchBalanced(batch, LevelsOf(b, key)[location := level])
    requires forall t :: t in WithLevel(b, key, location, level, batch, stock).stock ==>
               WithLevel(b, key, location, level, batch, stock).stock[t].quantity == Total(AtLocation(WithLevel(b, key, location, level, batch, stock), t))
    ensures Balanced(WithLevel(b, key, location, level, batch, stock))
  {
    hide BatchBalanced, AtLocation, LevelValid;
  }

  lemma BatchRowMoves(b: Books, key: BatchKey, location: string, level: Level, batch: Batch, stock: Level)
    requires Balanced(b)
    requires var before := OnHand(b, key, location);
             && batch.quantity == (if key in b.batches then b.batches[key].quantity else 0) + level.quantity - before.quantity
             && batch.reserved == (if key in b.batches then b.batches[key].reserved else 0) + level.reserved - before.reserved
    ensures BatchBalanced(batch, LevelsOf(b, key)[location := level])
  {
    SumsMove(LevelsOf(b, key), location, level);
    if key !in b.levels {
      assert Quantities(map[]) == map[] && Reservations(map[]) == map[];
    } else {
      assert BatchBalanced(b.batches[key], b.levels[key]);
    }
  }

  lemma StockRowsMove(b: Books, key: BatchKey, location: string, level: Level, batch: Batch, stock: Level)
    requires Balanced(b)
    requires var s := StockKey(key.sku, location);
             stock.quantity == (if s in b.stock then b.stock[s].quantity else 0) + level.quantity - OnHand(b, key, location).quantity
    ensures var after := WithLevel(b, key, location, level, batch, stock);
            forall t :: t in after.stock ==> after.stock[t].quantity == Total(AtLocation(after, t))
  {
    hide BatchBalanced, LevelValid;
    var after := WithLevel(b, key, location, level, batch, stock);
    forall t | t in after.stock
      ensures after.stock[t].quantity == Total(AtLocation(after, t))
    {
      StockMoves(b, key, location, level, batch, stock, t);
      if t !in b.stock {
        assert AtLocation(b, t) == map[];
      }
    }
  }

  lemma LevelBounds(b: Books, key: BatchKey, location: string)
    requires Balanced(b) && key in b.levels && location in b.levels[key]
    ensures var l := b.levels[key][location];
            && b.batches[key].quantity >= l.quantity && b.batches[key].reserved >= l.reserved
            && b.stock[StockKey(key.sku, location)].quantity >= l.quantity
  {
    assert BatchBalanced(b.batches[key], b.levels[key]);
    TotalBounds(Quantities(b.levels[key]), location);
    TotalBounds(Reservations(b.levels[key]), location);
    TotalBounds(AtLocation(b, StockKey(key.sku, location)), key);
  }

  lemma BatchesNotNegative(b: Books, key: BatchKey)
    requires Balanced(b) && key in b.batches
    ensures b.batches[key].quantity >= b.batches[key].reserved >= 0
  {
    var levels := b.levels[key];
    assert BatchBalanced(b.batches[key], levels);
    TotalBounds(Reservations(levels), "");
    TotalMonotone(Reservations(levels), Quantities(levels));
  }

  lemma {:induction false} TotalMonotone(m: map<string, int>, n: map<string, int>)
    requires m.Keys == n.Keys && forall k :: k in m ==> m[k] <= n[k]
    ensures Total(m) <= Total(n)
    decreases |m|
  {
    if m != map[] {
      var k :| k in m && Total(m) == m[k] + Total(m - {k});
      TotalWithout(n, k);
      TotalMonotone(m - {k}, n - {k});
    } else {
      assert n == map[];
    }
  }
}
