/**
 * The archive of daily exchange rates and the documents priced from it
 * (backend-nest/src/accounting/exchange-rate.service.ts:13-95, 133-274, 288-399).
 *
 * Days are day numbers and stored rates are whole ten-thousandths, the column's four decimals.
 */
module ExchangeRates {
  import opened Wrappers

  const BASE := "SYP"
  const SUPPORTED: set<string> := {"SYP", "USD"}
  const ONE: int := 10000

  datatype Rate = Rate(pair: string, day: int, rate: int)

  /** The tables that record a rate. Production cost records do so too, but the usage count leaves them out. */
  datatype Kind = PurchaseInvoice | SalesInvoice | JournalLine | StockMovement | CostRecord

  /** A document's recorded rate, and whether that rate was looked up in the book or typed in. */
  datatype Document = Document(kind: Kind, currency: string, day: int, rate: int, fromBook: bool)

  datatype Book = Book(rates: map<nat, Rate>, documents: map<nat, Document>)

  datatype Quote = Quote(rate: int, day: int, exact: bool)

  datatype Error = BadPair | BadRate | AlreadyRecorded | NotFound | InUse | Unsupported | NoRate

  predicate Letter(c: char) {
    'A' <= c <= 'Z'
  }

  predicate ValidPair(p: string) {
    |p| == 10 && p[3..7] == "_TO_" && (forall i :: 0 <= i < 3 ==> Letter(p[i])) && (forall i :: 7 <= i < 10 ==> Letter(p[i]))
  }

  /** `pair.split('_TO_')[0]`. */
  function From(p: string): string
    requires ValidPair(p)
  {
    p[..3]
  }

  function PairFor(currency: string): string {
    currency + "_TO_" + BASE
  }

  lemma PairNamesItsCurrency(currency: string)
    requires |currency| == 3 && ValidPair(PairFor(currency))
    ensures From(PairFor(currency)) == currency
  {
  }

  /** Storing in a column of four decimals. */
  function Stored(rate: real): int {
    (rate * 10000.0 + 0.5).Floor
  }

  // ------------------------------------------------------------------ looking a rate up

  /** The row that `resolveRate` reads: the latest of the pair not after the day. */
  ghost predicate InForce(rates: map<nat, Rate>, pair: string, day: int, id: nat) {
    && id in rates && rates[id].pair == pair && rates[id].day <= day
    && forall x :: x in rates && rates[x].pair == pair && rates[x].day <= day ==> rates[x].day <= rates[id].day
  }

  ghost function Resolve(rates: map<nat, Rate>, currency: string, day: int): Option<Quote> {
    if currency == BASE then Some(Quote(ONE, day, true))
    else if exists id :: InForce(rates, PairFor(currency), day, id) then
      var id :| InForce(rates, PairFor(currency), day, id);
      Some(Quote(rates[id].rate, rates[id].day, rates[id].day == day))
    else None
  }

  /** The unique index on (pair, day). */
  ghost predicate OnePerDay(rates: map<nat, Rate>) {
    forall x, y :: x in rates && y in rates && rates[x].pair == rates[y].pair && rates[x].day == rates[y].day ==> x == y
  }

  /** Which row is in force settles the quote. */
  lemma ResolveReads(rates: map<nat, Rate>, currency: string, day: int, id: nat)
    requires OnePerDay(rates) && currency != BASE && InForce(rates, PairFor(currency), day, id)
    ensures Resolve(rates, currency, day) == Some(Quote(rates[id].rate, rates[id].day, rates[id].day == day))
  {
    forall y | InForce(rates, PairFor(currency), day, y)
      ensures y == id
    {
      assert rates[y].day <= rates[id].day && rates[id].day <= rates[y].day;
    }
  }

  /** The base currency is worth one, exactly on the day. */
  lemma BaseIsOne(rates: map<nat, Rate>, day: int)
    ensures Resolve(rates, "SYP", day) == Some(Quote(10000, day, true))
  {
  }

  ghost predicate Published(rates: map<nat, Rate>, pair: string, from: int, upTo: int) {
    exists x :: x in rates && rates[x].pair == pair && from <= rates[x].day <= upTo
  }

  lemma {:induction false} SomeRateIsInForce(rates: map<nat, Rate>, pair: string, day: int, x: nat)
    requires x in rates && rates[x].pair == pair && rates[x].day <= day
    ensures exists id :: InForce(rates, pair, day, id)
    decreases day - rates[x].day
  {
    if !InForce(rates, pair, day, x) {
      var y :| y in rates && rates[y].pair == pair && rates[y].day <= day && rates[y].day > rates[x].day;
      SomeRateIsInForce(rates, pair, day, y);
    }
  }

  /** There is an answer exactly for the base currency and for a pair with a rate on or before the day. */
  lemma ResolvesExactlyWhen(rates: map<nat, Rate>, currency: string, day: int)
    ensures Resolve(rates, currency, day).Some?
       <==> currency == BASE || exists x :: x in rates && rates[x].pair == PairFor(currency) && rates[x].day <= day
  {
    if x :| x in rates && rates[x].pair == PairFor(currency) && rates[x].day <= day {
      SomeRateIsInForce(rates, PairFor(currency), day, x);
    }
  }

  // ------------------------------------------------------------------ the operations

  predicate Taken(rates: map<nat, Rate>, pair: string, day: int) {
    exists x :: x in rates && rates[x].pair == pair && rates[x].day == day
  }

  function Add(b: Book, id: nat, pair: string, rate: real, day: int): Result<Book, Error> {
    if !ValidPair(pair) then Err(BadPair)
    else if rate <= 0.0 then Err(BadRate)
    else if Taken(b.rates, pair, day) then Err(AlreadyRecorded)
    else Ok(b.(rates := b.rates[id := Rate(pair, day, Stored(rate))]))
  }

  /** What `countUsages` counts, cost records not among them. */
  predicate Counted(d: Document, pair: string, day: int)
    requires ValidPair(pair)
  {
    d.kind != CostRecord && d.day == day && d.currency == From(pair)
  }

  predicate Used(b: Book, pair: string, day: int)
    requires ValidPair(pair)
  {
    exists k :: k in b.documents && Counted(b.documents[k], pair, day)
  }

  /** The rate is in use exactly if some invoice, journal line or stock movement records its currency on its very day. */
  lemma UsedExactlyWhen(b: Book, currency: string, day: int)
    requires |currency| == 3 && ValidPair(PairFor(currency))
    ensures Used(b, PairFor(currency), day)
       <==> exists k :: k in b.documents && b.documents[k].currency == currency && b.documents[k].day == day
              && b.documents[k].kind in {PurchaseInvoice, SalesInvoice, JournalLine, StockMovement}
  {
    PairNamesItsCurrency(currency);
    if k :| k in b.documents && b.documents[k].currency == currency && b.documents[k].day == day
            && b.documents[k].kind in {PurchaseInvoice, SalesInvoice, JournalLine, StockMovement} {
      assert Counted(b.documents[k], PairFor(currency), day);
    }
  }

  /** The write of an update, without its checks. */
  function Overwrite(b: Book, id: nat, rate: real): Book
    requires id in b.rates
  {
    b.(rates := b.rates[id := b.rates[id].(rate := Stored(rate))])
  }

  function Update(b: Book, id: nat, rate: real): Result<Book, Error>
    requires id in b.rates ==> ValidPair(b.rates[id].pair)
  {
    if id !in b.rates then Err(NotFound)
    else if rate <= 0.0 then Err(BadRate)
    else if Used(b, b.rates[id].pair, b.rates[id].day) then Err(InUse)
    else Ok(Overwrite(b, id, rate))
  }

  function Remove(b: Book, id: nat): Result<Book, Error>
    requires id in b.rates ==> ValidPair(b.rates[id].pair)
  {
    if id !in b.rates then Err(NotFound)
    else if Used(b, b.rates[id].pair, b.rates[id].day) then Err(InUse)
    else Ok(b.(rates := b.rates - {id}))
  }

  datatype Converted = Converted(currency: string, rate: real, day: int, base: real, fromBook: bool)

  /** Rounding to two decimals, halves upward. */
  function Round2(v: real): real {
    (v * 100.0 + 0.5).Floor as real / 100.0
  }

  /** An amount in the base currency. */
  function InBase(amount: real, rate: real): real { Round2(amount * rate) }

  ghost function Convert(rates: map<nat, Rate>, amount: real, currency: string, day: int, given: Option<real>): Result<Converted, Error> {
    if currency !in SUPPORTED then Err(Unsupported)
    else if currency == BASE then Ok(Converted(currency, 1.0, day, Round2(amount), false))
    else match given
      case Some(rate) =>
        if rate <= 0.0 then Err(BadRate) else Ok(Converted(currency, rate, day, InBase(amount, rate), false))
      case None =>
        match Resolve(rates, currency, day)
        case None => Err(NoRate)
        case Some(q) =>
          var rate := q.rate as real / 10000.0;
          Ok(Converted(currency, rate, q.day, InBase(amount, rate), true))
  }

  function Distance(a: real, b: real): real { if a < b then b - a else a - b }

  function Size(a: real): real { if a < 0.0 then -a else a }

  /** A rate as its column gives it back. */
  function Recorded(rate: real): real { Stored(rate) as real / 10000.0 }

  lemma StoredIsClose(rate: real)
    ensures Distance(Recorded(rate), rate) <= 0.00005
  {
  }

  lemma StoredIsExact(n: int)
    ensures Stored(n as real / 10000.0) == n
  {
    assert n as real / 10000.0 * 10000.0 == n as real;
  }

  /** The rate a document records is at most half a ten-thousandth from the one used, and a rate of the book is recorded as it is. */
  lemma RecordedRateIsClose(rates: map<nat, Rate>, amount: real, currency: string, day: int, given: Option<real>)
    requires Convert(rates, amount, currency, day, given).Ok?
    ensures var c := Convert(rates, amount, currency, day, given).value;
            && Distance(Recorded(c.rate), c.rate) <= 0.00005
            && (c.fromBook || c.currency == BASE ==> Recorded(c.rate) == c.rate)
  {
    hide Resolve, Stored, Distance, Round2;
    var c := Convert(rates, amount, currency, day, given).value;
    StoredIsClose(c.rate);
    if c.fromBook {
      StoredIsExact(Resolve(rates, currency, day).value.rate);
    } else if currency == BASE {
      StoredIsExact(10000);
    }
  }

  lemma RoundedToTheCent(v: real)
    ensures -0.005 < Round2(v) - v <= 0.005
  {
  }

  /** By how much a base amount exceeds amount times rate. */
  function Excess(base: real, amount: real, rate: real): real { base - amount * rate }

  lemma InBaseIsClose(amount: real, rate: real)
    ensures -0.005 < Excess(InBase(amount, rate), amount, rate) <= 0.005
    ensures rate == 1.0 ==> InBase(amount, rate) == Round2(amount)
  {
    RoundedToTheCent(amount * rate);
    assert amount * 1.0 == amount;
  }

  /** The base amount is amount times rate to half a cent, upward on a tie. */
  lemma BaseIsToTheCent(rates: map<nat, Rate>, amount: real, currency: string, day: int, given: Option<real>)
    requires Convert(rates, amount, currency, day, given).Ok?
    ensures var c := Convert(rates, amount, currency, day, given).value;
            -0.005 < Excess(c.base, amount, c.rate) <= 0.005
  {
    hide Resolve, InBase, Round2, Excess;
    InBaseIsClose(amount, Convert(rates, amount, currency, day, given).value.rate);
  }

  /** Another rate changes the excess by the amount times the difference. */
  lemma ExcessAtAnotherRate(base: real, amount: real, a: real, b: real, bound: real)
    requires Distance(a, b) <= bound
    ensures Size(Excess(base, amount, a)) <= Size(Excess(base, amount, b)) + Size(amount) * bound
  {
    assert Excess(base, amount, a) == Excess(base, amount, b) + amount * (b - a);
    ProductBound(Size(amount), Distance(a, b), bound);
    assert Size(amount * (b - a)) == Size(amount) * Distance(a, b);
  }

  lemma ProductBound(x: real, y: real, bound: real)
    requires x >= 0.0 && y <= bound
    ensures x * y <= x * bound
  {
  }

  /** So from amount times the recorded rate it is half a cent away, and half a ten-thousandth of the amount more for a typed rate. */
  lemma BaseAgainstRecordedRate(rates: map<nat, Rate>, amount: real, currency: string, day: int, given: Option<real>)
    requires Convert(rates, amount, currency, day, given).Ok?
    ensures var c := Convert(rates, amount, currency, day, given).value;
            && (c.fromBook || c.currency == BASE ==> Size(Excess(c.base, amount, Recorded(c.rate))) <= 0.005)
            && Size(Excess(c.base, amount, Recorded(c.rate))) <= 0.005 + Size(amount) * 0.00005
  {
    hide Convert, Recorded, Distance, Excess;
    var c := Convert(rates, amount, currency, day, given).value;
    RecordedRateIsClose(rates, amount, currency, day, given);
    BaseIsToTheCent(rates, amount, currency, day, given);
    ExcessAtAnotherRate(c.base, amount, Recorded(c.rate), c.rate, 0.00005);
  }

  /** A typed rate beats the book: it is the one used, whatever the book holds, and never marked as the book's. */
  lemma TypedRateBeatsTheBook(rates: map<nat, Rate>, other: map<nat, Rate>, amount: real, currency: string, day: int, rate: real)
    ensures Convert(rates, amount, currency, day, Some(rate)) == Convert(other, amount, currency, day, Some(rate))
    ensures currency in SUPPORTED && currency != BASE ==>
              (Convert(rates, amount, currency, day, Some(rate)).Ok? <==> rate > 0.0)
    ensures Convert(rates, amount, currency, day, Some(rate)).Ok? && currency != BASE ==>
              var c := Convert(rates, amount, currency, day, Some(rate)).value;
              c.rate == rate && c.day == day && !c.fromBook
    ensures Convert(rates, amount, currency, day, None).Ok? && currency != BASE ==>
              var c := Convert(rates, amount, currency, day, None).value;
              c.fromBook && Resolve(rates, currency, day).Some? && c.rate * 10000.0 == Resolve(rates, currency, day).value.rate as real
  {
  }

  /** Only two currencies are converted; an amount in the base currency is recorded at one on its own day, whatever rate is typed. */
  lemma BaseConvertsToItself(rates: map<nat, Rate>, amount: real, currency: string, day: int, given: Option<real>)
    ensures currency !in {"SYP", "USD"} ==> Convert(rates, amount, currency, day, given) == Err(Unsupported)
    ensures currency == "SYP" ==>
              Convert(rates, amount, currency, day, given).Ok?
              && var c := Convert(rates, amount, currency, day, given).value;
                 c.rate == 1.0 && c.day == day && !c.fromBook && -0.005 < c.base - amount <= 0.005
  {
    if currency == "SYP" {
      RoundedToTheCent(amount);
    }
  }

  /** Recording a document under its conversion. */
  ghost function Record(b: Book, k: nat, kind: Kind, amount: real, currency: string, day: int, given: Option<real>): Result<Book, Error> {
    match Convert(b.rates, amount, currency, day, given)
    case Err(e) => Err(e)
    case Ok(c) => Ok(b.(documents := b.documents[k := Document(kind, c.currency, c.day, Stored(c.rate), c.fromBook)]))
  }

  // ------------------------------------------------------------------ recorded rates are never rewritten

  /** The document's rate is still the one in the book for its currency and day. */
  ghost predicate Stands(b: Book, d: Document) {
    exists id :: id in b.rates && b.rates[id] == Rate(PairFor(d.currency), d.day, d.rate)
  }

  ghost predicate AllStand(b: Book) {
    forall k :: k in b.documents && b.documents[k].fromBook && b.documents[k].kind != CostRecord ==> Stands(b, b.documents[k])
  }

  ghost predicate Inv(b: Book) {
    && OnePerDay(b.rates) && AllStand(b)
    && (forall id :: id in b.rates ==> ValidPair(b.rates[id].pair))
    && (forall k :: k in b.documents && b.documents[k].fromBook ==> b.documents[k].currency == "USD")
  }

  /** Pricing such a document again, at any later time, finds the same rate, exactly on its recorded day. */
  lemma StandingRateIsFoundAgain(b: Book, d: Document)
    requires Inv(b) && Stands(b, d) && d.currency == "USD"
    ensures Resolve(b.rates, d.currency, d.day) == Some(Quote(d.rate, d.day, true))
  {
    var id :| id in b.rates && b.rates[id] == Rate(PairFor(d.currency), d.day, d.rate);
    ResolveReads(b.rates, d.currency, d.day, id);
  }

  datatype Action =
    | Adding(id: nat, pair: string, rate: real, day: int)
    | Updating(id: nat, rate: real)
    | Removing(id: nat)
    | Recording(k: nat, kind: Kind, amount: real, currency: string, day: int, given: Option<real>)
    | Dropping(k: nat)

  function OrSame(r: Result<Book, Error>, b: Book): Book {
    if r.Ok? then r.value else b
  }

  ghost function Step(b: Book, a: Action): Book
    requires forall id :: id in b.rates ==> ValidPair(b.rates[id].pair)
  {
    match a
    case Adding(id, pair, rate, day) => if id in b.rates then b else OrSame(Add(b, id, pair, rate, day), b)
    case Updating(id, rate) => OrSame(Update(b, id, rate), b)
    case Removing(id) => OrSame(Remove(b, id), b)
    case Recording(k, kind, amount, currency, day, given) => OrSame(Record(b, k, kind, amount, currency, day, given), b)
    case Dropping(k) => b.(documents := b.documents - {k})
  }

  lemma AddKeeps(b: Book, id: nat, pair: string, rate: real, day: int)
    requires Inv(b) && id !in b.rates
    ensures Inv(OrSame(Add(b, id, pair, rate, day), b))
  {
    var b' := OrSame(Add(b, id, pair, rate, day), b);
    forall k | k in b'.documents && b'.documents[k].fromBook && b'.documents[k].kind != CostRecord
      ensures Stands(b', b'.documents[k])
    {
      var d := b.documents[k];
      var x :| x in b.rates && b.rates[x] == Rate(PairFor(d.currency), d.day, d.rate);
      assert x in b'.rates && b'.rates[x] == b.rates[x];
    }
  }

  lemma ChangeKeeps(b: Book, id: nat, b': Book)
    requires Inv(b) && id in b.rates && b'.documents == b.documents
    requires b'.rates - {id} == b.rates - {id}
    requires id in b'.rates ==> b'.rates[id].pair == b.rates[id].pair && b'.rates[id].day == b.rates[id].day
    requires !Used(b, b.rates[id].pair, b.rates[id].day)
    ensures Inv(b')
  {
    assert forall x :: x != id && (x in b.rates || x in b'.rates) ==> x in b.rates - {id} && x in b'.rates - {id};
    forall k | k in b'.documents && b'.documents[k].fromBook && b'.documents[k].kind != CostRecord
      ensures Stands(b', b'.documents[k])
    {
      var d := b.documents[k];
      var x :| x in b.rates && b.rates[x] == Rate(PairFor(d.currency), d.day, d.rate);
      PairNamesItsCurrency(d.currency);
      assert !Counted(d, b.rates[id].pair, b.rates[id].day);
      assert x != id;
      assert b'.rates[x] == (b'.rates - {id})[x] == (b.rates - {id})[x] == b.rates[x];
    }
  }

  lemma RecordKeeps(b: Book, k: nat, kind: Kind, amount: real, currency: string, day: int, given: Option<real>)
    requires Inv(b)
    ensures Inv(OrSame(Record(b, k, kind, amount, currency, day, given), b))
  {
    var r := Record(b, k, kind, amount, currency, day, given);
    if r.Ok? {
      var b' := r.value;
      var d := b'.documents[k];
      if d.fromBook {
        var pair := PairFor(currency);
        var id :| InForce(b.rates, pair, day, id)
                  && Resolve(b.rates, currency, day) == Some(Quote(b.rates[id].rate, b.rates[id].day, b.rates[id].day == day));
        StoredKeepsWhole(b.rates[id].rate);
        assert d == Document(kind, currency, b.rates[id].day, b.rates[id].rate, true);
        assert b'.rates[id] == Rate(pair, d.day, d.rate);
      }
      forall j | j in b'.documents && b'.documents[j].fromBook && b'.documents[j].kind != CostRecord
        ensures Stands(b', b'.documents[j])
      {
        if j != k {
          assert Stands(b, b.documents[j]);
        }
      }
    }
  }

  lemma StoredKeepsWhole(n: int)
    ensures Stored(n as real / 10000.0) == n
  {
    assert (n as real / 10000.0) * 10000.0 == n as real;
  }

  lemma StepKeeps(b: Book, a: Action)
    requires Inv(b)
    ensures Inv(Step(b, a))
  {
    hide Resolve, Stands, OnePerDay;
    match a
    case Adding(id, pair, rate, day) => if id !in b.rates { AddKeeps(b, id, pair, rate, day); }
    case Updating(id, rate) =>
      if Step(b, a) != b {
        assert Step(b, a).rates - {id} == b.rates - {id};
        ChangeKeeps(b, id, Step(b, a));
      }
    case Removing(id) =>
      if Step(b, a) != b {
        assert Step(b, a).rates - {id} == b.rates - {id};
        ChangeKeeps(b, id, Step(b, a));
      }
    case Recording(k, kind, amount, currency, day, given) => RecordKeeps(b, k, kind, amount, currency, day, given);
    case Dropping(k) => DropKeeps(b, k);
  }

  lemma DropKeeps(b: Book, k: nat)
    requires Inv(b)
    ensures Inv(b.(documents := b.documents - {k}))
  {
    var b' := b.(documents := b.documents - {k});
    forall j | j in b'.documents && b'.documents[j].fromBook && b'.documents[j].kind != CostRecord
      ensures Stands(b', b'.documents[j])
    {
      assert Stands(b, b.documents[j]);
    }
  }

  ghost function Run(b: Book, actions: seq<Action>): Book
    requires Inv(b)
    decreases |actions|
  {
    if actions == [] then b else StepKeeps(b, actions[0]); Run(Step(b, actions[0]), actions[1..])
  }

  /**
   * Over every run of whole calls: each document priced from the book still finds, at its recorded currency and
   * day, exactly the rate it recorded.
   */
  lemma {:induction false} RecordedRatesAreNeverRewritten(b: Book, actions: seq<Action>, k: nat)
    requires Inv(b)
    ensures var b' := Run(b, actions);
            k in b'.documents && b'.documents[k].fromBook && b'.documents[k].kind != CostRecord ==>
              Resolve(b'.rates, b'.documents[k].currency, b'.documents[k].day) == Some(Quote(b'.documents[k].rate, b'.documents[k].day, true))
    decreases |actions|
  {
    hide Resolve, Stands, Step, OnePerDay;
    if actions == [] {
      if k in b.documents && b.documents[k].fromBook && b.documents[k].kind != CostRecord {
        StandingRateIsFoundAgain(b, b.documents[k]);
      }
    } else {
      StepKeeps(b, actions[0]);
      RecordedRatesAreNeverRewritten(Step(b, actions[0]), actions[1..], k);
    }
  }

  /** A counted document, priced from the book, rests on this row. */
  ghost predicate RestsOn(b: Book, id: nat) {
    exists k :: k in b.documents && b.documents[k].fromBook && b.documents[k].kind != CostRecord
      && id in b.rates && PairFor(b.documents[k].currency) == b.rates[id].pair && b.documents[k].day == b.rates[id].day
  }

  /**
   * The usage count and the write are two awaits. Once the check has passed, the write is harmless exactly when the
   * rate stays what it was or no document priced from the row was recorded in between.
   */
  lemma LateWriteIsHarmlessExactlyWhen(b: Book, id: nat, rate: real)
    requires Inv(b) && id in b.rates
    ensures AllStand(Overwrite(b, id, rate)) <==> Stored(rate) == b.rates[id].rate || !RestsOn(b, id)
  {
    var b' := Overwrite(b, id, rate);
    if Stored(rate) == b.rates[id].rate {
      assert b' == b;
    } else if RestsOn(b, id) {
      var k :| k in b.documents && b.documents[k].fromBook && b.documents[k].kind != CostRecord
               && PairFor(b.documents[k].currency) == b.rates[id].pair && b.documents[k].day == b.rates[id].day;
      var d := b.documents[k];
      assert Stands(b, d);
      var x :| x in b.rates && b.rates[x] == Rate(PairFor(d.currency), d.day, d.rate);
      assert x == id;
      assert !Stands(b', d);
    } else {
      forall k | k in b'.documents && b'.documents[k].fromBook && b'.documents[k].kind != CostRecord
        ensures Stands(b', b'.documents[k])
      {
        var d := b.documents[k];
        assert Stands(b, d);
        var x :| x in b.rates && b.rates[x] == Rate(PairFor(d.currency), d.day, d.rate);
        assert x != id;
        assert b'.rates[x] == b.rates[x];
      }
    }
  }

  /**
   * Cost records are not counted: a whole update leaves one of them standing exactly when it is refused, changes
   * nothing, or does not concern the row the record was priced from.
   */
  lemma CostRecordStandsExactlyWhen(b: Book, id: nat, rate: real, d: Document)
    requires Inv(b) && Stands(b, d)
    requires d.kind == CostRecord && d.currency == "USD"
    ensures Stands(OrSame(Update(b, id, rate), b), d)
       <==> Update(b, id, rate).Err? || Stored(rate) == b.rates[id].rate || b.rates[id].pair != PairFor(d.currency) || b.rates[id].day != d.day
  {
    var b' := OrSame(Update(b, id, rate), b);
    var x :| x in b.rates && b.rates[x] == Rate(PairFor(d.currency), d.day, d.rate);
    assert forall y :: y in b.rates && b.rates[y].pair == b.rates[x].pair && b.rates[y].day == b.rates[x].day ==> y == x;
    if Update(b, id, rate).Ok? {
      assert b' == Overwrite(b, id, rate);
      OverwriteLeaves(b, id, rate, d, x);
    }
  }

  /** What an overwrite does to a document that rests on row `x`. */
  lemma OverwriteLeaves(b: Book, id: nat, rate: real, d: Document, x: nat)
    requires id in b.rates && x in b.rates && b.rates[x] == Rate(PairFor(d.currency), d.day, d.rate)
    requires forall y :: y in b.rates && b.rates[y].pair == b.rates[x].pair && b.rates[y].day == b.rates[x].day ==> y == x
    ensures Stands(Overwrite(b, id, rate), d) <==> id != x || Stored(rate) == d.rate
  {
    var after := Overwrite(b, id, rate).rates;
    assert after[x] == if id == x then Rate(PairFor(d.currency), d.day, Stored(rate)) else b.rates[x];
    forall y | y in after && y != x
      ensures after[y] != Rate(PairFor(d.currency), d.day, d.rate)
    {
      assert after[y].pair == b.rates[y].pair && after[y].day == b.rates[y].day;
    }
  }

  // ------------------------------------------------------------------ what a new rate changes

  /**
   * Publishing a rate for a day changes what is resolved on exactly the days from then until the pair's next
   * published one, where it becomes the new rate; every other day and every other currency reads as before.
   */
  lemma AddChangesExactlyUntilTheNext(b: Book, id: nat, pair: string, rate: real, day: int, currency: string, on: int)
    requires Inv(b) && id !in b.rates && Add(b, id, pair, rate, day).Ok? && currency != BASE
    ensures var after := Add(b, id, pair, rate, day).value.rates;
            var inReach := PairFor(currency) == pair && day <= on && !Published(b.rates, pair, day + 1, on);
            && (inReach ==> Resolve(after, currency, on) == Some(Quote(Stored(rate), day, on == day)))
            && (inReach <==> Resolve(after, currency, on) != Resolve(b.rates, currency, on))
  {
    var after := Add(b, id, pair, rate, day).value.rates;
    AddKeeps(b, id, pair, rate, day);
    if PairFor(currency) == pair && day <= on && !Published(b.rates, pair, day + 1, on) {
      assert forall x :: x in b.rates && b.rates[x].pair == pair ==> !(day + 1 <= b.rates[x].day <= on);
      assert InForce(after, pair, on, id);
      ResolveReads(after, currency, on, id);
      if q :| InForce(b.rates, pair, on, q) {
        ResolveReads(b.rates, currency, on, q);
        assert b.rates[q].day != day;
      }
    } else {
      UnreachedReadsAsBefore(b, id, pair, rate, day, currency, on);
    }
  }

  lemma UnreachedReadsAsBefore(b: Book, id: nat, pair: string, rate: real, day: int, currency: string, on: int)
    requires Inv(b) && id !in b.rates && Add(b, id, pair, rate, day).Ok? && currency != BASE
    requires PairFor(currency) != pair || on < day || Published(b.rates, pair, day + 1, on)
    ensures Resolve(Add(b, id, pair, rate, day).value.rates, currency, on) == Resolve(b.rates, currency, on)
  {
    var after := Add(b, id, pair, rate, day).value.rates;
    AddKeeps(b, id, pair, rate, day);
    if q :| InForce(b.rates, PairFor(currency), on, q) {
      StillInForce(b.rates, after, id, PairFor(currency), on, q);
      ResolveReads(b.rates, currency, on, q);
      ResolveReads(after, currency, on, q);
    } else {
      ResolvesExactlyWhen(b.rates, currency, on);
      ResolvesExactlyWhen(after, currency, on);
      assert forall x :: x in b.rates && b.rates[x].pair == PairFor(currency) ==> b.rates[x].day > on;
      assert !Published(b.rates, PairFor(currency), day + 1, on);
      assert after[id] == Rate(pair, day, Stored(rate)) && (pair != PairFor(currency) || day > on);
    }
  }

  lemma StillInForce(rates: map<nat, Rate>, after: map<nat, Rate>, id: nat, p: string, on: int, q: nat)
    requires id !in rates && id in after && after == rates[id := after[id]]
    requires InForce(rates, p, on, q)
    requires after[id].pair != p || on < after[id].day || Published(rates, p, after[id].day + 1, on)
    ensures InForce(after, p, on, q)
  {
    assert after[q] == rates[q];
    forall x | x in after && after[x].pair == p && after[x].day <= on
      ensures after[x].day <= after[q].day
    {
      if x == id {
        var y :| y in rates && rates[y].pair == p && after[id].day + 1 <= rates[y].day <= on;
        assert rates[y].day <= rates[q].day;
      } else {
        assert x in rates && after[x] == rates[x];
      }
    }
  }

  /** A rate accepted as positive is stored as zero exactly when it is below half a ten-thousandth. */
  lemma AcceptedRateMayStoreAsZero(rate: real)
    requires rate > 0.0
    ensures Stored(rate) == 0 <==> rate < 0.00005
  {
  }

  // ------------------------------------------------------------------ the service

  predicate Reaches(r: Rate, currency: string, day: int) {
    r.pair == PairFor(currency) && r.day <= day
  }

  ghost function Usages(b: Book, pair: string, day: int): set<nat>
    requires ValidPair(pair)
  {
    set k | k in b.documents && Counted(b.documents[k], pair, day)
  }

  lemma UsedExactlyWhenCounted(b: Book, pair: string, day: int)
    requires ValidPair(pair)
    ensures Used(b, pair, day) <==> |Usages(b, pair, day)| > 0
  {
    if Used(b, pair, day) {
      var k :| k in b.documents && Counted(b.documents[k], pair, day);
      assert k in Usages(b, pair, day);
    }
    if Usages(b, pair, day) != {} {
      var k :| k in Usages(b, pair, day);
    }
  }

  class RateService {
    var rates: map<nat, Rate>
    var documents: map<nat, Document>

    constructor ()
      ensures Now() == Book(map[], map[]) && Inv(Now())
    {
      rates, documents := map[], map[];
    }

    ghost function Now(): Book
      reads this
    {
      Book(rates, documents)
    }

    method AddRate(id: nat, pair: string, rate: real, day: int) returns (r: Result<Rate, Error>)
      requires Inv(Now()) && id !in rates
      modifies this
      ensures r.Ok? <==> ValidPair(pair) && rate > 0.0 && forall x :: x in old(rates) ==> old(rates)[x].pair != pair || old(rates)[x].day != day
      ensures r.Ok? ==> r.value.pair == pair && r.value.day == day && Distance(r.value.rate as real / 10000.0, rate) <= 0.00005
      ensures rates == (if r.Ok? then old(rates)[id := r.value] else old(rates)) && documents == old(documents)
      ensures Now() == Step(old(Now()), Adding(id, pair, rate, day)) && Inv(Now())
      ensures r.Ok? <==> Add(old(Now()), id, pair, rate, day).Ok?
      ensures r.Err? ==> r.error == Add(old(Now()), id, pair, rate, day).error
    {
      StoredIsClose(rate);
      AddKeeps(Now(), id, pair, rate, day);
      if !ValidPair(pair) {
        return Err(BadPair);
      }
      if rate <= 0.0 {
        return Err(BadRate);
      }
      if exists x :: x in rates && rates[x].pair == pair && rates[x].day == day {
        return Err(AlreadyRecorded);
      }
      rates := rates[id := Rate(pair, day, Stored(rate))];
      r := Ok(rates[id]);
    }

    /** The number of counted documents, which the refusal message reports. */
    method CountUsages(pair: string, day: int) returns (n: nat)
      requires ValidPair(pair)
      ensures n == |Usages(Now(), pair, day)|
      ensures n > 0 <==> Used(Now(), pair, day)
    {
      n := 0;
      var rest := documents.Keys;
      ghost var found: set<nat> := {};
      while rest != {}
        invariant rest <= documents.Keys
        invariant found == set k | k in documents && k !in rest && Counted(documents[k], pair, day)
        invariant n == |found|
        decreases rest
      {
        var k :| k in rest;
        rest := rest - {k};
        if Counted(documents[k], pair, day) {
          n := n + 1;
          found := found + {k};
        }
      }
      assert found == Usages(Now(), pair, day);
      UsedExactlyWhenCounted(Now(), pair, day);
    }

    method UpdateRate(id: nat, rate: real) returns (r: Result<Rate, Error>)
      requires Inv(Now())
      modifies this
      ensures r.Ok? <==> id in old(rates) && rate > 0.0 && !Used(old(Now()), old(rates)[id].pair, old(rates)[id].day)
      ensures r.Ok? ==> r.value == old(rates)[id].(rate := r.value.rate) && Distance(r.value.rate as real / 10000.0, rate) <= 0.00005
      ensures rates == (if r.Ok? then old(rates)[id := r.value] else old(rates)) && documents == old(documents)
      ensures Now() == Step(old(Now()), Updating(id, rate)) && Inv(Now())
      ensures r.Err? <==> Update(old(Now()), id, rate).Err?
      ensures r.Err? ==> r.error == Update(old(Now()), id, rate).error
    {
      StoredIsClose(rate);
      StepKeeps(Now(), Updating(id, rate));
      if id !in rates {
        return Err(NotFound);
      }
      if rate <= 0.0 {
        return Err(BadRate);
      }
      var usages := CountUsages(rates[id].pair, rates[id].day);
      if usages > 0 {
        return Err(InUse);
      }
      rates := rates[id := rates[id].(rate := Stored(rate))];
      r := Ok(rates[id]);
    }

    method RemoveRate(id: nat) returns (r: Result<bool, Error>)
      requires Inv(Now())
      modifies this
      ensures r.Ok? <==> id in old(rates) && !Used(old(Now()), old(rates)[id].pair, old(rates)[id].day)
      ensures rates == (if r.Ok? then old(rates) - {id} else old(rates)) && documents == old(documents)
      ensures Now() == Step(old(Now()), Removing(id)) && Inv(Now())
      ensures r.Err? <==> Remove(old(Now()), id).Err?
      ensures r.Err? ==> r.error == Remove(old(Now()), id).error
    {
      StepKeeps(Now(), Removing(id));
      if id !in rates {
        return Err(NotFound);
      }
      var usages := CountUsages(rates[id].pair, rates[id].day);
      if usages > 0 {
        return Err(InUse);
      }
      rates := rates - {id};
      r := Ok(true);
    }

    method ResolveRate(currency: string, day: int) returns (q: Option<Quote>)
      requires Inv(Now())
      ensures currency == BASE ==> q == Some(Quote(10000, day, true))
      ensures currency != BASE ==>
                (q.None? <==> forall x :: x in rates && rates[x].pair == PairFor(currency) ==> rates[x].day > day)
      ensures currency != BASE && q.Some? ==>
                q.value.day <= day && (q.value.exact <==> q.value.day == day)
                && (exists x :: x in rates && rates[x] == Rate(PairFor(currency), q.value.day, q.value.rate))
                && forall x :: x in rates && rates[x].pair == PairFor(currency) ==> rates[x].day > day || rates[x].day <= q.value.day
      ensures q == Resolve(rates, currency, day)
    {
      if currency == BASE {
        return Some(Quote(ONE, day, true));
      }
      var best: Option<nat> := None;
      var rest := rates.Keys;
      while rest != {}
        invariant rest <= rates.Keys
        invariant best.None? ==> forall x :: x in rates && x !in rest ==> !Reaches(rates[x], currency, day)
        invariant best.Some? ==> best.value in rates && Reaches(rates[best.value], currency, day)
        invariant best.Some? ==> forall x :: x in rates && x !in rest && Reaches(rates[x], currency, day) ==> rates[x].day <= rates[best.value].day
        decreases rest
      {
        var x :| x in rest;
        rest := rest - {x};
        if Reaches(rates[x], currency, day) && (best.None? || rates[x].day > rates[best.value].day) {
          best := Some(x);
        }
      }
      match best
      case None =>
        q := None;
      case Some(id) =>
        assert InForce(rates, PairFor(currency), day, id);
        ResolveReads(rates, currency, day, id);
        q := Some(Quote(rates[id].rate, rates[id].day, rates[id].day == day));
    }
  }
}
