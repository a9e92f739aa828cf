/**
 The rate book with its awaits let loose: pricing and storing a document, counting usages and writing are separate
 steps, and any number of calls may be between them (backend-nest/src/accounting/exchange-rate.service.ts:188-274,
 288-399).
 */
module ExchangeRaces {
  import opened Wrappers
  import opened ExchangeRates

  /** A call that has looked and not yet written: a document priced from the book, or a change found to be unused. */
  datatype Pending =
    | Priced(kind: Kind, currency: string, quote: Quote)
    | Updatable(id: nat, rate: real)
    | Removable(id: nat)

  datatype State = State(book: Book, calls: map<nat, Pending>)

  datatype Action =
    | Pricing(call: nat, kind: Kind, currency: string, day: int)
    | Storing(call: nat, k: nat)
    | Typing(k: nat, kind: Kind, amount: real, currency: string, day: int, rate: real)
    | Adding(id: nat, pair: string, rate: real, day: int)
    | CountingForUpdate(call: nat, id: nat, rate: real)
    | Updating(call: nat)
    | CountingForRemoval(call: nat, id: nat)
    | Removing(call: nat)
    | Dropping(k: nat)

  /** The row is there and, at this moment, not used. Its pair was checked when it was added. */
  predicate Unused(b: Book, id: nat) {
    id in b.rates && ValidPair(b.rates[id].pair) && !Used(b, b.rates[id].pair, b.rates[id].day)
  }

  ghost predicate Pairs(b: Book) {
    forall id :: id in b.rates ==> ValidPair(b.rates[id].pair)
  }

  /** `resolveRate` inside `convert`; a supported foreign currency only. */
  ghost function Price(s: State, call: nat, kind: Kind, currency: string, day: int): State {
    if currency !in SUPPORTED || currency == BASE || Resolve(s.book.rates, currency, day).None? then s
    else s.(calls := s.calls[call := Priced(kind, currency, Resolve(s.book.rates, currency, day).value)])
  }

  function Store(s: State, call: nat, k: nat): State {
    if call !in s.calls || !s.calls[call].Priced? then s
    else
      var p := s.calls[call];
      s.(book := s.book.(documents := s.book.documents[k := Document(p.kind, p.currency, p.quote.day, p.quote.rate, true)]),
         calls := s.calls - {call})
  }

  function CheckedUpdate(s: State, call: nat, id: nat, rate: real): State {
    if rate <= 0.0 || !Unused(s.book, id) then s else s.(calls := s.calls[call := Updatable(id, rate)])
  }

  /** The update statement, by id. */
  function WriteUpdate(s: State, call: nat): State {
    if call !in s.calls || !s.calls[call].Updatable? then s
    else
      var id, rest := s.calls[call].id, s.calls - {call};
      if id !in s.book.rates then s.(calls := rest) else State(Overwrite(s.book, id, s.calls[call].rate), rest)
  }

  function CheckedRemoval(s: State, call: nat, id: nat): State {
    if !Unused(s.book, id) then s else s.(calls := s.calls[call := Removable(id)])
  }

  /** The delete statement, by id. */
  function WriteRemoval(s: State, call: nat): State {
    if call !in s.calls || !s.calls[call].Removable? then s
    else s.(book := s.book.(rates := s.book.rates - {s.calls[call].id}), calls := s.calls - {call})
  }

  ghost function Step(s: State, a: Action): State {
    match a
    case Pricing(call, kind, currency, day) => Price(s, call, kind, currency, day)
    case Storing(call, k) => Store(s, call, k)
    case Typing(k, kind, amount, currency, day, rate) => s.(book := OrSame(Record(s.book, k, kind, amount, currency, day, Some(rate)), s.book))
    case Adding(id, pair, rate, day) => if id in s.book.rates then s else s.(book := OrSame(Add(s.book, id, pair, rate, day), s.book))
    case CountingForUpdate(call, id, rate) => CheckedUpdate(s, call, id, rate)
    case Updating(call) => WriteUpdate(s, call)
    case CountingForRemoval(call, id) => CheckedRemoval(s, call, id)
    case Removing(call) => WriteRemoval(s, call)
    case Dropping(k) => s.(book := s.book.(documents := s.book.documents - {k}))
  }

  /** What no race can break: one rate per pair and day, well-formed pairs, dollars only. */
  ghost predicate Shape(s: State) {
    && OnePerDay(s.book.rates) && Pairs(s.book)
    && (forall k :: k in s.book.documents && s.book.documents[k].fromBook ==> s.book.documents[k].currency == "USD")
    && (forall c :: c in s.calls && s.calls[c].Priced? ==> s.calls[c].currency == "USD")
  }

  lemma ShapeStays(s: State, a: Action)
    requires Shape(s)
    ensures Shape(Step(s, a))
  {
    hide Resolve, Used, Stored;
    match a
    case Typing(k, kind, amount, currency, day, rate) => TypedIsNotFromBook(s.book, k, kind, amount, currency, day, rate);
    case _ =>
  }

  lemma TypedIsNotFromBook(b: Book, k: nat, kind: Kind, amount: real, currency: string, day: int, rate: real)
    ensures var b' := OrSame(Record(b, k, kind, amount, currency, day, Some(rate)), b);
            && b'.rates == b.rates
            && forall j :: j in b'.documents && b'.documents[j].fromBook ==> j in b.documents && b'.documents[j] == b.documents[j]
  {
  }

  // ------------------------------------------------------------------ when a step leaves all rates standing

  /** The quoted rate is still in the book. */
  ghost predicate StillQuoted(b: Book, currency: string, q: Quote) {
    exists id :: id in b.rates && b.rates[id] == Rate(PairFor(currency), q.day, q.rate)
  }

  /** Something to look at just before the step: only the three late writes can do harm. */
  ghost predicate Harmless(s: State, a: Action) {
    match a
    case Storing(call, _) =>
      call in s.calls && s.calls[call].Priced? ==>
        s.calls[call].kind == CostRecord || StillQuoted(s.book, s.calls[call].currency, s.calls[call].quote)
    case Updating(call) =>
      call in s.calls && s.calls[call].Updatable? && s.calls[call].id in s.book.rates ==>
        Stored(s.calls[call].rate) == s.book.rates[s.calls[call].id].rate || !RestsOn(s.book, s.calls[call].id)
    case Removing(call) =>
      call in s.calls && s.calls[call].Removable? ==> !RestsOn(s.book, s.calls[call].id)
    case _ => true
  }

  lemma StoreIsHarmlessExactlyWhen(s: State, call: nat, k: nat)
    requires Shape(s) && AllStand(s.book) && call in s.calls && s.calls[call].Priced?
    ensures AllStand(Store(s, call, k).book) <==> Harmless(s, Storing(call, k))
  {
    hide OnePerDay;
    var b := Store(s, call, k).book;
    forall j | j in b.documents && j != k && b.documents[j].fromBook && b.documents[j].kind != CostRecord
      ensures Stands(b, b.documents[j])
    {
      assert Stands(s.book, s.book.documents[j]);
    }
    assert Stands(b, b.documents[k]) <==> StillQuoted(s.book, s.calls[call].currency, s.calls[call].quote);
  }

  /** A row may go exactly when no counted document rests on it. */
  lemma RemovalIsHarmlessExactlyWhen(b: Book, id: nat)
    requires OnePerDay(b.rates) && AllStand(b)
    ensures AllStand(b.(rates := b.rates - {id})) <==> !RestsOn(b, id)
  {
    var b' := b.(rates := b.rates - {id});
    if RestsOn(b, id) {
      var k :| k in b.documents && b.documents[k].fromBook && b.documents[k].kind != CostRecord
               && PairFor(b.documents[k].currency) == b.rates[id].pair && b.documents[k].day == b.rates[id].day;
      var d := b.documents[k];
      forall x | x in b'.rates
        ensures b'.rates[x] != Rate(PairFor(d.currency), d.day, d.rate)
      {
        assert x != id && b'.rates[x] == b.rates[x];
      }
      assert !Stands(b', d);
    } else {
      forall k | k in b'.documents && b'.documents[k].fromBook && b'.documents[k].kind != CostRecord
        ensures Stands(b', b'.documents[k])
      {
        var d := b.documents[k];
        assert Stands(b, d);
        var x :| x in b.rates && b.rates[x] == Rate(PairFor(d.currency), d.day, d.rate);
        assert x != id && b'.rates[x] == b.rates[x];
      }
    }
  }

  lemma StandingSurvivesRates(b: Book, b': Book)
    requires AllStand(b) && b'.documents == b.documents
    requires forall x :: x in b.rates ==> x in b'.rates && b'.rates[x] == b.rates[x]
    ensures AllStand(b')
  {
    forall k | k in b'.documents && b'.documents[k].fromBook && b'.documents[k].kind != CostRecord
      ensures Stands(b', b'.documents[k])
    {
      assert Stands(b, b.documents[k]);
      var x :| x in b.rates && b.rates[x] == Rate(PairFor(b.documents[k].currency), b.documents[k].day, b.documents[k].rate);
      assert b'.rates[x] == b.rates[x];
    }
  }

  lemma StandingSurvivesDocuments(b: Book, b': Book)
    requires AllStand(b) && b'.rates == b.rates
    requires forall k :: k in b'.documents && b'.documents[k].fromBook ==> k in b.documents && b'.documents[k] == b.documents[k]
    ensures AllStand(b')
  {
    forall k | k in b'.documents && b'.documents[k].fromBook && b'.documents[k].kind != CostRecord
      ensures Stands(b', b'.documents[k])
    {
      assert Stands(b, b.documents[k]);
    }
  }

  /** One step, whatever the other calls are at, leaves every recorded rate standing exactly when it is harmless. */
  lemma StepIsHarmlessExactlyWhen(s: State, a: Action)
    requires Shape(s) && AllStand(s.book)
    ensures AllStand(Step(s, a).book) <==> Harmless(s, a)
  {
    hide AllStand, OnePerDay, Resolve, Used, RestsOn, StillQuoted;
    match a
    case Storing(call, k) => if call in s.calls && s.calls[call].Priced? { StoreIsHarmlessExactlyWhen(s, call, k); }
    case Updating(call) =>
      if call in s.calls && s.calls[call].Updatable? && s.calls[call].id in s.book.rates {
        LateWriteIsHarmlessExactlyWhen(s.book, s.calls[call].id, s.calls[call].rate);
      }
    case Removing(call) => if call in s.calls && s.calls[call].Removable? { RemovalIsHarmlessExactlyWhen(s.book, s.calls[call].id); }
    case Typing(k, kind, amount, currency, day, rate) =>
      TypedIsNotFromBook(s.book, k, kind, amount, currency, day, rate);
      StandingSurvivesDocuments(s.book, Step(s, a).book);
    case Adding(id, pair, rate, day) => StandingSurvivesRates(s.book, Step(s, a).book);
    case Dropping(k) => StandingSurvivesDocuments(s.book, Step(s, a).book);
    case Pricing(_, _, _, _) =>
    case CountingForUpdate(_, _, _) =>
    case CountingForRemoval(_, _) =>
  }

  // ------------------------------------------------------------------ over whole runs

  ghost predicate IsRun(states: seq<State>, actions: seq<Action>) {
    && |states| == |actions| + 1
    && states[0] == State(Book(map[], map[]), map[])
    && forall i :: 0 <= i < |actions| ==> states[i + 1] == Step(states[i], actions[i])
  }

  lemma {:induction false} RunsKeepShape(states: seq<State>, actions: seq<Action>, i: nat)
    requires IsRun(states, actions) && i < |states|
    ensures Shape(states[i])
  {
    hide Shape, Step;
    if i == 0 {
      EmptyShape();
    } else {
      RunsKeepShape(states, actions, i - 1);
      ShapeStays(states[i - 1], actions[i - 1]);
    }
  }

  lemma EmptyShape()
    ensures Shape(State(Book(map[], map[]), map[])) && AllStand(Book(map[], map[]))
  {
  }

  /**
   Over every interleaving: all recorded rates stand in every state up to the `n`th exactly when every step before it
   was harmless at its moment. The first late write that finds its row changed or taken is the first to rewrite a rate.
   */
  lemma {:induction false} RatesStandExactlyWhileStepsAreHarmless(states: seq<State>, actions: seq<Action>, n: nat)
    requires IsRun(states, actions) && n <= |actions|
    ensures (forall i :: 0 <= i <= n ==> AllStand(states[i].book)) <==> (forall i :: 0 <= i < n ==> Harmless(states[i], actions[i]))
    decreases n
  {
    hide Shape, Step, AllStand, Harmless;
    if n == 0 {
      EmptyShape();
    } else {
      RatesStandExactlyWhileStepsAreHarmless(states, actions, n - 1);
      RunsKeepShape(states, actions, n - 1);
      assert (forall i :: 0 <= i <= n ==> AllStand(states[i].book))
        <==> AllStand(states[n].book) && forall i :: 0 <= i <= n - 1 ==> AllStand(states[i].book);
      assert (forall i :: 0 <= i < n ==> Harmless(states[i], actions[i]))
        <==> Harmless(states[n - 1], actions[n - 1]) && forall i :: 0 <= i < n - 1 ==> Harmless(states[i], actions[i]);
      assert states[n] == Step(states[n - 1], actions[n - 1]);
      if AllStand(states[n - 1].book) {
        StepIsHarmlessExactlyWhen(states[n - 1], actions[n - 1]);
      }
    }
  }

  /** A write that follows its check at once, nothing in between, is harmless. */
  lemma CheckedNowIsHarmless(s: State, call: nat, k: nat, id: nat, rate: real, kind: Kind, currency: string, day: int)
    requires Shape(s) && call !in s.calls
    ensures Harmless(Price(s, call, kind, currency, day), Storing(call, k))
    ensures Harmless(CheckedUpdate(s, call, id, rate), Action.Updating(call))
    ensures Harmless(CheckedRemoval(s, call, id), Action.Removing(call))
  {
    if Unused(s.book, id) && RestsOn(s.book, id) {
      NothingRestsOnUnused(s.book, id);
    }
    if Price(s, call, kind, currency, day) != s {
      var x :| InForce(s.book.rates, PairFor(currency), day, x)
               && Resolve(s.book.rates, currency, day) == Some(Quote(s.book.rates[x].rate, s.book.rates[x].day, s.book.rates[x].day == day));
      assert s.book.rates[x] == Rate(PairFor(currency), s.book.rates[x].day, s.book.rates[x].rate);
    }
  }

  lemma NothingRestsOnUnused(b: Book, id: nat)
    requires Unused(b, id)
    requires forall k :: k in b.documents && b.documents[k].fromBook ==> b.documents[k].currency == "USD"
    ensures !RestsOn(b, id)
  {
    forall k | k in b.documents && b.documents[k].fromBook && b.documents[k].kind != CostRecord
      ensures !(PairFor(b.documents[k].currency) == b.rates[id].pair && b.documents[k].day == b.rates[id].day)
    {
      assert !Counted(b.documents[k], b.rates[id].pair, b.rates[id].day);
    }
  }

  // ------------------------------------------------------------------ the three races

  const DOLLAR := Rate("USD_TO_SYP", 10, 150000000)

  const PRICED := Document(PurchaseInvoice, "USD", 10, 150000000, true)

  lemma DollarIsQuoted()
    ensures Resolve(map[0 := DOLLAR], "USD", 10) == Some(Quote(150000000, 10, true))
    ensures ValidPair(DOLLAR.pair) && Stored(16000.0) == 160000000
  {
    hide Resolve, ValidPair;
    DollarIsInForce();
    DollarIsValid();
    ResolveReads(map[0 := DOLLAR], "USD", 10, 0);
  }

  lemma DollarIsInForce()
    ensures OnePerDay(map[0 := DOLLAR]) && InForce(map[0 := DOLLAR], PairFor("USD"), 10, 0) && "USD" != BASE
  {
    assert PairFor("USD") == "USD_TO_SYP";
  }

  lemma DollarIsValid()
    ensures ValidPair(DOLLAR.pair)
  {
  }

  lemma GoneIsNotStanding(b: Book, k: nat)
    requires k in b.documents && b.documents[k] == PRICED
    requires forall id :: id in b.rates ==> b.rates[id].rate != 150000000
    ensures !AllStand(b)
  {
    assert !Stands(b, PRICED);
  }

  /** Priced, then the row is updated by a whole accepted call, then stored: the document's rate is nowhere. */
  lemma StaleQuoteRewrites()
    ensures var s0 := State(Book(map[0 := DOLLAR], map[]), map[]);
            var s := Store(WriteUpdate(CheckedUpdate(Price(s0, 1, PurchaseInvoice, "USD", 10), 2, 0, 16000.0), 2), 1, 7);
            AllStand(s0.book) && 7 in s.book.documents && s.book.documents[7] == PRICED && !AllStand(s.book)
  {
    DollarIsQuoted();
    var s0 := State(Book(map[0 := DOLLAR], map[]), map[]);
    var s1 := Price(s0, 1, PurchaseInvoice, "USD", 10);
    assert s1.calls == map[1 := Priced(PurchaseInvoice, "USD", Quote(150000000, 10, true))];
    var s2 := CheckedUpdate(s1, 2, 0, 16000.0);
    assert s2.calls[2] == Updatable(0, 16000.0);
    var s3 := WriteUpdate(s2, 2);
    assert s3.book.rates[0].rate == 160000000;
    GoneIsNotStanding(Store(s3, 1, 7).book, 7);
  }

  /** Counted as unused, then a document comes to rest on the row, then the update is written. */
  lemma LateUpdateRewrites()
    ensures var s0 := State(Book(map[0 := DOLLAR], map[]), map[]);
            var s := WriteUpdate(Store(Price(CheckedUpdate(s0, 2, 0, 16000.0), 1, PurchaseInvoice, "USD", 10), 1, 7), 2);
            7 in s.book.documents && s.book.documents[7] == PRICED && !AllStand(s.book)
  {
    DollarIsQuoted();
    var s0 := State(Book(map[0 := DOLLAR], map[]), map[]);
    var s1 := CheckedUpdate(s0, 2, 0, 16000.0);
    assert s1.calls == map[2 := Updatable(0, 16000.0)];
    var s2 := Price(s1, 1, PurchaseInvoice, "USD", 10);
    assert s2.calls[1] == Priced(PurchaseInvoice, "USD", Quote(150000000, 10, true)) && 2 in s2.calls;
    var s3 := Store(s2, 1, 7);
    assert s3.book.documents[7] == PRICED && s3.calls[2] == Updatable(0, 16000.0);
    GoneIsNotStanding(WriteUpdate(s3, 2).book, 7);
  }

  /** The same with a removal. */
  lemma LateRemovalRewrites()
    ensures var s0 := State(Book(map[0 := DOLLAR], map[]), map[]);
            var s := WriteRemoval(Store(Price(CheckedRemoval(s0, 2, 0), 1, PurchaseInvoice, "USD", 10), 1, 7), 2);
            7 in s.book.documents && s.book.documents[7] == PRICED && !AllStand(s.book)
  {
    DollarIsQuoted();
    var s0 := State(Book(map[0 := DOLLAR], map[]), map[]);
    var s1 := CheckedRemoval(s0, 2, 0);
    assert s1.calls == map[2 := Removable(0)];
    var s2 := Price(s1, 1, PurchaseInvoice, "USD", 10);
    assert s2.calls[1] == Priced(PurchaseInvoice, "USD", Quote(150000000, 10, true)) && 2 in s2.calls;
    var s3 := Store(s2, 1, 7);
    assert s3.book.documents[7] == PRICED && s3.calls[2] == Removable(0);
    GoneIsNotStanding(WriteRemoval(s3, 2).book, 7);
  }
}
