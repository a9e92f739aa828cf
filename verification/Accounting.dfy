/**
 * Journal entries and the reports drawn from them (backend-nest/src/accounting/accounting.service.ts:178-308,
 * 352-485; amounts are stored with two decimals, backend-nest/prisma/schema.prisma:1114-1115).
 *
 * Amounts arrive as exact reals and are stored as whole cents; days are day numbers.
 */
module Accounting {
  import opened Wrappers

  type Id = nat

  datatype Kind = Asset | Liability | Equity | Revenue | Expense

  datatype Account = Account(code: string, kind: Kind, active: bool, parent: Option<Id>)

  datatype Line = Line(account: Id, debit: real, credit: real)

  datatype Posted = Posted(account: Id, debit: int, credit: int)

  datatype Entry = Entry(day: int, lines: seq<Posted>)

  datatype Ledger = Ledger(accounts: map<Id, Account>, entries: seq<Entry>)

  datatype Error = Unbalanced | ZeroAmount | EmptyLine | UnknownAccount | InactiveAccount | SelfParent | CodeTaken | HasChildren | HasLines

  // ------------------------------------------------------------------ amounts and their rounding

  /** Storing a non-negative amount in a column of two decimals. */
  function Cents(x: real): int {
    (x * 100.0 + 0.5).Floor
  }

  predicate Whole(x: real) {
    x * 100.0 == Cents(x) as real
  }

  function Debits(lines: seq<Line>): real {
    if lines == [] then 0.0 else lines[0].debit + Debits(lines[1..])
  }

  function Credits(lines: seq<Line>): real {
    if lines == [] then 0.0 else lines[0].credit + Credits(lines[1..])
  }

  function StoredLines(lines: seq<Line>): (r: seq<Posted>)
    ensures |r| == |lines| && forall i :: 0 <= i < |r| ==> r[i] == Posted(lines[i].account, Cents(lines[i].debit), Cents(lines[i].credit))
  {
    if lines == [] then []
    else [Posted(lines[0].account, Cents(lines[0].debit), Cents(lines[0].credit))] + StoredLines(lines[1..])
  }

  function DebitCents(lines: seq<Posted>): int {
    if lines == [] then 0 else lines[0].debit + DebitCents(lines[1..])
  }

  function CreditCents(lines: seq<Posted>): int {
    if lines == [] then 0 else lines[0].credit + CreditCents(lines[1..])
  }

  /** How many of the amounts are not whole cents. */
  function Fractions(lines: seq<Line>): nat {
    if lines == [] then 0
    else (if Whole(lines[0].debit) then 0 else 1) + (if Whole(lines[0].credit) then 0 else 1) + Fractions(lines[1..])
  }

  predicate NonNegative(lines: seq<Line>) {
    forall i :: 0 <= i < |lines| ==> lines[i].debit >= 0.0 && lines[i].credit >= 0.0
  }

  /** The numeric part of the checks. */
  predicate Adds(lines: seq<Line>) {
    && -0.001 <= Debits(lines) - Credits(lines) <= 0.001
    && Debits(lines) > 0.0
    && forall i :: 0 <= i < |lines| ==> lines[i].debit != 0.0 || lines[i].credit != 0.0
  }

  /** Each amount that is not whole cents moves the stored difference by at most half a cent. */
  lemma {:induction false} StoredDifference(lines: seq<Line>)
    ensures var stored := StoredLines(lines);
            var moved := (DebitCents(stored) - CreditCents(stored)) as real - (Debits(lines) - Credits(lines)) * 100.0;
            -0.5 * Fractions(lines) as real <= moved <= 0.5 * Fractions(lines) as real
  {
    if lines != [] {
      var rest := lines[1..];
      StoredDifference(rest);
      var stored := StoredLines(lines);
      assert stored[1..] == StoredLines(rest);
      HalfACent(lines[0].debit);
      HalfACent(lines[0].credit);
    }
  }

  lemma HalfACent(x: real)
    ensures var moved := Cents(x) as real - x * 100.0;
            -0.5 <= moved <= 0.5 && (Whole(x) ==> moved == 0.0)
  {
  }

  /** The stored difference of an accepted entry, in whole cents. */
  lemma AcceptedEntryBound(lines: seq<Line>)
    requires Adds(lines)
    ensures var stored := StoredLines(lines);
            var bound := (1 + 5 * Fractions(lines)) / 10;
            -bound <= DebitCents(stored) - CreditCents(stored) <= bound
  {
    StoredDifference(lines);
    var stored := StoredLines(lines);
    var d, f := DebitCents(stored) - CreditCents(stored), Fractions(lines);
    assert -0.1 - 0.5 * f as real <= d as real <= 0.1 + 0.5 * f as real;
    TenTimes(d, f);
  }

  lemma TenTimes(d: int, f: nat)
    requires -0.1 - 0.5 * f as real <= d as real <= 0.1 + 0.5 * f as real
    ensures -((1 + 5 * f) / 10) <= d <= (1 + 5 * f) / 10
  {
    assert (10 * d) as real == 10.0 * d as real;
    assert (1 + 5 * f) as real == 1.0 + 5.0 * f as real;
    assert 10 * d <= 1 + 5 * f && -(10 * d) <= 1 + 5 * f;
  }

  ghost predicate StoredBalanced(lines: seq<Line>) {
    DebitCents(StoredLines(lines)) == CreditCents(StoredLines(lines))
  }

  /**
   * The check compares the amounts as sent, not as stored. It guarantees a balanced stored entry exactly when at
   * most one of the amounts sent is not whole cents.
   */
  lemma GuardSufficesExactlyUpToOneFraction(k: nat)
    ensures (forall lines {:trigger StoredBalanced(lines)} :: NonNegative(lines) && Adds(lines) && Fractions(lines) == k ==> StoredBalanced(lines))
       <==> k <= 1
  {
    if k <= 1 {
      forall lines | NonNegative(lines) && Adds(lines) && Fractions(lines) == k
        ensures StoredBalanced(lines)
      {
        AcceptedEntryBound(lines);
      }
    } else {
      var lines := HalfCents(k);
      HalfCentsEscape(k);
      assert !StoredBalanced(lines);
    }
  }

  /** Two debits of 1.005 and `n` of less than a thousandth altogether. */
  function Dust(n: nat, each: real): seq<Line> {
    if n == 0 then [] else [Line(0, each, 0.0)] + Dust(n - 1, each)
  }

  function HalfCents(k: nat): seq<Line>
    requires k >= 2
  {
    [Line(0, 1.005, 0.0), Line(0, 1.005, 0.0), Line(1, 0.0, 2.01)] + Dust(k - 2, 0.001 / k as real)
  }

  lemma {:induction false} DustAdds(n: nat, each: real)
    requires 0.0 < each < 0.005
    ensures var lines := Dust(n, each);
            && |lines| == n && (forall i :: 0 <= i < n ==> lines[i] == Line(0, each, 0.0))
            && Debits(lines) == n as real * each && Credits(lines) == 0.0 && Fractions(lines) == n
            && DebitCents(StoredLines(lines)) == 0 && CreditCents(StoredLines(lines)) == 0
  {
    if n > 0 {
      DustAdds(n - 1, each);
      var lines := Dust(n, each);
      assert lines[1..] == Dust(n - 1, each);
      assert StoredLines(lines)[1..] == StoredLines(lines[1..]);
      assert Cents(each) == 0;
      assert n as real * each == each + (n - 1) as real * each;
    }
  }

  lemma HalfCentsEscape(k: nat)
    requires k >= 2
    ensures var lines := HalfCents(k); NonNegative(lines) && Adds(lines) && Fractions(lines) == k && !StoredBalanced(lines)
  {
    hide Dust, Debits, Credits, Fractions, StoredLines, DebitCents, CreditCents, Cents;
    var each := 0.001 / k as real;
    assert each * k as real == 0.001;
    DustShare(k, each);
    DustAdds(k - 2, each);
    TopHeavy(Dust(k - 2, each));
    assert HalfCents(k) == TOP + Dust(k - 2, each);
  }

  const TOP := [Line(0, 1.005, 0.0), Line(0, 1.005, 0.0), Line(1, 0.0, 2.01)]

  lemma TopHeavy(rest: seq<Line>)
    ensures var lines := TOP + rest;
            && Debits(lines) == 2.01 + Debits(rest) && Credits(lines) == 2.01 + Credits(rest)
            && Fractions(lines) == 2 + Fractions(rest)
            && DebitCents(StoredLines(lines)) == 202 + DebitCents(StoredLines(rest))
            && CreditCents(StoredLines(lines)) == 201 + CreditCents(StoredLines(rest))
  {
    hide Debits, Credits, Fractions, StoredLines, DebitCents, CreditCents;
    var one, three := Line(0, 1.005, 0.0), Line(1, 0.0, 2.01);
    Unfolds(one, [one, three] + rest);
    Unfolds(one, [three] + rest);
    Unfolds(three, rest);
    assert TOP + rest == [one] + ([one] + ([three] + rest));
    assert [one, three] + rest == [one] + ([three] + rest);
    RoundedCents();
  }

  lemma RoundedCents()
    ensures Cents(1.005) == 101 && Cents(2.01) == 201 && Cents(0.0) == 0 && !Whole(1.005) && Whole(2.01) && Whole(0.0)
  {
  }

  lemma DustShare(k: nat, each: real)
    requires k >= 2 && each * k as real == 0.001
    ensures 0.0 < each < 0.005 && 0.0 <= (k - 2) as real * each <= 0.001
  {
    assert (k - 2) as real * each == each * k as real - 2.0 * each;
  }

  lemma Unfolds(l: Line, rest: seq<Line>)
    ensures var lines := [l] + rest;
            && Debits(lines) == l.debit + Debits(rest) && Credits(lines) == l.credit + Credits(rest)
            && Fractions(lines) == (if Whole(l.debit) then 0 else 1) + (if Whole(l.credit) then 0 else 1) + Fractions(rest)
            && DebitCents(StoredLines(lines)) == Cents(l.debit) + DebitCents(StoredLines(rest))
            && CreditCents(StoredLines(lines)) == Cents(l.credit) + CreditCents(StoredLines(rest))
  {
    var lines := [l] + rest;
    assert lines[1..] == rest;
    assert StoredLines(lines)[1..] == StoredLines(rest);
  }

  // ------------------------------------------------------------------ posting

  predicate Exist(accounts: map<Id, Account>, lines: seq<Line>) {
    forall i :: 0 <= i < |lines| ==> lines[i].account in accounts
  }

  function Post(l: Ledger, day: int, lines: seq<Line>): Result<Ledger, Error> {
    if !(-0.001 <= Debits(lines) - Credits(lines) <= 0.001) then Err(Unbalanced)
    else if Debits(lines) <= 0.0 then Err(ZeroAmount)
    else if exists i :: 0 <= i < |lines| && lines[i].debit == 0.0 && lines[i].credit == 0.0 then Err(EmptyLine)
    else if !Exist(l.accounts, lines) then Err(UnknownAccount)
    else if exists i :: 0 <= i < |lines| && !l.accounts[lines[i].account].active then Err(InactiveAccount)
    else Ok(l.(entries := l.entries + [Entry(day, StoredLines(lines))]))
  }

  predicate CodeUsed(accounts: map<Id, Account>, code: string) {
    exists a :: a in accounts && accounts[a].code == code
  }

  predicate HasLine(entries: seq<Entry>, id: Id) {
    exists i, j :: 0 <= i < |entries| && 0 <= j < |entries[i].lines| && entries[i].lines[j].account == id
  }

  datatype Action =
    | Posting(day: int, lines: seq<Line>)
    | Opening(id: Id, account: Account)
    | Updating(id: Id, account: Account)
    | Removing(id: Id)

  function Open(l: Ledger, id: Id, account: Account): Result<Ledger, Error> {
    if id in l.accounts || (account.parent.Some? && account.parent.value !in l.accounts) then Err(UnknownAccount)
    else if CodeUsed(l.accounts, account.code) then Err(CodeTaken)
    else Ok(l.(accounts := l.accounts[id := account.(active := true)]))
  }

  /** Code, kind, parent and activity may all change; only the code is checked against the others. */
  function Change(l: Ledger, id: Id, account: Account): Result<Ledger, Error> {
    if id !in l.accounts then Err(UnknownAccount)
    else if account.code != l.accounts[id].code && CodeUsed(l.accounts, account.code) then Err(CodeTaken)
    else if account.parent == Some(id) then Err(SelfParent)
    else Ok(l.(accounts := l.accounts[id := account]))
  }

  function Remove(l: Ledger, id: Id): Result<Ledger, Error> {
    if id !in l.accounts then Err(UnknownAccount)
    else if exists a :: a in l.accounts && l.accounts[a].parent == Some(id) then Err(HasChildren)
    else if HasLine(l.entries, id) then Err(HasLines)
    else Ok(l.(accounts := l.accounts - {id}))
  }

  function OrSame(r: Result<Ledger, Error>, l: Ledger): Ledger {
    if r.Ok? then r.value else l
  }

  function Step(l: Ledger, a: Action): Ledger {
    match a
    case Posting(day, lines) => OrSame(Post(l, day, lines), l)
    case Opening(id, account) => OrSame(Open(l, id, account), l)
    case Updating(id, account) => OrSame(Change(l, id, account), l)
    case Removing(id) => OrSame(Remove(l, id), l)
  }

  function Run(l: Ledger, actions: seq<Action>): Ledger
    decreases |actions|
  {
    if actions == [] then l else Run(Step(l, actions[0]), actions[1..])
  }

  /** Every stored line belongs to an account, and no two accounts share a code. */
  ghost predicate Sound(l: Ledger) {
    && (forall i, j :: 0 <= i < |l.entries| && 0 <= j < |l.entries[i].lines| ==> l.entries[i].lines[j].account in l.accounts)
    && (forall a, b :: a in l.accounts && b in l.accounts && l.accounts[a].code == l.accounts[b].code ==> a == b)
  }

  lemma StepIsSound(l: Ledger, a: Action)
    requires Sound(l)
    ensures Sound(Step(l, a))
  {
    var l' := Step(l, a);
    forall i, j | 0 <= i < |l'.entries| && 0 <= j < |l'.entries[i].lines|
      ensures l'.entries[i].lines[j].account in l'.accounts
    {
      if i < |l.entries| {
        assert l'.entries[i] == l.entries[i];
      } else {
        assert l'.entries[i].lines == StoredLines(a.lines);
        assert l'.entries[i].lines[j].account == a.lines[j].account;
      }
    }
  }

  /**
   Accounts: one is opened, active, under a code nobody has and a parent that exists; changed if it exists, under a code
   nobody else has and not as its own parent; removed if nothing hangs on it, neither an account nor a line. No entry
   and no other account is touched.
   */
  lemma AccountsChangeExactlyWhen(l: Ledger, id: Id, account: Account)
    ensures Open(l, id, account).Ok?
       <==> id !in l.accounts && (account.parent.Some? ==> account.parent.value in l.accounts) && forall a :: a in l.accounts ==> l.accounts[a].code != account.code
    ensures Open(l, id, account).Ok? ==>
              Open(l, id, account).value == Ledger(l.accounts[id := Account(account.code, account.kind, true, account.parent)], l.entries)
    ensures Change(l, id, account).Ok?
       <==> id in l.accounts && account.parent != Some(id)
            && (account.code == l.accounts[id].code || forall a :: a in l.accounts ==> l.accounts[a].code != account.code)
    ensures Change(l, id, account).Ok? ==> Change(l, id, account).value == Ledger(l.accounts[id := account], l.entries)
    ensures Remove(l, id).Ok?
       <==> id in l.accounts && (forall a :: a in l.accounts ==> l.accounts[a].parent != Some(id))
            && forall i, j :: 0 <= i < |l.entries| && 0 <= j < |l.entries[i].lines| ==> l.entries[i].lines[j].account != id
    ensures Remove(l, id).Ok? ==> Remove(l, id).value == Ledger(l.accounts - {id}, l.entries)
  {
  }

  /** Within half a cent of the amount, as a column of two decimals keeps it. */
  ghost predicate KeptToTheCent(stored: int, amount: real) {
    -0.5 <= stored as real - amount * 100.0 <= 0.5
  }

  /**
   An entry is accepted exactly if its sides are within a thousandth, something is debited, no line is empty and every
   line is on an account that exists and is active; then it is added on its day, line by line, to the cent.
   */
  lemma PostAcceptsExactlyWhen(l: Ledger, day: int, lines: seq<Line>)
    ensures Post(l, day, lines).Ok?
       <==> && Debits(lines) - Credits(lines) <= 0.001 && Credits(lines) - Debits(lines) <= 0.001 && Debits(lines) > 0.0
            && forall i :: 0 <= i < |lines| ==>
                 (lines[i].debit != 0.0 || lines[i].credit != 0.0) && lines[i].account in l.accounts && l.accounts[lines[i].account].active
    ensures Post(l, day, lines).Ok? ==>
              var after := Post(l, day, lines).value;
              && after.accounts == l.accounts && |after.entries| == |l.entries| + 1 && after.entries[..|l.entries|] == l.entries
              && after.entries[|l.entries|].day == day && |after.entries[|l.entries|].lines| == |lines|
              && forall i :: 0 <= i < |lines| ==>
                   var kept := after.entries[|l.entries|].lines[i];
                   kept.account == lines[i].account && KeptToTheCent(kept.debit, lines[i].debit) && KeptToTheCent(kept.credit, lines[i].credit)
  {
    hide Cents, Debits, Credits, KeptToTheCent;
    forall x: real
      ensures KeptToTheCent(Cents(x), x)
    {
      CentsAreClose(x);
    }
  }

  lemma CentsAreClose(x: real)
    ensures KeptToTheCent(Cents(x), x)
  {
  }

  // ------------------------------------------------------------------ the ledger over a range of days

  datatype Range = Range(first: Option<int>, last: Option<int>)

  predicate In(day: int, r: Range) {
    (r.first.Some? ==> day >= r.first.value) && (r.last.Some? ==> day <= r.last.value)
  }

  function LinesIn(entries: seq<Entry>, r: Range): seq<Posted> {
    if entries == [] then []
    else (if In(entries[0].day, r) then entries[0].lines else []) + LinesIn(entries[1..], r)
  }

  /** Entries of the first and of the last day are counted, those of the day before and the day after are not. */
  lemma RangeHoldsItsBounds(entries: seq<Entry>, e: Entry, first: int, last: int)
    ensures first <= e.day <= last ==>
              LinesIn(entries + [e], Range(Some(first), Some(last))) == LinesIn(entries, Range(Some(first), Some(last))) + e.lines
    ensures e.day < first || e.day > last ==>
              LinesIn(entries + [e], Range(Some(first), Some(last))) == LinesIn(entries, Range(Some(first), Some(last)))
    ensures LinesIn(entries + [e], Range(Some(first), None)) == LinesIn(entries, Range(Some(first), None)) + if e.day >= first then e.lines else []
    ensures LinesIn(entries + [e], Range(None, Some(last))) == LinesIn(entries, Range(None, Some(last))) + if e.day <= last then e.lines else []
    ensures LinesIn(entries + [e], Range(None, None)) == LinesIn(entries, Range(None, None)) + e.lines
  {
    hide LinesIn;
    var r := Range(Some(first), Some(last));
    LinesInAppend(entries, e, r);
    LinesInAppend(entries, e, Range(Some(first), None));
    LinesInAppend(entries, e, Range(None, Some(last)));
    LinesInAppend(entries, e, Range(None, None));
    assert LinesIn(entries, r) + [] == LinesIn(entries, r);
  }

  /** A range is the sum of its parts: no day is counted twice or left out where one ends and the next begins. */
  lemma {:induction false} RangesAddUp(entries: seq<Entry>, first: Option<int>, middle: int, last: Option<int>)
    requires (first.Some? ==> first.value <= middle + 1) && (last.Some? ==> middle <= last.value)
    ensures var (whole, left, right) :=
              (LinesIn(entries, Range(first, last)), LinesIn(entries, Range(first, Some(middle))), LinesIn(entries, Range(Some(middle + 1), last)));
            && DebitCents(whole) == DebitCents(left) + DebitCents(right)
            && CreditCents(whole) == CreditCents(left) + CreditCents(right)
  {
    if entries != [] {
      hide DebitCents, CreditCents, LinesIn;
      RangesAddUp(entries[1..], first, middle, last);
      RangeStep(entries, Range(first, last));
      RangeStep(entries, Range(first, Some(middle)));
      RangeStep(entries, Range(Some(middle + 1), last));
    }
  }

  lemma RangeStep(entries: seq<Entry>, r: Range)
    requires entries != []
    ensures DebitCents(LinesIn(entries, r)) == (if In(entries[0].day, r) then DebitCents(entries[0].lines) else 0) + DebitCents(LinesIn(entries[1..], r))
    ensures CreditCents(LinesIn(entries, r)) == (if In(entries[0].day, r) then CreditCents(entries[0].lines) else 0) + CreditCents(LinesIn(entries[1..], r))
  {
    hide DebitCents, CreditCents;
    SumsAppend(entries[0].lines, LinesIn(entries[1..], r));
    assert [] + LinesIn(entries[1..], r) == LinesIn(entries[1..], r);
  }

  lemma {:induction false} SumsAppend(a: seq<Posted>, b: seq<Posted>)
    ensures DebitCents(a + b) == DebitCents(a) + DebitCents(b)
    ensures CreditCents(a + b) == CreditCents(a) + CreditCents(b)
  {
    if a == [] {
      assert a + b == b;
    } else {
      SumsAppend(a[1..], b);
      assert (a + b)[1..] == a[1..] + b;
    }
  }

  /** How far apart an entry's stored sides may be, given that it was accepted. */
  function Drift(lines: seq<Line>): nat {
    (1 + 5 * Fractions(lines)) / 10
  }

  /** The entries that a run accepts, as they were sent. */
  function Accepted(l: Ledger, actions: seq<Action>): seq<Action>
    decreases |actions|
  {
    if actions == [] then []
    else
      (if actions[0].Posting? && Post(l, actions[0].day, actions[0].lines).Ok? then [actions[0]] else [])
      + Accepted(Step(l, actions[0]), actions[1..])
  }

  function DriftIn(accepted: seq<Action>, r: Range): nat {
    if accepted == [] then 0
    else (if accepted[0].Posting? && In(accepted[0].day, r) then Drift(accepted[0].lines) else 0) + DriftIn(accepted[1..], r)
  }

  ghost predicate Within(lines: seq<Posted>, bound: nat) {
    0 - bound <= DebitCents(lines) - CreditCents(lines) <= bound
  }

  lemma PostedWithinDrift(l: Ledger, day: int, lines: seq<Line>)
    requires Post(l, day, lines).Ok?
    ensures Within(StoredLines(lines), Drift(lines))
  {
    AcceptedEntryBound(lines);
  }

  lemma {:induction false} LinesInAppend(entries: seq<Entry>, e: Entry, r: Range)
    ensures LinesIn(entries + [e], r) == LinesIn(entries, r) + (if In(e.day, r) then e.lines else [])
  {
    if entries == [] {
      assert entries + [e] == [e];
      assert [e][1..] == [];
    } else {
      LinesInAppend(entries[1..], e, r);
      assert (entries + [e])[1..] == entries[1..] + [e];
    }
  }

  /** One more entry widens the range's difference by its own drift at most. */
  lemma PostWithin(l: Ledger, day: int, lines: seq<Line>, r: Range, bound: nat)
    requires Post(l, day, lines).Ok? && Within(LinesIn(l.entries, r), bound)
    ensures Within(LinesIn(Post(l, day, lines).value.entries, r), bound + if In(day, r) then Drift(lines) else 0)
  {
    hide Post, Drift, StoredLines, LinesIn, In, DebitCents, CreditCents;
    PostAppends(l, day, lines);
    LinesInAppend(l.entries, Entry(day, StoredLines(lines)), r);
    PostedWithinDrift(l, day, lines);
    SumsAppend(LinesIn(l.entries, r), StoredLines(lines));
    assert LinesIn(l.entries, r) + [] == LinesIn(l.entries, r);
  }

  /**
   * Over every run: the two sides of the ledger, over any range of days, differ by no more than the accepted
   * entries of the range may each have drifted.
   */
  lemma {:induction false} RangeStaysWithinDrift(l: Ledger, actions: seq<Action>, r: Range, bound: nat)
    requires Within(LinesIn(l.entries, r), bound)
    ensures Within(LinesIn(Run(l, actions).entries, r), bound + DriftIn(Accepted(l, actions), r))
    decreases |actions|
  {
    hide Post, Drift, StoredLines, Within, LinesIn, In;
    if actions != [] {
      var a := actions[0];
      var next := Step(l, a);
      var accepted := Accepted(l, actions);
      if a.Posting? && Post(l, a.day, a.lines).Ok? {
        PostWithin(l, a.day, a.lines, r, bound);
        assert accepted[0] == a && accepted[1..] == Accepted(next, actions[1..]);
        RangeStaysWithinDrift(next, actions[1..], r, bound + if In(a.day, r) then Drift(a.lines) else 0);
      } else {
        assert [] + Accepted(next, actions[1..]) == Accepted(next, actions[1..]);
        assert next.entries == l.entries;
        RangeStaysWithinDrift(next, actions[1..], r, bound);
      }
    }
  }

  lemma PostAppends(l: Ledger, day: int, lines: seq<Line>)
    requires Post(l, day, lines).Ok?
    ensures Post(l, day, lines).value.entries == l.entries + [Entry(day, StoredLines(lines))]
  {
  }

  const NEW := Ledger(map[], [])

  /** No accepted entry sends more than one amount that is not whole cents. */
  ghost predicate CleanAmounts(l: Ledger, actions: seq<Action>) {
    forall i :: 0 <= i < |Accepted(l, actions)| ==> Accepted(l, actions)[i].Posting? ==> Fractions(Accepted(l, actions)[i].lines) <= 1
  }

  lemma {:induction false} CleanMeansNoDrift(accepted: seq<Action>, r: Range)
    requires forall i :: 0 <= i < |accepted| ==> accepted[i].Posting? ==> Fractions(accepted[i].lines) <= 1
    ensures DriftIn(accepted, r) == 0
  {
    if accepted != [] {
      var rest := accepted[1..];
      assert forall i :: 0 <= i < |rest| ==> rest[i] == accepted[i + 1];
      CleanMeansNoDrift(rest, r);
    }
  }

  lemma NothingPosted(r: Range)
    ensures Within(LinesIn(NEW.entries, r), 0)
  {
  }

  /** Amounts in whole cents, as a person enters them, keep every range of the ledger exactly balanced. */
  lemma LedgerIsExactlyBalanced(actions: seq<Action>, r: Range)
    requires CleanAmounts(NEW, actions)
    ensures var lines := LinesIn(Run(NEW, actions).entries, r); DebitCents(lines) == CreditCents(lines)
  {
    hide Run, Accepted, LinesIn, DebitCents, CreditCents, Fractions, DriftIn;
    NothingPosted(r);
    RangeStaysWithinDrift(NEW, actions, r, 0);
    CleanMeansNoDrift(Accepted(NEW, actions), r);
  }

  lemma {:induction false} RunIsSound(l: Ledger, actions: seq<Action>)
    requires Sound(l)
    ensures Sound(Run(l, actions))
    decreases |actions|
  {
    hide Sound, Step;
    if actions != [] {
      StepIsSound(l, actions[0]);
      RunIsSound(Step(l, actions[0]), actions[1..]);
    }
  }
}
