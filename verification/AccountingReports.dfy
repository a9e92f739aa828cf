/**
 * Trial balance, income statement and balance sheet
 * (backend-nest/src/accounting/accounting.service.ts:258-308, 352-485).
 */
module AccountingReports {
  import opened Wrappers
  import opened Accounting

  // ------------------------------------------------------------------ sums over some of the accounts

  function DebitOver(lines: seq<Posted>, ids: set<Id>): int {
    if lines == [] then 0 else (if lines[0].account in ids then lines[0].debit else 0) + DebitOver(lines[1..], ids)
  }

  function CreditOver(lines: seq<Posted>, ids: set<Id>): int {
    if lines == [] then 0 else (if lines[0].account in ids then lines[0].credit else 0) + CreditOver(lines[1..], ids)
  }

  /** Debits less credits. */
  function Net(lines: seq<Posted>, ids: set<Id>): int {
    DebitOver(lines, ids) - CreditOver(lines, ids)
  }

  lemma {:induction false} OverUnion(lines: seq<Posted>, a: set<Id>, b: set<Id>)
    requires a !! b
    ensures DebitOver(lines, a + b) == DebitOver(lines, a) + DebitOver(lines, b)
    ensures CreditOver(lines, a + b) == CreditOver(lines, a) + CreditOver(lines, b)
  {
    if lines != [] { OverUnion(lines[1..], a, b); }
  }

  lemma {:induction false} OverNone(lines: seq<Posted>, ids: set<Id>)
    requires forall i :: 0 <= i < |lines| ==> lines[i].account !in ids
    ensures DebitOver(lines, ids) == 0 && CreditOver(lines, ids) == 0
  {
    if lines != [] {
      assert lines[0].account !in ids;
      OverNone(lines[1..], ids);
    }
  }

  lemma {:induction false} OverAll(lines: seq<Posted>, ids: set<Id>)
    requires forall i :: 0 <= i < |lines| ==> lines[i].account in ids
    ensures DebitOver(lines, ids) == DebitCents(lines) && CreditOver(lines, ids) == CreditCents(lines)
  {
    if lines != [] {
      assert lines[0].account in ids;
      OverAll(lines[1..], ids);
    }
  }

  lemma {:induction false} OverAppend(lines: seq<Posted>, p: Posted, ids: set<Id>)
    ensures DebitOver(lines + [p], ids) == DebitOver(lines, ids) + (if p.account in ids then p.debit else 0)
    ensures CreditOver(lines + [p], ids) == CreditOver(lines, ids) + (if p.account in ids then p.credit else 0)
  {
    if lines == [] {
      assert lines + [p] == [p];
      assert [p][1..] == [];
    } else {
      OverAppend(lines[1..], p, ids);
      assert (lines + [p])[1..] == lines[1..] + [p];
    }
  }

  lemma {:induction false} LinesInBelong(entries: seq<Entry>, r: Range, ids: set<Id>)
    requires forall i, j :: 0 <= i < |entries| && 0 <= j < |entries[i].lines| ==> entries[i].lines[j].account in ids
    ensures forall i :: 0 <= i < |LinesIn(entries, r)| ==> LinesIn(entries, r)[i].account in ids
  {
    if entries != [] {
      var rest := entries[1..];
      assert forall i :: 0 <= i < |rest| ==> rest[i] == entries[i + 1];
      assert forall j :: 0 <= j < |entries[0].lines| ==> entries[0].lines[j].account in ids;
      LinesInBelong(rest, r, ids);
    }
  }

  // ------------------------------------------------------------------ the books as a whole

  /** The accounts that the statements read: active ones of the kind. */
  function Active(accounts: map<Id, Account>, kind: Kind): set<Id> {
    set a | a in accounts && accounts[a].active && accounts[a].kind == kind
  }

  function Inactive(accounts: map<Id, Account>): set<Id> {
    set a | a in accounts && !accounts[a].active
  }

  /** The statements up to one day, as the reports compute them. */
  function Assets(l: Ledger, r: Range): int { Net(LinesIn(l.entries, r), Active(l.accounts, Asset)) }

  function Liabilities(l: Ledger, r: Range): int { -Net(LinesIn(l.entries, r), Active(l.accounts, Liability)) }

  function EquityTotal(l: Ledger, r: Range): int { -Net(LinesIn(l.entries, r), Active(l.accounts, Equity)) }

  function NetIncome(l: Ledger, r: Range): int {
    -Net(LinesIn(l.entries, r), Active(l.accounts, Revenue)) - Net(LinesIn(l.entries, r), Active(l.accounts, Expense))
  }

  lemma StatementsCoverTheLedger(l: Ledger, r: Range)
    requires Sound(l)
    ensures var lines := LinesIn(l.entries, r);
            Assets(l, r) - (Liabilities(l, r) + EquityTotal(l, r)) - NetIncome(l, r)
              == DebitCents(lines) - CreditCents(lines) - Net(lines, Inactive(l.accounts))
  {
    var lines, all := LinesIn(l.entries, r), l.accounts;
    LinesInBelong(l.entries, r, all.Keys);
    OverAll(lines, all.Keys);
    var a, b, c, d, e, f := Active(all, Asset), Active(all, Liability), Active(all, Equity), Active(all, Revenue), Active(all, Expense), Inactive(all);
    OverUnion(lines, a, b);
    OverUnion(lines, a + b, c);
    OverUnion(lines, a + b + c, d);
    OverUnion(lines, a + b + c + d, e);
    OverUnion(lines, a + b + c + d + e, f);
    assert a + b + c + d + e + f == all.Keys;
  }

  /**
   * After any run of entries in whole cents: assets less liabilities and equity come to the net income of the same
   * days exactly when the inactive accounts, which no statement shows, cancel out.
   */
  lemma BooksAgreeExactlyWhen(actions: seq<Action>, r: Range)
    requires CleanAmounts(NEW, actions)
    ensures var l := Run(NEW, actions);
            (Assets(l, r) - (Liabilities(l, r) + EquityTotal(l, r)) == NetIncome(l, r)) <==> (Net(LinesIn(l.entries, r), Inactive(l.accounts)) == 0)
  {
    var l := Run(NEW, actions);
    LedgerIsExactlyBalanced(actions, r);
    RunIsSound(NEW, actions);
    StatementsCoverTheLedger(l, r);
  }

  /** While every account is active they always agree, so the sheet's own equation holds only if nothing was earned. */
  lemma BooksAgreeWhileAllAreActive(actions: seq<Action>, r: Range)
    requires CleanAmounts(NEW, actions)
    requires var l := Run(NEW, actions); forall a :: a in l.accounts ==> l.accounts[a].active
    ensures var l := Run(NEW, actions);
            && Assets(l, r) - (Liabilities(l, r) + EquityTotal(l, r)) == NetIncome(l, r)
            && (Assets(l, r) == Liabilities(l, r) + EquityTotal(l, r) <==> NetIncome(l, r) == 0)
  {
    var l := Run(NEW, actions);
    BooksAgreeExactlyWhen(actions, r);
    OverNone(LinesIn(l.entries, r), Inactive(l.accounts));
  }

  const CASH := Account("1000", Asset, true, None)
  const SALES := Account("4000", Revenue, true, None)
  const SALE := [Line(0, 10.0, 0.0), Line(1, 0.0, 10.0)]

  /** Ten pounds of sales, then the sales account is deactivated: the assets stay, and the income that explains them is gone. */
  lemma DeactivatedAccountBreaksTheBooks()
    ensures var posted := Step(Step(Step(NEW, Opening(0, CASH)), Opening(1, SALES)), Posting(1, SALE));
            var l := Step(posted, Updating(1, SALES.(active := false)));
            var r := Range(None, None);
            && Assets(posted, r) - (Liabilities(posted, r) + EquityTotal(posted, r)) == NetIncome(posted, r) == 1000
            && Assets(l, r) == 1000 && Liabilities(l, r) == 0 && EquityTotal(l, r) == 0 && NetIncome(l, r) == 0
  {
    hide Post, LinesIn, Net;
    var both := Step(Step(NEW, Opening(0, CASH)), Opening(1, SALES));
    AccountsAreOpen();
    SaleIsPosted(both);
    var posted := Step(both, Posting(1, SALE));
    var l := Step(posted, Updating(1, SALES.(active := false)));
    assert l.accounts == map[0 := CASH, 1 := SALES.(active := false)] && l.entries == posted.entries;
    SaleSums(LinesIn(l.entries, Range(None, None)));
    KindsOfSale(posted.accounts, true);
    KindsOfSale(l.accounts, false);
  }

  lemma AccountsAreOpen()
    ensures Step(Step(NEW, Opening(0, CASH)), Opening(1, SALES)) == Ledger(map[0 := CASH, 1 := SALES], [])
  {
    var first := Step(NEW, Opening(0, CASH));
    assert first.accounts == map[0 := CASH] && first.entries == [];
    assert CASH.code[0] != SALES.code[0];
  }

  lemma KindsOfSale(accounts: map<Id, Account>, active: bool)
    requires accounts == map[0 := CASH, 1 := SALES.(active := active)]
    ensures Active(accounts, Asset) == {0} && Active(accounts, Revenue) == if active then {1} else {}
    ensures Active(accounts, Liability) == {} && Active(accounts, Equity) == {} && Active(accounts, Expense) == {}
  {
  }

  lemma SaleIsPosted(l: Ledger)
    requires l == Ledger(map[0 := CASH, 1 := SALES], [])
    ensures var posted := Step(l, Posting(1, SALE));
            posted.accounts == l.accounts && LinesIn(posted.entries, Range(None, None)) == [Posted(0, 1000, 0), Posted(1, 0, 1000)]
  {
    assert SALE == [SALE[0]] + [SALE[1]] && [SALE[1]] == [SALE[1]] + [];
    Unfolds(SALE[0], [SALE[1]]);
    Unfolds(SALE[1], []);
    assert Cents(10.0) == 1000 && Cents(0.0) == 0;
    var stored := StoredLines(SALE);
    assert stored == [Posted(0, 1000, 0), Posted(1, 0, 1000)];
    assert forall i :: 0 <= i < |SALE| ==> SALE[i].account in l.accounts && l.accounts[SALE[i].account].active;
    assert Post(l, 1, SALE).Ok?;
    LinesInAppend([], Entry(1, stored), Range(None, None));
    assert l.entries + [Entry(1, stored)] == [] + [Entry(1, stored)];
    assert LinesIn([], Range(None, None)) + stored == stored;
  }

  lemma SaleSums(lines: seq<Posted>)
    requires lines == [Posted(0, 1000, 0), Posted(1, 0, 1000)]
    ensures Net(lines, {0}) == 1000 && Net(lines, {1}) == -1000 && Net(lines, {}) == 0
  {
    assert lines == [lines[0]] + [lines[1]] && [lines[0]] == [] + [lines[0]];
    forall ids: set<Id>
      ensures Net(lines, ids) == (if 0 in ids then 1000 else 0) - (if 1 in ids then 1000 else 0)
    {
      OverAppend([], lines[0], ids);
      OverAppend([lines[0]], lines[1], ids);
    }
  }

  // ------------------------------------------------------------------ the reports

  datatype Row = Row(kind: Kind, debit: int, credit: int)

  function WithCode(accounts: map<Id, Account>, codes: set<string>): set<Id> {
    set a | a in accounts && accounts[a].code in codes
  }

  lemma WithCodeInsert(accounts: map<Id, Account>, codes: set<string>, code: string, lines: seq<Posted>)
    requires code !in codes
    ensures DebitOver(lines, WithCode(accounts, codes + {code})) == DebitOver(lines, WithCode(accounts, codes)) + DebitOver(lines, WithCode(accounts, {code}))
    ensures CreditOver(lines, WithCode(accounts, codes + {code})) == CreditOver(lines, WithCode(accounts, codes)) + CreditOver(lines, WithCode(accounts, {code}))
  {
    OverUnion(lines, WithCode(accounts, codes), WithCode(accounts, {code}));
    assert WithCode(accounts, codes + {code}) == WithCode(accounts, codes) + WithCode(accounts, {code});
  }

  /** One row per code of a line seen so far, holding that code's sums. */
  ghost predicate RowsFor(accounts: map<Id, Account>, lines: seq<Posted>, rows: map<string, Row>) {
    && (forall i :: 0 <= i < |lines| ==> lines[i].account in accounts && accounts[lines[i].account].code in rows)
    && (forall c :: c in rows ==> rows[c].debit == DebitOver(lines, WithCode(accounts, {c})) && rows[c].credit == CreditOver(lines, WithCode(accounts, {c})))
  }

  lemma AddLine(accounts: map<Id, Account>, lines: seq<Posted>, p: Posted, rows: map<string, Row>, kind: Kind)
    requires RowsFor(accounts, lines, rows) && p.account in accounts
    ensures var code := accounts[p.account].code;
            var was := if code in rows then rows[code] else Row(kind, 0, 0);
            RowsFor(accounts, lines + [p], rows[code := was.(debit := was.debit + p.debit, credit := was.credit + p.credit)])
  {
    var code := accounts[p.account].code;
    var was := if code in rows then rows[code] else Row(kind, 0, 0);
    var rows' := rows[code := was.(debit := was.debit + p.debit, credit := was.credit + p.credit)];
    if code !in rows { OverNone(lines, WithCode(accounts, {code})); }
    forall c | c in rows'
      ensures rows'[c].debit == DebitOver(lines + [p], WithCode(accounts, {c})) && rows'[c].credit == CreditOver(lines + [p], WithCode(accounts, {c}))
    {
      OverAppend(lines, p, WithCode(accounts, {c}));
    }
  }

  class AccountingService {
    var accounts: map<Id, Account>
    var entries: seq<Entry>

    constructor ()
      ensures Now() == NEW && Sound(Now())
    {
      accounts, entries := map[], [];
    }

    ghost function Now(): Ledger
      reads this
    {
      Ledger(accounts, entries)
    }

    method CreateJournalEntry(day: int, lines: seq<Line>) returns (r: Result<Entry, Error>)
      requires Sound(Now())
      modifies this
      ensures Now() == Step(old(Now()), Posting(day, lines)) && Sound(Now())
      ensures r.Err? <==> Post(old(Now()), day, lines).Err?
      ensures r.Err? ==> r.error == Post(old(Now()), day, lines).error
      ensures r.Ok? ==> r.value == Entry(day, StoredLines(lines)) && Within(r.value.lines, Drift(lines))
    {
      StepIsSound(Now(), Posting(day, lines));
      var totalDebit, totalCredit := 0.0, 0.0;
      assert lines[|lines|..] == [];
      for i := |lines| downto 0
        invariant totalDebit == Debits(lines[i..]) && totalCredit == Credits(lines[i..])
      {
        assert lines[i..][1..] == lines[i + 1..];
        totalDebit, totalCredit := lines[i].debit + totalDebit, lines[i].credit + totalCredit;
      }
      assert lines[0..] == lines;
      if !(-0.001 <= totalDebit - totalCredit <= 0.001) {
        return Err(Unbalanced);
      }
      if totalDebit <= 0.0 {
        return Err(ZeroAmount);
      }
      if exists i :: 0 <= i < |lines| && lines[i].debit == 0.0 && lines[i].credit == 0.0 {
        return Err(EmptyLine);
      }
      if !Exist(accounts, lines) {
        return Err(UnknownAccount);
      }
      if exists i :: 0 <= i < |lines| && !accounts[lines[i].account].active {
        return Err(InactiveAccount);
      }
      PostedWithinDrift(Now(), day, lines);
      var entry := Entry(day, StoredLines(lines));
      entries := entries + [entry];
      r := Ok(entry);
    }

    /** The totals are the ledger's own, and the flag says exactly whether the two sides are equal. */
    method TrialBalance(r: Range) returns (rows: map<string, Row>, debit: int, credit: int, balanced: bool)
      requires Sound(Now())
      ensures RowsFor(accounts, LinesIn(entries, r), rows)
      ensures debit == DebitCents(LinesIn(entries, r)) && credit == CreditCents(LinesIn(entries, r))
      ensures balanced <==> debit == credit
    {
      var lines := LinesIn(entries, r);
      LinesInBelong(entries, r, accounts.Keys);
      rows := map[];
      for i := 0 to |lines|
        invariant RowsFor(accounts, lines[..i], rows)
      {
        var account := accounts[lines[i].account];
        AddLine(accounts, lines[..i], lines[i], rows, account.kind);
        assert lines[..i + 1] == lines[..i] + [lines[i]];
        var current := if account.code in rows then rows[account.code] else Row(account.kind, 0, 0);
        rows := rows[account.code := current.(debit := current.debit + lines[i].debit, credit := current.credit + lines[i].credit)];
      }
      assert lines[..|lines|] == lines;
      debit, credit := SumRows(rows, lines);
      var difference := debit - credit;
      balanced := -1 < difference < 1;
    }

    method SumRows(rows: map<string, Row>, ghost lines: seq<Posted>) returns (debit: int, credit: int)
      requires RowsFor(accounts, lines, rows)
      ensures debit == DebitCents(lines) && credit == CreditCents(lines)
    {
      debit, credit := 0, 0;
      var rest := rows.Keys;
      ghost var done: set<string> := {};
      OverNone(lines, WithCode(accounts, {}));
      while rest != {}
        invariant done == rows.Keys - rest && rest <= rows.Keys
        invariant debit == DebitOver(lines, WithCode(accounts, done)) && credit == CreditOver(lines, WithCode(accounts, done))
        decreases rest
      {
        var code :| code in rest;
        WithCodeInsert(accounts, done, code, lines);
        debit, credit := debit + rows[code].debit, credit + rows[code].credit;
        rest, done := rest - {code}, done + {code};
      }
      assert done == rows.Keys;
      OverAll(lines, WithCode(accounts, rows.Keys));
    }

    /** `balanceByType`: one row per active account of the kinds, with that account's sums. */
    method BalanceByType(kinds: set<Kind>, r: Range) returns (rows: map<Id, Row>)
      requires Sound(Now())
      ensures rows.Keys == set a | a in accounts && accounts[a].active && accounts[a].kind in kinds
      ensures forall a :: a in rows ==> rows[a] == Row(accounts[a].kind, DebitOver(LinesIn(entries, r), {a}), CreditOver(LinesIn(entries, r), {a}))
    {
      var lines := LinesIn(entries, r);
      LinesInBelong(entries, r, accounts.Keys);
      var debits: map<Id, int>, credits: map<Id, int> := map[], map[];
      for i := 0 to |lines|
        invariant forall a :: a in accounts && accounts[a].kind in kinds ==>
          (if a in debits then debits[a] else 0) == DebitOver(lines[..i], {a}) && (if a in credits then credits[a] else 0) == CreditOver(lines[..i], {a})
      {
        var line := lines[i];
        assert lines[..i + 1] == lines[..i] + [line];
        forall a | a in accounts
          ensures DebitOver(lines[..i + 1], {a}) == DebitOver(lines[..i], {a}) + (if line.account == a then line.debit else 0)
          ensures CreditOver(lines[..i + 1], {a}) == CreditOver(lines[..i], {a}) + (if line.account == a then line.credit else 0)
        {
          OverAppend(lines[..i], line, {a});
        }
        if accounts[line.account].kind in kinds {
          debits := debits[line.account := (if line.account in debits then debits[line.account] else 0) + line.debit];
          credits := credits[line.account := (if line.account in credits then credits[line.account] else 0) + line.credit];
        }
      }
      assert lines[..|lines|] == lines;
      rows := map a | a in accounts && accounts[a].active && accounts[a].kind in kinds ::
        Row(accounts[a].kind, if a in debits then debits[a] else 0, if a in credits then credits[a] else 0);
    }

    /** The filter-and-reduce over the rows of one kind: debits less credits. */
    method NetOf(rows: map<Id, Row>, kind: Kind, r: Range) returns (net: int)
      requires forall a :: a in rows ==> a in accounts
      requires forall a :: a in rows ==> rows[a] == Row(accounts[a].kind, DebitOver(LinesIn(entries, r), {a}), CreditOver(LinesIn(entries, r), {a}))
      requires Active(accounts, kind) <= rows.Keys
      requires forall a :: a in rows ==> accounts[a].active
      ensures net == Net(LinesIn(entries, r), Active(accounts, kind))
    {
      net := 0;
      var rest := rows.Keys;
      ghost var done: set<Id> := {};
      ghost var lines := LinesIn(entries, r);
      OverNone(lines, {});
      while rest != {}
        invariant rest <= rows.Keys && done == set a | a in rows && a !in rest && rows[a].kind == kind
        invariant net == Net(lines, done)
        decreases rest
      {
        var a :| a in rest;
        rest := rest - {a};
        if rows[a].kind == kind {
          OverUnion(lines, done, {a});
          net := net + (rows[a].debit - rows[a].credit);
          done := done + {a};
        }
      }
      assert done == Active(accounts, kind);
    }

    method IncomeStatement(r: Range) returns (revenue: int, expenses: int, netIncome: int)
      requires Sound(Now())
      ensures revenue == -Net(LinesIn(entries, r), Active(accounts, Revenue)) && expenses == Net(LinesIn(entries, r), Active(accounts, Expense))
      ensures netIncome == NetIncome(Now(), r)
    {
      var rows := BalanceByType({Revenue, Expense}, r);
      revenue := NetOf(rows, Revenue, r);
      revenue := -revenue;
      expenses := NetOf(rows, Expense, r);
      netIncome := revenue - expenses;
    }

    /** The flag asks for assets to equal liabilities and equity alone, so it holds only when net income is covered. */
    method BalanceSheet(asOf: Option<int>) returns (assets: int, liabilities: int, equity: int, balanced: bool)
      requires Sound(Now())
      ensures var r := Range(None, asOf);
              && assets == Assets(Now(), r) && liabilities == Liabilities(Now(), r) && equity == EquityTotal(Now(), r)
              && (balanced <==> NetIncome(Now(), r) + DebitCents(LinesIn(entries, r)) - CreditCents(LinesIn(entries, r)) == Net(LinesIn(entries, r), Inactive(accounts)))
    {
      var r := Range(None, asOf);
      StatementsCoverTheLedger(Now(), r);
      var rows := BalanceByType({Asset, Liability, Equity}, r);
      assets := NetOf(rows, Asset, r);
      liabilities := NetOf(rows, Liability, r);
      liabilities := -liabilities;
      equity := NetOf(rows, Equity, r);
      equity := -equity;
      var difference := assets - (liabilities + equity);
      balanced := -1 < difference < 1;
    }
  }
}
