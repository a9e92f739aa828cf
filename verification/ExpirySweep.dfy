/** The expiry rules and the nightly sweep (backend-nest/src/batches/expiry.service.ts:90-111, 231-359). */
module ExpirySweep {
  import opened Wrappers
  import opened BatchLedger

  /** An empty sku or category counts as none. */
  datatype Rule = Rule(isActive: bool, sku: string, category: string, warnDays: int, criticalDays: int, blockDays: int)

  datatype Windows = Windows(warnDays: int, criticalDays: int, blockDays: int)

  const DEFAULT_WINDOWS := Windows(60, 30, 0)

  datatype Band = PastDate | Critical | Warning | Fine

  predicate ForSku(r: Rule, sku: string) { r.isActive && r.sku == sku }

  predicate ForCategory(r: Rule, category: string) { r.isActive && r.sku == "" && r.category == category }

  predicate ForAll(r: Rule) { r.isActive && r.sku == "" && r.category == "" }

  function Find(rules: seq<Rule>, test: Rule -> bool): (r: Option<Rule>)
    ensures r.Some? ==> exists i :: 0 <= i < |rules| && rules[i] == r.value && test(r.value) && forall j :: 0 <= j < i ==> !test(rules[j])
    ensures r.None? ==> forall i :: 0 <= i < |rules| ==> !test(rules[i])
  {
    if rules == [] then None
    else if test(rules[0]) then
      assert rules[0] == rules[0] && test(rules[0]);
      Some(rules[0])
    else
      var rest := Find(rules[1..], test);
      assert rest.Some? ==> exists i :: 0 <= i < |rules| && rules[i] == rest.value && test(rest.value) && forall j :: 0 <= j < i ==> !test(rules[j]) by {
        if rest.Some? {
          var i :| 0 <= i < |rules[1..]| && rules[1..][i] == rest.value && forall j :: 0 <= j < i ==> !test(rules[1..][j]);
          assert rules[i + 1] == rest.value;
          assert forall j :: 0 < j < i + 1 ==> rules[j] == rules[1..][j - 1];
        }
      }
      rest
  }

  /** The most specific rule wins: the product's own, its category's, then the factory's. */
  function PickRule(rules: seq<Rule>, sku: string, category: string): Windows {
    var own := Find(rules, (r: Rule) => ForSku(r, sku));
    var shared := Find(rules, (r: Rule) => ForCategory(r, category));
    var everywhere := Find(rules, (r: Rule) => ForAll(r));
    var rule := if own.Some? then own else if shared.Some? then shared else everywhere;
    if rule.None? then DEFAULT_WINDOWS
    else Windows(rule.value.warnDays, rule.value.criticalDays, rule.value.blockDays)
  }

  /** The first active rule for this sku and category: an empty one stands for all. */
  ghost predicate FirstRuleFor(rules: seq<Rule>, i: nat, sku: string, category: string) {
    && i < |rules| && rules[i].isActive && rules[i].sku == sku && (sku == "" ==> rules[i].category == category)
    && forall j :: 0 <= j < i ==> !(rules[j].isActive && rules[j].sku == sku && (sku == "" ==> rules[j].category == category))
  }

  ghost predicate AnyRuleFor(rules: seq<Rule>, sku: string, category: string) {
    exists i :: 0 <= i < |rules| && rules[i].isActive && rules[i].sku == sku && (sku == "" ==> rules[i].category == category)
  }

  function WindowsOf(r: Rule): Windows { Windows(r.warnDays, r.criticalDays, r.blockDays) }

  /**
   The most specific rule governs: the first active one that names the sku, else the first that names no sku but the
   category, else the first that names neither, else 60, 30 and 0 days.
   */
  lemma MostSpecificRuleGoverns(rules: seq<Rule>, sku: string, category: string, i: nat)
    requires sku != ""
    ensures FirstRuleFor(rules, i, sku, category) ==> PickRule(rules, sku, category) == WindowsOf(rules[i])
    ensures !AnyRuleFor(rules, sku, category) && FirstRuleFor(rules, i, "", category) ==> PickRule(rules, sku, category) == WindowsOf(rules[i])
    ensures !AnyRuleFor(rules, sku, category) && !AnyRuleFor(rules, "", category) && FirstRuleFor(rules, i, "", "") ==>
              PickRule(rules, sku, category) == WindowsOf(rules[i])
    ensures !AnyRuleFor(rules, sku, category) && !AnyRuleFor(rules, "", category) && !AnyRuleFor(rules, "", "") ==>
              PickRule(rules, sku, category) == Windows(60, 30, 0)
  {
    hide Find;
    if FirstRuleFor(rules, i, sku, category) {
      FindsFirst(rules, (r: Rule) => ForSku(r, sku), i);
    } else if !AnyRuleFor(rules, sku, category) {
      FindsNone(rules, (r: Rule) => ForSku(r, sku));
      if FirstRuleFor(rules, i, "", category) {
        FindsFirst(rules, (r: Rule) => ForCategory(r, category), i);
      } else if !AnyRuleFor(rules, "", category) {
        FindsNone(rules, (r: Rule) => ForCategory(r, category));
        if FirstRuleFor(rules, i, "", "") {
          FindsFirst(rules, (r: Rule) => ForAll(r), i);
        } else if !AnyRuleFor(rules, "", "") {
          FindsNone(rules, (r: Rule) => ForAll(r));
        }
      }
    }
  }

  lemma FindsFirst(rules: seq<Rule>, test: Rule -> bool, i: nat)
    requires i < |rules| && test(rules[i]) && forall j :: 0 <= j < i ==> !test(rules[j])
    ensures Find(rules, test) == Some(rules[i])
  {
    var r := Find(rules, test);
    var k :| 0 <= k < |rules| && rules[k] == r.value && test(r.value) && forall j :: 0 <= j < k ==> !test(rules[j]);
    assert k == i;
  }

  lemma FindsNone(rules: seq<Rule>, test: Rule -> bool)
    requires forall i :: 0 <= i < |rules| ==> !test(rules[i])
    ensures Find(rules, test) == None
  {
  }

  /** Whole days, rounded down, so a date that has just passed is -1. */
  function DaysLeft(expiry: int, now: int): int { (expiry - now) / DAY }

  function BandOf(daysLeft: int, rule: Windows): Band {
    if daysLeft < 0 then PastDate
    else if daysLeft <= rule.criticalDays then Critical
    else if daysLeft <= rule.warnDays then Warning
    else Fine
  }

  datatype Catalogue = Catalogue(rules: seq<Rule>, categories: map<string, string>)

  function RuleFor(c: Catalogue, sku: string): Windows {
    PickRule(c.rules, sku, if sku in c.categories then c.categories[sku] else "")
  }

  /** A product without a rule of its own is governed by the first rule of the category it is filed under, and without that by the first for all. */
  lemma CategoryRuleGoverns(c: Catalogue, sku: string, i: nat)
    requires sku != "" && sku in c.categories && !AnyRuleFor(c.rules, sku, "")
    ensures FirstRuleFor(c.rules, i, "", c.categories[sku]) ==> RuleFor(c, sku) == WindowsOf(c.rules[i])
    ensures !AnyRuleFor(c.rules, "", c.categories[sku]) && FirstRuleFor(c.rules, i, "", "") ==> RuleFor(c, sku) == WindowsOf(c.rules[i])
  {
    var category := c.categories[sku];
    assert AnyRuleFor(c.rules, sku, category) <==> AnyRuleFor(c.rules, sku, "");
    MostSpecificRuleGoverns(c.rules, sku, category, i);
  }

  /** Whether the sweep looks at a batch at all. */
  predicate Swept(b: Batch) {
    b.quantity > 0 && b.expiry.Some? && Sellable(b.status)
  }

  function StatusAfter(b: Batch, rule: Windows, now: int): Status {
    if !Swept(b) then b.status
    else
      var daysLeft := DaysLeft(b.expiry.value, now);
      if BandOf(daysLeft, rule) == PastDate then Expired
      else if rule.blockDays > 0 && daysLeft <= rule.blockDays then Quarantine
      else if BandOf(daysLeft, rule) != Fine then NearExpiry
      else b.status
  }

  function Scanned(b: Books, c: Catalogue, now: int): Books {
    b.(batches := map k | k in b.batches :: b.batches[k].(status := StatusAfter(b.batches[k], RuleFor(c, k.sku), now)))
  }

  /** A date that has passed, or a product's block window that has been reached. */
  predicate Stale(b: Batch, rule: Windows, now: int) {
    b.expiry.Some? &&
    (b.expiry.value < now || (rule.blockDays > 0 && DaysLeft(b.expiry.value, now) <= rule.blockDays))
  }

  /**
   What the sweep decides, in milliseconds: a batch in stock, dated and on sale has expired once its date is past; else
   it is quarantined if a block window is set and reached; else it is marked within the wider of the warning windows,
   counting the whole of the last day; and every other batch keeps its status.
   */
  lemma SweepDecides(b: Batch, rule: Windows, now: int)
    ensures b.quantity <= 0 || b.expiry.None? || (b.status != Available && b.status != NearExpiry) ==> StatusAfter(b, rule, now) == b.status
    ensures b.quantity > 0 && b.expiry.Some? && (b.status == Available || b.status == NearExpiry) ==>
              var left, widest := b.expiry.value - now, if rule.warnDays > rule.criticalDays then rule.warnDays else rule.criticalDays;
              StatusAfter(b, rule, now) ==
                if left < 0 then Expired
                else if rule.blockDays > 0 && left < (rule.blockDays + 1) * 86400000 then Quarantine
                else if left < (widest + 1) * 86400000 then NearExpiry
                else b.status
  {
    if b.expiry.Some? {
      DayArithmetic(b.expiry.value - now);
      WholeDays(b.expiry.value - now, rule.blockDays);
      WholeDays(b.expiry.value - now, rule.warnDays);
      WholeDays(b.expiry.value - now, rule.criticalDays);
    }
  }

  lemma WholeDays(d: int, days: int)
    ensures d / DAY <= days <==> d < (days + 1) * 86400000
  {
  }

  /** `allocate` may draw from this batch at this location. */
  ghost predicate Drawable(b: Books, key: BatchKey, location: string) {
    && key in b.batches && Sellable(b.batches[key].status)
    && location in LevelsOf(b, key) && b.levels[key][location].available > 0
  }

  /** A balanced ledger has units in the batch wherever it has units at a location. */
  lemma AvailableMeansInStock(b: Books, key: BatchKey, location: string)
    requires Balanced(b) && Drawable(b, key, location)
    ensures b.batches[key].quantity > 0
  {
    LevelBounds(b, key, location);
  }

  lemma ScanKeepsBalance(b: Books, c: Catalogue, now: int)
    requires Balanced(b)
    ensures Balanced(Scanned(b, c, now))
  {
    hide StatusAfter, RuleFor, BatchBalanced, LevelValid, AtLocation;
    var after := Scanned(b, c, now);
    forall k | k in after.batches
      ensures BatchBalanced(after.batches[k], after.levels[k])
    {
      OnlyStatusDiffers(b.batches[k], after.batches[k], b.levels[k]);
    }
    forall s | s in after.stock
      ensures AtLocation(after, s) == AtLocation(b, s)
    {
      SameLocations(b, after, s);
    }
  }

  lemma OnlyStatusDiffers(a: Batch, b: Batch, levels: map<string, Level>)
    requires a.quantity == b.quantity && a.reserved == b.reserved
    ensures BatchBalanced(a, levels) <==> BatchBalanced(b, levels)
  {
  }

  lemma SameLocations(a: Books, b: Books, s: StockKey)
    requires a.levels == b.levels
    ensures AtLocation(a, s) == AtLocation(b, s)
  {
  }

  /** Right after a sweep nothing that can be drawn is past its date or inside its block window. */
  lemma NothingStaleIsDrawable(b: Books, c: Catalogue, now: int, key: BatchKey, location: string)
    requires Balanced(b)
    ensures Drawable(Scanned(b, c, now), key, location) ==> !Stale(Scanned(b, c, now).batches[key], RuleFor(c, key.sku), now)
  {
    hide Balanced, RuleFor;
    if Drawable(Scanned(b, c, now), key, location) {
      ScanKeepsBalance(b, c, now);
      AvailableMeansInStock(Scanned(b, c, now), key, location);
      var existing := b.batches[key];
      if existing.expiry.Some? {
        DayArithmetic(existing.expiry.value - now);
      }
    }
  }

  lemma DayArithmetic(d: int)
    ensures d < 0 <==> d / DAY < 0
  {
  }

  /** The sweep takes no batch off sale without a reason. */
  lemma OnlyStaleIsBlocked(b: Books, c: Catalogue, now: int, key: BatchKey)
    requires key in b.batches && Sellable(b.batches[key].status)
    ensures !Sellable(Scanned(b, c, now).batches[key].status) <==>
              Swept(b.batches[key]) && Stale(b.batches[key], RuleFor(c, key.sku), now)
  {
    if b.batches[key].expiry.Some? {
      DayArithmetic(b.batches[key].expiry.value - now);
    }
  }

  /** A second sweep at the same instant changes nothing. */
  lemma ScanTwice(b: Books, c: Catalogue, now: int)
    ensures Scanned(Scanned(b, c, now), c, now) == Scanned(b, c, now)
  {
    var once, twice := Scanned(b, c, now), Scanned(Scanned(b, c, now), c, now);
    forall k | k in b.batches
      ensures twice.batches[k] == once.batches[k]
    {
      var rule := RuleFor(c, k.sku);
      assert once.batches[k] == b.batches[k].(status := StatusAfter(b.batches[k], rule, now));
    }
    assert twice.batches == once.batches;
  }

  // ------------------------------------------------------- a sweep with others in between

  /**
   What the sweep's write makes of a batch it had read as `read`: the status it decided on then, by id, whatever the
   batch is now; no write when it decided to leave the status.
   */
  function Written(current: Batch, read: Batch, rule: Windows, now: int): Batch {
    if StatusAfter(read, rule, now) == read.status then current else current.(status := StatusAfter(read, rule, now))
  }

  /** With nothing in between, the write is the sweep's own decision. */
  lemma FreshWriteIsTheSweep(b: Batch, rule: Windows, now: int)
    ensures Written(b, b, rule, now) == b.(status := StatusAfter(b, rule, now))
  {
  }

  /**
   A status somebody set between the read and the write survives exactly when the sweep had nothing to write: the
   date is past no threshold, or only a warning one and the batch was marked already; or the sweep writes the same.
   */
  lemma StatusInBetweenSurvivesExactlyWhen(current: Batch, read: Batch, rule: Windows, now: int)
    requires Swept(read)
    ensures Written(current, read, rule, now).status == current.status
       <==> (!Stale(read, rule, now) && (BandOf(DaysLeft(read.expiry.value, now), rule) == Fine || read.status == NearExpiry))
            || current.status == (if read.expiry.value < now then Expired else if Stale(read, rule, now) then Quarantine else NearExpiry)
  {
    DayArithmetic(read.expiry.value - now);
  }

  /** Goods rejected while the sweep runs are marked as near expiry by it and can be sold again. */
  lemma RejectedGoodsComeBack()
    ensures var read := Batch(Available, Some(20 * DAY), 0, 5, 5, 0, 100);
            var rejected := read.(status := Rejected);
            !Sellable(rejected.status) && Sellable(Written(rejected, read, DEFAULT_WINDOWS, 0).status)
  {
    assert DaysLeft(20 * DAY, 0) == 20;
  }

  /** A batch whose date has not changed is off sale after the sweep's write if it is stale, whatever else was done to it. */
  lemma WrittenStaleIsOffSale(current: Batch, read: Batch, rule: Windows, now: int)
    requires Swept(read) && current.expiry == read.expiry
    requires Stale(current, rule, now)
    ensures !Sellable(Written(current, read, rule, now).status)
  {
    DayArithmetic(read.expiry.value - now);
  }

  datatype ScanCounts = ScanCounts(expired: nat, quarantined: nat, notified: nat, scanned: nat)
}
