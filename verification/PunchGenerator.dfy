/**
 Encoding monthly totals back into daily punches
 (backend-nest/scripts/generate-kum-attendance.js:46-66, 113-142).
 */
module PunchGenerator {
  import opened Basics
  import opened Wrappers
  import opened PunchSweep
  import opened MissingMinutes

  function Sum(p: seq<int>): int {
    if p == [] then 0 else Sum(p[..|p| - 1]) + p[|p| - 1]
  }

  lemma {:induction false} SumOfSame(p: seq<int>, v: int)
    requires forall i :: 0 <= i < |p| ==> p[i] == v
    ensures Sum(p) == |p| * v
  {
    if p != [] {
      SumOfSame(p[..|p| - 1], v);
      assert |p| * v == (|p| - 1) * v + v;
    }
  }

  lemma {:induction false} SumUpdate(p: seq<int>, i: nat, v: int)
    requires i < |p|
    ensures Sum(p[i := v]) == Sum(p) - p[i] + v
  {
    var n := |p| - 1;
    if i == n {
      assert p[i := v][..n] == p[..n];
    } else {
      SumUpdate(p[..n], i, v);
      assert p[i := v][..n] == p[..n][i := v];
    }
  }

  /** Splits a total into parts no larger than the cap, as evenly as whole units allow and the rest up front. */
  method Spread(total: int, count: nat, cap: nat) returns (parts: array<int>)
    ensures fresh(parts) && parts.Length == count
    ensures forall i :: 0 <= i < count ==> parts[i] == PartAt(total, count, cap, i)
    ensures forall i :: 0 <= i < count ==> 0 <= parts[i] <= cap
    ensures Sum(parts[..]) == if total <= 0 then 0 else Min(total, count * cap)
  {
    parts := new int[count](_ => 0);
    SumOfSame(parts[..], 0);
    if total <= 0 || count <= 0 {
      return;
    }
    var left := total;
    var base := Min(cap, left / count);
    BaseFits(total, count, cap);
    for i := 0 to count
      invariant forall j :: 0 <= j < i ==> parts[j] == base
      invariant left == total - i * base
    {
      parts[i] := base;
      left := left - base;
      assert (i + 1) * base == i * base + base;
    }
    FrontLoad(parts, base, cap, left);
  }

  /** The second loop: what is left goes on the first parts, each up to the cap. */
  method FrontLoad(parts: array<int>, base: nat, cap: nat, rest: nat)
    requires base <= cap && forall j :: 0 <= j < parts.Length ==> parts[j] == base
    modifies parts
    ensures forall j :: 0 <= j < parts.Length ==> parts[j] == base + Clamp(rest - j * (cap - base), cap - base)
    ensures Sum(parts[..]) == Min(parts.Length * base + rest, parts.Length * cap)
  {
    hide Sum;
    var left: int := rest;
    SumOfSame(parts[..], base);
    var i := 0;
    while i < parts.Length && left > 0
      invariant 0 <= i <= parts.Length && left >= 0
      invariant Sum(parts[..]) + left == parts.Length * base + rest
      invariant left == Max(0, rest - i * (cap - base))
      invariant forall j :: 0 <= j < i ==> parts[j] == base + Clamp(rest - j * (cap - base), cap - base)
      invariant forall j :: i <= j < parts.Length ==> parts[j] == base
    {
      assert (i + 1) * (cap - base) == i * (cap - base) + (cap - base);
      var room := cap - parts[i];
      var add := Min(room, left);
      SumUpdate(parts[..], i, parts[i] + add);
      ghost var before := parts[..];
      parts[i] := parts[i] + add;
      assert parts[..] == before[i := before[i] + add];
      left := left - add;
      i := i + 1;
    }
    forall j | i <= j < parts.Length
      ensures parts[j] == base + Clamp(rest - j * (cap - base), cap - base)
    {
      ProductLess(i, j, cap - base);
    }
    if left > 0 {
      forall j | 0 <= j < parts.Length
        ensures parts[j] == cap
      {
        FullBefore(rest, j, i, cap - base);
      }
      SumOfSame(parts[..], cap);
    } else {
      SumAtMost(parts[..], cap);
    }
  }

  lemma FullBefore(rest: int, j: int, i: int, room: int)
    requires 0 <= j < i && room >= 0 && rest - i * room > 0
    ensures rest - j * room >= room
  {
    ProductLess(j + 1, i, room);
    assert (j + 1) * room == j * room + room;
  }

  function Clamp(x: int, hi: int): int {
    if x < 0 then 0 else if x > hi then hi else x
  }

  /** The same for every part, as much as goes evenly, and the rest put on the first ones up to the cap. */
  function PartAt(total: int, count: nat, cap: nat, i: nat): int {
    if total <= 0 || count == 0 then 0
    else
      var base := Min(cap, total / count);
      base + Clamp(total - count * base - i * (cap - base), cap - base)
  }

  /** Parts fall from the first to the last and keep to the cap. */
  lemma PartsFall(total: int, count: nat, cap: nat, i: nat, j: nat)
    requires i <= j
    ensures 0 <= PartAt(total, count, cap, j) <= PartAt(total, count, cap, i) <= cap
  {
    if total > 0 && count > 0 {
      ProductLess(i, j, cap - Min(cap, total / count));
    }
  }

  lemma BaseFits(total: int, count: nat, cap: nat)
    requires total > 0 && count > 0
    ensures 0 <= Min(cap, total / count) && total - count * Min(cap, total / count) >= 0
  {
    var q := total / count;
    assert total == q * count + total % count;
    var b := Min(cap, q);
    ProductLess(b, q, count);
  }

  lemma ProductLess(a: int, b: int, k: int)
    requires a <= b && k >= 0
    ensures k * a <= k * b
  {
  }

  lemma {:induction false} SumAtMost(p: seq<int>, cap: int)
    requires forall i :: 0 <= i < |p| ==> p[i] <= cap
    ensures Sum(p) <= |p| * cap
  {
    if p != [] {
      SumAtMost(p[..|p| - 1], cap);
      assert |p| * cap == (|p| - 1) * cap + cap;
    }
  }

  // --------------------------------------------------------------- one day

  /** 08:00 to 17:00, and the caps on one day's early leave, overtime and lateness. */
  const SHIFT := Shift(480, 1020)
  const OFFSET: int := 180
  const EARLY_CAP: nat := 400
  const OVERTIME_CAP: nat := 420
  const LATE_CAP: nat := 300

  /** Local wall-clock minutes of a day as a UTC timestamp. */
  function UtcAt(day: int, localMinutes: int): int {
    (day * DAY_MINUTES + localMinutes - OFFSET) * 60000
  }

  /** Lateness on the clock: the aggregator takes the grace off again. */
  function ClockLate(late: nat, grace: nat): nat { if late > 0 then late + grace else 0 }

  function InAt(late: nat, grace: nat): int { SHIFT.start + ClockLate(late, grace) }

  function OutAt(early: nat, overtime: nat): int { SHIFT.end - early + overtime }

  /** The two punches of a day as they come back from the database, by timestamp. */
  function EncodedDay(day: int, late: nat, grace: nat, early: nat, overtime: nat): seq<Punch> {
    var arrive := Punch(In, UtcAt(day, InAt(late, grace)), 0.0, 0);
    var leave := Punch(Out, UtcAt(day, OutAt(early, overtime)), 0.0, 0);
    if arrive.time <= leave.time then [arrive, leave] else [leave, arrive]
  }

  ghost predicate DayInputs(late: nat, grace: nat, early: nat, overtime: nat) {
    && late <= LATE_CAP && early <= EARLY_CAP && overtime <= OVERTIME_CAP
    && (early == 0 || overtime == 0)
  }

  /**
   The day comes back whole: IN is nearer to this morning's start than to tomorrow's, overtime stops short of midnight
   and IN does not overtake OUT.
   */
  predicate DayFits(late: nat, grace: nat, early: nat, overtime: nat) {
    && ClockLate(late, grace) <= 720
    && (early == 0 || ClockLate(late, grace) + early <= 540)
    && (overtime == 0 || (overtime < OVERTIME_CAP && ClockLate(late, grace) <= 540))
  }

  ghost predicate Recovered(day: int, late: nat, grace: nat, early: nat, overtime: nat) {
    var d := AggregatedDay(EncodedDay(day, late, grace, early, overtime), SHIFT, grace, [], OFFSET);
    d.delay == late && d.missing == early && d.overtime == overtime
  }

  lemma LocalAt(day: int, m: int)
    ensures LocalMinutes(UtcAt(day, m), OFFSET) == m % DAY_MINUTES
  {
    var p := Punch(In, UtcAt(day, m), 0.0, 0);
    assert p.time / 60000 == day * DAY_MINUTES + m - OFFSET;
    assert Minute(p, OFFSET, day) == m;
    LocalIsMinuteModuloDay(p, OFFSET, day);
  }

  /** The split of a day with one IN and one OUT. */
  lemma TwoPunches(ps: seq<Punch>, offset: int)
    requires |ps| == 2 && forall i :: 0 <= i < 2 ==> ps[i].hoursWorked == 0.0
    ensures ps[0].kind == In && ps[1].kind == Out ==>
              WorkedSplit(ps, SHIFT, offset)
                == Split(PairScheduled(LocalMinutes(ps[0].time, offset), LocalMinutes(ps[1].time, offset), SHIFT),
                         Max(0, PairOvertime(LocalMinutes(ps[0].time, offset), LocalMinutes(ps[1].time, offset), SHIFT)))
    ensures ps[0].kind == Out && ps[1].kind == In ==> WorkedSplit(ps, SHIFT, offset) == Split(0, 0)
  {
    hide LocalMinutes;
    assert LongestHours(ps, 2) == 0.0 by {
      assert LongestHours(ps, 0) == 0.0 && LongestHours(ps, 1) == 0.0;
    }
    assert SweepTo(ps, SHIFT, offset, 0) == Split(0, 0);
    assert Pending(ps, 0) == None;
    assert SweepTo(ps, SHIFT, offset, 1) == Split(0, 0);
  }

  /** Encoding one day and aggregating it gives the same three numbers back exactly when the day fits. */
  lemma DayRoundTrip(day: int, late: nat, grace: nat, early: nat, overtime: nat)
    requires DayInputs(late, grace, early, overtime)
    ensures Recovered(day, late, grace, early, overtime) <==> DayFits(late, grace, early, overtime)
  {
    if ClockLate(late, grace) <= 720 {
      NearDay(day, late, grace, early, overtime);
    } else {
      FarDayIsLost(day, late, grace, early, overtime);
    }
  }

  /** An IN more than twelve hours after the start counts for the next day, and its lateness is not found again. */
  lemma FarDayIsLost(day: int, late: nat, grace: nat, early: nat, overtime: nat)
    requires ClockLate(late, grace) > 720
    ensures !Recovered(day, late, grace, early, overtime)
  {
    hide WorkedSplit, LocalMinutes;
    var ps := EncodedDay(day, late, grace, early, overtime);
    var inAt, outAt := InAt(late, grace), OutAt(early, overtime);
    LocalAt(day, inAt);
    assert ps[0].kind == In <==> inAt <= outAt;
    assert FirstIn(ps) == Some(if inAt <= outAt then 0 else 1);
    assert EffectiveStart([], SHIFT.start) == SHIFT.start && LeaveMinutes([]) == 0;
    assert LateArrival(ps, SHIFT.start, OFFSET) <= 720;
  }

  lemma NearDay(day: int, late: nat, grace: nat, early: nat, overtime: nat)
    requires DayInputs(late, grace, early, overtime) && ClockLate(late, grace) <= 720
    ensures Recovered(day, late, grace, early, overtime) <==> DayFits(late, grace, early, overtime)
  {
    hide WorkedSplit, LocalMinutes;
    var ps := EncodedDay(day, late, grace, early, overtime);
    var inAt, outAt := InAt(late, grace), OutAt(early, overtime);
    LocalAt(day, inAt);
    LocalAt(day, outAt);
    ModuloOfDay(inAt);
    ModuloOfDay(outAt);
    TwoPunches(ps, OFFSET);
    assert ps[0].kind == In <==> inAt <= outAt;
    assert FirstIn(ps) == Some(if inAt <= outAt then 0 else 1);
    assert EffectiveStart([], SHIFT.start) == SHIFT.start && LeaveMinutes([]) == 0;
    assert LateArrival(ps, SHIFT.start, OFFSET) == ClockLate(late, grace);
  }

  /** Seven hours of overtime end at midnight and are read as no work at all. */
  lemma OvertimeToMidnightIsLost(day: int)
    ensures var d := AggregatedDay(EncodedDay(day, 0, 0, 0, 420), SHIFT, 0, [], OFFSET);
            d.overtime == 0 && d.missing == 540
  {
    hide WorkedSplit, LocalMinutes;
    var ps := EncodedDay(day, 0, 0, 0, 420);
    LocalAt(day, 480);
    LocalAt(day, 1440);
    TwoPunches(ps, OFFSET);
    assert FirstIn(ps) == Some(0);
    assert EffectiveStart([], SHIFT.start) == SHIFT.start && LeaveMinutes([]) == 0;
  }

  // -------------------------------------------------------------------- a month

  /** Days given to early leave; overtime gets the rest. */
  function EarlyDays(earlyTotal: int, days: nat): nat {
    if earlyTotal > 0 then Min(days, (earlyTotal + EARLY_CAP - 1) / EARLY_CAP) else 0
  }

  /** Early leave takes the fewest days that hold it, or all of them. */
  lemma FewestEarlyDays(earlyTotal: int, days: nat)
    ensures var n := EarlyDays(earlyTotal, days);
            && n <= days && (earlyTotal <= 0 ==> n == 0)
            && (n < days ==> earlyTotal <= n * 400)
            && (n > 0 ==> (n - 1) * 400 < earlyTotal)
  {
    if earlyTotal > 0 {
      var up := (earlyTotal + 399) / 400;
      assert earlyTotal <= up * 400 && (up - 1) * 400 < earlyTotal;
    }
  }

  datatype Month = Month(late: seq<int>, early: seq<int>, overtime: seq<int>, days: seq<seq<Punch>>)

  /** What day `i` carries. */
  function EarlyOn(m: Month, i: nat): int {
    if i < |m.early| then m.early[i] else 0
  }

  function OvertimeOn(m: Month, i: nat): int {
    if |m.early| <= i < |m.early| + |m.overtime| then m.overtime[i - |m.early|] else 0
  }

  ghost predicate MonthOf(m: Month, used: seq<int>, grace: nat, lateTotal: int, earlyTotal: int, overtimeTotal: int) {
    && |m.late| == |m.days| == |used|
    && |m.early| == EarlyDays(earlyTotal, |used|) && |m.early| + |m.overtime| == |used|
    && (forall i :: 0 <= i < |m.late| ==> m.late[i] == PartAt(lateTotal, |used|, LATE_CAP, i) && 0 <= m.late[i] <= LATE_CAP)
    && (forall i :: 0 <= i < |m.early| ==> m.early[i] == PartAt(earlyTotal, |m.early|, EARLY_CAP, i) && 0 <= m.early[i] <= EARLY_CAP)
    && (forall i :: 0 <= i < |m.overtime| ==>
          m.overtime[i] == PartAt(overtimeTotal, |m.overtime|, OVERTIME_CAP, i) && 0 <= m.overtime[i] <= OVERTIME_CAP)
    && Sum(m.late) == (if lateTotal <= 0 then 0 else Min(lateTotal, |used| * LATE_CAP))
    && Sum(m.early) == (if earlyTotal <= 0 then 0 else Min(earlyTotal, |m.early| * EARLY_CAP))
    && Sum(m.overtime) == (if overtimeTotal <= 0 then 0 else Min(overtimeTotal, |m.overtime| * OVERTIME_CAP))
    && (forall i :: 0 <= i < |used| ==> m.days[i] == EncodedDay(used[i], m.late[i], grace, EarlyOn(m, i), OvertimeOn(m, i)))
  }

  lemma EarlyDaysFit(earlyTotal: int, days: nat)
    ensures EarlyDays(earlyTotal, days) <= days
  {
  }

  method GenerateMonth(used: seq<int>, grace: nat, lateTotal: int, earlyTotal: int, overtimeTotal: int) returns (m: Month)
    ensures MonthOf(m, used, grace, lateTotal, earlyTotal, overtimeTotal)
  {
    hide EncodedDay, EarlyDays, Sum, PartAt;
    EarlyDaysFit(earlyTotal, |used|);
    var earlyDays := EarlyDays(earlyTotal, |used|);
    var earlyParts := Spread(earlyTotal, earlyDays, EARLY_CAP);
    var otParts := Spread(overtimeTotal, |used| - earlyDays, OVERTIME_CAP);
    var lateParts := Spread(lateTotal, |used|, LATE_CAP);
    var records: seq<seq<Punch>> := [];
    m := Month(lateParts[..], earlyParts[..], otParts[..], []);
    for i := 0 to |used|
      invariant |records| == i
      invariant forall j :: 0 <= j < i ==> records[j] == EncodedDay(used[j], m.late[j], grace, EarlyOn(m, j), OvertimeOn(m, j))
    {
      var early, overtime := 0, 0;
      if i < earlyDays {
        early := earlyParts[i];
      } else {
        overtime := otParts[i - earlyDays];
      }
      records := records + [EncodedDay(used[i], lateParts[i], grace, early, overtime)];
    }
    m := m.(days := records);
  }

  ghost function Aggregated(m: Month, grace: nat, i: nat): DayResult
    requires i < |m.days|
  {
    AggregatedDay(m.days[i], SHIFT, grace, [], OFFSET)
  }

  ghost function Delays(m: Month, grace: nat, n: nat): int
    requires n <= |m.days|
  {
    if n == 0 then 0 else Delays(m, grace, n - 1) + Aggregated(m, grace, n - 1).delay
  }

  ghost function Missing(m: Month, grace: nat, n: nat): int
    requires n <= |m.days|
  {
    if n == 0 then 0 else Missing(m, grace, n - 1) + Aggregated(m, grace, n - 1).missing
  }

  ghost function Overtime(m: Month, grace: nat, n: nat): int
    requires n <= |m.days|
  {
    if n == 0 then 0 else Overtime(m, grace, n - 1) + Aggregated(m, grace, n - 1).overtime
  }

  ghost predicate MonthFits(m: Month, used: seq<int>, grace: nat) {
    && |m.late| == |used|
    && forall i :: 0 <= i < |used| ==> m.late[i] >= 0 && EarlyOn(m, i) >= 0 && OvertimeOn(m, i) >= 0
                                       && DayInputs(m.late[i], grace, EarlyOn(m, i), OvertimeOn(m, i))
                                       && DayFits(m.late[i], grace, EarlyOn(m, i), OvertimeOn(m, i))
  }

  lemma SumOneMore(p: seq<int>, i: nat)
    requires i < |p|
    ensures Sum(p[..i + 1]) == Sum(p[..i]) + p[i]
  {
    assert p[..i + 1][..i] == p[..i];
  }

  lemma SumOfNone(a: seq<int>, b: seq<int>, c: seq<int>)
    ensures Sum(a[..0]) == Sum(b[..0]) == Sum(c[..0]) == 0
  {
  }

  function Cut(n: int, length: nat): nat { if n < 0 then 0 else if n > length then length else n }

  lemma {:induction false} MonthAddsUp(m: Month, used: seq<int>, grace: nat, lateTotal: int, earlyTotal: int, overtimeTotal: int, n: nat)
    requires MonthOf(m, used, grace, lateTotal, earlyTotal, overtimeTotal) && MonthFits(m, used, grace) && n <= |used|
    ensures Delays(m, grace, n) == Sum(m.late[..n])
    ensures Missing(m, grace, n) == Sum(m.early[..Cut(n, |m.early|)])
    ensures Overtime(m, grace, n) == Sum(m.overtime[..Cut(n - |m.early|, |m.overtime|)])
  {
    hide AggregatedDay, EncodedDay, DayFits, DayInputs, Sum;
    if n == 0 { SumOfNone(m.late, m.early, m.overtime); }
    if n > 0 {
      var i := n - 1;
      MonthAddsUp(m, used, grace, lateTotal, earlyTotal, overtimeTotal, i);
      assert DayInputs(m.late[i], grace, EarlyOn(m, i), OvertimeOn(m, i)) && DayFits(m.late[i], grace, EarlyOn(m, i), OvertimeOn(m, i));
      DayRoundTrip(used[i], m.late[i], grace, EarlyOn(m, i), OvertimeOn(m, i));
      SumOneMore(m.late, i);
      if i < |m.early| {
        SumOneMore(m.early, i);
      } else {
        SumOneMore(m.overtime, i - |m.early|);
      }
    }
  }

  /**
   Whether every day of a month will fit, from its totals alone: since parts fall, the first day and the first day of
   overtime decide.
   */
  predicate TotalsFit(days: nat, grace: nat, lateTotal: int, earlyTotal: int, overtimeTotal: int) {
    var early := EarlyDays(earlyTotal, days);
    days > 0 ==>
      && Fits(PartAt(lateTotal, days, LATE_CAP, 0), grace, if early > 0 then PartAt(earlyTotal, early, EARLY_CAP, 0) else 0, 0)
      && (early < days ==>
            Fits(PartAt(lateTotal, days, LATE_CAP, early), grace, 0, PartAt(overtimeTotal, days - early, OVERTIME_CAP, 0)))
  }

  predicate Fits(late: int, grace: nat, early: int, overtime: int) {
    late >= 0 && early >= 0 && overtime >= 0 && DayFits(late, grace, early, overtime)
  }

  lemma LessFits(late: int, grace: nat, early: int, overtime: int, late': int, early': int, overtime': int)
    requires Fits(late, grace, early, overtime)
    requires 0 <= late' <= late && 0 <= early' <= early && 0 <= overtime' <= overtime
    ensures Fits(late', grace, early', overtime')
  {
  }

  /** Every day of the generated month fits exactly when the totals do. */
  lemma MonthFitsExactlyWhenTotalsDo(m: Month, used: seq<int>, grace: nat, lateTotal: int, earlyTotal: int, overtimeTotal: int)
    requires MonthOf(m, used, grace, lateTotal, earlyTotal, overtimeTotal)
    ensures MonthFits(m, used, grace) <==> TotalsFit(|used|, grace, lateTotal, earlyTotal, overtimeTotal)
  {
    hide DayFits, PartAt, EncodedDay, Sum, EarlyDays;
    var days, early := |used|, |m.early|;
    if TotalsFit(days, grace, lateTotal, earlyTotal, overtimeTotal) {
      forall i | 0 <= i < days
        ensures Fits(m.late[i], grace, EarlyOn(m, i), OvertimeOn(m, i))
      {
        PartsFall(lateTotal, days, LATE_CAP, 0, i);
        if i < early {
          PartsFall(earlyTotal, early, EARLY_CAP, 0, i);
          LessFits(PartAt(lateTotal, days, LATE_CAP, 0), grace, PartAt(earlyTotal, early, EARLY_CAP, 0), 0, m.late[i], m.early[i], 0);
        } else {
          PartsFall(lateTotal, days, LATE_CAP, early, i);
          PartsFall(overtimeTotal, days - early, OVERTIME_CAP, 0, i - early);
          LessFits(PartAt(lateTotal, days, LATE_CAP, early), grace, 0, PartAt(overtimeTotal, days - early, OVERTIME_CAP, 0),
                   m.late[i], 0, m.overtime[i - early]);
        }
      }
    }
    if MonthFits(m, used, grace) && days > 0 {
      assert Fits(m.late[0], grace, EarlyOn(m, 0), OvertimeOn(m, 0));
      LessFits(m.late[0], grace, EarlyOn(m, 0), OvertimeOn(m, 0), m.late[0], EarlyOn(m, 0), 0);
      if early < days {
        assert Fits(m.late[early], grace, EarlyOn(m, early), OvertimeOn(m, early));
      }
    }
  }

  /** Totals within the caps whose days all fit come back from the aggregator exactly. */
  lemma MonthRoundTrip(m: Month, used: seq<int>, grace: nat, lateTotal: nat, earlyTotal: nat, overtimeTotal: nat)
    requires MonthOf(m, used, grace, lateTotal, earlyTotal, overtimeTotal)
    requires TotalsFit(|used|, grace, lateTotal, earlyTotal, overtimeTotal)
    requires lateTotal <= |used| * LATE_CAP && earlyTotal <= |used| * EARLY_CAP
    requires overtimeTotal <= (|used| - EarlyDays(earlyTotal, |used|)) * OVERTIME_CAP
    ensures Delays(m, grace, |used|) == lateTotal
    ensures Missing(m, grace, |used|) == earlyTotal
    ensures Overtime(m, grace, |used|) == overtimeTotal
  {
    hide Delays, Missing, Overtime, MonthFits, EncodedDay, Sum, TotalsFit, PartAt;
    MonthFitsExactlyWhenTotalsDo(m, used, grace, lateTotal, earlyTotal, overtimeTotal);
    MonthAddsUp(m, used, grace, lateTotal, earlyTotal, overtimeTotal, |used|);
    assert m.late[..|used|] == m.late && m.early[..|m.early|] == m.early && m.overtime[..|m.overtime|] == m.overtime;
    EnoughEarlyDays(earlyTotal, |used|);
  }

  lemma EnoughEarlyDays(earlyTotal: nat, days: nat)
    requires earlyTotal <= days * EARLY_CAP
    ensures earlyTotal <= EarlyDays(earlyTotal, days) * EARLY_CAP
  {
  }
}
