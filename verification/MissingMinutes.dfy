/**
 Lateness, grace, leave and missing time, by the two engines that compute them
 (backend-nest/src/attendance/attendance-aggregation.service.ts:275-346, 588-666 and
 backend-nest/src/attendance/attendance.service.ts:1937-1976, 2181-2224).
 */
module MissingMinutes {
  import opened Basics
  import opened Wrappers
  import opened PunchSweep

  /** An approved hourly leave; None where the time is malformed. */
  datatype Leave = Leave(start: Option<int>, end: Option<int>)

  function LeaveMinutes(leaves: seq<Leave>): nat {
    if leaves == [] then 0
    else
      LeaveMinutes(leaves[1..])
        + if leaves[0].start.Some? && leaves[0].end.Some? && leaves[0].end.value > leaves[0].start.value
          then leaves[0].end.value - leaves[0].start.value else 0
  }

  method CalculateApprovedLeaveMinutes(leaves: seq<Leave>) returns (total: nat)
    ensures total == LeaveMinutes(leaves)
  {
    total := 0;
    for i := 0 to |leaves|
      invariant total + LeaveMinutes(leaves[i..]) == LeaveMinutes(leaves)
    {
      assert leaves[i..][0] == leaves[i] && leaves[i..][1..] == leaves[i + 1..];
      if leaves[i].start.None? || leaves[i].end.None? {
        continue;
      }
      var duration := leaves[i].end.value - leaves[i].start.value;
      if duration > 0 {
        total := total + duration;
      }
    }
    assert leaves[|leaves|..] == [];
  }

  /** The latest end of a leave that begins at or before the shift, or the start of the shift. */
  function EffectiveStart(leaves: seq<Leave>, start: int): int {
    if leaves == [] then start
    else
      var before := EffectiveStart(leaves[..|leaves| - 1], start);
      var l := leaves[|leaves| - 1];
      if l.start.Some? && l.end.Some? && l.start.value <= start then Max(before, l.end.value) else before
  }

  function FirstIn(ps: seq<Punch>): (r: Option<nat>)
    ensures r.Some? ==> r.value < |ps| && ps[r.value].kind == In && forall j :: 0 <= j < r.value ==> ps[j].kind != In
    ensures r.None? ==> forall j :: 0 <= j < |ps| ==> ps[j].kind != In
  {
    if ps == [] then None
    else if ps[0].kind == In then Some(0)
    else
      var rest := FirstIn(ps[1..]);
      assert forall j :: 0 < j < |ps| ==> ps[j] == ps[1..][j - 1];
      if rest.None? then None else Some(rest.value + 1)
  }

  function Abs(x: int): int { if x < 0 then -x else x }

  /** The scheduled start, today's or tomorrow's, that is closest to the arrival; today's on a tie. */
  function NearestStart(arrival: int, start: int): int {
    if Abs(arrival - (start + DAY_MINUTES)) < Abs(arrival - start) then start + DAY_MINUTES else start
  }

  function LateArrival(ps: seq<Punch>, start: int, offset: int): nat {
    var first := FirstIn(ps);
    if first.None? then 0
    else if ps[first.value].minutesLate > 0 then ps[first.value].minutesLate
    else
      var arrival := LocalMinutes(ps[first.value].time, offset);
      Max(0, arrival - NearestStart(arrival, start))
  }

  function AfterGrace(late: int, grace: nat): int { if late > grace then late - grace else 0 }

  datatype DayResult = DayResult(
    required: int, worked: int, overtime: int, delay: int, forgiven: int, gross: int, leave: nat, missing: int)

  /** One employee's day, as the aggregation service computes it. */
  function AggregatedDay(ps: seq<Punch>, s: Shift, grace: nat, leaves: seq<Leave>, offset: int): DayResult {
    var required := Max(0, EndOf(s) - s.start);
    var split := WorkedSplit(ps, s, offset);
    var start := EffectiveStart(leaves, s.start);
    var late := LateArrival(ps, start, offset);
    var delay := Max(0, AfterGrace(late, grace) - Max(0, start - s.start));
    var forgiven := Min(late, grace);
    var gross := Max(0, required - split.scheduled);
    var leave := LeaveMinutes(leaves);
    DayResult(required, split.scheduled, split.overtime, delay, forgiven, gross, leave,
              Max(0, Max(0, gross - delay - forgiven) - leave))
  }

  method AggregateEmployeeDay(ps: seq<Punch>, s: Shift, grace: nat, leaves: seq<Leave>, offset: int) returns (r: Option<DayResult>)
    ensures r.None? <==> ps == []
    ensures r.Some? ==>
              var (d, split) := (r.value, WorkedSplit(ps, s, offset));
              && d.required == Max(0, EndOf(s) - s.start)
              && d.worked == split.scheduled && d.overtime == split.overtime && d.leave == LeaveMinutes(leaves)
              && d.gross == Max(0, d.required - d.worked)
              && d.missing == Max(0, d.gross - d.delay - d.forgiven - d.leave)
    ensures r == if ps == [] then None else Some(AggregatedDay(ps, s, grace, leaves, offset))
  {
    if |ps| == 0 {
      return None;
    }
    var required := Max(0, EndOf(s) - s.start);
    var split := CalculateWorkedMinutesSplit(ps, s, offset);
    var approved := CalculateApprovedLeaveMinutes(leaves);
    var start := s.start;
    for i := 0 to |leaves|
      invariant start == EffectiveStart(leaves[..i], s.start)
    {
      assert leaves[..i + 1][..i] == leaves[..i];
      if leaves[i].start.Some? && leaves[i].end.Some? && leaves[i].start.value <= s.start {
        start := Max(start, leaves[i].end.value);
      }
    }
    assert leaves[..|leaves|] == leaves;
    var rawDelay := AfterGrace(LateArrival(ps, start, offset), grace);
    var morningLeave := Max(0, start - s.start);
    var delay := Max(0, rawDelay - morningLeave);
    var forgiven := Min(LateArrival(ps, start, offset), grace);
    var gross := Max(0, required - split.scheduled);
    var netMissing := Max(0, gross - delay - forgiven);
    r := Some(DayResult(required, split.scheduled, split.overtime, delay, forgiven, gross, approved, Max(0, netMissing - approved)));
  }

  // --------------------------------------------------------------- each minute once

  ghost function LateOf(ps: seq<Punch>, s: Shift, leaves: seq<Leave>, offset: int): nat {
    LateArrival(ps, EffectiveStart(leaves, s.start), offset)
  }

  lemma {:induction false} EffectiveStartIsLater(leaves: seq<Leave>, start: int)
    ensures EffectiveStart(leaves, start) >= start
    decreases |leaves|
  {
    if leaves != [] {
      EffectiveStartIsLater(leaves[..|leaves| - 1], start);
    }
  }

  ghost predicate BeginsBy(l: Leave, start: int) {
    l.start.Some? && l.end.Some? && l.start.value <= start
  }

  /** The start of the day moves to the latest end of a leave that begins by the start of the shift, if that is later. */
  lemma {:induction false} EffectiveStartIsLatestEnd(leaves: seq<Leave>, start: int)
    ensures var e := EffectiveStart(leaves, start);
            && e >= start
            && (forall i :: 0 <= i < |leaves| && BeginsBy(leaves[i], start) ==> e >= leaves[i].end.value)
            && (e > start ==> exists i :: 0 <= i < |leaves| && BeginsBy(leaves[i], start) && leaves[i].end.value == e)
    decreases |leaves|
  {
    if leaves != [] {
      var front := leaves[..|leaves| - 1];
      EffectiveStartIsLatestEnd(front, start);
      assert forall i :: 0 <= i < |front| ==> front[i] == leaves[i];
    }
  }

  /**
   Delay and forgiven grace make up the lateness exactly when no leave moved the start
   or the lateness is within the grace: a morning leave is taken off the delay twice.
   */
  lemma DelayAndGraceAreLateness(ps: seq<Punch>, s: Shift, grace: nat, leaves: seq<Leave>, offset: int)
    ensures var d := AggregatedDay(ps, s, grace, leaves, offset);
            d.delay + d.forgiven == LateOf(ps, s, leaves, offset) <==>
              EffectiveStart(leaves, s.start) == s.start || LateOf(ps, s, leaves, offset) <= grace
  {
    EffectiveStartIsLater(leaves, s.start);
  }

  /** Two hours' leave, then an hour late: nothing is charged as delay. */
  lemma MorningLeaveHidesLateness()
    ensures var ps := [Punch(In, 660 * 60000, 0.0, 0), Punch(Out, 960 * 60000, 0.0, 0)];
            var leaves := [Leave(Some(480), Some(600))];
            LateOf(ps, Shift(480, 960), leaves, 0) == 60 && AggregatedDay(ps, Shift(480, 960), 0, leaves, 0).delay == 0
  {
    var ps := [Punch(In, 660 * 60000, 0.0, 0), Punch(Out, 960 * 60000, 0.0, 0)];
    var leaves := [Leave(Some(480), Some(600))];
    assert leaves[..0] == [];
    assert EffectiveStart(leaves, 480) == 600;
    assert LocalMinutes(ps[0].time, 0) == 660;
    assert FirstIn(ps) == Some(0);
  }

  /** Without leave every gross missing minute is charged once exactly when the lateness is part of it. */
  lemma EveryMinuteChargedOnce(ps: seq<Punch>, s: Shift, grace: nat, offset: int)
    ensures var d := AggregatedDay(ps, s, grace, [], offset);
            d.delay + d.forgiven + d.missing == d.gross <==> LateArrival(ps, s.start, offset) <= d.gross
  {
  }

  // --------------------------------------------------------------- approved leave

  /** Every leave with readable times begins after the start of the shift. */
  ghost predicate AllLater(leaves: seq<Leave>, start: int) {
    forall i :: 0 <= i < |leaves| && leaves[i].start.Some? && leaves[i].end.Some? ==> leaves[i].start.value > start
  }

  lemma {:induction false} LaterLeavesMoveNothing(leaves: seq<Leave>, start: int)
    requires AllLater(leaves, start)
    ensures EffectiveStart(leaves, start) == start
    decreases |leaves|
  {
    if leaves != [] {
      LaterLeavesMoveNothing(leaves[..|leaves| - 1], start);
    }
  }

  /** Leave later in the day is taken off what is missing, minute by minute as far as it goes, and changes nothing else. */
  lemma LaterLeaveIsTakenOff(ps: seq<Punch>, s: Shift, grace: nat, leaves: seq<Leave>, offset: int)
    requires AllLater(leaves, s.start)
    ensures var with, without := AggregatedDay(ps, s, grace, leaves, offset), AggregatedDay(ps, s, grace, [], offset);
            && with.missing == without.missing - Min(with.leave, without.missing)
            && with == without.(leave := with.leave, missing := with.missing)
  {
    LaterLeavesMoveNothing(leaves, s.start);
  }

  /** Whatever the leaves: what is charged as missing is exactly the gap that delay, grace and leave do not fill, and nothing once they do. */
  lemma MissingIsTheUnfilledGap(ps: seq<Punch>, s: Shift, grace: nat, leaves: seq<Leave>, offset: int)
    ensures var d := AggregatedDay(ps, s, grace, leaves, offset);
            && d.delay >= 0 && d.forgiven >= 0 && d.missing >= 0
            && (d.delay + d.forgiven + d.leave >= d.gross ==> d.missing == 0)
            && (d.delay + d.forgiven + d.leave <= d.gross ==> d.delay + d.forgiven + d.leave + d.missing == d.gross)
  {
  }

  ghost predicate OnLeaveAt(l: Leave, t: int) {
    l.start.Some? && l.end.Some? && l.start.value <= t < l.end.value
  }

  /** The minutes of the day that lie in some leave. */
  ghost function OnLeave(leaves: seq<Leave>): (minutes: set<int>)
    ensures forall t :: t in minutes <==> exists i :: 0 <= i < |leaves| && OnLeaveAt(leaves[i], t)
  {
    if leaves == [] then {}
    else
      var first, rest := LeaveInterval(leaves[0]), OnLeave(leaves[1..]);
      assert forall i :: 0 < i < |leaves| ==> leaves[i] == leaves[1..][i - 1];
      assert forall i :: 0 <= i < |leaves[1..]| ==> leaves[1..][i] == leaves[i + 1];
      first + rest
  }

  ghost function LeaveInterval(l: Leave): (minutes: set<int>)
    ensures forall t :: t in minutes <==> OnLeaveAt(l, t)
  {
    if l.start.Some? && l.end.Some? then
      assert forall t :: t in Interval(l.start.value, l.end.value) <==> OnLeaveAt(l, t) by {
        forall t
          ensures t in Interval(l.start.value, l.end.value) <==> OnLeaveAt(l, t)
        {
          IntervalHolds(l.start.value, t, l.end.value);
        }
      }
      Interval(l.start.value, l.end.value)
    else {}
  }

  /** No minute lies in two leaves. */
  ghost predicate NoMinuteTwice(leaves: seq<Leave>) {
    forall i, j, t :: 0 <= i < j < |leaves| && OnLeaveAt(leaves[i], t) ==> !OnLeaveAt(leaves[j], t)
  }

  lemma SizeOfUnion<T>(a: set<T>, b: set<T>)
    ensures |a + b| <= |a| + |b| && (|a + b| == |a| + |b| <==> a * b == {})
  {
    assert |a + b| == |a| + |b| - |a * b|;
  }

  /** Approved leave is the number of minutes in some leave exactly if no minute lies in two; otherwise it is more. */
  lemma {:induction false} LeaveIsMinutesOnLeave(leaves: seq<Leave>)
    ensures LeaveMinutes(leaves) >= |OnLeave(leaves)|
    ensures LeaveMinutes(leaves) == |OnLeave(leaves)| <==> NoMinuteTwice(leaves)
  {
    if leaves != [] {
      hide NoMinuteTwice;
      var l, tail := leaves[0], leaves[1..];
      LeaveIsMinutesOnLeave(tail);
      if l.start.Some? && l.end.Some? {
        IntervalSize(l.start.value, l.end.value);
      }
      SizeOfUnion(LeaveInterval(l), OnLeave(tail));
      TwiceInFrontOrBehind(leaves);
      assert OnLeave(leaves) == LeaveInterval(l) + OnLeave(tail);
    } else {
      assert OnLeave(leaves) == {};
    }
  }

  lemma TwiceInFrontOrBehind(leaves: seq<Leave>)
    requires leaves != []
    ensures NoMinuteTwice(leaves) <==> LeaveInterval(leaves[0]) * OnLeave(leaves[1..]) == {} && NoMinuteTwice(leaves[1..])
  {
    var l, tail := leaves[0], leaves[1..];
    assert forall i :: 0 <= i < |tail| ==> tail[i] == leaves[i + 1];
    assert forall i :: 0 < i < |leaves| ==> leaves[i] == tail[i - 1];
    if LeaveInterval(l) * OnLeave(tail) != {} {
      var t :| t in LeaveInterval(l) * OnLeave(tail);
      var i :| 0 <= i < |tail| && OnLeaveAt(tail[i], t);
      assert OnLeaveAt(leaves[0], t) && OnLeaveAt(leaves[i + 1], t);
    } else if NoMinuteTwice(tail) {
      assert forall t :: t in LeaveInterval(l) && t in OnLeave(tail) ==> t in LeaveInterval(l) * OnLeave(tail);
      forall i, j, t | 0 <= i < j < |leaves| && OnLeaveAt(leaves[i], t)
        ensures !OnLeaveAt(leaves[j], t)
      {
        assert leaves[j] == tail[j - 1];
        if i == 0 {
          assert t in LeaveInterval(l) && t !in OnLeave(tail);
        } else {
          assert leaves[i] == tail[i - 1];
        }
      }
    }
  }

  ghost predicate NoDeviceData(ps: seq<Punch>) {
    forall i :: 0 <= i < |ps| ==> ps[i].hoursWorked <= 0.0 && ps[i].minutesLate == 0
  }

  lemma SplitWithoutDevice(ps: seq<Punch>, s: Shift, offset: int)
    requires NoDeviceData(ps)
    ensures WorkedSplit(ps, s, offset) == Split(Max(0, Sweep(ps, s, offset).scheduled), Max(0, Sweep(ps, s, offset).overtime))
  {
    HoursStayZero(ps, |ps|);
  }

  lemma NoPairBeforeFirstIn(ps: seq<Punch>, offset: int, day: int, i: int, j: int)
    requires InTimeOrder(ps) && FirstIn(ps).Some? && IsPair(ps, i, j)
    ensures Minute(ps[FirstIn(ps).value], offset, day) <= Minute(ps[i], offset, day)
  {
    var f := FirstIn(ps).value;
    assert f <= i;
    if f < i {
      MinutesInOrder(ps, offset, day, f, i);
    }
  }

  /** Nobody is there before the first IN. */
  lemma NotThereBeforeFirstIn(ps: seq<Punch>, s: Shift, offset: int, day: int)
    requires InTimeOrder(ps) && FirstIn(ps).Some?
    ensures Present(ps, offset, day, |ps|, s.start, EndOf(s))
              <= Max(0, EndOf(s) - Max(s.start, Minute(ps[FirstIn(ps).value], offset, day)))
  {
    hide InTimeOrder, FirstIn, IsPair, Minute, EndOf, Interval;
    var lo := Max(s.start, Minute(ps[FirstIn(ps).value], offset, day));
    forall t | t in CoveredIn(ps, offset, day, |ps|, s.start, EndOf(s))
      ensures t in Interval(lo, EndOf(s))
    {
      CoveredAfterFirstIn(ps, offset, day, t);
      IntervalHolds(lo, t, EndOf(s));
    }
    IntervalSize(lo, EndOf(s));
    SubsetSize(CoveredIn(ps, offset, day, |ps|, s.start, EndOf(s)), Interval(lo, EndOf(s)));
  }

  lemma CoveredAfterFirstIn(ps: seq<Punch>, offset: int, day: int, t: int)
    requires InTimeOrder(ps) && FirstIn(ps).Some? && Covered(ps, offset, day, |ps|, t)
    ensures Minute(ps[FirstIn(ps).value], offset, day) <= t
  {
    hide InTimeOrder, FirstIn, Minute;
    var i, j :| j < |ps| && IsPair(ps, i, j) && Minute(ps[i], offset, day) <= t < Minute(ps[j], offset, day);
    NoPairBeforeFirstIn(ps, offset, day, i, j);
  }

  lemma IntervalHolds(a: int, t: int, b: int)
    ensures t in Interval(a, b) <==> a <= t < b
  {
    assert Between(a, t, b) <==> a <= t < b;
  }

  /** On a day shift with a first IN no later than its end, lateness is always part of the gross missing time. */
  lemma LatenessIsMissing(ps: seq<Punch>, s: Shift, grace: nat, offset: int, day: int)
    requires ValidShift(s) && !IsNight(s) && InTimeOrder(ps) && OnShiftDay(ps, s, offset, day) && NoDeviceData(ps)
    requires FirstIn(ps).Some? && Minute(ps[FirstIn(ps).value], offset, day) <= s.end
    ensures var d := AggregatedDay(ps, s, grace, [], offset);
            d.delay + d.forgiven + d.missing == d.gross
  {
    hide WorkedSplit, Sweep, CoveredIn, InTimeOrder, LocalMinutes, Minute;
    var f := FirstIn(ps).value;
    EveryMinuteChargedOnce(ps, s, grace, offset);
    SplitWithoutDevice(ps, s, offset);
    DayShiftIsExact(ps, s, offset, day);
    NotThereBeforeFirstIn(ps, s, offset, day);
    LocalIsMinuteModuloDay(ps[f], offset, day);
    ModuloOfDay(Minute(ps[f], offset, day));
    NearestIsToday(Minute(ps[f], offset, day), s.start);
  }

  /** On a day shift lateness is by how much the first IN comes after the start, unless that is more than half a day. */
  lemma LatenessIsFirstInAfterStart(ps: seq<Punch>, s: Shift, offset: int, day: int)
    requires ValidShift(s) && !IsNight(s) && OnShiftDay(ps, s, offset, day) && NoDeviceData(ps) && FirstIn(ps).Some?
    ensures var late := Minute(ps[FirstIn(ps).value], offset, day) - s.start;
            LateArrival(ps, s.start, offset) == if late <= 0 || late > 720 then 0 else late
  {
    hide LocalMinutes, Minute, FirstIn;
    var f := FirstIn(ps).value;
    LocalIsMinuteModuloDay(ps[f], offset, day);
    ModuloOfDay(Minute(ps[f], offset, day));
  }

  /** Minutes late that the device reports are taken as they are. */
  lemma DeviceLatenessWins(ps: seq<Punch>, start: int, offset: int)
    requires FirstIn(ps).Some? && ps[FirstIn(ps).value].minutesLate > 0
    ensures LateArrival(ps, start, offset) == ps[FirstIn(ps).value].minutesLate
  {
  }

  /**
   On a night shift it is so whenever every pair begins before midnight and ends no earlier than the shift starts: the
   very condition under which the sweep counts the night right. A first IN after midnight counts as no lateness.
   */
  lemma NightLatenessIsMissing(ps: seq<Punch>, s: Shift, grace: nat, offset: int, day: int)
    requires ValidShift(s) && IsNight(s) && InTimeOrder(ps) && OnShiftDay(ps, s, offset, day) && NoDeviceData(ps)
    requires FirstIn(ps).Some?
    requires forall i, j :: IsPair(ps, i, j) ==> Minute(ps[i], offset, day) < DAY_MINUTES && Minute(ps[j], offset, day) >= s.start
    ensures var d := AggregatedDay(ps, s, grace, [], offset);
            d.delay + d.forgiven + d.missing == d.gross
  {
    hide WorkedSplit, Sweep, CoveredIn, InTimeOrder, LocalMinutes, Minute, IsPair;
    var f := FirstIn(ps).value;
    EveryMinuteChargedOnce(ps, s, grace, offset);
    SplitWithoutDevice(ps, s, offset);
    NightShiftIsExactWhen(ps, s, offset, day);
    NotThereBeforeFirstIn(ps, s, offset, day);
    LocalIsMinuteModuloDay(ps[f], offset, day);
    ModuloOfDay(Minute(ps[f], offset, day));
    NearestIsToday(LocalMinutes(ps[f].time, offset), s.start);
  }

  lemma NearestIsToday(arrival: int, start: int)
    ensures Max(0, arrival - NearestStart(arrival, start)) <= Max(0, arrival - start)
  {
  }

  // -------------------------------------------------------------- second engine

  /** `computeMissingMinutesFromPunches`: what is missing once delay and grace are taken off. */
  function MissingFromPunches(ps: seq<Punch>, s: Shift, delay: int, forgiven: int, offset: int): int {
    var required := Max(0, EndOf(s) - s.start);
    if required <= 0 || ps == [] then 0
    else Max(0, Max(0, required - Sweep(ps, s, offset).scheduled) - delay - forgiven)
  }

  method ComputeMissingMinutesFromPunches(ps: seq<Punch>, s: Shift, delay: int, forgiven: int, offset: int) returns (r: int)
    ensures r == MissingFromPunches(ps, s, delay, forgiven, offset)
  {
    var required := Max(0, EndOf(s) - s.start);
    if required <= 0 || |ps| == 0 {
      return 0;
    }
    var workedMs := 0;
    var pendingIn: Option<nat> := None;
    for i := 0 to |ps|
      invariant pendingIn == Pending(ps, i)
      invariant workedMs == SweepTo(ps, s, offset, i).scheduled * 60000
    {
      if ps[i].kind == In {
        pendingIn := Some(i);
      } else if ps[i].kind == Out && pendingIn.Some? {
        var inMin := LocalMinutes(ps[pendingIn.value].time, offset);
        var outMin := LocalMinutes(ps[i].time, offset);
        if IsNight(s) && outMin < s.start {
          outMin := outMin + DAY_MINUTES;
        }
        var clampedIn := Max(inMin, s.start);
        var clampedOut := Min(outMin, EndOf(s));
        if clampedOut > clampedIn {
          workedMs := workedMs + (clampedOut - clampedIn) * 60000;
        }
        pendingIn := None;
      }
    }
    r := Max(0, Max(0, required - workedMs / 60000) - delay - forgiven);
  }

  /** The factory's clock in the deductions engine: UTC+3, whatever the service is configured with. */
  const DEDUCTIONS_OFFSET: int := 180

  function DeductionsLate(ps: seq<Punch>, s: Shift, morningLeave: int): int {
    var first := FirstIn(ps);
    if first.None? then 0
    else
      var rawLate :=
        if ps[first.value].minutesLate > 0 then ps[first.value].minutesLate
        else
          var local := LocalMinutes(ps[first.value].time, DEDUCTIONS_OFFSET);
          var instance := NearestStart(local, s.start);
          if instance - local < 0 then local - instance else 0;
      Max(0, rawLate - morningLeave)
  }

  /** Missing minutes of one day inside `calculateDeductions`, before any manual entry steps in. */
  function DeductionsDay(ps: seq<Punch>, s: Shift, grace: nat, morningLeave: int): int {
    var late := DeductionsLate(ps, s, morningLeave);
    MissingFromPunches(ps, s, AfterGrace(late, grace), Min(late, grace), DEDUCTIONS_OFFSET)
  }

  /** The second engine takes a morning leave off the lateness once. */
  lemma MorningLeaveIsTakenOffOnce(ps: seq<Punch>, s: Shift, morningLeave: nat)
    ensures DeductionsLate(ps, s, morningLeave) == Max(0, DeductionsLate(ps, s, 0) - morningLeave)
  {
    hide LocalMinutes, NearestStart;
  }

  /** Where there is no hourly leave and no device hours the two engines charge the same missing minutes. */
  lemma EnginesAgree(ps: seq<Punch>, s: Shift, grace: nat)
    requires ValidShift(s) && ps != [] && forall i :: 0 <= i < |ps| ==> ps[i].hoursWorked <= 0.0
    ensures DeductionsDay(ps, s, grace, 0) == AggregatedDay(ps, s, grace, [], DEDUCTIONS_OFFSET).missing
  {
    hide SweepTo, LocalMinutes;
    SweepIsNotNegative(ps, s, DEDUCTIONS_OFFSET, |ps|);
    SplitWithoutHours(ps, s, DEDUCTIONS_OFFSET);
  }

  lemma {:induction false} SweepIsNotNegative(ps: seq<Punch>, s: Shift, offset: int, n: nat)
    requires n <= |ps|
    ensures SweepTo(ps, s, offset, n).scheduled >= 0
  {
    if n > 0 {
      SweepIsNotNegative(ps, s, offset, n - 1);
    }
  }

  lemma {:induction false} SplitWithoutHours(ps: seq<Punch>, s: Shift, offset: int)
    requires forall i :: 0 <= i < |ps| ==> ps[i].hoursWorked <= 0.0
    requires ps != []
    ensures WorkedSplit(ps, s, offset).scheduled == Max(0, Sweep(ps, s, offset).scheduled)
  {
    HoursStayZero(ps, |ps|);
  }

  lemma {:induction false} HoursStayZero(ps: seq<Punch>, n: nat)
    requires n <= |ps| && forall i :: 0 <= i < |ps| ==> ps[i].hoursWorked <= 0.0
    ensures LongestHours(ps, n) == 0.0
  {
    if n > 0 {
      HoursStayZero(ps, n - 1);
    }
  }
}
