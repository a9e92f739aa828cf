/**
 Worked minutes from punches
 (backend-nest/src/attendance/attendance-aggregation.service.ts:83-89, 154-225).
 */
module PunchSweep {
  import opened Basics
  import opened Wrappers

  datatype PunchKind = In | Out | Other

  /** A punch: UTC milliseconds and what the biometric device added; 0 where it added nothing. */
  datatype Punch = Punch(kind: PunchKind, time: int, hoursWorked: real, minutesLate: nat)

  /** Scheduled start and end in minutes since midnight. */
  datatype Shift = Shift(start: int, end: int)

  const DAY_MINUTES: int := 1440

  ghost predicate ValidShift(s: Shift) { 0 <= s.start < DAY_MINUTES && 0 <= s.end < DAY_MINUTES }

  predicate IsNight(s: Shift) { s.end <= s.start }

  function EndOf(s: Shift): int { if IsNight(s) then s.end + DAY_MINUTES else s.end }

  /** JavaScript's `%`: the remainder has the sign of the dividend. */
  function Rem(a: int, m: int): int
    requires m > 0
  {
    if a >= 0 then a % m else -((-a) % m)
  }

  /** Minute of the UTC day. */
  function UtcMinutes(time: int): int { time / 60000 % DAY_MINUTES }

  function LocalMinutes(time: int, offset: int): int {
    Rem(Rem(UtcMinutes(time) + offset, DAY_MINUTES) + DAY_MINUTES, DAY_MINUTES)
  }

  /** Local minutes since the midnight that starts local day `day`. */
  function Minute(p: Punch, offset: int, day: int): int {
    p.time / 60000 + offset - day * DAY_MINUTES
  }

  lemma WrapIsModulo(a: int)
    ensures Rem(Rem(a, DAY_MINUTES) + DAY_MINUTES, DAY_MINUTES) == a % DAY_MINUTES
  {
    if a < 0 {
      var r := (-a) % DAY_MINUTES;
      var q := (-a) / DAY_MINUTES;
      assert -a == q * DAY_MINUTES + r;
      if r == 0 {
        UniqueRemainder(a, -q, 0);
      } else {
        UniqueRemainder(a, -q - 1, DAY_MINUTES - r);
      }
    } else {
      var r := a % DAY_MINUTES;
      UniqueRemainder(r + DAY_MINUTES, 1, r);
    }
  }

  lemma UniqueRemainder(a: int, q: int, r: int)
    requires a == q * DAY_MINUTES + r && 0 <= r < DAY_MINUTES
    ensures a % DAY_MINUTES == r
  {
  }

  /** Wall-clock minutes are the minutes since local midnight, modulo a day. */
  lemma LocalIsMinuteModuloDay(p: Punch, offset: int, day: int)
    ensures LocalMinutes(p.time, offset) == Minute(p, offset, day) % DAY_MINUTES
  {
    var t := p.time / 60000;
    WrapIsModulo(UtcMinutes(p.time) + offset);
    var a := t % DAY_MINUTES + offset;
    var q := a / DAY_MINUTES;
    assert t == t / DAY_MINUTES * DAY_MINUTES + t % DAY_MINUTES;
    assert Minute(p, offset, day) == (t / DAY_MINUTES - day + q) * DAY_MINUTES + a % DAY_MINUTES;
    UniqueRemainder(Minute(p, offset, day), t / DAY_MINUTES - day + q, a % DAY_MINUTES);
  }

  // ----------------------------------------------------------------- the sweep

  datatype Split = Split(scheduled: int, overtime: int)

  /** An OUT before the start of a night shift counts as the next morning. */
  function ShiftedOut(out: int, s: Shift): int {
    if IsNight(s) && out < s.start then out + DAY_MINUTES else out
  }

  function PairScheduled(inMin: int, outMin: int, s: Shift): int {
    Max(0, Min(ShiftedOut(outMin, s), EndOf(s)) - Max(inMin, s.start))
  }

  function PairOvertime(inMin: int, outMin: int, s: Shift): int {
    if ShiftedOut(outMin, s) > EndOf(s) then ShiftedOut(outMin, s) - Max(inMin, EndOf(s)) else 0
  }

  /** The last IN that no OUT has answered, among the first `n` punches. */
  function Pending(ps: seq<Punch>, n: nat): (r: Option<nat>)
    requires n <= |ps|
    ensures r.Some? ==> r.value < n && ps[r.value].kind == In
  {
    if n == 0 then None
    else if ps[n - 1].kind == In then Some(n - 1)
    else if ps[n - 1].kind == Out then None
    else Pending(ps, n - 1)
  }

  /** The two buckets after the first `n` punches. */
  function SweepTo(ps: seq<Punch>, s: Shift, offset: int, n: nat): Split
    requires n <= |ps|
  {
    if n == 0 then Split(0, 0)
    else
      var before := SweepTo(ps, s, offset, n - 1);
      if ps[n - 1].kind == Out && Pending(ps, n - 1).Some? then
        var inMin := LocalMinutes(ps[Pending(ps, n - 1).value].time, offset);
        var outMin := LocalMinutes(ps[n - 1].time, offset);
        Split(before.scheduled + PairScheduled(inMin, outMin, s), before.overtime + PairOvertime(inMin, outMin, s))
      else before
  }

  function Sweep(ps: seq<Punch>, s: Shift, offset: int): Split {
    SweepTo(ps, s, offset, |ps|)
  }

  /** `Math.round` of a non-negative number. */
  function Round(x: real): int { (x + 0.5).Floor }

  function LongestHours(ps: seq<Punch>, n: nat): real
    requires n <= |ps|
  {
    if n == 0 then 0.0
    else if ps[n - 1].hoursWorked > LongestHours(ps, n - 1) then ps[n - 1].hoursWorked
    else LongestHours(ps, n - 1)
  }

  /** The split, with the device's hours standing in when no scheduled minute was found. */
  function WorkedSplit(ps: seq<Punch>, s: Shift, offset: int): Split {
    if ps == [] then Split(0, 0)
    else
      var swept := Sweep(ps, s, offset);
      var hours := LongestHours(ps, |ps|);
      var scheduled :=
        if swept.scheduled <= 0 && hours > 0.0 then Min(Round(hours * 60.0), EndOf(s) - s.start) else swept.scheduled;
      Split(Max(0, scheduled), Max(0, swept.overtime))
  }

  lemma {:induction false} LongestIsGreatest(ps: seq<Punch>, n: nat)
    requires n <= |ps|
    ensures LongestHours(ps, n) >= 0.0 && forall i :: 0 <= i < n ==> ps[i].hoursWorked <= LongestHours(ps, n)
    ensures LongestHours(ps, n) > 0.0 ==> exists i :: 0 <= i < n && ps[i].hoursWorked == LongestHours(ps, n)
  {
    if n > 0 {
      LongestIsGreatest(ps, n - 1);
    }
  }

  /**
   The device's hours count only where the punches give nothing in the shift: then the longest of them, to the nearest
   minute, but no more than the shift; without any there is nothing.
   */
  lemma DeviceHoursStandIn(ps: seq<Punch>, s: Shift, offset: int, i: nat, minutes: nat)
    requires ValidShift(s) && i < |ps| && forall j :: 0 <= j < |ps| ==> ps[j].hoursWorked <= ps[i].hoursWorked
    requires minutes as real - 0.5 <= ps[i].hoursWorked * 60.0 < minutes as real + 0.5
    ensures Sweep(ps, s, offset).scheduled > 0 ==> WorkedSplit(ps, s, offset).scheduled == Sweep(ps, s, offset).scheduled
    ensures Sweep(ps, s, offset).scheduled <= 0 && ps[i].hoursWorked > 0.0 ==>
              WorkedSplit(ps, s, offset).scheduled == if minutes <= EndOf(s) - s.start then minutes else EndOf(s) - s.start
    ensures Sweep(ps, s, offset).scheduled <= 0 && ps[i].hoursWorked <= 0.0 ==> WorkedSplit(ps, s, offset).scheduled == 0
  {
    hide Sweep;
    LongestIsGreatest(ps, |ps|);
  }

  /** The query returns a day's punches by timestamp. */
  ghost predicate InTimeOrder(ps: seq<Punch>) {
    forall i, j :: 0 <= i < j < |ps| ==> ps[i].time <= ps[j].time
  }

  method CalculateWorkedMinutesSplit(ps: seq<Punch>, s: Shift, offset: int) returns (r: Split)
    ensures r == WorkedSplit(ps, s, offset)
  {
    if |ps| == 0 {
      return Split(0, 0);
    }
    var scheduledMs, overtimeMs := 0, 0;
    var pendingIn: Option<nat> := None;
    for i := 0 to |ps|
      invariant pendingIn == Pending(ps, i)
      invariant scheduledMs == SweepTo(ps, s, offset, i).scheduled * 60000
      invariant overtimeMs == SweepTo(ps, s, offset, i).overtime * 60000
    {
      if ps[i].kind == In {
        pendingIn := Some(i);
      } else if ps[i].kind == Out && pendingIn.Some? {
        var inMin := LocalMinutes(ps[pendingIn.value].time, offset);
        var outMin := LocalMinutes(ps[i].time, offset);
        if IsNight(s) && outMin < s.start {
          outMin := outMin + DAY_MINUTES;
        }
        var schedEnd := EndOf(s);
        var clampedIn := Max(inMin, s.start);
        var clampedOut := Min(outMin, schedEnd);
        if clampedOut > clampedIn {
          scheduledMs := scheduledMs + (clampedOut - clampedIn) * 60000;
        }
        if outMin > schedEnd {
          var overtimeStart := Max(inMin, schedEnd);
          overtimeMs := overtimeMs + (outMin - overtimeStart) * 60000;
        }
        pendingIn := None;
      } else if ps[i].kind == Out {
        pendingIn := None;
      }
    }
    var scheduled := scheduledMs / 60000;
    var overtime := overtimeMs / 60000;
    if scheduled <= 0 {
      var total := 0.0;
      for i := 0 to |ps|
        invariant total == LongestHours(ps, i)
      {
        if ps[i].hoursWorked > total {
          total := ps[i].hoursWorked;
        }
      }
      if total > 0.0 {
        scheduled := Min(Round(total * 60.0), EndOf(s) - s.start);
      }
    }
    r := Split(Max(0, scheduled), Max(0, overtime));
  }

  // ------------------------------------------------- what the minutes should be

  /** An IN and the first OUT after it, with no IN in between. */
  ghost predicate IsPair(ps: seq<Punch>, i: int, j: int) {
    0 <= i < j < |ps| && ps[i].kind == In && ps[j].kind == Out && forall k :: i < k < j ==> ps[k].kind == Other
  }

  ghost predicate Covered(ps: seq<Punch>, offset: int, day: int, n: nat, t: int) {
    exists i, j :: j < n && IsPair(ps, i, j) && Minute(ps[i], offset, day) <= t < Minute(ps[j], offset, day)
  }

  /** Minutes of a window in which somebody was there, by the first `n` punches. */
  ghost function CoveredIn(ps: seq<Punch>, offset: int, day: int, n: nat, lo: int, hi: int): set<int> {
    set t | lo <= t < hi && Covered(ps, offset, day, n, t)
  }

  ghost predicate Between(a: int, t: int, b: int) { a <= t < b }

  ghost function Interval(a: int, b: int): set<int> {
    set t | a <= t < b && Between(a, t, b)
  }

  lemma {:induction false} IntervalSize(a: int, b: int)
    ensures |Interval(a, b)| == Max(0, b - a)
    decreases Max(0, b - a)
  {
    if a < b {
      IntervalSize(a + 1, b);
      assert Interval(a, b) == {a} + Interval(a + 1, b);
    } else {
      assert Interval(a, b) == {};
    }
  }

  lemma {:induction false} PendingIsUnanswered(ps: seq<Punch>, n: nat, i: nat)
    requires n <= |ps|
    ensures Pending(ps, n) == Some(i) <==> i < n && ps[i].kind == In && forall k :: i < k < n ==> ps[k].kind == Other
  {
    if n > 0 && ps[n - 1].kind == Other {
      PendingIsUnanswered(ps, n - 1, i);
      assert i == n - 1 ==> ps[i].kind != In;
    } else if n > 0 && i < n - 1 {
      assert ps[n - 1].kind != Other;
    }
  }

  /** The pair that ends at punch `n`, if any, is the one the sweep closes there. */
  lemma PairEndsAt(ps: seq<Punch>, n: nat, i: int)
    requires n < |ps|
    ensures IsPair(ps, i, n) <==> ps[n].kind == Out && 0 <= i && Pending(ps, n) == Some(i)
  {
    if i >= 0 {
      PendingIsUnanswered(ps, n, i);
    }
  }

  lemma NewlyCovered(ps: seq<Punch>, offset: int, day: int, n: nat, i: nat, t: int)
    requires n < |ps| && ps[n].kind == Out && Pending(ps, n) == Some(i)
    ensures Covered(ps, offset, day, n + 1, t)
       <==> Covered(ps, offset, day, n, t) || Minute(ps[i], offset, day) <= t < Minute(ps[n], offset, day)
  {
    hide Minute, Pending;
    PairEndsAt(ps, n, i);
    if Covered(ps, offset, day, n + 1, t) && !Covered(ps, offset, day, n, t) {
      var p, q :| q < n + 1 && IsPair(ps, p, q) && Minute(ps[p], offset, day) <= t < Minute(ps[q], offset, day);
      PairEndsAt(ps, n, p);
    }
  }

  lemma NotCoveredTwice(ps: seq<Punch>, offset: int, day: int, n: nat, i: nat, t: int)
    requires InTimeOrder(ps) && n < |ps| && Pending(ps, n) == Some(i)
    ensures !(Covered(ps, offset, day, n, t) && Minute(ps[i], offset, day) <= t)
  {
    hide Pending;
    if Covered(ps, offset, day, n, t) {
      var p, q :| q < n && IsPair(ps, p, q) && Minute(ps[p], offset, day) <= t < Minute(ps[q], offset, day);
      PendingIsUnanswered(ps, n, i);
      assert q < i;
      MinutesInOrder(ps, offset, day, q, i);
    }
  }

  /** A pair closed now covers minutes that no earlier pair covers. */
  lemma PairAddsItsMinutes(ps: seq<Punch>, offset: int, day: int, n: nat, i: nat, lo: int, hi: int)
    requires InTimeOrder(ps) && n < |ps| && ps[n].kind == Out && Pending(ps, n) == Some(i)
    ensures |CoveredIn(ps, offset, day, n + 1, lo, hi)|
              == |CoveredIn(ps, offset, day, n, lo, hi)| + Max(0, Min(Minute(ps[n], offset, day), hi) - Max(Minute(ps[i], offset, day), lo))
  {
    hide Minute, Pending, InTimeOrder, Covered;
    var a, b := Max(Minute(ps[i], offset, day), lo), Min(Minute(ps[n], offset, day), hi);
    var before := CoveredIn(ps, offset, day, n, lo, hi);
    forall t
      ensures t in CoveredIn(ps, offset, day, n + 1, lo, hi) <==> t in before || t in Interval(a, b)
      ensures !(t in before && t in Interval(a, b))
    {
      NewlyCovered(ps, offset, day, n, i, t);
      NotCoveredTwice(ps, offset, day, n, i, t);
      assert Between(a, t, b) <==> a <= t < b;
    }
    assert CoveredIn(ps, offset, day, n + 1, lo, hi) == before + Interval(a, b);
    assert before !! Interval(a, b);
    IntervalSize(a, b);
  }

  lemma OtherPunchAddsNothing(ps: seq<Punch>, offset: int, day: int, n: nat, lo: int, hi: int)
    requires n < |ps| && !(ps[n].kind == Out && Pending(ps, n).Some?)
    ensures CoveredIn(ps, offset, day, n + 1, lo, hi) == CoveredIn(ps, offset, day, n, lo, hi)
  {
    forall t
      ensures t in CoveredIn(ps, offset, day, n + 1, lo, hi) ==> t in CoveredIn(ps, offset, day, n, lo, hi)
    {
      if t in CoveredIn(ps, offset, day, n + 1, lo, hi) {
        var p, q :| q < n + 1 && IsPair(ps, p, q) && Minute(ps[p], offset, day) <= t < Minute(ps[q], offset, day);
        if q == n {
          PairEndsAt(ps, n, p);
        }
      }
    }
  }

  /** The punches of one working day: a calendar day, or for a night shift up to its start the next evening. */
  ghost predicate OnShiftDay(ps: seq<Punch>, s: Shift, offset: int, day: int) {
    forall i :: 0 <= i < |ps| ==> 0 <= Minute(ps[i], offset, day) < (if IsNight(s) then s.start + DAY_MINUTES else DAY_MINUTES)
  }

  /** A night shift's pair is read correctly: it begins before midnight and does not end before the shift starts. */
  ghost predicate ReadRight(ps: seq<Punch>, s: Shift, offset: int, day: int, i: int, j: int)
    requires IsPair(ps, i, j)
  {
    IsNight(s) ==> Minute(ps[i], offset, day) < DAY_MINUTES && Minute(ps[j], offset, day) >= s.start
  }

  ghost predicate AllReadRight(ps: seq<Punch>, s: Shift, offset: int, day: int, n: nat) {
    forall i, j :: j < n && IsPair(ps, i, j) ==> ReadRight(ps, s, offset, day, i, j)
  }

  ghost function Present(ps: seq<Punch>, offset: int, day: int, n: nat, lo: int, hi: int): nat {
    |CoveredIn(ps, offset, day, n, lo, hi)|
  }

  lemma ModuloOfDay(m: int)
    requires 0 <= m < 2 * DAY_MINUTES
    ensures m % DAY_MINUTES == if m < DAY_MINUTES then m else m - DAY_MINUTES
  {
    UniqueRemainder(m, if m < DAY_MINUTES then 0 else 1, if m < DAY_MINUTES then m else m - DAY_MINUTES);
  }

  /** What the code makes of one pair, against the minutes it really covers. */
  lemma PairAgainstTruth(s: Shift, a: int, b: int)
    requires ValidShift(s) && 0 <= a <= b < (if IsNight(s) then s.start + DAY_MINUTES else DAY_MINUTES)
    ensures var read := PairScheduled(a % DAY_MINUTES, b % DAY_MINUTES, s);
            var truth := Max(0, Min(b, EndOf(s)) - Max(a, s.start));
            && read >= truth
            && (read == truth <==> (IsNight(s) ==> a < DAY_MINUTES && b >= s.start))
    ensures (IsNight(s) ==> a < DAY_MINUTES && b >= s.start) ==>
              PairOvertime(a % DAY_MINUTES, b % DAY_MINUTES, s) == Max(0, Min(b, 2 * DAY_MINUTES) - Max(a, EndOf(s)))
  {
    ModuloOfDay(a);
    ModuloOfDay(b);
  }

  /**
   Scheduled minutes are never under-counted, and they are the minutes of the
   scheduled window somebody was there exactly when every pair is read right.
   */
  lemma {:induction false} SweepAgainstTruth(ps: seq<Punch>, s: Shift, offset: int, day: int, n: nat)
    requires ValidShift(s) && InTimeOrder(ps) && OnShiftDay(ps, s, offset, day) && n <= |ps|
    ensures SweepTo(ps, s, offset, n).scheduled >= Present(ps, offset, day, n, s.start, EndOf(s))
    ensures SweepTo(ps, s, offset, n).scheduled == Present(ps, offset, day, n, s.start, EndOf(s)) <==> AllReadRight(ps, s, offset, day, n)
    ensures AllReadRight(ps, s, offset, day, n) ==>
              SweepTo(ps, s, offset, n).overtime == Present(ps, offset, day, n, EndOf(s), 2 * DAY_MINUTES)
  {
    hide CoveredIn, LocalMinutes, Minute, PairScheduled, PairOvertime, Pending, AllReadRight, InTimeOrder;
    if n == 0 {
      NobodyYet(ps, offset, day, s.start, EndOf(s));
      NobodyYet(ps, offset, day, EndOf(s), 2 * DAY_MINUTES);
      NothingReadYet(ps, s, offset, day);
    } else {
      var m := n - 1;
      SweepAgainstTruth(ps, s, offset, day, m);
      if ps[m].kind == Out && Pending(ps, m).Some? {
        var i := Pending(ps, m).value;
        PairEndsAt(ps, m, i);
        PairAddsItsMinutes(ps, offset, day, m, i, s.start, EndOf(s));
        PairAddsItsMinutes(ps, offset, day, m, i, EndOf(s), 2 * DAY_MINUTES);
        LocalIsMinuteModuloDay(ps[i], offset, day);
        LocalIsMinuteModuloDay(ps[m], offset, day);
        MinutesInOrder(ps, offset, day, i, m);
        PairAgainstTruth(s, Minute(ps[i], offset, day), Minute(ps[m], offset, day));
        RightSoFar(ps, s, offset, day, m, i);
      } else {
        OtherPunchAddsNothing(ps, offset, day, m, s.start, EndOf(s));
        OtherPunchAddsNothing(ps, offset, day, m, EndOf(s), 2 * DAY_MINUTES);
        NoPairEndsHere(ps, s, offset, day, m);
      }
    }
  }

  lemma NobodyYet(ps: seq<Punch>, offset: int, day: int, lo: int, hi: int)
    ensures Present(ps, offset, day, 0, lo, hi) == 0
  {
    assert CoveredIn(ps, offset, day, 0, lo, hi) == {};
  }

  lemma NothingReadYet(ps: seq<Punch>, s: Shift, offset: int, day: int)
    ensures AllReadRight(ps, s, offset, day, 0)
  {
  }

  lemma MinutesInOrder(ps: seq<Punch>, offset: int, day: int, i: nat, j: nat)
    requires InTimeOrder(ps) && i < j < |ps|
    ensures Minute(ps[i], offset, day) <= Minute(ps[j], offset, day)
  {
  }

  lemma RightSoFar(ps: seq<Punch>, s: Shift, offset: int, day: int, m: nat, i: nat)
    requires m < |ps| && IsPair(ps, i, m)
    ensures AllReadRight(ps, s, offset, day, m + 1) <==> AllReadRight(ps, s, offset, day, m) && ReadRight(ps, s, offset, day, i, m)
  {
    forall p | IsPair(ps, p, m)
      ensures p == i
    {
      PairEndsAt(ps, m, p);
      PairEndsAt(ps, m, i);
    }
  }

  lemma NoPairEndsHere(ps: seq<Punch>, s: Shift, offset: int, day: int, m: nat)
    requires m < |ps| && !(ps[m].kind == Out && Pending(ps, m).Some?)
    ensures AllReadRight(ps, s, offset, day, m + 1) <==> AllReadRight(ps, s, offset, day, m)
  {
    forall p
      ensures !IsPair(ps, p, m)
    {
      PairEndsAt(ps, m, p);
    }
  }

  /** Day shifts: the sweep counts exactly the minutes somebody was there, inside the window and after it. */
  lemma DayShiftIsExact(ps: seq<Punch>, s: Shift, offset: int, day: int)
    requires ValidShift(s) && !IsNight(s) && InTimeOrder(ps) && OnShiftDay(ps, s, offset, day)
    ensures Sweep(ps, s, offset).scheduled == Present(ps, offset, day, |ps|, s.start, s.end)
    ensures Sweep(ps, s, offset).overtime == Present(ps, offset, day, |ps|, s.end, DAY_MINUTES)
    ensures Sweep(ps, s, offset).scheduled <= s.end - s.start
  {
    SweepAgainstTruth(ps, s, offset, day, |ps|);
    assert CoveredIn(ps, offset, day, |ps|, s.end, 2 * DAY_MINUTES) == CoveredIn(ps, offset, day, |ps|, s.end, DAY_MINUTES);
    PresentAtMost(ps, offset, day, s.start, s.end);
  }

  lemma PresentAtMost(ps: seq<Punch>, offset: int, day: int, lo: int, hi: int)
    ensures Present(ps, offset, day, |ps|, lo, hi) <= Max(0, hi - lo)
  {
    IntervalSize(lo, hi);
    SubsetSize(CoveredIn(ps, offset, day, |ps|, lo, hi), Interval(lo, hi));
  }

  /** Night shifts: exact if and only if every pair begins before midnight and ends no earlier than the shift starts. */
  lemma NightShiftIsExactWhen(ps: seq<Punch>, s: Shift, offset: int, day: int)
    requires ValidShift(s) && IsNight(s) && InTimeOrder(ps) && OnShiftDay(ps, s, offset, day)
    ensures Sweep(ps, s, offset).scheduled == Present(ps, offset, day, |ps|, s.start, EndOf(s)) <==>
              forall i, j :: IsPair(ps, i, j) ==> Minute(ps[i], offset, day) < DAY_MINUTES && Minute(ps[j], offset, day) >= s.start
  {
    SweepAgainstTruth(ps, s, offset, day, |ps|);
    assert (forall i, j :: IsPair(ps, i, j) ==> Minute(ps[i], offset, day) < DAY_MINUTES && Minute(ps[j], offset, day) >= s.start)
      <==> forall i, j :: j < |ps| && IsPair(ps, i, j) ==> ReadRight(ps, s, offset, day, i, j);
  }

  /** A clerk who comes back from a break at 00:30 is paid the whole shift up to then. */
  lemma NightReturnIsOverPaid()
    ensures var ps := [Punch(In, 30 * 60000, 0.0, 0), Punch(Out, 360 * 60000, 0.0, 0)];
            var s := Shift(1320, 360);
            OnShiftDay(ps, s, 0, -1) && Sweep(ps, s, 0).scheduled == 480 && Present(ps, 0, -1, 2, 1320, 1800) == 330
  {
    var ps := [Punch(In, 30 * 60000, 0.0, 0), Punch(Out, 360 * 60000, 0.0, 0)];
    var s := Shift(1320, 360);
    assert Pending(ps, 0) == None && Pending(ps, 1) == Some(0);
    PairAddsItsMinutes(ps, 0, -1, 1, 0, 1320, 1800);
    OtherPunchAddsNothing(ps, 0, -1, 0, 1320, 1800);
    assert CoveredIn(ps, 0, -1, 0, 1320, 1800) == {};
    assert SweepTo(ps, s, 0, 1) == Split(0, 0);
    assert LocalMinutes(ps[0].time, 0) == 30 && LocalMinutes(ps[1].time, 0) == 360;
  }

  /** All the time between an IN and its OUT. */
  ghost function PairedTime(ps: seq<Punch>, offset: int, day: int, n: nat): int
    requires n <= |ps|
  {
    if n == 0 then 0
    else
      PairedTime(ps, offset, day, n - 1)
        + if ps[n - 1].kind == Out && Pending(ps, n - 1).Some?
          then Minute(ps[n - 1], offset, day) - Minute(ps[Pending(ps, n - 1).value], offset, day) else 0
  }

  lemma {:induction false} PairedTimeIsCovered(ps: seq<Punch>, offset: int, day: int, n: nat)
    requires InTimeOrder(ps) && n <= |ps|
    requires forall i :: 0 <= i < |ps| ==> 0 <= Minute(ps[i], offset, day) < DAY_MINUTES
    ensures PairedTime(ps, offset, day, n) == Present(ps, offset, day, n, 0, DAY_MINUTES)
  {
    hide CoveredIn, Pending, InTimeOrder;
    if n == 0 {
      NobodyYet(ps, offset, day, 0, DAY_MINUTES);
    } else {
      PairedTimeIsCovered(ps, offset, day, n - 1);
      if ps[n - 1].kind == Out && Pending(ps, n - 1).Some? {
        var i := Pending(ps, n - 1).value;
        PairAddsItsMinutes(ps, offset, day, n - 1, i, 0, DAY_MINUTES);
        MinutesInOrder(ps, offset, day, i, n - 1);
      } else {
        OtherPunchAddsNothing(ps, offset, day, n - 1, 0, DAY_MINUTES);
      }
    }
  }

  /** On a day shift, time before the shift, scheduled time and overtime make up all paired time. */
  lemma NoMinuteIsLost(ps: seq<Punch>, s: Shift, offset: int, day: int)
    requires ValidShift(s) && !IsNight(s) && InTimeOrder(ps) && OnShiftDay(ps, s, offset, day)
    ensures Present(ps, offset, day, |ps|, 0, s.start) + Sweep(ps, s, offset).scheduled + Sweep(ps, s, offset).overtime
              == PairedTime(ps, offset, day, |ps|)
  {
    hide CoveredIn, Sweep, PairedTime, InTimeOrder;
    DayShiftIsExact(ps, s, offset, day);
    PairedTimeIsCovered(ps, offset, day, |ps|);
    SplitWindow(ps, offset, day, |ps|, 0, s.start, DAY_MINUTES);
    SplitWindow(ps, offset, day, |ps|, s.start, s.end, DAY_MINUTES);
  }

  lemma SplitWindow(ps: seq<Punch>, offset: int, day: int, n: nat, lo: int, mid: int, hi: int)
    requires lo <= mid <= hi
    ensures Present(ps, offset, day, n, lo, hi) == Present(ps, offset, day, n, lo, mid) + Present(ps, offset, day, n, mid, hi)
  {
    hide Covered;
    var a, b := CoveredIn(ps, offset, day, n, lo, mid), CoveredIn(ps, offset, day, n, mid, hi);
    assert CoveredIn(ps, offset, day, n, lo, hi) == a + b && a !! b;
  }
}
