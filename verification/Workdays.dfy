/** Working-day arithmetic: every deadline on the platform is counted here.

    Days are proleptic ordinals (day 1 is a Monday) and are unbounded. The loops
    of the source are methods; what they compute is stated with plain finite sets
    of working days, so no contract below mentions a cursor or a counter. */
module Workdays {
  import opened Collections

  type Day = int

  const WEEKEND: set<int> := {5, 6}

  /** Monday is 0 and Sunday is 6. */
  function Weekday(day: Day): int {
    (day + 6) % 7
  }

  predicate IsWorkingDay(day: Day, nonworking: set<Day>) {
    Weekday(day) !in WEEKEND && day !in nonworking
  }

  /** The working days in the half-open interval `(lo, hi]`. */
  ghost function WorkingIn(lo: Day, hi: Day, nonworking: set<Day>): set<Day> {
    set d | lo < d <= hi && IsWorkingDay(d, nonworking)
  }

  /** The signed count of working days from `start` to `end`. */
  ghost function SignedCount(start: Day, end: Day, nonworking: set<Day>): int {
    if start <= end then |WorkingIn(start, end, nonworking)| else -|WorkingIn(end, start, nonworking)|
  }

  /** `r` is `n` working days after `start`: the n-th working day strictly after it,
      or strictly before it when `n` is negative, or `start` itself when `n` is 0. */
  ghost predicate IsOffset(start: Day, n: int, nonworking: set<Day>, r: Day) {
    if n == 0 then r == start
    else if n > 0 then
      start < r && IsWorkingDay(r, nonworking) && |WorkingIn(start, r, nonworking)| == n
    else
      r < start && IsWorkingDay(r, nonworking) && |WorkingIn(r - 1, start - 1, nonworking)| == -n
  }

  // ---- intervals of working days ------------------------------------------

  lemma WorkingInSplit(a: Day, b: Day, c: Day, nonworking: set<Day>)
    requires a <= b <= c
    ensures |WorkingIn(a, c, nonworking)| == |WorkingIn(a, b, nonworking)| + |WorkingIn(b, c, nonworking)|
  {
    assert WorkingIn(a, c, nonworking) == WorkingIn(a, b, nonworking) + WorkingIn(b, c, nonworking);
    assert WorkingIn(a, b, nonworking) !! WorkingIn(b, c, nonworking);
  }

  lemma WorkingInStep(d: Day, nonworking: set<Day>)
    ensures |WorkingIn(d - 1, d, nonworking)| == if IsWorkingDay(d, nonworking) then 1 else 0
  {
    assert WorkingIn(d - 1, d, nonworking) == if IsWorkingDay(d, nonworking) then {d} else {};
  }

  lemma MoreHolidaysFewerDays(lo: Day, hi: Day, few: set<Day>, many: set<Day>)
    requires few <= many
    ensures |WorkingIn(lo, hi, many)| <= |WorkingIn(lo, hi, few)|
  {
    SubsetSize(WorkingIn(lo, hi, many), WorkingIn(lo, hi, few));
  }

  // ---- a working day always lies ahead, and behind --------------------------

  ghost function UpperBound(s: set<Day>): (m: Day)
    ensures forall d :: d in s ==> d <= m
  {
    if s == {} then 0 else
      var x := Pick(s);
      var rest := UpperBound(s - {x});
      assert forall d :: d in s ==> d == x || d in s - {x};
      if x < rest then rest else x
  }

  ghost function LowerBound(s: set<Day>): (m: Day)
    ensures forall d :: d in s ==> m <= d
  {
    if s == {} then 0 else
      var x := Pick(s);
      var rest := LowerBound(s - {x});
      assert forall d :: d in s ==> d == x || d in s - {x};
      if x < rest then x else rest
  }

  lemma SomeWeekday(base: Day) returns (w: Day)
    ensures base <= w <= base + 2 && Weekday(w) !in WEEKEND
  {
    w := if Weekday(base) == 5 then base + 2 else if Weekday(base) == 6 then base + 1 else base;
  }

  /** Past the last holiday every weekday is a working day. */
  lemma WorkingDayAhead(day: Day, nonworking: set<Day>) returns (w: Day)
    ensures day <= w && IsWorkingDay(w, nonworking)
  {
    var top := UpperBound(nonworking);
    w := SomeWeekday((if top < day then day else top) + 1);
  }

  lemma WorkingDayBehind(day: Day, nonworking: set<Day>) returns (w: Day)
    ensures w <= day && IsWorkingDay(w, nonworking)
  {
    var bottom := LowerBound(nonworking);
    w := SomeWeekday((if day < bottom then day else bottom) - 3);
  }

  // ---- the loops -------------------------------------------------------------

  method NextWorkingDay(day: Day, nonworking: set<Day>) returns (r: Day)
    ensures day <= r && IsWorkingDay(r, nonworking)
    ensures forall d :: day <= d < r ==> !IsWorkingDay(d, nonworking)
  {
    ghost var w := WorkingDayAhead(day, nonworking);
    r := day;
    while !IsWorkingDay(r, nonworking)
      invariant day <= r <= w
      invariant forall d :: day <= d < r ==> !IsWorkingDay(d, nonworking)
      decreases w - r
    {
      r := r + 1;
    }
  }

  method PreviousWorkingDay(day: Day, nonworking: set<Day>) returns (r: Day)
    ensures r <= day && IsWorkingDay(r, nonworking)
    ensures forall d :: r < d <= day ==> !IsWorkingDay(d, nonworking)
  {
    ghost var w := WorkingDayBehind(day, nonworking);
    r := day;
    while !IsWorkingDay(r, nonworking)
      invariant w <= r <= day
      invariant forall d :: r < d <= day ==> !IsWorkingDay(d, nonworking)
      decreases r - w
    {
      r := r - 1;
    }
  }

  method AddWorkingDays(start: Day, n: int, nonworking: set<Day>) returns (r: Day)
    ensures IsOffset(start, n, nonworking, r)
  {
    if n == 0 {
      return start;
    }
    var step := if n > 0 then 1 else -1;
    var remaining := n * step;
    r := start;
    ghost var w := AheadOf(r, step, nonworking);  // a working day the cursor has yet to meet
    while remaining > 0
      invariant 0 <= remaining <= n * step
      invariant n > 0 ==> start <= r && |WorkingIn(start, r, nonworking)| == n - remaining
      invariant n < 0 ==> r <= start && |WorkingIn(r - 1, start - 1, nonworking)| == -n - remaining
      invariant remaining == 0 ==> r != start && IsWorkingDay(r, nonworking)
      invariant IsWorkingDay(w, nonworking) && if n > 0 then r < w else w < r
      decreases remaining, if n > 0 then w - r else r - w
    {
      if n > 0 {
        WorkingInSplit(start, r, r + 1, nonworking);
        WorkingInStep(r + 1, nonworking);
      } else {
        WorkingInSplit(r - 2, r - 1, start - 1, nonworking);
        WorkingInStep(r - 1, nonworking);
      }
      r := r + step;
      if IsWorkingDay(r, nonworking) {
        remaining := remaining - 1;
        w := AheadOf(r, step, nonworking);
      }
    }
  }

  lemma AheadOf(day: Day, step: int, nonworking: set<Day>) returns (w: Day)
    requires step == 1 || step == -1
    ensures IsWorkingDay(w, nonworking) && if step == 1 then day < w else w < day
  {
    if step == 1 {
      w := WorkingDayAhead(day + 1, nonworking);
    } else {
      w := WorkingDayBehind(day - 1, nonworking);
    }
  }

  method WorkingDaysBetween(start: Day, end: Day, nonworking: set<Day>) returns (r: int)
    ensures r == SignedCount(start, end, nonworking)
  {
    if end == start {
      return 0;
    }
    var lo, hi := if end > start then start else end, if end > start then end else start;
    var count := 0;
    var cursor := lo + 1;
    while cursor <= hi
      invariant lo < cursor <= hi + 1
      invariant count == |WorkingIn(lo, cursor - 1, nonworking)|
    {
      WorkingInSplit(lo, cursor - 1, cursor, nonworking);
      WorkingInStep(cursor, nonworking);
      if IsWorkingDay(cursor, nonworking) {
        count := count + 1;
      }
      cursor := cursor + 1;
    }
    return if end > start then count else -count;
  }

  // ---- laws --------------------------------------------------------------------

  /** The offset is unique, so `AddWorkingDays` is pinned down completely. */
  lemma OffsetUnique(start: Day, n: int, nonworking: set<Day>, r: Day, r': Day)
    requires IsOffset(start, n, nonworking, r) && IsOffset(start, n, nonworking, r')
    ensures r == r'
  {
    if r < r' {
      OffsetStrict(start, n, nonworking, r, r');
    } else if r' < r {
      OffsetStrict(start, n, nonworking, r', r);
    }
  }

  lemma OffsetStrict(start: Day, n: int, nonworking: set<Day>, r: Day, r': Day)
    requires IsOffset(start, n, nonworking, r) && r < r' && IsWorkingDay(r', nonworking)
    ensures !IsOffset(start, n, nonworking, r')
  {
    if n > 0 {
      WorkingInSplit(start, r, r' - 1, nonworking);
      WorkingInSplit(start, r' - 1, r', nonworking);
      WorkingInStep(r', nonworking);
    } else if n < 0 && r' < start {
      WorkingInSplit(r - 1, r, r' - 1, nonworking);
      WorkingInSplit(r - 1, r' - 1, start - 1, nonworking);
      WorkingInStep(r, nonworking);
    }
  }

  /** The documented pairing `working_days_between(x, add_working_days(x, n)) == n`
      holds going forward from any day, and going back exactly from a working day. */
  lemma RoundTrip(start: Day, n: int, nonworking: set<Day>, r: Day)
    requires IsOffset(start, n, nonworking, r)
    ensures SignedCount(start, r, nonworking) == n <==> n >= 0 || IsWorkingDay(start, nonworking)
    ensures n < 0 && !IsWorkingDay(start, nonworking) ==> SignedCount(start, r, nonworking) == n + 1
  {
    if n < 0 {
      WorkingInSplit(r - 1, r, start, nonworking);
      WorkingInSplit(r - 1, start - 1, start, nonworking);
      WorkingInStep(r, nonworking);
      WorkingInStep(start, nonworking);
    } else if n == 0 {
      assert WorkingIn(start, start, nonworking) == {};
    }
  }

  /** The pairing as documented is false: one working day back from a Saturday is
      the Friday, and no working day lies in `(Friday, Saturday]`. */
  lemma RoundTripFailsFromSaturday()
    ensures IsOffset(6, -1, {}, 5)
    ensures SignedCount(6, 5, {}) == 0
  {
    WorkingInStep(5, {});
    WorkingInStep(6, {});
  }

  /** Additions in one direction compose: so many days and then so many more. */
  lemma OffsetsCompose(start: Day, m: int, n: int, nonworking: set<Day>, mid: Day, r: Day)
    requires (m >= 0 && n >= 0) || (m <= 0 && n <= 0)
    requires IsOffset(start, m, nonworking, mid) && IsOffset(mid, n, nonworking, r)
    ensures IsOffset(start, m + n, nonworking, r)
  {
    if m > 0 && n > 0 {
      WorkingInSplit(start, mid, r, nonworking);
    } else if m < 0 && n < 0 {
      WorkingInSplit(r - 1, mid - 1, start - 1, nonworking);
    }
  }

  /** Going `n` days out and `n` days back returns to the start exactly when the
      start is a working day; from any other day it lands on another day. */
  lemma OutAndBack(start: Day, n: int, nonworking: set<Day>, mid: Day, r: Day)
    requires n != 0
    requires IsOffset(start, n, nonworking, mid) && IsOffset(mid, -n, nonworking, r)
    ensures r == start <==> IsWorkingDay(start, nonworking)
  {
    if IsWorkingDay(start, nonworking) {
      if n > 0 {
        WorkingInSplit(start - 1, start, mid - 1, nonworking);
        WorkingInSplit(start, mid - 1, mid, nonworking);
      } else {
        WorkingInSplit(mid - 1, mid, start - 1, nonworking);
        WorkingInSplit(mid, start - 1, start, nonworking);
      }
      WorkingInStep(start, nonworking);
      WorkingInStep(mid, nonworking);
      assert IsOffset(mid, -n, nonworking, start);
      OffsetUnique(mid, -n, nonworking, r, start);
    }
  }

  /** Signed counts telescope over any three days in any order. */
  lemma CountsTelescope(a: Day, b: Day, c: Day, nonworking: set<Day>)
    ensures SignedCount(a, b, nonworking) + SignedCount(b, c, nonworking) == SignedCount(a, c, nonworking)
  {
    if a <= b <= c { WorkingInSplit(a, b, c, nonworking); }
    else if a <= c <= b { WorkingInSplit(a, c, b, nonworking); }
    else if b <= a <= c { WorkingInSplit(b, a, c, nonworking); }
    else if b <= c <= a { WorkingInSplit(b, c, a, nonworking); }
    else if c <= a <= b { WorkingInSplit(c, a, b, nonworking); }
    else { WorkingInSplit(c, b, a, nonworking); }
    assert WorkingIn(a, a, nonworking) == {} && WorkingIn(b, b, nonworking) == {} && WorkingIn(c, c, nonworking) == {};
  }

  /** Declaring more holidays never brings a forward deadline closer, and never
      makes a backward one later. */
  lemma HolidaysDelay(start: Day, n: int, few: set<Day>, many: set<Day>, r: Day, r': Day)
    requires few <= many
    requires IsOffset(start, n, few, r) && IsOffset(start, n, many, r')
    ensures n >= 0 ==> r <= r'
    ensures n <= 0 ==> r' <= r
  {
    if n > 0 && r' < r {
      MoreHolidaysFewerDays(start, r', few, many);
      WorkingInSplit(start, r', r - 1, few);
      WorkingInSplit(start, r - 1, r, few);
      WorkingInStep(r, few);
    } else if n < 0 && r < r' {
      MoreHolidaysFewerDays(r' - 1, start - 1, few, many);
      WorkingInSplit(r - 1, r, r' - 1, few);
      WorkingInSplit(r - 1, r' - 1, start - 1, few);
      WorkingInStep(r, few);
    }
  }

  // ---- the week ---------------------------------------------------------------

  /** Day 1 is the first of five working days, two days off follow, and so on for ever. */
  lemma WeekIsSpelledOut(d: Day)
    ensures IsWorkingDay(d, {}) <==> 1 <= d % 7 <= 5
    ensures IsWorkingDay(d + 7, {}) <==> IsWorkingDay(d, {})
  {
  }

  /** The holidays in `(lo, hi]` that fall on a day that would be worked. */
  ghost function HolidaysIn(lo: Day, hi: Day, nonworking: set<Day>): set<Day> {
    set d | d in nonworking && lo < d <= hi && 1 <= d % 7 <= 5
  }

  /** What holidays take from an interval is what they would otherwise add to it. */
  lemma HolidaysAreTakenAway(lo: Day, hi: Day, nonworking: set<Day>)
    ensures |WorkingIn(lo, hi, nonworking)| == |WorkingIn(lo, hi, {})| - |HolidaysIn(lo, hi, nonworking)|
  {
    forall d ensures IsWorkingDay(d, {}) <==> 1 <= d % 7 <= 5 {
      WeekIsSpelledOut(d);
    }
    assert WorkingIn(lo, hi, {}) == WorkingIn(lo, hi, nonworking) + HolidaysIn(lo, hi, nonworking);
    assert WorkingIn(lo, hi, nonworking) !! HolidaysIn(lo, hi, nonworking);
  }

  /** Moving seven days on by one gives up a day and takes one of the same kind. */
  lemma SevenDaysMove(lo: Day)
    ensures |WorkingIn(lo + 1, lo + 8, {})| == |WorkingIn(lo, lo + 7, {})|
  {
    WorkingInSplit(lo, lo + 1, lo + 8, {});
    WorkingInSplit(lo, lo + 7, lo + 8, {});
    WorkingInStep(lo + 1, {});
    WorkingInStep(lo + 8, {});
    WeekIsSpelledOut(lo + 1);
  }

  lemma {:induction false} SevenDaysHoldFive(lo: Day)
    ensures |WorkingIn(lo, lo + 7, {})| == 5
    decreases if lo < 0 then -lo else lo
  {
    if lo == 0 {
      assert WorkingIn(0, 7, {}) == {1, 2, 3, 4, 5};
    } else if lo > 0 {
      SevenDaysHoldFive(lo - 1);
      SevenDaysMove(lo - 1);
    } else {
      SevenDaysHoldFive(lo + 1);
      SevenDaysMove(lo);
    }
  }

  /** Any `weeks` weeks, wherever they begin, hold five working days each, less the holidays that
      fall on a working day. */
  lemma {:induction false} WeeksHoldFiveEach(lo: Day, weeks: nat, nonworking: set<Day>)
    ensures |WorkingIn(lo, lo + 7 * weeks, nonworking)|
         == 5 * weeks - |HolidaysIn(lo, lo + 7 * weeks, nonworking)|
    decreases weeks
  {
    HolidaysAreTakenAway(lo, lo + 7 * weeks, nonworking);
    if weeks == 0 {
      assert WorkingIn(lo, lo, {}) == {};
    } else {
      WeeksHoldFiveEach(lo, weeks - 1, {});
      assert HolidaysIn(lo, lo + 7 * (weeks - 1), {}) == {};
      SevenDaysHoldFive(lo + 7 * (weeks - 1));
      WorkingInSplit(lo, lo + 7 * (weeks - 1), lo + 7 * weeks, {});
    }
  }
}
