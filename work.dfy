/**
 * The activities of a time-tracking export and what `Work` computes from
 * them: the seconds worked per day and per week (weeks keyed by their
 * Monday), the days of a date range with little or no work, the weekend days
 * with much work, and the time per tag in a year. Durations are whole
 * seconds, held as exact reals in the dictionaries.
 */
module Timekeeping {
  import opened Wrappers
  import opened Calendar
  import opened Buckets
  import opened Tallies
  import opened Selection
  import opened Activities
  import opened Tags
  import opened ActivitySums
  import opened TagLoops

  /** `hour_threshold`'s default, `timedelta(hours = 4)`, in seconds. */
  const DefaultThreshold: real := 14400.0

  /** `week_start` lands on the Monday of the day's week, so it gives that Monday back, with the same ISO week number. */
  lemma WeekStartIsoIdempotent(d: Date)
    ensures WeekStartIso(WeekStartIso(d)) == WeekStartIso(d)
    ensures IsoWeekNumber(WeekStartIso(d)) == IsoWeekNumber(d)
  {
    var m := WeekStartIso(d);
    WeekStartsAgree(d);
    WeekStartsAgree(m);
    IsoWeekdayIsWeekdayPlusOne(m);
    WeekStartUnique(m, m);
    WeekStartSameIsoWeek(d);
  }

  // ---------------------------------------------------------------------------
  // Sums per day and per week

  /** `hours_per_day()` on a list of activities. */
  function DaySum(acts: seq<Activity>): map<Date, real> {
    Tally(acts, DayOf, Seconds, |acts|)
  }

  /** `hours_per_week()` on a list of activities. */
  function WeekSum(acts: seq<Activity>): map<Date, real> {
    Tally(acts, WeekBy(WeekStartIso), Seconds, |acts|)
  }

  /** An activity's seconds when it lies on `d`. */
  function SecondsOn(d: Date): Activity -> real {
    (a: Activity) => if a.day == d then a.duration as real else 0.0
  }

  /** An activity's seconds when it lies in the week starting on `m`. */
  function SecondsInWeek(m: Date): Activity -> real {
    (a: Activity) => if WeekStartIso(a.day) == m then a.duration as real else 0.0
  }

  /** The days with an entry are the days with activities, and each entry is the seconds of that day's activities. */
  lemma DaySumFacts(acts: seq<Activity>, d: Date)
    ensures d in DaySum(acts) <==> exists a :: a in acts && a.day == d
    ensures Get(DaySum(acts), d) == RealSum(acts, SecondsOn(d))
  {
    TallyDomain(acts, DayOf, Seconds, |acts|, d);
    TallyValue(acts, DayOf, Seconds, |acts|, d);
    assert acts[..|acts|] == acts;
    if exists a :: a in acts && a.day == d {
      var a :| a in acts && a.day == d;
      var i :| 0 <= i < |acts| && acts[i] == a;
      assert DayOf(acts[i]) == Some(d);
    }
    forall a | a in acts
      ensures Share(DayOf, Seconds, d)(a) == SecondsOn(d)(a)
    {
      assert Share(DayOf, Seconds, d)(a) == if DayOf(a) == Some(d) then Seconds(a) else 0.0;
    }
    RealSumCongruent(acts, Share(DayOf, Seconds, d), SecondsOn(d));
  }

  /**
   * The keys are the Mondays of the weeks with activities, and each entry is
   * the seconds of that week's activities.
   */
  lemma WeekSumFacts(acts: seq<Activity>, m: Date)
    ensures m in WeekSum(acts) <==> exists a :: a in acts && WeekStartIso(a.day) == m
    ensures m in WeekSum(acts) ==> IsoWeekday(m) == 1
    ensures Get(WeekSum(acts), m) == RealSum(acts, SecondsInWeek(m))
  {
    TallyDomain(acts, WeekBy(WeekStartIso), Seconds, |acts|, m);
    TallyValue(acts, WeekBy(WeekStartIso), Seconds, |acts|, m);
    assert acts[..|acts|] == acts;
    if exists a :: a in acts && WeekStartIso(a.day) == m {
      var a :| a in acts && WeekStartIso(a.day) == m;
      var i :| 0 <= i < |acts| && acts[i] == a;
      assert WeekBy(WeekStartIso)(acts[i]) == Some(m);
    }
    forall a | a in acts
      ensures Share(WeekBy(WeekStartIso), Seconds, m)(a) == SecondsInWeek(m)(a)
    {
      assert Share(WeekBy(WeekStartIso), Seconds, m)(a) == if WeekBy(WeekStartIso)(a) == Some(m) then Seconds(a) else 0.0;
    }
    RealSumCongruent(acts, Share(WeekBy(WeekStartIso), Seconds, m), SecondsInWeek(m));
  }

  /** Nothing is lost or counted twice: the day entries add up to all seconds worked. */
  lemma DaySumTotal(acts: seq<Activity>)
    ensures RealSum(TallyOrder(acts, DayOf, |acts|), ValueIn(DaySum(acts))) == RealSum(acts, Seconds)
  {
    TallyTotal(acts, DayOf, Seconds, |acts|);
    assert acts[..|acts|] == acts;
    RealSumCongruent(acts, Counted(DayOf, Seconds), Seconds);
  }

  /** Nothing is lost or counted twice: the week entries add up to all seconds worked. */
  lemma WeekSumTotal(acts: seq<Activity>)
    ensures RealSum(TallyOrder(acts, WeekBy(WeekStartIso), |acts|), ValueIn(WeekSum(acts))) == RealSum(acts, Seconds)
  {
    TallyTotal(acts, WeekBy(WeekStartIso), Seconds, |acts|);
    assert acts[..|acts|] == acts;
    RealSumCongruent(acts, Counted(WeekBy(WeekStartIso), Seconds), Seconds);
  }

  /** The seven days of the week starting on `m`. */
  function SevenDays(m: Date): (days: seq<Date>)
    ensures |days| == 7
    ensures forall i :: 0 <= i < 7 ==> DayNumber(days[i]) == DayNumber(m) + i
  {
    seq(7, i requires 0 <= i < 7 => PlusDays(m, i))
  }

  /** A day lies in the week starting on Monday `m` exactly when its week start is `m`. */
  lemma InSevenDays(m: Date, d: Date)
    requires IsoWeekday(m) == 1
    ensures d in SevenDays(m) <==> WeekStartIso(d) == m
  {
    IsoWeekdayIsWeekdayPlusOne(m);
    WeekStartsAgree(d);
    var days := SevenDays(m);
    if d in days {
      var i :| 0 <= i < 7 && days[i] == d;
      WeekStartOfWeekDay(m, i);
    }
    if WeekStartIso(d) == m {
      var i := DayNumber(d) - DayNumber(m);
      DayNumberInjective(days[i], d);
    }
  }

  /** The seven days are distinct. */
  lemma SevenDaysDistinct(m: Date)
    ensures NoRepeats(SevenDays(m))
  {
  }

  /** Each week's entry is the sum of the day entries of its seven days. */
  lemma WeekIsSumOfDays(acts: seq<Activity>, m: Date)
    requires IsoWeekday(m) == 1
    ensures Get(WeekSum(acts), m) == RealSum(SevenDays(m), ValueIn(DaySum(acts)))
  {
    SevenDaysDistinct(m);
    forall i | 0 <= i < |acts|
      ensures WeekBy(WeekStartIso)(acts[i]) == Some(m) <==> DayOf(acts[i]).Some? && DayOf(acts[i]).value in SevenDays(m)
    {
      InSevenDays(m, acts[i].day);
    }
    TallyCoarsen(acts, DayOf, WeekBy(WeekStartIso), Seconds, |acts|, m, SevenDays(m));
  }

  // ---------------------------------------------------------------------------
  // Days in a range

  /** The number of days from `start` to `end` inclusive; none when `end` comes first. */
  function Span(start: Date, end: Date): nat {
    if DayNumber(end) < DayNumber(start) then 0 else DayNumber(end) - DayNumber(start) + 1
  }

  /**
   * When the walk stops at `day`, the days before `day` from `start` on are
   * the days from `start` to `end`.
   */
  lemma InRange(start: Date, end: Date, day: Date)
    requires DayNumber(start) <= DayNumber(day) <= DayNumber(start) + Span(start, end)
    requires DayNumber(end) < DayNumber(day)
    ensures forall d: Date :: DayNumber(start) <= DayNumber(d) < DayNumber(day) <==> !Before(d, start) && !Before(end, d)
  {
    forall d: Date
      ensures DayNumber(start) <= DayNumber(d) < DayNumber(day) <==> !Before(d, start) && !Before(end, d)
    {
      BeforeIsOrdinalOrder(d, start);
      BeforeIsOrdinalOrder(end, d);
    }
  }

  /**
   * One day further: the list of the days before `day` that pass `p`, with
   * `day` appended when it passes, is the list of the days before the next
   * day that pass, still in increasing order.
   */
  lemma NextDay(start: Date, day: Date, next: Date, before: seq<Date>, after: seq<Date>, p: Date -> bool)
    requires DayNumber(start) <= DayNumber(day) && DayNumber(next) == DayNumber(day) + 1
    requires forall d: Date :: d in before <==> DayNumber(start) <= DayNumber(d) < DayNumber(day) && p(d)
    requires forall i :: 0 <= i < |before| ==> DayNumber(before[i]) < DayNumber(day)
    requires Increasing(before, DayNumber)
    requires after == before + (if p(day) then [day] else [])
    ensures forall d: Date :: d in after <==> DayNumber(start) <= DayNumber(d) < DayNumber(next) && p(d)
    ensures forall i :: 0 <= i < |after| ==> DayNumber(after[i]) < DayNumber(next)
    ensures Increasing(after, DayNumber)
  {
    forall d: Date
      ensures d in after <==> DayNumber(start) <= DayNumber(d) < DayNumber(next) && p(d)
    {
      if DayNumber(d) == DayNumber(day) {
        DayNumberInjective(d, day);
      }
    }
  }

  /**
   * A holiday of `holidays()`: no entry for the day or at most the threshold,
   * unless weekends are excluded and the day is a Saturday or a Sunday.
   */
  predicate IsHoliday(daySum: map<Date, real>, excludeWeekend: bool, threshold: real, d: Date) {
    (d !in daySum || daySum[d] <= threshold) && !(excludeWeekend && (IsoWeekday(d) == 6 || IsoWeekday(d) == 7))
  }

  function HolidayTest(daySum: map<Date, real>, excludeWeekend: bool, threshold: real): Date -> bool {
    (d: Date) => IsHoliday(daySum, excludeWeekend, threshold, d)
  }

  /** A day of `weekends()`: a Saturday or a Sunday with more than the threshold. */
  predicate IsWorkedWeekend(daySum: map<Date, real>, threshold: real, d: Date) {
    (IsoWeekday(d) == 6 || IsoWeekday(d) == 7) && Get(daySum, d) > threshold
  }

  function WorkedWeekendTest(daySum: map<Date, real>, threshold: real): Date -> bool {
    (d: Date) => IsWorkedWeekend(daySum, threshold, d)
  }

  /**
   * With weekends included, a Saturday or Sunday is a holiday exactly when it
   * is not a worked weekend day: the two lists split the weekend days of a
   * range between them (for a threshold that is not negative).
   */
  lemma WeekendHolidayOrWorked(daySum: map<Date, real>, threshold: real, d: Date)
    requires IsoWeekday(d) == 6 || IsoWeekday(d) == 7
    requires threshold >= 0.0
    ensures IsHoliday(daySum, false, threshold, d) <==> !IsWorkedWeekend(daySum, threshold, d)
  {
    if d in daySum {
      assert Get(daySum, d) == daySum[d];
    }
  }

  /** A day without activities is a holiday unless it is an excluded weekend day. */
  lemma IdleDayIsHoliday(acts: seq<Activity>, excludeWeekend: bool, threshold: real, d: Date)
    requires forall a :: a in acts ==> a.day != d
    requires !(excludeWeekend && (IsoWeekday(d) == 6 || IsoWeekday(d) == 7))
    ensures IsHoliday(DaySum(acts), excludeWeekend, threshold, d)
  {
    DaySumFacts(acts, d);
  }

  // ---------------------------------------------------------------------------
  // The list of activities

  class Work {
    /** The activities, in the order of the export's rows. */
    var activities: seq<Activity>

    /** A `Work` without activities yet. */
    constructor ()
      ensures activities == []
    {
      activities := [];
    }

    /** `self.activities.append(act)`. */
    method Append(a: Activity)
      modifies this
      ensures activities == old(activities) + [a]
    {
      activities := activities + [a];
    }

    /**
     * `Work(filename)` on the file's rows: one activity per row, in order. The
     * first row whose activity cannot be built stops the load (Python raises);
     * its position is the failure.
     */
    static method Load(rows: seq<ActivityRow>) returns (r: Result<Work, nat>)
      ensures r.Success? <==> forall j :: 0 <= j < |rows| ==> NewActivity(rows[j]).Success?
      ensures r.Success? ==> fresh(r.value) && |r.value.activities| == |rows| &&
                             forall j :: 0 <= j < |rows| ==> r.value.activities[j] == NewActivity(rows[j]).value
      ensures r.Failure? ==> r.error < |rows| && NewActivity(rows[r.error]).Failure? &&
                             forall j :: 0 <= j < r.error ==> NewActivity(rows[j]).Success?
    {
      r := LoadWith(rows, NewActivity);
    }

    /**
     * The loop of `Work(filename)`, with the constructor of an activity passed
     * in as `build`: the rows are built in order, and the first row that
     * fails to build ends the loading.
     */
    static method LoadWith<R>(rows: seq<R>, build: R -> Result<Activity, string>) returns (r: Result<Work, nat>)
      ensures r.Success? <==> forall j :: 0 <= j < |rows| ==> build(rows[j]).Success?
      ensures r.Success? ==> fresh(r.value) && |r.value.activities| == |rows| &&
                             forall j :: 0 <= j < |rows| ==> r.value.activities[j] == build(rows[j]).value
      ensures r.Failure? ==> r.error < |rows| && build(rows[r.error]).Failure? &&
                             forall j :: 0 <= j < r.error ==> build(rows[j]).Success?
    {
      var work := new Work();
      var i := 0;
      while i < |rows|
        invariant 0 <= i <= |rows|
        invariant fresh(work)
        invariant forall j :: 0 <= j < i ==> build(rows[j]).Success?
        invariant |work.activities| == i
        invariant forall j :: 0 <= j < i ==> work.activities[j] == build(rows[j]).value
      {
        var act := build(rows[i]);
        if act.Failure? {
          return Failure(i);
        }
        work.Append(act.value);
        i := i + 1;
      }
      return Success(work);
    }

    /** `hours_per_day()`: each day's seconds, keyed by the days with activities. */
    method HoursPerDay() returns (daySum: map<Date, real>)
      ensures daySum == DaySum(activities)
    {
      daySum := map[];
      var i := 0;
      while i < |activities|
        invariant 0 <= i <= |activities|
        invariant daySum == Tally(activities, DayOf, Seconds, i)
      {
        var act := activities[i];
        daySum := daySum[act.day := Get(daySum, act.day) + act.duration as real];
        i := i + 1;
      }
    }

    /** `hours_per_week()`: each week's seconds, keyed by the week's Monday (`week_start`). */
    method HoursPerWeek() returns (weekSum: map<Date, real>)
      ensures weekSum == WeekSum(activities)
    {
      weekSum := SumPerWeek(activities, WeekStartIso);
    }

    /**
     * `holidays(start_date, end_date, exclude_weekend, hour_threshold)`: the
     * days from `start` to `end` inclusive, in order, with no activity or at
     * most `threshold` seconds, leaving out Saturdays and Sundays when
     * `excludeWeekend` holds.
     */
    method Holidays(start: Date, end: Date, excludeWeekend: bool := true, threshold: real := DefaultThreshold) returns (holidays: seq<Date>)
      ensures forall d: Date :: d in holidays <==>
        !Before(d, start) && !Before(end, d) && IsHoliday(DaySum(activities), excludeWeekend, threshold, d)
      ensures Increasing(holidays, DayNumber)
    {
      var daySum := HoursPerDay();
      ghost var test := HolidayTest(daySum, excludeWeekend, threshold);
      holidays := [];
      var day := start;
      while !Before(end, day)
        invariant DayNumber(start) <= DayNumber(day) <= DayNumber(start) + Span(start, end)
        invariant forall d: Date :: d in holidays <==> DayNumber(start) <= DayNumber(d) < DayNumber(day) && test(d)
        invariant forall i :: 0 <= i < |holidays| ==> DayNumber(holidays[i]) < DayNumber(day)
        invariant Increasing(holidays, DayNumber)
        decreases DayNumber(end) + 1 - DayNumber(day)
      {
        BeforeIsOrdinalOrder(end, day);
        ghost var oldHolidays := holidays;
        if (day !in daySum) || (day in daySum && daySum[day] <= threshold) {
          if !(excludeWeekend && (IsoWeekday(day) == 6 || IsoWeekday(day) == 7)) {
            holidays := holidays + [day];
          }
        }
        var next := PlusDays(day, 1);
        NextDay(start, day, next, oldHolidays, holidays, test);
        day := next;
      }
      BeforeIsOrdinalOrder(end, day);
      InRange(start, end, day);
      assert forall d: Date :: test(d) == IsHoliday(daySum, excludeWeekend, threshold, d);
    }

    /**
     * `weekends(start_date, end_date, hour_threshold)`: the Saturdays and
     * Sundays from `start` to `end` inclusive, in order, with more than
     * `threshold` seconds.
     */
    method Weekends(start: Date, end: Date, threshold: real := DefaultThreshold) returns (weekends: seq<Date>)
      ensures forall d: Date :: d in weekends <==>
        !Before(d, start) && !Before(end, d) && IsWorkedWeekend(DaySum(activities), threshold, d)
      ensures Increasing(weekends, DayNumber)
    {
      var daySum := HoursPerDay();
      ghost var test := WorkedWeekendTest(daySum, threshold);
      weekends := [];
      var day := start;
      while !Before(end, day)
        invariant DayNumber(start) <= DayNumber(day) <= DayNumber(start) + Span(start, end)
        invariant forall d: Date :: d in weekends <==> DayNumber(start) <= DayNumber(d) < DayNumber(day) && test(d)
        invariant forall i :: 0 <= i < |weekends| ==> DayNumber(weekends[i]) < DayNumber(day)
        invariant Increasing(weekends, DayNumber)
        decreases DayNumber(end) + 1 - DayNumber(day)
      {
        BeforeIsOrdinalOrder(end, day);
        ghost var oldWeekends := weekends;
        if IsoWeekday(day) == 6 || IsoWeekday(day) == 7 {
          if Get(daySum, day) > threshold {
            weekends := weekends + [day];
          }
        }
        var next := PlusDays(day, 1);
        NextDay(start, day, next, oldWeekends, weekends, test);
        day := next;
      }
      BeforeIsOrdinalOrder(end, day);
      InRange(start, end, day);
      assert forall d: Date :: test(d) == IsWorkedWeekend(daySum, threshold, d);
    }

    /**
     * The sums `plot_tags_pie(year)` draws: every tag of every activity of
     * `year` adds the activity's seconds to the tag's entry; `None` when no
     * activity of the year has a tag (the method prints a notice and draws
     * nothing).
     */
    method TagSums(year: int) returns (sums: Option<map<string, real>>)
      ensures sums == if TagSum(activities, year) == map[] then None else Some(TagSum(activities, year))
    {
      var tagSums := SumPerTag(activities, year);
      if tagSums == map[] {
        return None;
      }
      return Some(tagSums);
    }
  }
}
