/**
 * The holiday calendar: over every date of a year, the working days
 * (Monday to Friday) with fewer hours than a threshold are holidays, and the
 * weekend days with at least that many hours are worked weekends. In the
 * current year, dates after today are not judged.
 */
module HolidayCalendar {
  import opened Wrappers
  import opened Calendar
  import opened Tallies
  import opened Selection
  import opened DayHours

  /** The default threshold, in hours. */
  const DailyThreshold: real := 2.0

  /** A date is judged unless the year is today's year and the date lies after today. */
  predicate Judged(year: int, today: Date, d: Date) {
    !(year == today.year && Before(today, d))
  }

  /** A judged working day (`weekday() < 5`) with strictly fewer hours than the threshold. */
  function HolidayTest(dayHours: map<Date, real>, year: int, today: Date, threshold: real): Date -> bool {
    (d: Date) => Judged(year, today, d) && Weekday(d) < 5 && Get(dayHours, d) < threshold
  }

  /** A judged weekend day with at least the threshold of hours. */
  function WorkedWeekendTest(dayHours: map<Date, real>, year: int, today: Date, threshold: real): Date -> bool {
    (d: Date) => Judged(year, today, d) && Weekday(d) >= 5 && Get(dayHours, d) >= threshold
  }

  /**
   * `get_holidays_by_year(input_file, year, threshold)` on the file's rows,
   * with `today` standing for `date.today()`. A holiday is a judged working day
   * of `year` whose rows hold fewer hours than `threshold` (no rows: 0.0), and
   * a worked weekend a judged Saturday or Sunday of `year` whose rows hold at
   * least `threshold` hours.
   */
  method GetHolidaysByYear(rows: seq<HoursRow>, year: int, today: Date, threshold: real := DailyThreshold)
    returns (holidays: set<Date>, worked: set<Date>)
    requires year >= 1
    ensures forall d: Date :: d in holidays <==>
      d.year == year && Judged(year, today, d) && Weekday(d) < 5 && HoursOn(rows, d) < threshold
    ensures forall d: Date :: d in worked <==>
      d.year == year && Judged(year, today, d) && Weekday(d) >= 5 && HoursOn(rows, d) >= threshold
  {
    var dayHours := SumHoursOfYear(rows, year);
    var allDays := YearDays(year);
    ghost var isHoliday := HolidayTest(dayHours, year, today, threshold);
    ghost var isWorked := WorkedWeekendTest(dayHours, year, today, threshold);
    holidays, worked := {}, {};
    var i := 0;
    while i < |allDays|
      invariant 0 <= i <= |allDays|
      invariant holidays == Chosen(allDays[..i], isHoliday)
      invariant worked == Chosen(allDays[..i], isWorked)
    {
      var date := allDays[i];
      ChosenPrefixStep(allDays, i, isHoliday);
      ChosenPrefixStep(allDays, i, isWorked);
      var holiday, workedDay := ClassifyDate(dayHours, year, today, threshold, date);
      if holiday {
        holidays := holidays + {date};
      }
      if workedDay {
        worked := worked + {date};
      }
      i := i + 1;
    }
    ChosenAll(allDays, isHoliday);
    ChosenAll(allDays, isWorked);
    ClassifiedYear(rows, year, today, threshold);
  }

  /**
   * The body of the loop over `all_days` (lines 40-52): a future day of the
   * current year is skipped; otherwise a weekday is a holiday below the
   * threshold and a weekend day is worked at or above it.
   */
  method ClassifyDate(dayHours: map<Date, real>, year: int, today: Date, threshold: real, date: Date)
    returns (holiday: bool, worked: bool)
    ensures holiday == HolidayTest(dayHours, year, today, threshold)(date)
    ensures worked == WorkedWeekendTest(dayHours, year, today, threshold)(date)
    ensures !(holiday && worked)
  {
    holiday, worked := false, false;
    if !(year == today.year && Before(today, date)) {
      var hours := Get(dayHours, date);
      var wd := Weekday(date);
      if wd < 5 {
        if hours < threshold {
          holiday := true;
        }
      } else {
        if hours >= threshold {
          worked := true;
        }
      }
    }
  }

  /** `ClassifiedDay` for every date at once. */
  lemma ClassifiedYear(rows: seq<HoursRow>, year: int, today: Date, threshold: real)
    requires year >= 1
    ensures var dayHours := Tally(rows, DateInYear(year), HoursOf, |rows|);
      forall d: Date :: d in Chosen(YearDays(year), HolidayTest(dayHours, year, today, threshold)) <==>
        d.year == year && Judged(year, today, d) && Weekday(d) < 5 && HoursOn(rows, d) < threshold
    ensures var dayHours := Tally(rows, DateInYear(year), HoursOf, |rows|);
      forall d: Date :: d in Chosen(YearDays(year), WorkedWeekendTest(dayHours, year, today, threshold)) <==>
        d.year == year && Judged(year, today, d) && Weekday(d) >= 5 && HoursOn(rows, d) >= threshold
  {
    forall d: Date {
      ClassifiedDay(rows, year, today, threshold, d);
    }
  }

  /** A date is picked from the year's dates exactly when it lies in the year and passes the test on its hours. */
  lemma ClassifiedDay(rows: seq<HoursRow>, year: int, today: Date, threshold: real, d: Date)
    requires year >= 1
    ensures var dayHours := Tally(rows, DateInYear(year), HoursOf, |rows|);
      d in Chosen(YearDays(year), HolidayTest(dayHours, year, today, threshold)) <==>
        d.year == year && Judged(year, today, d) && Weekday(d) < 5 && HoursOn(rows, d) < threshold
    ensures var dayHours := Tally(rows, DateInYear(year), HoursOf, |rows|);
      d in Chosen(YearDays(year), WorkedWeekendTest(dayHours, year, today, threshold)) <==>
        d.year == year && Judged(year, today, d) && Weekday(d) >= 5 && HoursOn(rows, d) >= threshold
  {
    YearDaysAreTheYear(year, d);
    DayHoursOfYear(rows, year, d);
  }

  /**
   * With a positive threshold, a judged working day of the year without rows
   * is a holiday: its hours are 0.0.
   */
  lemma MissingWorkdayIsHoliday(rows: seq<HoursRow>, d: Date, threshold: real)
    requires !HasRows(rows, d) && threshold > 0.0
    ensures HoursOn(rows, d) < threshold
  {
    NoRowsNoHours(rows, d);
  }
}
