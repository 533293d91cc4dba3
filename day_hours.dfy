/**
 * The per-day hour sums the holiday calendar and the colour-map calendar
 * compute in the same way: every row of the processed CSV whose day parses,
 * in the year asked for, adds its `Duration adjusted (hours)` to its date.
 */
module DayHours {
  import opened Wrappers
  import opened Calendar
  import opened DateParse
  import opened Buckets
  import opened Tallies

  /**
   * A row of the processed CSV as these scripts read it: the `parsed_day` and
   * `Day` cells (absent cells are `None`) and the hours, which are
   * `float(row.get('Duration adjusted (hours)', 0))`.
   */
  datatype HoursRow = HoursRow(parsedDay: Option<string>, day: Option<string>, hours: real)

  /** The date a row is filed under, or `None` when its day is empty or does not parse. */
  function DateOf(r: HoursRow): Option<Date> {
    RowDate(r.parsedDay, r.day)
  }

  function HoursOf(r: HoursRow): real {
    r.hours
  }

  /** A row's date when it lies in `year`, for rows whose dates `dateOf` reads; rows of other years are skipped. */
  function InYear<T>(dateOf: T -> Option<Date>, year: int): T -> Option<Date> {
    r => if dateOf(r).Some? && dateOf(r).value.year == year then dateOf(r) else None
  }

  /** A row's date when it lies in `year`. */
  function DateInYear(year: int): HoursRow -> Option<Date> {
    InYear(DateOf, year)
  }

  /** What a row adds to the hours of date `d`: its hours when it is filed under `d`. */
  function HoursOnDate(d: Date): HoursRow -> real {
    r => if DateOf(r) == Some(d) then r.hours else 0.0
  }

  /** The hours of date `d`: the sum over the rows filed under it, 0.0 when there are none. */
  function HoursOn(rows: seq<HoursRow>, d: Date): real {
    RealSum(rows, HoursOnDate(d))
  }

  /** Whether some row is filed under date `d`. */
  predicate HasRows(rows: seq<HoursRow>, d: Date) {
    exists i :: 0 <= i < |rows| && DateOf(rows[i]) == Some(d)
  }

  /**
   * The loop that fills `day_hours = defaultdict(float)`: a row with an empty
   * day or a day that parses in neither format is skipped, and so is a row of
   * another year; any other row adds its hours to its date.
   */
  method SumHoursOfYear(rows: seq<HoursRow>, year: int) returns (dayHours: map<Date, real>)
    ensures dayHours == Tally(rows, DateInYear(year), HoursOf, |rows|)
  {
    dayHours := SumRowsOfYear(rows, DateOf, HoursOf, year);
  }

  /**
   * The loop for rows whose date (`None`: skipped) `dateOf` reads and whose
   * hours `hoursOf` reads; for the rows of the CSV these are the two-format
   * parse of the row's day and its `Duration adjusted (hours)`.
   */
  method SumRowsOfYear<T>(rows: seq<T>, dateOf: T -> Option<Date>, hoursOf: T -> real, year: int)
    returns (dayHours: map<Date, real>)
    ensures dayHours == Tally(rows, InYear(dateOf, year), hoursOf, |rows|)
  {
    dayHours := map[];
    var i := 0;
    while i < |rows|
      invariant 0 <= i <= |rows|
      invariant dayHours == Tally(rows, InYear(dateOf, year), hoursOf, i)
    {
      var row := rows[i];
      var date := dateOf(row);
      if date.Some? && date.value.year == year {
        var d := date.value;
        TallyAdded<T, Date>(rows, InYear(dateOf, year), hoursOf, i, dayHours, d);
        dayHours := dayHours[d := Get(dayHours, d) + hoursOf(row)];
      } else {
        TallySkipped<T, Date>(rows, InYear(dateOf, year), hoursOf, i, dayHours);
      }
      i := i + 1;
    }
  }

  /**
   * The sums hold exactly the dates of `year` that have rows, each with the sum
   * of its rows' hours; any other date reads as 0.0.
   */
  lemma DayHoursOfYear(rows: seq<HoursRow>, year: int, d: Date)
    ensures d in Tally(rows, DateInYear(year), HoursOf, |rows|) <==> d.year == year && HasRows(rows, d)
    ensures Get(Tally(rows, DateInYear(year), HoursOf, |rows|), d) == if d.year == year then HoursOn(rows, d) else 0.0
  {
    TallyDomain(rows, DateInYear(year), HoursOf, |rows|, d);
    TallyValue(rows, DateInYear(year), HoursOf, |rows|, d);
    assert rows[..|rows|] == rows;
    if d.year == year {
      RealSumCongruent(rows, Share(DateInYear(year), HoursOf, d), HoursOnDate(d));
    } else {
      NoShare(rows, DateInYear(year), HoursOf, d);
    }
  }

  /** A date outside `year` receives nothing. */
  lemma {:induction false} NoShare(rows: seq<HoursRow>, key: HoursRow -> Option<Date>, val: HoursRow -> real, d: Date)
    requires forall r :: key(r) != Some(d)
    ensures RealSum(rows, Share(key, val, d)) == 0.0
  {
    if rows != [] {
      NoShare(rows[1..], key, val, d);
    }
  }

  /** A date without rows has 0.0 hours. */
  lemma {:induction false} NoRowsNoHours(rows: seq<HoursRow>, d: Date)
    requires !HasRows(rows, d)
    ensures HoursOn(rows, d) == 0.0
  {
    if rows != [] {
      assert !HasRows(rows[1..], d) by {
        forall i | 0 <= i < |rows[1..]|
          ensures DateOf(rows[1..][i]) != Some(d)
        {
          assert rows[1..][i] == rows[i + 1];
        }
      }
      NoRowsNoHours(rows[1..], d);
    }
  }
}
