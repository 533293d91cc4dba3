/**
 * The colour-map calendar: the hours of every date of a year, and the grid of
 * Monday-to-Sunday weeks that covers the year, with a total per week.
 */
module ColormapCalendar {
  import opened Wrappers
  import opened Calendar
  import opened Buckets
  import opened Tallies
  import opened DayHours

  /**
   * `get_day_hours_by_year(input_file, year)` on the file's rows: every date of
   * `year`, and only those, mapped to the sum of its rows' hours (0.0 when it
   * has none).
   */
  method GetDayHoursByYear(rows: seq<HoursRow>, year: int) returns (dayHours: map<Date, real>)
    requires year >= 1
    ensures forall d: Date :: d in dayHours <==> d.year == year
    ensures forall d: Date :: d in dayHours ==> dayHours[d] == HoursOn(rows, d)
  {
    var sums := SumHoursOfYear(rows, year);
    var allDays := YearDays(year);
    dayHours := map d | d in allDays :: Get(sums, d);
    forall d: Date
      ensures d in dayHours <==> d.year == year
      ensures d in dayHours ==> dayHours[d] == HoursOn(rows, d)
    {
      YearDaysAreTheYear(year, d);
      DayHoursOfYear(rows, year, d);
    }
  }

  /** `jan1 - timedelta(days = jan1.weekday())`: the Monday on or before January 1st. */
  function FirstMonday(year: int): (r: Date)
    requires year >= 1
    ensures DayNumber(r) == DayNumber(Jan1(year)) - Weekday(Jan1(year))
    ensures Weekday(r) == 0 && DayNumber(Jan1(year)) - 6 <= DayNumber(r) <= DayNumber(Jan1(year))
  {
    WeekdayResidue(DayNumber(Jan1(year)));
    var r := PlusDays(Jan1(year), -Weekday(Jan1(year)));
    MondayAt(Jan1(year), r);
    r
  }

  /** `dec31 + timedelta(days = 6 - dec31.weekday())`: the Sunday on or after December 31st. */
  function LastSunday(year: int): (r: Date)
    requires year >= 1
    ensures DayNumber(r) == DayNumber(Dec31(year)) + 6 - Weekday(Dec31(year))
    ensures Weekday(r) == 6 && DayNumber(Dec31(year)) <= DayNumber(r) <= DayNumber(Dec31(year)) + 6
  {
    var r := PlusDays(Dec31(year), 6 - Weekday(Dec31(year)));
    SundayAt(Dec31(year), r);
    r
  }

  /** A date whose ordinal is `d`'s plus six less `d`'s weekday is a Sunday. */
  lemma SundayAt(d: Date, r: Date)
    requires DayNumber(r) == DayNumber(d) + 6 - Weekday(d)
    ensures Weekday(r) == 6
  {
    WeekdayAfter(d, r, 6 - Weekday(d));
  }

  /** The first Monday is the week start of January 1st. */
  lemma FirstMondayIsWeekStart(year: int)
    requires year >= 1
    ensures FirstMonday(year) == WeekStart(Jan1(year))
  {
    WeekStartUnique(Jan1(year), FirstMonday(year));
  }

  /** `all_days`: every date from the first Monday to the last Sunday. */
  function GridDays(year: int): (days: seq<Date>)
    requires year >= 1
    ensures |days| == DayNumber(LastSunday(year)) - DayNumber(FirstMonday(year)) + 1
    ensures forall i :: 0 <= i < |days| ==> DayNumber(days[i]) == DayNumber(FirstMonday(year)) + i
  {
    YearBounds(year);
    var first := FirstMonday(year);
    var n := DayNumber(LastSunday(year)) - DayNumber(first) + 1;
    seq(n, i requires 0 <= i < n => PlusDays(first, i))
  }

  /** `[xs[i:i + 7] for i in range(0, len(xs), 7)]`: consecutive runs of seven, the last one possibly shorter. */
  function Weekly<T>(xs: seq<T>): (ws: seq<seq<T>>)
    ensures |xs| <= 7 * |ws| < |xs| + 7
    ensures forall w :: 0 <= w < |ws| ==> 1 <= |ws[w]| <= 7
    decreases |xs|
  {
    if |xs| <= 7 then (if xs == [] then [] else [xs]) else [xs[..7]] + Weekly(xs[7..])
  }

  /** Laid end to end, the runs give back the list. */
  lemma {:induction false} WeeklyFlatten<T>(xs: seq<T>)
    ensures Flatten(Weekly(xs)) == xs
    decreases |xs|
  {
    if |xs| <= 7 {
      if xs != [] {
        assert Flatten([xs]) == xs + [];
      }
    } else {
      var rest := Weekly(xs[7..]);
      WeeklyFlatten(xs[7..]);
      assert ([xs[..7]] + rest)[1..] == rest;
      assert xs[..7] + xs[7..] == xs;
    }
  }

  /** The slices laid end to end. */
  function Flatten<T>(ws: seq<seq<T>>): seq<T> {
    if ws == [] then [] else ws[0] + Flatten(ws[1..])
  }

  /** `weeks`: the rows of the grid. */
  function Weeks(year: int): seq<seq<Date>>
    requires year >= 1
  {
    Weekly(GridDays(year))
  }

  /** A list whose length is a multiple of seven splits into runs of exactly seven, in order. */
  lemma {:induction false} WeeklyShape<T>(xs: seq<T>)
    requires |xs| % 7 == 0
    ensures |Weekly(xs)| == |xs| / 7
    ensures forall w :: 0 <= w < |xs| / 7 ==> Weekly(xs)[w] == xs[7 * w..7 * w + 7]
    decreases |xs|
  {
    var n := |xs| / 7;
    assert |xs| == 7 * n;
    assert |Weekly(xs)| == n;
    if |xs| > 7 {
      var rest := xs[7..];
      WeeklyShape(rest);
      forall w | 1 <= w < n
        ensures Weekly(xs)[w] == xs[7 * w..7 * w + 7]
      {
        var lo := 7 * (w - 1);
        WeeklyLater(xs, w);
        assert Weekly(rest)[w - 1] == rest[lo..lo + 7];
        assert rest[lo..lo + 7] == xs[7 * w..7 * w + 7];
      }
    }
  }

  /** Past the first run of seven, the runs are those of the rest of the list. */
  lemma WeeklyLater<T>(xs: seq<T>, w: int)
    requires |xs| > 7 && 1 <= w < |Weekly(xs)|
    ensures Weekly(xs)[w] == Weekly(xs[7..])[w - 1]
  {
    assert Weekly(xs) == [xs[..7]] + Weekly(xs[7..]);
  }

  /** The grid spans a whole number of weeks: 371 or 378 days, so 53 or 54 rows. */
  lemma GridShape(year: int)
    requires year >= 1
    ensures |GridDays(year)| % 7 == 0
    ensures |GridDays(year)| == 371 || |GridDays(year)| == 378
    ensures |Weeks(year)| == |GridDays(year)| / 7
    ensures |Weeks(year)| == 53 || |Weeks(year)| == 54
  {
    YearBounds(year);
    WeekdayAfter(Jan1(year), Dec31(year), DaysInYear(year) - 1);
    GridLength(Weekday(Jan1(year)) + DaysInYear(year) - 1);
    WeeklyShape(GridDays(year));
  }

  /** From a first weekday and a year length, the count of days to the next Sunday closes whole weeks. */
  lemma GridLength(x: int)
    requires 364 <= x <= 371
    ensures (x + 7 - x % 7) % 7 == 0
    ensures x + 7 - x % 7 == 371 || x + 7 - x % 7 == 378
  {
    if x < 371 {
      ModSeven(x, 52, x - 364);
    } else {
      ModSeven(x, 53, 0);
    }
  }

  /** Row `w` of the grid holds seven consecutive days, Monday first. */
  lemma GridWeek(year: int, w: int, k: int)
    requires year >= 1
    requires 0 <= w < |Weeks(year)| && 0 <= k < 7
    ensures |Weeks(year)[w]| == 7
    ensures DayNumber(Weeks(year)[w][k]) == DayNumber(FirstMonday(year)) + 7 * w + k
    ensures Weekday(Weeks(year)[w][k]) == k
  {
    var days := GridDays(year);
    GridShape(year);
    WeeklyCell(days, w, k);
    CellWeekday(FirstMonday(year), days[7 * w + k], w, k);
  }

  /** Cell `k` of run `w` is item `7 * w + k`. */
  lemma WeeklyCell<T>(xs: seq<T>, w: int, k: int)
    requires |xs| % 7 == 0 && 0 <= w < |xs| / 7 && 0 <= k < 7
    ensures |Weekly(xs)| == |xs| / 7
    ensures |Weekly(xs)[w]| == 7 && Weekly(xs)[w][k] == xs[7 * w + k]
  {
    WeeklyShape(xs);
  }

  /** The day `7 * w + k` days after a Monday falls on weekday `k`. */
  lemma CellWeekday(m: Date, d: Date, w: int, k: int)
    requires Weekday(m) == 0 && 0 <= k < 7
    requires DayNumber(d) == DayNumber(m) + 7 * w + k
    ensures Weekday(d) == k
  {
    WeekdayAfter(m, d, 7 * w + k);
    ModSeven(7 * w + k, w, k);
  }

  /** Every date of the year sits in exactly one cell of the grid. */
  lemma YearDayCell(year: int, d: Date) returns (w: nat, k: nat)
    requires year >= 1 && d.year == year
    ensures w < |Weeks(year)| && k < 7 && k < |Weeks(year)[w]| && Weeks(year)[w][k] == d
    ensures forall w', k' :: 0 <= w' < |Weeks(year)| && 0 <= k' < |Weeks(year)[w']| && Weeks(year)[w'][k'] == d ==>
      w' == w && k' == k
  {
    var i := GridIndex(year, d);
    w, k := i / 7, i % 7;
    ModSeven(i, w, k);
    GridWeek(year, w, k);
    DayNumberInjective(Weeks(year)[w][k], d);
    forall w', k' | 0 <= w' < |Weeks(year)| && 0 <= k' < |Weeks(year)[w']| && Weeks(year)[w'][k'] == d
      ensures w' == w && k' == k
    {
      GridWeek(year, w', 0);
      GridWeek(year, w', k');
      ModSeven(i, w', k');
    }
  }

  /** A date of the year lies inside the grid, at its distance from the first Monday. */
  lemma GridIndex(year: int, d: Date) returns (i: nat)
    requires year >= 1 && d.year == year
    ensures i == DayNumber(d) - DayNumber(FirstMonday(year))
    ensures i < 7 * |Weeks(year)|
  {
    GridShape(year);
    YearBounds(year);
    DayNumberInYear(d);
    i := DayNumber(d) - DayNumber(FirstMonday(year));
  }

  /** The inner loop of the drawing: `week_total += day_hours.get(date_obj, 0.0)` over the days of one row. */
  method WeekTotal(week: seq<Date>, dayHours: map<Date, real>) returns (total: real)
    ensures total == RealSum(week, ValueIn(dayHours))
  {
    total := 0.0;
    var j := 0;
    while j < |week|
      invariant 0 <= j <= |week|
      invariant total == RealSum(week[..j], ValueIn(dayHours))
    {
      PrefixSum(week, ValueIn(dayHours), j + 1);
      total := total + Get(dayHours, week[j]);
      j := j + 1;
    }
    assert week[..|week|] == week;
  }

  /** A row's total as a function of the row. */
  function WeekSum(dayHours: map<Date, real>): seq<Date> -> real {
    week => RealSum(week, ValueIn(dayHours))
  }

  /** The outer loop: one total per row of the grid, in order. */
  method WeekTotals(weeks: seq<seq<Date>>, dayHours: map<Date, real>) returns (totals: seq<real>)
    ensures |totals| == |weeks|
    ensures forall w :: 0 <= w < |weeks| ==> totals[w] == RealSum(weeks[w], ValueIn(dayHours))
  {
    totals := [];
    var w := 0;
    while w < |weeks|
      invariant 0 <= w <= |weeks|
      invariant |totals| == w
      invariant forall v :: 0 <= v < w ==> totals[v] == RealSum(weeks[v], ValueIn(dayHours))
    {
      var total := WeekTotal(weeks[w], dayHours);
      totals := totals + [total];
      w := w + 1;
    }
  }

  /**
   * The row totals add up to the hours of the year: the grid holds every
   * date of the year once, and the dates it adds before and after the year
   * have no hours.
   */
  lemma GridTotalIsYearTotal(year: int, dayHours: map<Date, real>)
    requires year >= 1
    requires forall d: Date :: d in dayHours ==> d.year == year
    ensures RealSum(Weeks(year), WeekSum(dayHours)) == RealSum(YearDays(year), ValueIn(dayHours))
  {
    GridShape(year);
    var days := GridDays(year);
    WeeklySum(days, ValueIn(dayHours));
    YearBounds(year);
    var a := DayNumber(Jan1(year)) - DayNumber(FirstMonday(year));
    var b := a + DaysInYear(year);
    forall i | 0 <= i < |days| && !(a <= i < b)
      ensures ValueIn(dayHours)(days[i]) == 0.0
    {
      DayNumberInYear(days[i]);
    }
    RealSumOfSegment(days, ValueIn(dayHours), a, b);
    YearSegment(year);
  }

  /** The grid's days from January 1st on, as many as the year has, are the dates of the year. */
  lemma YearSegment(year: int)
    requires year >= 1
    ensures var a := DayNumber(Jan1(year)) - DayNumber(FirstMonday(year));
      0 <= a <= a + DaysInYear(year) <= |GridDays(year)| &&
      GridDays(year)[a..a + DaysInYear(year)] == YearDays(year)
  {
    YearBounds(year);
    var days, yearDays := GridDays(year), YearDays(year);
    var a := DayNumber(Jan1(year)) - DayNumber(FirstMonday(year));
    var segment := days[a..a + DaysInYear(year)];
    forall i | 0 <= i < |yearDays|
      ensures segment[i] == yearDays[i]
    {
      DayNumberInjective(segment[i], yearDays[i]);
    }
    SameItems(segment, yearDays);
  }

  /** Lists that agree at every index are equal. */
  lemma SameItems<T>(xs: seq<T>, ys: seq<T>)
    requires |xs| == |ys| && forall i :: 0 <= i < |xs| ==> xs[i] == ys[i]
    ensures xs == ys
  {
  }

  /** Summing row by row is summing day by day. */
  lemma {:induction false} WeeklySum<T>(xs: seq<T>, f: T -> real)
    ensures RealSum(Weekly(xs), (w: seq<T>) => RealSum(w, f)) == RealSum(xs, f)
    decreases |xs|
  {
    if |xs| > 7 {
      WeeklySum(xs[7..], f);
      assert xs == xs[..7] + xs[7..];
      RealSumConcat(xs[..7], xs[7..], f);
    }
  }
}
