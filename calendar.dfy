/**
 * Proleptic Gregorian dates as Python's `datetime.date` treats them.
 * A date is a (year, month, day) triple; `DayNumber` is its ordinal
 * (0001-01-01 is day 1, as `date.toordinal()`), and all date arithmetic
 * (`date + timedelta(days = k)`) goes through the ordinal, as CPython does.
 */
module Calendar {

  datatype Ymd = Ymd(year: int, month: int, day: int)

  predicate IsLeapYear(y: int) {
    y % 4 == 0 && (y % 100 != 0 || y % 400 == 0)
  }

  function DaysInYear(y: int): int {
    if IsLeapYear(y) then 366 else 365
  }

  function DaysInMonth(y: int, m: int): int
    requires 1 <= m <= 12
  {
    if m == 2 then (if IsLeapYear(y) then 29 else 28)
    else if m == 4 || m == 6 || m == 9 || m == 11 then 30
    else 31
  }

  predicate IsValid(d: Ymd) {
    1 <= d.year && 1 <= d.month <= 12 && 1 <= d.day <= DaysInMonth(d.year, d.month)
  }

  /** A date that exists (Python's MINYEAR is 1). */
  type Date = d: Ymd | IsValid(d) witness Ymd(1, 1, 1)

  /** Number of days in the years before `y`, counted from year 1 (negative before year 1). */
  function DaysBeforeYear(y: int): int
    decreases if y >= 1 then y - 1 else 1 - y
  {
    if y == 1 then 0
    else if y > 1 then DaysBeforeYear(y - 1) + DaysInYear(y - 1)
    else DaysBeforeYear(y + 1) - DaysInYear(y)
  }

  /** Number of days in the months of year `y` before month `m` (m == 13: the whole year). */
  function DaysBeforeMonth(y: int, m: int): int
    requires 1 <= m <= 13
  {
    var before := [0, 31, 59, 90, 120, 151, 181, 212, 243, 273, 304, 334, 365];
    before[m - 1] + (if m > 2 && IsLeapYear(y) then 1 else 0)
  }

  lemma DaysBeforeMonthStep(y: int, m: int)
    requires 1 <= m <= 12
    ensures DaysBeforeMonth(y, m + 1) == DaysBeforeMonth(y, m) + DaysInMonth(y, m)
    ensures DaysBeforeMonth(y, 1) == 0 && DaysBeforeMonth(y, 13) == DaysInYear(y)
  {
  }

  lemma DaysBeforeMonthMonotone(y: int, m: int, m': int)
    requires 1 <= m < m' <= 13
    ensures DaysBeforeMonth(y, m) + DaysInMonth(y, m) <= DaysBeforeMonth(y, m')
  {
  }

  /** Stepping the dividend by one crosses a multiple of 4, 100 or 400 exactly when the new dividend is one. */
  lemma DivStep(p: int)
    ensures (p + 1) / 4 == p / 4 + (if (p + 1) % 4 == 0 then 1 else 0)
    ensures (p + 1) / 100 == p / 100 + (if (p + 1) % 100 == 0 then 1 else 0)
    ensures (p + 1) / 400 == p / 400 + (if (p + 1) % 400 == 0 then 1 else 0)
  {
  }

  lemma DivisibilityChain(p: int)
    ensures p % 400 == 0 ==> p % 100 == 0
    ensures p % 100 == 0 ==> p % 4 == 0
  {
    if p % 400 == 0 {
      MultipleOf(p, 100, 4 * (p / 400));
    }
    if p % 100 == 0 {
      MultipleOf(p, 4, 25 * (p / 100));
    }
  }

  lemma MultipleOf(x: int, c: int, k: int)
    requires c == 4 || c == 100
    requires x == c * k
    ensures x % c == 0
  {
    if c == 4 {
      assert x == 4 * k;
    } else {
      assert x == 100 * k;
    }
  }

  /** Consecutive years: year `y` contributes exactly its own length. */
  lemma DaysBeforeYearStep(y: int)
    ensures DaysBeforeYear(y + 1) == DaysBeforeYear(y) + DaysInYear(y)
  {
  }

  /** CPython's closed form `_days_before_year(y)`, with `p = y - 1` the number of whole years before. */
  function DaysBeforeYearFormula(p: int): int {
    365 * p + p / 4 - p / 100 + p / 400
  }

  /** The closed form grows by the length of the next year, leap days included. */
  lemma DaysBeforeYearFormulaStep(p: int)
    ensures DaysBeforeYearFormula(p) == DaysBeforeYearFormula(p - 1) + DaysInYear(p)
  {
    DivStep(p - 1);
    DivisibilityChain(p);
  }

  /** The count agrees with CPython's closed form `_days_before_year`. */
  lemma {:induction false} DaysBeforeYearClosedForm(y: int)
    requires y >= 1
    ensures DaysBeforeYear(y) == DaysBeforeYearFormula(y - 1)
    decreases y
  {
    if y > 1 {
      DaysBeforeYearClosedForm(y - 1);
      DaysBeforeYearFormulaStep(y - 1);
    }
  }

  lemma {:induction false} DaysBeforeYearMonotone(a: int, b: int)
    requires a <= b
    ensures DaysBeforeYear(a) + (b - a) * 365 <= DaysBeforeYear(b)
    decreases b - a
  {
    if a < b {
      DaysBeforeYearStep(a);
      DaysBeforeYearMonotone(a + 1, b);
    }
  }

  /** The ordinal of a date, as `date.toordinal()`: 0001-01-01 is 1. */
  function DayNumber(d: Date): (n: int)
    ensures n >= 1
  {
    DaysBeforeYearStep(d.year);
    DaysBeforeMonthStep(d.year, d.month);
    DaysBeforeMonthMonotone(d.year, d.month, 13);
    DaysBeforeYearMonotone(1, d.year);
    DaysBeforeYear(d.year) + DaysBeforeMonth(d.year, d.month) + d.day
  }

  /** A date's ordinal lies within the days of its year. */
  lemma DayNumberInYear(d: Date)
    ensures DaysBeforeYear(d.year) < DayNumber(d) <= DaysBeforeYear(d.year + 1)
  {
    DaysBeforeYearStep(d.year);
    DaysBeforeMonthStep(d.year, d.month);
    DaysBeforeMonthMonotone(d.year, d.month, 13);
  }

  /** The year whose days contain ordinal `n`, searched upwards from `y`. */
  function YearFrom(n: int, y: int): (r: int)
    requires DaysBeforeYear(y) < n
    ensures r >= y && DaysBeforeYear(r) < n <= DaysBeforeYear(r + 1)
    decreases n - DaysBeforeYear(y)
  {
    DaysBeforeYearStep(y);
    if n <= DaysBeforeYear(y + 1) then y else YearFrom(n, y + 1)
  }

  /** The month of year `y` whose days contain day-of-year `k` (1-based), searched upwards from `m`. */
  function MonthFrom(y: int, k: int, m: int): (r: int)
    requires 1 <= m <= 12 && DaysBeforeMonth(y, m) < k <= DaysInYear(y)
    ensures m <= r <= 12 && DaysBeforeMonth(y, r) < k <= DaysBeforeMonth(y, r + 1)
    decreases 12 - m
  {
    DaysBeforeMonthStep(y, m);
    if k <= DaysBeforeMonth(y, m + 1) || m == 12 then m else MonthFrom(y, k, m + 1)
  }

  /** The date with ordinal `n`, as `date.fromordinal(n)`. */
  function FromDayNumber(n: int): (d: Date)
    requires n >= 1
    ensures DayNumber(d) == n
  {
    var y := YearFrom(n, 1);
    var k := n - DaysBeforeYear(y);
    DaysBeforeYearStep(y);
    DaysBeforeMonthStep(y, 1);
    var m := MonthFrom(y, k, 1);
    DaysBeforeMonthStep(y, m);
    var d := Ymd(y, m, k - DaysBeforeMonth(y, m));
    d
  }

  /** The ordinal alone decides the year of a date. */
  lemma YearOfDayNumber(d: Date, y: int)
    requires DaysBeforeYear(y) < DayNumber(d) <= DaysBeforeYear(y + 1)
    ensures d.year == y
  {
    if d.year < y {
      DaysBeforeYearMonotone(d.year + 1, y);
      assert false;
    } else if y < d.year {
      DaysBeforeYearMonotone(y + 1, d.year);
      assert false;
    }
  }

  /** Ordinals of valid dates identify them: distinct dates have distinct ordinals. */
  lemma DayNumberInjective(a: Date, b: Date)
    requires DayNumber(a) == DayNumber(b)
    ensures a == b
  {
    YearOfDayNumber(b, a.year);
    if a.month < b.month {
      DaysBeforeMonthMonotone(a.year, a.month, b.month);
      assert false;
    } else if b.month < a.month {
      DaysBeforeMonthMonotone(a.year, b.month, a.month);
      assert false;
    }
  }

  /** `date.fromordinal(d.toordinal()) == d`. */
  lemma FromDayNumberOfDayNumber(d: Date)
    ensures FromDayNumber(DayNumber(d)) == d
  {
    DayNumberInjective(FromDayNumber(DayNumber(d)), d);
  }

  /** `d + timedelta(days = k)`. */
  function PlusDays(d: Date, k: int): (r: Date)
    requires DayNumber(d) + k >= 1
    ensures DayNumber(r) == DayNumber(d) + k
  {
    FromDayNumber(DayNumber(d) + k)
  }

  /** Python's `a < b` on dates: the (year, month, day) tuples in lexicographic order. */
  predicate Before(a: Date, b: Date) {
    a.year < b.year || (a.year == b.year && (a.month < b.month || (a.month == b.month && a.day < b.day)))
  }

  /** Date order is ordinal order, so date loops can be reasoned about by ordinals. */
  lemma BeforeIsOrdinalOrder(a: Date, b: Date)
    ensures Before(a, b) <==> DayNumber(a) < DayNumber(b)
  {
    if a.year < b.year {
      DaysBeforeYearMonotone(a.year + 1, b.year);
    } else if b.year < a.year {
      DaysBeforeYearMonotone(b.year + 1, a.year);
    } else if a.month < b.month {
      DaysBeforeMonthMonotone(a.year, a.month, b.month);
    } else if b.month < a.month {
      DaysBeforeMonthMonotone(a.year, b.month, a.month);
    }
  }

  /** Adding a multiple of seven does not change a remainder modulo seven. */
  lemma ModSeven(x: int, k: int, t: int)
    requires x == 7 * k + t && 0 <= t < 7
    ensures x % 7 == t && x / 7 == k
  {
  }

  /** Two numbers with the same remainder modulo seven and less than seven apart are equal. */
  lemma SameResidueClose(a: int, b: int, n: int)
    requires (a + 6) % 7 == (b + 6) % 7
    requires n - 6 <= a <= n && n - 6 <= b <= n
    ensures a == b
  {
    var ka, kb := (a + 6) / 7, (b + 6) / 7;
    assert a + 6 == 7 * ka + (a + 6) % 7;
    assert b + 6 == 7 * kb + (b + 6) % 7;
    assert -1 < ka - kb < 1;
  }

  lemma ModSevenShift(a: int, b: int)
    ensures (a + b) % 7 == (a % 7 + b) % 7
  {
    var q, r := a / 7, a % 7;
    var s, t := (r + b) / 7, (r + b) % 7;
    ModSeven(a + b, q + s, t);
  }

  /** `date.weekday()`: Monday is 0, Sunday is 6 (0001-01-01 was a Monday). */
  function Weekday(d: Date): int {
    (DayNumber(d) + 6) % 7
  }

  /** `date.isoweekday()`, the `%u` of strftime: Monday is 1, Sunday is 7. */
  function IsoWeekday(d: Date): (w: int)
    ensures 1 <= w <= 7
  {
    if DayNumber(d) % 7 == 0 then 7 else DayNumber(d) % 7
  }

  lemma IsoWeekdayIsWeekdayPlusOne(d: Date)
    ensures IsoWeekday(d) == Weekday(d) + 1
  {
    var n := DayNumber(d);
    ModSevenShift(n, 6);
    ModSeven(n % 7 + 6, if n % 7 == 0 then 0 else 1, if n % 7 == 0 then 6 else n % 7 - 1);
  }

  /** Consecutive days have consecutive weekdays, Sunday being followed by Monday. */
  lemma WeekdayOfPlusDays(d: Date, k: int)
    requires DayNumber(d) + k >= 1
    ensures Weekday(PlusDays(d, k)) == (Weekday(d) + k) % 7
  {
    WeekdayAfter(d, PlusDays(d, k), k);
  }

  /** A date `k` days after `a` falls `k` weekdays later, modulo seven. */
  lemma WeekdayAfter(a: Date, b: Date, k: int)
    requires DayNumber(b) == DayNumber(a) + k
    ensures Weekday(b) == (Weekday(a) + k) % 7
  {
    ResidueAfter(DayNumber(a), DayNumber(b), k);
  }

  lemma ResidueAfter(n: int, m: int, k: int)
    requires m == n + k
    ensures (m + 6) % 7 == ((n + 6) % 7 + k) % 7
  {
    ModSevenShift(n + 6, k);
  }

  /** Stepping back by the weekday from ordinal `n` lands on a Monday, and never before day 1. */
  lemma WeekdayResidue(n: int)
    ensures MondayBack(n, (n + 6) % 7)
    ensures n >= 1 ==> n - (n + 6) % 7 >= 1
  {
    ModSeven(n + 6, (n + 6) / 7, (n + 6) % 7);
    ModSeven(n - (n + 6) % 7 + 6, (n + 6) / 7, 0);
  }

  /** Week start used for bucketing rows: `day - timedelta(days = day.weekday())`. */
  function WeekStart(d: Date): (r: Date)
    ensures Weekday(r) == 0
    ensures DayNumber(d) - 6 <= DayNumber(r) <= DayNumber(d)
  {
    WeekdayResidue(DayNumber(d));
    var r := FromDayNumber(DayNumber(d) - Weekday(d));
    MondayAt(d, r);
    r
  }

  /** A date whose ordinal is `d`'s minus `d`'s weekday is the Monday of `d`'s week. */
  lemma MondayAt(d: Date, r: Date)
    requires DayNumber(r) == DayNumber(d) - Weekday(d)
    ensures Weekday(r) == 0
    ensures DayNumber(d) - 6 <= DayNumber(r) <= DayNumber(d)
  {
    WeekdayResidue(DayNumber(d));
  }

  /** Week start computed from the ISO weekday: `day - timedelta(days = weekday(day) - 1)`. */
  function WeekStartIso(d: Date): (r: Date)
    ensures IsoWeekday(r) == 1
    ensures DayNumber(d) - 6 <= DayNumber(r) <= DayNumber(d)
  {
    IsoWeekdayIsWeekdayPlusOne(d);
    WeekdayResidue(DayNumber(d));
    var r := FromDayNumber(DayNumber(d) - (IsoWeekday(d) - 1));
    IsoMondayAt(d, r);
    r
  }

  /** A date whose ordinal is `d`'s minus `d`'s ISO weekday less one is the Monday of `d`'s week. */
  lemma IsoMondayAt(d: Date, r: Date)
    requires DayNumber(r) == DayNumber(d) - (IsoWeekday(d) - 1)
    ensures IsoWeekday(r) == 1
    ensures DayNumber(d) - 6 <= DayNumber(r) <= DayNumber(d)
  {
    IsoWeekdayIsWeekdayPlusOne(d);
    IsoWeekdayIsWeekdayPlusOne(r);
    MondayAt(d, r);
  }

  /** The two week-start helpers agree on every date. */
  lemma WeekStartsAgree(d: Date)
    ensures WeekStart(d) == WeekStartIso(d)
  {
    IsoWeekdayIsWeekdayPlusOne(d);
  }

  /** The week start is the only Monday in the seven days ending at `d`. */
  lemma WeekStartUnique(d: Date, m: Date)
    requires Weekday(m) == 0 && DayNumber(d) - 6 <= DayNumber(m) <= DayNumber(d)
    ensures m == WeekStart(d)
  {
    MondaysClose(d, m, WeekStart(d));
  }

  /** Two Mondays in the seven days ending at `d` are the same date. */
  lemma MondaysClose(d: Date, m: Date, r: Date)
    requires Weekday(m) == 0 && DayNumber(d) - 6 <= DayNumber(m) <= DayNumber(d)
    requires Weekday(r) == 0 && DayNumber(d) - 6 <= DayNumber(r) <= DayNumber(d)
    ensures m == r
  {
    SameResidueClose(DayNumber(m), DayNumber(r), DayNumber(d));
    DayNumberInjective(m, r);
  }

  /** A week start is its own week start, and so is every later day of its week. */
  lemma WeekStartOfWeekDay(m: Date, k: int)
    requires Weekday(m) == 0 && 0 <= k <= 6
    ensures WeekStart(PlusDays(m, k)) == m
  {
    WeekStartUnique(PlusDays(m, k), m);
  }

  /** Two dates share a week start exactly when their Mondays coincide. */
  lemma SameWeekIffSameMonday(a: Date, b: Date)
    ensures WeekStart(a) == WeekStart(b) <==> DayNumber(a) - Weekday(a) == DayNumber(b) - Weekday(b)
  {
    if WeekStart(a) == WeekStart(b) {
    } else if DayNumber(a) - Weekday(a) == DayNumber(b) - Weekday(b) {
      DayNumberInjective(WeekStart(a), WeekStart(b));
    }
  }

  function Jan1(y: int): Date
    requires y >= 1
  {
    Ymd(y, 1, 1)
  }

  function Dec31(y: int): Date
    requires y >= 1
  {
    Ymd(y, 12, 31)
  }

  lemma YearBounds(y: int)
    requires y >= 1
    ensures DayNumber(Jan1(y)) == DaysBeforeYear(y) + 1
    ensures DayNumber(Dec31(y)) == DaysBeforeYear(y + 1)
    ensures DayNumber(Jan1(y + 1)) == DayNumber(Jan1(y)) + DaysInYear(y)
  {
    DaysBeforeYearStep(y);
  }

  /**
   * All dates of year `y` in calendar order:
   * `[date(y, 1, 1) + timedelta(days = i) for i in range((date(y + 1, 1, 1) - date(y, 1, 1)).days)]`.
   */
  function YearDays(y: int): (days: seq<Date>)
    requires y >= 1
    ensures |days| == DaysInYear(y)
    ensures forall i :: 0 <= i < |days| ==> DayNumber(days[i]) == DayNumber(Jan1(y)) + i
  {
    YearBounds(y);
    var n := DayNumber(Jan1(y + 1)) - DayNumber(Jan1(y));
    seq(n, i requires 0 <= i < n => PlusDays(Jan1(y), i))
  }

  /** A leap year has 366 enumerated days, any other year 365. */
  lemma YearDaysCount(y: int)
    requires y >= 1
    ensures |YearDays(y)| == (if IsLeapYear(y) then 366 else 365)
  {
  }

  /** The enumeration holds exactly the dates of the year, each once. */
  lemma YearDaysAreTheYear(y: int, d: Date)
    requires y >= 1
    ensures d in YearDays(y) <==> d.year == y
    ensures d.year == y ==> YearDays(y)[DayNumber(d) - DayNumber(Jan1(y))] == d
  {
    YearBounds(y);
    DaysOfYear(YearDays(y), y, d);
  }

  /** `YearDaysAreTheYear` for any list of dates numbered consecutively from January 1st to December 31st. */
  lemma DaysOfYear(days: seq<Date>, y: int, d: Date)
    requires y >= 1 && |days| == DaysBeforeYear(y + 1) - DaysBeforeYear(y)
    requires forall i :: 0 <= i < |days| ==> DayNumber(days[i]) == DaysBeforeYear(y) + 1 + i
    ensures d in days <==> d.year == y
    ensures d.year == y ==> days[DayNumber(d) - (DaysBeforeYear(y) + 1)] == d
  {
    if d in days {
      var i :| 0 <= i < |days| && days[i] == d;
      YearOfDayNumber(d, y);
    }
    if d.year == y {
      DayNumberInYear(d);
      var i := DayNumber(d) - (DaysBeforeYear(y) + 1);
      DayNumberInjective(days[i], d);
    }
  }

  /** Ordinal of the Monday that starts week 1 of ISO year `y`, as CPython's `_isoweek1monday`. */
  function IsoWeek1Monday(y: int): int {
    var firstDay := DaysBeforeYear(y) + 1;
    var firstWeekday := (firstDay + 6) % 7;
    var monday := firstDay - firstWeekday;
    if firstWeekday > 3 then monday + 7 else monday
  }

  /** Ordinal of the Thursday of the Monday-to-Sunday week holding `d`. */
  function ThursdayOrdinal(d: Date): (m3: int)
    ensures m3 >= 4
  {
    WeekdayResidue(DayNumber(d));
    DayNumber(d) - Weekday(d) + 3
  }

  /** The year holding ordinal `n`, as `date.fromordinal(n).year`. */
  function YearOfOrdinal(n: int): (y: int)
    requires n >= 1
    ensures y >= 1 && DaysBeforeYear(y) < n <= DaysBeforeYear(y + 1)
  {
    YearFrom(n, 1)
  }

  /**
   * ISO 8601 week number (section 4.1.4 of ISO 8601:2004), the `%V` of strftime: a week
   * belongs to the year that holds its Thursday, and week 1 is the week of that year's
   * first Thursday, so the week number counts the Thursday's week from January 1st.
   */
  function IsoWeekNumber(d: Date): (w: int)
    ensures 1 <= w <= 53
  {
    var m3 := ThursdayOrdinal(d);
    DaysBeforeYearStep(YearOfOrdinal(m3));
    ThursdayWeek(m3, DaysBeforeYear(YearOfOrdinal(m3)) + 1)
  }

  /** The week number as CPython's `date.isocalendar()[1]` computes it. */
  function IsoCalendarWeek(d: Date): int {
    CalendarWeekOf(DayNumber(d), IsoWeek1Monday(d.year - 1), IsoWeek1Monday(d.year), IsoWeek1Monday(d.year + 1))
  }

  /**
   * CPython's branches on ordinals: the week count from `w`, week 1's Monday of the day's
   * own year, falls back to the previous year's (`wPrev`) or moves on to the next one's (`wNext`).
   */
  function CalendarWeekOf(n: int, wPrev: int, w: int, wNext: int): int {
    var week := (n - w) / 7;
    if week < 0 then (n - wPrev) / 7 + 1
    else if week >= 52 && n >= wNext then 1
    else week + 1
  }

  /** The week, counted from 1, of the Thursday with ordinal `m3` in the year starting at ordinal `start`. */
  function ThursdayWeek(m3: int, start: int): int {
    (m3 - start) / 7 + 1
  }

  /** `w` is a Monday whose Thursday is among the seven days starting at ordinal `f`. */
  predicate WeekOneMonday(w: int, f: int) {
    (w + 6) % 7 == 0 && f <= w + 3 <= f + 6
  }

  /** `n - wd` is a Monday, `wd` days back from `n`. */
  predicate MondayBack(n: int, wd: int) {
    0 <= wd <= 6 && (n - wd + 6) % 7 == 0
  }

  /**
   * The Thursday `m3` lies in the year before (`shift` = -1), the same year (0) or the next (1),
   * those years starting at `fPrev`, `f` and `fNext`; `fThu` is where the Thursday's year starts.
   */
  predicate ThursdayPlaced(m3: int, shift: int, fPrev: int, f: int, fNext: int, fThu: int) {
    && -1 <= shift <= 1
    && fThu == (if shift < 0 then fPrev else if shift == 0 then f else fNext)
    && (shift < 0 ==> fPrev <= m3 < f)
    && (shift == 0 ==> f <= m3 < fNext)
    && (shift > 0 ==> fNext <= m3)
  }

  /** The facts about a day's ordinals that CPython's week count and the Thursday rule are compared on. */
  predicate AgreementInputs(n: int, wd: int, fPrev: int, f: int, fNext: int, shift: int, fThu: int,
                            wPrev: int, w: int, wNext: int) {
    && MondayBack(n, wd)
    && WeekOneMonday(wPrev, fPrev) && WeekOneMonday(w, f) && WeekOneMonday(wNext, fNext)
    && YearSpan(n, f, fNext)
    && ThursdayPlaced(n - wd + 3, shift, fPrev, f, fNext, fThu)
  }

  /** Ordinal `n` lies in a year of at least 365 days, starting at `f` and followed by `fNext`. */
  predicate YearSpan(n: int, f: int, fNext: int) {
    f <= n < fNext && fNext >= f + 365
  }

  /** Week 1 of every ISO year starts on a Monday whose Thursday is among the first seven days of January. */
  lemma IsoWeek1MondayIsFirstThursdayWeek(y: int)
    ensures WeekOneMonday(IsoWeek1Monday(y), DaysBeforeYear(y) + 1)
  {
    var f := DaysBeforeYear(y) + 1;
    ModSeven(f + 6, (f + 6) / 7, (f + 6) % 7);
    ModSeven(f - (f + 6) % 7 + 6, (f + 6) / 7, 0);
    ModSeven(f - (f + 6) % 7 + 13, (f + 6) / 7 + 1, 0);
  }

  /** Counting weeks from week 1's Monday or from January 1st gives the same index for a week's Thursday. */
  lemma WeekIndex(m: int, w: int, f: int, wd: int)
    requires (m + 6) % 7 == 0 && (w + 6) % 7 == 0
    requires f <= w + 3 <= f + 6 && 0 <= wd <= 6
    ensures (m + 3 - f) / 7 == (m + wd - w) / 7
    ensures m + 3 >= f <==> m + wd >= w
  {
    var a, b := (m + 6) / 7, (w + 6) / 7;
    assert m == 7 * a - 6 && w == 7 * b - 6;
    ModSeven(m + 3 - f, a - b, w + 3 - f);
    ModSeven(m + wd - w, a - b, wd);
  }

  /** CPython's week count for a day whose Thursday lies in the same year, `f` to `fNext - 1`. */
  lemma IsoWeekSameYear(n: int, wd: int, f: int, fNext: int, w: int, wNext: int)
    requires 0 <= wd <= 6 && (n - wd + 6) % 7 == 0
    requires (w + 6) % 7 == 0 && f <= w + 3 <= f + 6
    requires (wNext + 6) % 7 == 0 && fNext <= wNext + 3 <= fNext + 6
    requires f <= n - wd + 3 < fNext
    ensures 0 <= (n - w) / 7 && n < wNext
    ensures (n - wd + 3 - f) / 7 == (n - w) / 7
  {
    WeekIndex(n - wd, w, f, wd);
    WeekIndex(n - wd, wNext, fNext, wd);
  }

  /** CPython's week count for a day whose Thursday lies in the next year, starting at `fNext`. */
  lemma IsoWeekNextYear(n: int, wd: int, f: int, fNext: int, w: int, wNext: int)
    requires 0 <= wd <= 6 && (n - wd + 6) % 7 == 0
    requires (w + 6) % 7 == 0 && f <= w + 3 <= f + 6
    requires (wNext + 6) % 7 == 0 && fNext <= wNext + 3 <= fNext + 6
    requires fNext >= f + 365 && n < fNext && fNext <= n - wd + 3
    ensures (n - w) / 7 >= 52 && n >= wNext
    ensures (n - wd + 3 - fNext) / 7 == 0
  {
    WeekIndex(n - wd, wNext, fNext, wd);
    var a, b := (w + 6) / 7, (wNext + 6) / 7;
    assert w == 7 * a - 6 && wNext == 7 * b - 6;
    assert b - a >= 52;
    ModSeven(n - w, (b - a) + (n - wNext) / 7, (n - wNext) % 7);
    ModSeven(n - wd + 3 - fNext, 0, n - wd + 3 - fNext);
  }

  /** Only year `y` holds the ordinals after its first day's predecessor up to its last day. */
  lemma YearOfOrdinalIs(n: int, y: int)
    requires n >= 1 && DaysBeforeYear(y) < n <= DaysBeforeYear(y + 1)
    ensures YearOfOrdinal(n) == y
  {
    var r := YearOfOrdinal(n);
    if r < y {
      DaysBeforeYearMonotone(r + 1, y);
      assert false;
    } else if y < r {
      DaysBeforeYearMonotone(y + 1, r);
      assert false;
    }
  }

  /** A week's Thursday is at most three days away, so it lies in the year before, the same year or the next. */
  lemma ThursdayYear(d: Date)
    ensures d.year - 1 <= YearOfOrdinal(ThursdayOrdinal(d)) <= d.year + 1
  {
    var ty := YearOfOrdinal(ThursdayOrdinal(d));
    DayNumberInYear(d);
    DaysBeforeYearStep(d.year - 1);
    DaysBeforeYearStep(d.year + 1);
    if ty < d.year - 1 {
      DaysBeforeYearMonotone(ty + 1, d.year - 1);
      assert false;
    } else if ty > d.year + 1 {
      DaysBeforeYearMonotone(d.year + 2, ty);
      assert false;
    }
  }

  /** The agreement on ordinals, one case per year that can hold the week's Thursday. */
  lemma CalendarWeekIsThursdayWeek(n: int, wd: int, fPrev: int, f: int, fNext: int, shift: int, fThu: int,
                                   wPrev: int, w: int, wNext: int)
    ensures AgreementInputs(n, wd, fPrev, f, fNext, shift, fThu, wPrev, w, wNext) ==>
              CalendarWeekOf(n, wPrev, w, wNext) == ThursdayWeek(n - wd + 3, fThu)
  {
    if !AgreementInputs(n, wd, fPrev, f, fNext, shift, fThu, wPrev, w, wNext) {
    } else if shift < 0 {
      WeekIndex(n - wd, w, f, wd);
      IsoWeekSameYear(n, wd, fPrev, f, wPrev, w);
    } else if shift == 0 {
      IsoWeekSameYear(n, wd, f, fNext, w, wNext);
    } else {
      IsoWeekNextYear(n, wd, f, fNext, w, wNext);
    }
  }

  /** The ISO week number by the Thursday rule agrees with CPython's `isocalendar()` on every date. */
  lemma IsoWeekNumberIsIsoCalendarWeek(d: Date)
    ensures IsoWeekNumber(d) == IsoCalendarWeek(d)
  {
    var shift, fThu := AgreementInputsOf(d);
    CalendarWeekIsThursdayWeek(DayNumber(d), Weekday(d),
      DaysBeforeYear(d.year - 1) + 1, DaysBeforeYear(d.year) + 1, DaysBeforeYear(d.year + 1) + 1, shift, fThu,
      IsoWeek1Monday(d.year - 1), IsoWeek1Monday(d.year), IsoWeek1Monday(d.year + 1));
  }

  /** The comparison's facts hold for the ordinals of every date. */
  lemma AgreementInputsOf(d: Date) returns (shift: int, fThu: int)
    ensures fThu == DaysBeforeYear(YearOfOrdinal(ThursdayOrdinal(d))) + 1
    ensures AgreementInputs(DayNumber(d), Weekday(d),
      DaysBeforeYear(d.year - 1) + 1, DaysBeforeYear(d.year) + 1, DaysBeforeYear(d.year + 1) + 1, shift, fThu,
      IsoWeek1Monday(d.year - 1), IsoWeek1Monday(d.year), IsoWeek1Monday(d.year + 1))
  {
    shift, fThu := ThursdayOrdinals(d);
    WeekdayMondayBack(d);
    YearSpanOf(d);
    IsoWeek1MondayIsFirstThursdayWeek(d.year - 1);
    IsoWeek1MondayIsFirstThursdayWeek(d.year);
    IsoWeek1MondayIsFirstThursdayWeek(d.year + 1);
    AgreementInputsIntro(DayNumber(d), Weekday(d),
      DaysBeforeYear(d.year - 1) + 1, DaysBeforeYear(d.year) + 1, DaysBeforeYear(d.year + 1) + 1, shift, fThu,
      IsoWeek1Monday(d.year - 1), IsoWeek1Monday(d.year), IsoWeek1Monday(d.year + 1));
  }

  lemma AgreementInputsIntro(n: int, wd: int, fPrev: int, f: int, fNext: int, shift: int, fThu: int,
                             wPrev: int, w: int, wNext: int)
    requires MondayBack(n, wd) && YearSpan(n, f, fNext)
    requires WeekOneMonday(wPrev, fPrev) && WeekOneMonday(w, f) && WeekOneMonday(wNext, fNext)
    requires ThursdayPlaced(n - wd + 3, shift, fPrev, f, fNext, fThu)
    ensures AgreementInputs(n, wd, fPrev, f, fNext, shift, fThu, wPrev, w, wNext)
  {
  }

  /** A date's weekday steps back to the Monday of its week. */
  lemma WeekdayMondayBack(d: Date)
    ensures MondayBack(DayNumber(d), Weekday(d))
  {
    WeekdayResidue(DayNumber(d));
  }

  lemma YearSpanOf(d: Date)
    ensures YearSpan(DayNumber(d), DaysBeforeYear(d.year) + 1, DaysBeforeYear(d.year + 1) + 1)
  {
    DaysBeforeYearStep(d.year);
    DayNumberInYear(d);
  }

  /** Which of the three years around `d` holds its week's Thursday, and where that year starts. */
  lemma ThursdayOrdinals(d: Date) returns (shift: int, fThu: int)
    ensures fThu == DaysBeforeYear(YearOfOrdinal(ThursdayOrdinal(d))) + 1
    ensures ThursdayPlaced(DayNumber(d) - Weekday(d) + 3, shift, DaysBeforeYear(d.year - 1) + 1,
                           DaysBeforeYear(d.year) + 1, DaysBeforeYear(d.year + 1) + 1, fThu)
  {
    shift := YearOfOrdinal(ThursdayOrdinal(d)) - d.year;
    fThu := DaysBeforeYear(YearOfOrdinal(ThursdayOrdinal(d))) + 1;
    ThursdayYear(d);
    if shift < 0 {
      assert YearOfOrdinal(ThursdayOrdinal(d)) == d.year - 1;
      assert YearOfOrdinal(ThursdayOrdinal(d)) + 1 == d.year;
    } else if shift == 0 {
      assert YearOfOrdinal(ThursdayOrdinal(d)) == d.year;
    } else {
      assert YearOfOrdinal(ThursdayOrdinal(d)) == d.year + 1;
    }
  }

  /** All seven days of a Monday-to-Sunday week carry the same ISO week number. */
  lemma IsoWeekNumberConstantOverWeek(m: Date, k: int)
    requires Weekday(m) == 0 && 0 <= k <= 6
    ensures IsoWeekNumber(PlusDays(m, k)) == IsoWeekNumber(m)
  {
    WeekdayOfPlusDays(m, k);
    ModSeven(k, 0, k);
    assert ThursdayOrdinal(PlusDays(m, k)) == ThursdayOrdinal(m);
  }

  /** January 4th always lies in week 1, the ISO rule's anchor. */
  lemma January4InWeekOne(y: int)
    requires y >= 1
    ensures IsoWeekNumber(Ymd(y, 1, 4)) == 1
  {
    var d: Date := Ymd(y, 1, 4);
    YearBounds(y);
    assert DayNumber(d) == DaysBeforeYear(y) + 4;
    YearOfOrdinalIs(ThursdayOrdinal(d), y);
  }

  /** A day has the ISO week number of the Monday that starts its week. */
  lemma WeekStartSameIsoWeek(d: Date)
    ensures IsoWeekNumber(WeekStart(d)) == IsoWeekNumber(d)
  {
    assert ThursdayOrdinal(WeekStart(d)) == ThursdayOrdinal(d);
  }
}
