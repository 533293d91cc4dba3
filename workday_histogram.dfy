/**
 * The read loop of the work-day histogram: the hours of every row whose day
 * parses are added to its date in one of three dictionaries, for Monday to
 * Friday, for Saturdays and for Sundays.
 */
module WorkdayHistogram {
  import opened Wrappers
  import opened Calendar
  import opened DateParse
  import opened Buckets
  import opened Tallies
  import opened DayHours

  /** The three dictionaries: `weekday_hours`, `saturday_hours`, `sunday_hours`. */
  datatype DayKind = WorkDay | Saturday | Sunday

  /** The dictionary a date's hours go to, by `date.weekday()`. */
  function KindOf(d: Date): DayKind {
    var wd := Weekday(d);
    if wd < 5 then WorkDay else if wd == 5 then Saturday else Sunday
  }

  /** A row's date when it goes to the dictionary of `kind`, for rows whose dates `dateOf` reads. */
  function OfKind<T>(dateOf: T -> Option<Date>, kind: DayKind): T -> Option<Date> {
    r => if dateOf(r).Some? && KindOf(dateOf(r).value) == kind then dateOf(r) else None
  }

  /** A row's date when it goes to the dictionary of `kind`. */
  function DateOfKind(kind: DayKind): HoursRow -> Option<Date> {
    OfKind(DateOf, kind)
  }

  /**
   * The loop: a row with an empty day or a day that parses in neither format
   * is skipped; any other row adds its hours to its date in the dictionary
   * that the date's weekday selects.
   */
  method SplitHours(rows: seq<HoursRow>) returns (weekdayHours: map<Date, real>, saturdayHours: map<Date, real>, sundayHours: map<Date, real>)
    ensures weekdayHours == Tally(rows, DateOfKind(WorkDay), HoursOf, |rows|)
    ensures saturdayHours == Tally(rows, DateOfKind(Saturday), HoursOf, |rows|)
    ensures sundayHours == Tally(rows, DateOfKind(Sunday), HoursOf, |rows|)
  {
    weekdayHours, saturdayHours, sundayHours := SplitRows(rows, DateOf, HoursOf);
  }

  /**
   * The loop for rows whose date (`None`: skipped) `dateOf` reads and whose
   * hours `hoursOf` reads; for the rows of the CSV these are the two-format
   * parse of the row's day and its `Duration adjusted (hours)`.
   */
  method SplitRows<T>(rows: seq<T>, dateOf: T -> Option<Date>, hoursOf: T -> real)
    returns (weekdayHours: map<Date, real>, saturdayHours: map<Date, real>, sundayHours: map<Date, real>)
    ensures weekdayHours == Tally(rows, OfKind(dateOf, WorkDay), hoursOf, |rows|)
    ensures saturdayHours == Tally(rows, OfKind(dateOf, Saturday), hoursOf, |rows|)
    ensures sundayHours == Tally(rows, OfKind(dateOf, Sunday), hoursOf, |rows|)
  {
    weekdayHours, saturdayHours, sundayHours := map[], map[], map[];
    var i := 0;
    while i < |rows|
      invariant 0 <= i <= |rows|
      invariant weekdayHours == Tally(rows, OfKind(dateOf, WorkDay), hoursOf, i)
      invariant saturdayHours == Tally(rows, OfKind(dateOf, Saturday), hoursOf, i)
      invariant sundayHours == Tally(rows, OfKind(dateOf, Sunday), hoursOf, i)
    {
      var row := rows[i];
      var date := dateOf(row);
      if date.Some? {
        var d := date.value;
        var wd := Weekday(d);
        RoutedBy(dateOf, row);
        if wd < 5 {
          TallyAdded(rows, OfKind(dateOf, WorkDay), hoursOf, i, weekdayHours, d);
          TallySkipped(rows, OfKind(dateOf, Saturday), hoursOf, i, saturdayHours);
          TallySkipped(rows, OfKind(dateOf, Sunday), hoursOf, i, sundayHours);
          weekdayHours := weekdayHours[d := Get(weekdayHours, d) + hoursOf(row)];
        } else if wd == 5 {
          TallyAdded(rows, OfKind(dateOf, Saturday), hoursOf, i, saturdayHours, d);
          TallySkipped(rows, OfKind(dateOf, WorkDay), hoursOf, i, weekdayHours);
          TallySkipped(rows, OfKind(dateOf, Sunday), hoursOf, i, sundayHours);
          saturdayHours := saturdayHours[d := Get(saturdayHours, d) + hoursOf(row)];
        } else if wd == 6 {
          TallyAdded(rows, OfKind(dateOf, Sunday), hoursOf, i, sundayHours, d);
          TallySkipped(rows, OfKind(dateOf, WorkDay), hoursOf, i, weekdayHours);
          TallySkipped(rows, OfKind(dateOf, Saturday), hoursOf, i, saturdayHours);
          sundayHours := sundayHours[d := Get(sundayHours, d) + hoursOf(row)];
        }
      } else {
        RoutedBy(dateOf, row);
        TallySkipped(rows, OfKind(dateOf, WorkDay), hoursOf, i, weekdayHours);
        TallySkipped(rows, OfKind(dateOf, Saturday), hoursOf, i, saturdayHours);
        TallySkipped(rows, OfKind(dateOf, Sunday), hoursOf, i, sundayHours);
      }
      i := i + 1;
    }
  }

  /** Which of the three dictionaries a row goes to, if any. */
  lemma RoutedBy<T>(dateOf: T -> Option<Date>, r: T)
    ensures OfKind(dateOf, WorkDay)(r) == if dateOf(r).Some? && Weekday(dateOf(r).value) < 5 then dateOf(r) else None
    ensures OfKind(dateOf, Saturday)(r) == if dateOf(r).Some? && Weekday(dateOf(r).value) == 5 then dateOf(r) else None
    ensures OfKind(dateOf, Sunday)(r) == if dateOf(r).Some? && Weekday(dateOf(r).value) == 6 then dateOf(r) else None
  {
  }

  /**
   * A date is a key of the dictionary its weekday selects exactly when it has
   * rows, and of no other; its value there is the sum of its rows' hours.
   */
  lemma SplitOfDate(rows: seq<HoursRow>, kind: DayKind, d: Date)
    ensures d in Tally(rows, DateOfKind(kind), HoursOf, |rows|) <==> KindOf(d) == kind && HasRows(rows, d)
    ensures Get(Tally(rows, DateOfKind(kind), HoursOf, |rows|), d) == if KindOf(d) == kind then HoursOn(rows, d) else 0.0
  {
    var key, n := DateOfKind(kind), |rows|;
    TallyDomain(rows, key, HoursOf, n, d);
    TallyValue(rows, key, HoursOf, n, d);
    assert rows[..n] == rows;
    forall r: HoursRow
      ensures key(r) == Some(d) <==> KindOf(d) == kind && DateOf(r) == Some(d)
    {
      assert key(r) == if DateOf(r).Some? && KindOf(DateOf(r).value) == kind then DateOf(r) else None;
    }
    if KindOf(d) == kind {
      forall r | r in rows
        ensures Share(key, HoursOf, d)(r) == HoursOnDate(d)(r)
      {
        assert Share(key, HoursOf, d)(r) == if key(r) == Some(d) then HoursOf(r) else 0.0;
        assert HoursOnDate(d)(r) == if DateOf(r) == Some(d) then r.hours else 0.0;
      }
      RealSumCongruent(rows, Share(key, HoursOf, d), HoursOnDate(d));
    } else {
      NoShare(rows, key, HoursOf, d);
    }
  }

  /**
   * Every date with rows is a key of exactly one of the three dictionaries:
   * Monday to Friday of the first, Saturday of the second, Sunday of the third.
   */
  lemma ExactlyOneDictionary(rows: seq<HoursRow>, d: Date)
    requires HasRows(rows, d)
    ensures var w := Tally(rows, DateOfKind(WorkDay), HoursOf, |rows|);
      var sa := Tally(rows, DateOfKind(Saturday), HoursOf, |rows|);
      var su := Tally(rows, DateOfKind(Sunday), HoursOf, |rows|);
      (d in w <==> Weekday(d) < 5) && (d in sa <==> Weekday(d) == 5) && (d in su <==> Weekday(d) == 6) &&
      (d in w || d in sa || d in su) && !(d in w && d in sa) && !(d in w && d in su) && !(d in sa && d in su)
  {
    SplitOfDate(rows, WorkDay, d);
    SplitOfDate(rows, Saturday, d);
    SplitOfDate(rows, Sunday, d);
  }

  /** What a row contributes in all: its hours when its day parses, nothing when it is skipped. */
  function ParsedHours(r: HoursRow): real {
    if DateOf(r).Some? then r.hours else 0.0
  }

  /** The sum of a dictionary's values, in its key order. */
  function Total(rows: seq<HoursRow>, kind: DayKind): real {
    RealSum(TallyOrder(rows, DateOfKind(kind), |rows|), ValueIn(Tally(rows, DateOfKind(kind), HoursOf, |rows|)))
  }

  /** Nothing is lost or counted twice: the three dictionaries hold the hours of all rows whose day parses. */
  lemma SplitConservesHours(rows: seq<HoursRow>)
    ensures Total(rows, WorkDay) + Total(rows, Saturday) + Total(rows, Sunday) == RealSum(rows, ParsedHours)
  {
    TallyTotal(rows, DateOfKind(WorkDay), HoursOf, |rows|);
    TallyTotal(rows, DateOfKind(Saturday), HoursOf, |rows|);
    TallyTotal(rows, DateOfKind(Sunday), HoursOf, |rows|);
    assert rows[..|rows|] == rows;
    var w, sa, su := Counted(DateOfKind(WorkDay), HoursOf), Counted(DateOfKind(Saturday), HoursOf), Counted(DateOfKind(Sunday), HoursOf);
    var weekend := (r: HoursRow) => sa(r) + su(r);
    RealSumAdd(rows, sa, su, weekend);
    forall r | r in rows
      ensures ParsedHours(r) == w(r) + weekend(r)
    {
      if DateOf(r).Some? {
        var kind := KindOf(DateOf(r).value);
        assert kind == WorkDay || kind == Saturday || kind == Sunday;
      }
    }
    RealSumAdd(rows, w, weekend, ParsedHours);
  }
}
