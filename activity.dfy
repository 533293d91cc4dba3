/**
 * One activity of the time-tracking export, as `Activity.__init__` builds it
 * from a CSV row: its day, a start and an end time on that day, and a
 * duration, with the end recomputed from the start when the three disagree.
 */
module Activities {
  import opened Wrappers
  import opened Calendar
  import opened DateParse
  import opened Durations

  /** Seconds since midnight. */
  type TimeOfDay = t: int | 0 <= t < 86400

  /** A naive `datetime.datetime` to the second. */
  datatype DateTime = DateTime(date: Date, time: TimeOfDay)

  /** Seconds since the start of day 0 of the proleptic calendar: `datetime` subtraction is subtraction of these. */
  function Instant(t: DateTime): int {
    DayNumber(t.date) * 86400 + t.time
  }

  /** The moment `n` seconds after the start of day 0. */
  function FromInstant(n: int): (t: DateTime)
    requires n >= 86400
    ensures Instant(t) == n
  {
    DateTime(FromDayNumber(n / 86400), n % 86400)
  }

  /** `t + timedelta(seconds = secs)`. */
  function Plus(t: DateTime, secs: nat): (r: DateTime)
    ensures Instant(r) == Instant(t) + secs
  {
    FromInstant(Instant(t) + secs)
  }

  /** Moments are told apart by their instants. */
  lemma InstantInjective(a: DateTime, b: DateTime)
    requires Instant(a) == Instant(b)
    ensures a == b
  {
    DayOfInstant(a);
    DayOfInstant(b);
    DayNumberInjective(a.date, b.date);
  }

  // ---------------------------------------------------------------------------
  // Moving a parsed time to the activity's day

  /** `t.replace(year = y)`: fails when the same month and day do not exist in year `y`. */
  function ReplaceYear(t: DateTime, y: int): Option<DateTime> {
    match MakeDate(y, t.date.month, t.date.day)
    case None => None
    case Some(d) => Some(DateTime(d, t.time))
  }

  /** `t.replace(month = m)`: fails when the day does not exist in month `m`. */
  function ReplaceMonth(t: DateTime, m: int): Option<DateTime> {
    match MakeDate(t.date.year, m, t.date.day)
    case None => None
    case Some(d) => Some(DateTime(d, t.time))
  }

  /** `t.replace(day = k)`. */
  function ReplaceDay(t: DateTime, k: int): Option<DateTime> {
    match MakeDate(t.date.year, t.date.month, k)
    case None => None
    case Some(d) => Some(DateTime(d, t.time))
  }

  /**
   * The three `replace` calls one after the other, year first, then month, then
   * day, as the constructor makes them: each one has to yield an existing
   * date, so the chain fails (Python raises `ValueError`) when an intermediate
   * date does not exist, even though the target day always does.
   */
  function OnDayAsWritten(t: DateTime, day: Date): Option<DateTime> {
    match ReplaceYear(t, day.year)
    case None => None
    case Some(t1) =>
      match ReplaceMonth(t1, day.month)
      case None => None
      case Some(t2) => ReplaceDay(t2, day.day)
  }

  /** The intended result: the time of day of `t` on the date `day`, which always exists. */
  function OnDay(t: DateTime, day: Date): DateTime {
    DateTime(day, t.time)
  }

  /** Whenever the chain of `replace` calls succeeds, it gives the intended moment. */
  lemma OnDayAsWrittenAgrees(t: DateTime, day: Date)
    ensures OnDayAsWritten(t, day).Some? ==> OnDayAsWritten(t, day) == Some(OnDay(t, day))
  {
  }

  /** The chain succeeds whenever the parsed time falls on one of the first 28 days of its month. */
  lemma OnDayAsWrittenEarlyInMonth(t: DateTime, day: Date)
    requires t.date.day <= 28
    ensures OnDayAsWritten(t, day) == Some(OnDay(t, day))
  {
    assert IsValid(Ymd(day.year, t.date.month, t.date.day));
    assert IsValid(Ymd(day.year, day.month, t.date.day));
  }

  /**
   * A time parsed on January 31st (the date `parse` fills in for a bare time is
   * the current one) cannot be moved to April 15th: the month step asks for
   * April 31st.
   */
  lemma OnDayAsWrittenFailsFromJanuary31()
    ensures OnDayAsWritten(DateTime(Ymd(2024, 1, 31), 32400), Ymd(2024, 4, 15)) == None
    ensures OnDay(DateTime(Ymd(2024, 1, 31), 32400), Ymd(2024, 4, 15)) == DateTime(Ymd(2024, 4, 15), 32400)
  {
    assert !IsValid(Ymd(2024, 4, 31));
  }

  /** A time parsed on February 29th cannot be moved to any day of a year that is not a leap year. */
  lemma OnDayAsWrittenFailsFromLeapDay(t: DateTime, day: Date)
    requires t.date.month == 2 && t.date.day == 29 && !IsLeapYear(day.year)
    ensures OnDayAsWritten(t, day) == None
  {
  }

  // ---------------------------------------------------------------------------
  // The activity

  /**
   * The cells of a row that the constructor reads: `Day`, `Start Time` and
   * `End Time` as `parse` reads them, the `Duration` text, and the optional
   * `Work Type` and `Project Code` cells.
   */
  datatype ActivityRow = ActivityRow(
    day: Date, start: DateTime, end: DateTime, duration: string,
    workType: Option<string>, projectCode: Option<string>)

  /** An activity: its day, start and end, duration in seconds, tag text and project code. */
  datatype Activity = Activity(
    day: Date, start: DateTime, end: DateTime, duration: nat,
    tags: string, projectCode: string)

  /** `row.get(key, '')`. */
  function CellOrEmpty(cell: Option<string>): string {
    if cell.Some? then cell.value else ""
  }

  /**
   * `Activity(row)`: start and end moved to the row's day, the duration read
   * from its `H:MM` token (the constructor fails when it does not read), and
   * the end recomputed as start plus duration when end minus start is not
   * the duration.
   */
  function NewActivity(row: ActivityRow): (r: Result<Activity, string>)
    ensures r.Success? <==> ParseDuration(row.duration).Some?
  {
    match ParseDuration(row.duration)
    case None => Failure("the Duration cell is not an H:MM token")
    case Some(duration) =>
      var start := OnDay(row.start, row.day);
      var end := OnDay(row.end, row.day);
      var end' := if Instant(end) - Instant(start) == duration then end else Plus(start, duration);
      Success(Activity(row.day, start, end', duration, CellOrEmpty(row.workType), CellOrEmpty(row.projectCode)))
  }

  /**
   * A built activity lies on the row's day and starts there at the row's start
   * time; its end lies exactly its duration after its start, which puts it on
   * the same day or the next; the row's end time is kept whenever it already
   * lies the duration after the start; the tag text and project code are the
   * row's cells, empty when absent.
   */
  lemma NewActivityFacts(row: ActivityRow)
    requires NewActivity(row).Success?
    ensures var a := NewActivity(row).value;
      a.day == row.day && a.start.date == row.day && a.start.time == row.start.time &&
      a.duration == ParseDuration(row.duration).value &&
      Instant(a.end) - Instant(a.start) == a.duration &&
      DayNumber(a.end.date) <= DayNumber(a.day) + 1 &&
      a.tags == CellOrEmpty(row.workType) && a.projectCode == CellOrEmpty(row.projectCode)
    ensures Instant(OnDay(row.end, row.day)) - Instant(OnDay(row.start, row.day)) == NewActivity(row).value.duration ==>
      NewActivity(row).value.end == OnDay(row.end, row.day)
  {
    var a := NewActivity(row).value;
    if a.end != OnDay(row.end, row.day) {
      EndWithinNextDay(a.start, a.end, a.duration);
    }
  }

  /** A moment less than a day after a start falls on the start's date or the next one. */
  lemma EndWithinNextDay(start: DateTime, end: DateTime, duration: nat)
    requires duration < 86400 && Instant(end) == Instant(start) + duration
    ensures DayNumber(end.date) <= DayNumber(start.date) + 1
  {
    DayOfInstant(start);
    DayOfInstant(end);
  }

  /** The day and the time of day of a moment are the quotient and remainder of its instant by 86400. */
  lemma DayOfInstant(t: DateTime)
    ensures Instant(t) / 86400 == DayNumber(t.date) && Instant(t) % 86400 == t.time
  {
  }
}
