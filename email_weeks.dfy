/**
 * What the redistribution script computes, week by week: rows are filed under
 * the Monday of their day, the time logged on the overhead project
 * `Email (various)` is shared out over the week's other rows in proportion to
 * their durations, and the week's summary fields are stamped onto every row of
 * the week. Durations are whole seconds; adjusted durations are exact reals.
 */
module EmailWeeks {
  import opened Wrappers
  import opened Calendar
  import opened Durations
  import opened Columns
  import opened Buckets

  const EmailProject := "Email (various)"

  /** The ten result columns, in the order the script assigns them. */
  const ExtraColumns := ["Duration adjusted", "Weekly Email Total", "Weekly Email %", "Year", "Month", "Week",
                         "Weekly Total", "Duration adjusted (hours)", "Weekly Email Total (hours)", "Weekly Total (hours)"]

  /** `Duration adjusted` and `Duration adjusted (hours)` of one row. */
  datatype Adjusted = Adjusted(seconds: real, text: string, hours: real)

  /** The fields every row of one week shares. */
  datatype WeekFields = WeekFields(emailTotal: string, emailPct: real, year: int, month: int, week: int,
                                   total: string, emailHours: real, totalHours: real)

  /**
   * One row dict: its keys in insertion order, the parsed day and duration, the
   * project, and the result fields once the week loop has written them.
   */
  datatype Row = Row(keys: seq<string>, day: Date, project: string, seconds: nat,
                     adjusted: Option<Adjusted>, weekly: Option<WeekFields>)

  predicate IsEmail(r: Row) {
    r.project == EmailProject
  }

  /** The bucket a row goes into: the Monday of its day. */
  function WeekOf(r: Row): Date {
    WeekStart(r.day)
  }

  /** The rows of week `w`, in their original order. */
  function RowsOfWeek(rows: seq<Row>, w: Date): seq<Row> {
    Bucket(rows, WeekOf, w)
  }

  /** Each row is filed under the Monday on or before its day, at most six days earlier. */
  lemma RowWeek(r: Row)
    ensures Weekday(WeekOf(r)) == 0
    ensures DayNumber(r.day) - 6 <= DayNumber(WeekOf(r)) <= DayNumber(r.day)
    ensures WeekOf(r) == WeekStartIso(r.day)
  {
    WeekStartsAgree(r.day);
  }

  // ---------------------------------------------------------------------------
  // Weekly totals

  function RowSeconds(r: Row): int { r.seconds }
  function EmailPart(r: Row): int { if IsEmail(r) then r.seconds else 0 }
  function OtherPart(r: Row): int { if IsEmail(r) then 0 else r.seconds }

  function TotalSeconds(rs: seq<Row>): nat {
    SumNonNegative(rs, RowSeconds);
    Sum(rs, RowSeconds)
  }

  function EmailSeconds(rs: seq<Row>): nat {
    SumNonNegative(rs, EmailPart);
    Sum(rs, EmailPart)
  }

  function NonEmailSeconds(rs: seq<Row>): nat {
    SumNonNegative(rs, OtherPart);
    Sum(rs, OtherPart)
  }

  /** Every second of the week is either email time or other time. */
  lemma {:induction false} TotalIsEmailPlusOther(rs: seq<Row>)
    ensures TotalSeconds(rs) == EmailSeconds(rs) + NonEmailSeconds(rs)
  {
    if rs != [] {
      TotalIsEmailPlusOther(rs[1..]);
    }
  }

  /** The week has no other time exactly when each of its non-email rows is `0:00`. */
  lemma {:induction false} NoOtherTime(rs: seq<Row>)
    ensures NonEmailSeconds(rs) == 0 <==> forall r :: r in rs && !IsEmail(r) ==> r.seconds == 0
  {
    if rs != [] {
      NoOtherTime(rs[1..]);
      assert forall r :: r in rs <==> r == rs[0] || r in rs[1..];
    }
  }

  // ---------------------------------------------------------------------------
  // Redistribution

  /**
   * A row's adjusted seconds, given its week's non-email total `n` and email
   * total `e`: unchanged when `n` is 0, nothing for an email row, and otherwise
   * its own seconds plus its share `seconds / n` of the email time.
   */
  function Adjust(r: Row, n: nat, e: nat): (a: real)
    ensures a >= 0.0
  {
    var orig := r.seconds as real;
    if n == 0 then orig
    else if IsEmail(r) then 0.0
    else orig + (orig / n as real) * e as real
  }

  /** The adjustment rule of a week with totals `n` and `e`, as a function of the row. */
  function AdjustBy(n: nat, e: nat): Row -> real {
    r => Adjust(r, n, e)
  }

  function SumAdjusted(rs: seq<Row>, n: nat, e: nat): real {
    RealSum(rs, AdjustBy(n, e))
  }

  /** Email seconds over the week total: in [0, 1], and 0 for a week of `0:00` rows. */
  function EmailShare(rs: seq<Row>): (p: real)
    ensures 0.0 <= p <= 1.0
    ensures TotalSeconds(rs) == 0 ==> p == 0.0
    ensures TotalSeconds(rs) > 0 ==> p * TotalSeconds(rs) as real == EmailSeconds(rs) as real
  {
    TotalIsEmailPlusOther(rs);
    var t := TotalSeconds(rs);
    if t > 0 then
      var e := EmailSeconds(rs);
      assert e as real / t as real <= 1.0 by {
        assert e as real <= t as real;
      }
      e as real / t as real
    else 0.0
  }

  /** With other time `n > 0`, the adjusted seconds add up to that time scaled by `(n + e) / n`. */
  lemma {:induction false} SumAdjustedScales(rs: seq<Row>, n: nat, e: nat)
    requires n > 0
    ensures SumAdjusted(rs, n, e) == NonEmailSeconds(rs) as real * ((n + e) as real / n as real)
  {
    if rs != [] {
      SumAdjustedScales(rs[1..], n, e);
      var orig := rs[0].seconds as real;
      if !IsEmail(rs[0]) {
        assert Adjust(rs[0], n, e) == orig * ((n + e) as real / n as real);
      }
    }
  }

  /** A week without other time keeps every duration as it was. */
  lemma {:induction false} SumAdjustedIdentity(rs: seq<Row>, e: nat)
    ensures SumAdjusted(rs, 0, e) == TotalSeconds(rs) as real
  {
    if rs != [] {
      SumAdjustedIdentity(rs[1..], e);
    }
  }

  /**
   * Conservation: whatever the week, its adjusted seconds add up to exactly its
   * original seconds, so the script's one-second warning can never fire.
   */
  lemma WeekConservation(rs: seq<Row>)
    ensures SumAdjusted(rs, NonEmailSeconds(rs), EmailSeconds(rs)) == TotalSeconds(rs) as real
  {
    var n := NonEmailSeconds(rs);
    var e := EmailSeconds(rs);
    TotalIsEmailPlusOther(rs);
    if n > 0 {
      SumAdjustedScales(rs, n, e);
      assert n as real * ((n + e) as real / n as real) == (n + e) as real;
    } else {
      SumAdjustedIdentity(rs, e);
    }
  }

  /**
   * When the week has other time, every non-email row is scaled by the same
   * factor `(n + e) / n`, which is at least 1, and every email row drops to 0.
   */
  lemma ProportionalScaling(r: Row, n: nat, e: nat)
    requires n > 0
    ensures IsEmail(r) ==> Adjust(r, n, e) == 0.0
    ensures !IsEmail(r) ==> Adjust(r, n, e) == r.seconds as real * ((n + e) as real / n as real)
    ensures (n + e) as real / n as real >= 1.0
  {
  }

  /** Two non-email rows of one week keep the ratio of their durations. */
  lemma SharesKeepRatios(a: Row, b: Row, n: nat, e: nat)
    requires n > 0 && !IsEmail(a) && !IsEmail(b)
    ensures Adjust(a, n, e) * b.seconds as real == Adjust(b, n, e) * a.seconds as real
  {
    ProportionalScaling(a, n, e);
    ProportionalScaling(b, n, e);
  }

  // ---------------------------------------------------------------------------
  // The stamped rows

  /** A row's adjusted seconds, computed from the totals of its own week within `rows`. */
  function AdjustedIn(rows: seq<Row>, r: Row): (a: real)
    ensures a >= 0.0
  {
    var week := RowsOfWeek(rows, WeekOf(r));
    Adjust(r, NonEmailSeconds(week), EmailSeconds(week))
  }

  /**
   * The weekly fields of the rows `week` of the week starting `w`: the email
   * and total time as `hh:mm:ss` and as hours, the email share, and the year,
   * month and ISO week of the Monday.
   */
  function FieldsOf(week: seq<Row>, w: Date): (f: WeekFields)
    ensures f.year == w.year && f.month == w.month && f.week == IsoWeekNumber(w)
    ensures 0.0 <= f.emailPct <= 1.0
    ensures f.emailHours * 3600.0 == EmailSeconds(week) as real
    ensures f.totalHours * 3600.0 == TotalSeconds(week) as real
  {
    var e := EmailSeconds(week);
    var t := TotalSeconds(week);
    IsoWeekNumberIsIsoCalendarWeek(w);
    WeekFields(FormatHms(e as real), EmailShare(week), w.year, w.month, IsoCalendarWeek(w),
               FormatHms(t as real), e as real / 3600.0, t as real / 3600.0)
  }

  /** The weekly fields of week `w` within `rows`. */
  function WeekFieldsOf(rows: seq<Row>, w: Date): (f: WeekFields)
    ensures f.year == w.year && f.month == w.month && f.week == IsoWeekNumber(w)
    ensures 0.0 <= f.emailPct <= 1.0
  {
    FieldsOf(RowsOfWeek(rows, w), w)
  }

  /** A row with the ten result columns appended and filled with `adjusted` and the week's `fields`. */
  function StampWith(r: Row, adjusted: real, fields: WeekFields): (s: Row)
    requires adjusted >= 0.0
    ensures s.day == r.day && s.project == r.project && s.seconds == r.seconds
    ensures s.keys == AppendAbsent(r.keys, ExtraColumns)
  {
    r.(keys := AppendAbsent(r.keys, ExtraColumns),
       adjusted := Some(Adjusted(adjusted, FormatHms(adjusted), adjusted / 3600.0)),
       weekly := Some(fields))
  }

  /** A row after the week loop: its adjusted duration and its week's fields. */
  function Stamp(rows: seq<Row>, r: Row): (s: Row)
    ensures s.day == r.day && s.project == r.project && s.seconds == r.seconds
    ensures s.keys == AppendAbsent(r.keys, ExtraColumns)
  {
    StampWith(r, AdjustedIn(rows, r), WeekFieldsOf(rows, WeekOf(r)))
  }

  /** Rows of one week carry identical weekly fields, taken from the week's Monday. */
  lemma SameWeekSameFields(rows: seq<Row>, a: Row, b: Row)
    requires WeekOf(a) == WeekOf(b)
    ensures Stamp(rows, a).weekly == Stamp(rows, b).weekly
    ensures Stamp(rows, a).weekly.value.year == WeekOf(a).year
    ensures Stamp(rows, a).weekly.value.month == WeekOf(a).month
    ensures Stamp(rows, a).weekly.value.week == IsoWeekNumber(a.day)
  {
    WeekStartSameIsoWeek(a.day);
  }

  /**
   * Conservation over the whole file: the adjusted seconds of all rows add up
   * to the original seconds of all rows.
   */
  lemma AllWeeksConservation(rows: seq<Row>)
    ensures RealSum(rows, r => AdjustedIn(rows, r)) == TotalSeconds(rows) as real
  {
    ConservationOverWeeks(rows, rows);
  }

  /**
   * The induction behind it: `xs` holds, for each week it touches, all the rows
   * of that week in `rows`; each step takes out the week of the first row.
   */
  lemma {:induction false} ConservationOverWeeks(xs: seq<Row>, rows: seq<Row>)
    requires forall v :: RowsOfWeek(xs, v) == [] || RowsOfWeek(xs, v) == RowsOfWeek(rows, v)
    ensures RealSum(xs, r => AdjustedIn(rows, r)) == TotalSeconds(xs) as real
    decreases |xs|
  {
    if xs != [] {
      var w := WeekOf(xs[0]);
      var f := r => AdjustedIn(rows, r);
      var week := RowsOfWeek(xs, w);
      var rest := Others(xs, WeekOf, w);
      InOwnBucket(xs, WeekOf, xs[0]);
      assert week == RowsOfWeek(rows, w);
      RealSumSplit(xs, f, WeekOf, w);
      SumSplit(xs, RowSeconds, WeekOf, w);
      var n := NonEmailSeconds(week);
      var e := EmailSeconds(week);
      RealSumCongruent(week, f, AdjustBy(n, e));
      WeekConservation(week);
      forall v
        ensures RowsOfWeek(rest, v) == [] || RowsOfWeek(rest, v) == RowsOfWeek(rows, v)
      {
        OthersKeepBuckets(xs, WeekOf, w, v);
      }
      assert |rest| < |xs| by {
        BucketSizes(xs, WeekOf, w);
      }
      ConservationOverWeeks(rest, rows);
    }
  }

  /** All rows after the week loop. */
  function Redistributed(rows: seq<Row>): (out: seq<Row>)
    ensures |out| == |rows|
    ensures forall i :: 0 <= i < |rows| ==> out[i] == Stamp(rows, rows[i])
  {
    seq(|rows|, i requires 0 <= i < |rows| => Stamp(rows, rows[i]))
  }

  /** The `Duration adjusted` column of a row, 0 where the week loop has not written it. */
  function AdjustedColumn(r: Row): real {
    if r.adjusted.Some? then r.adjusted.value.seconds else 0.0
  }

  /**
   * What the ten columns of the output hold: each row's adjusted duration in
   * seconds, as `hh:mm:ss` and in hours, and its week's fields; and the
   * `Duration adjusted` column of the output adds up to the input's total.
   */
  lemma RedistributedColumns(rows: seq<Row>)
    ensures forall i :: 0 <= i < |rows| ==>
      var s := Redistributed(rows)[i];
      s.adjusted == Some(Adjusted(AdjustedIn(rows, rows[i]), FormatHms(AdjustedIn(rows, rows[i])),
                                  AdjustedIn(rows, rows[i]) / 3600.0))
      && s.weekly == Some(WeekFieldsOf(rows, WeekOf(rows[i])))
    ensures RealSum(Redistributed(rows), AdjustedColumn) == TotalSeconds(rows) as real
  {
    var out := Redistributed(rows);
    var f := r => AdjustedIn(rows, r);
    forall i | 0 <= i < |rows|
      ensures AdjustedColumn(out[i]) == f(rows[i])
    {
      assert out[i] == Stamp(rows, rows[i]);
    }
    RealSumPaired(out, AdjustedColumn, rows, f);
    AllWeeksConservation(rows);
  }
}
