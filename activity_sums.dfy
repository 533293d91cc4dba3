/**
 * What `Work`'s per-day and per-week dictionaries are keyed and valued by,
 * and the accumulating loop of `hours_per_week`. The loop sits apart from
 * the `Work` class so that it is proved against its specification function
 * with only the facts it needs.
 */
module ActivitySums {
  import opened Wrappers
  import opened Calendar
  import opened Tallies
  import opened Activities

  /** An activity's day, the key of `hours_per_day`. */
  function DayOf(a: Activity): Option<Date> {
    Some(a.day)
  }

  /** An activity's week, by the Monday that `weekStart` gives for its day. */
  function WeekBy(weekStart: Date -> Date): Activity -> Option<Date> {
    (a: Activity) => Some(weekStart(a.day))
  }

  /** An activity's duration in seconds. */
  function Seconds(a: Activity): real {
    a.duration as real
  }

  /**
   * The loop of `hours_per_week()`, with `week_start` passed in as
   * `weekStart`: each activity adds its seconds to the entry of its week.
   */
  method SumPerWeek(acts: seq<Activity>, weekStart: Date -> Date) returns (weekSum: map<Date, real>)
    ensures weekSum == Tally(acts, WeekBy(weekStart), Seconds, |acts|)
  {
    weekSum := map[];
    var i := 0;
    while i < |acts|
      invariant 0 <= i <= |acts|
      invariant weekSum == Tally(acts, WeekBy(weekStart), Seconds, i)
    {
      var act := acts[i];
      var m := weekStart(act.day);
      assert WeekBy(weekStart)(act) == Some(m) && Seconds(act) == act.duration as real;
      TallyAdded(acts, WeekBy(weekStart), Seconds, i, weekSum, m);
      weekSum := weekSum[m := Get(weekSum, m) + act.duration as real];
      i := i + 1;
    }
  }
}
