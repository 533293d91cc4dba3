# Timekeeping, modelled in Dafny

The timekeeping scripts read a CSV export of a time-tracking service. Each row is one
activity: a `Day`, a `Project`, a `Duration` written `H:MM`, start and end times, tags.
This project models what the scripts compute from those rows and proves what the results mean.

- **Redistributing e-mail time** (`process_tmetric_email_adjusted.py`, modules
  `EmailProcess` and `EmailWeeks`).
  - Rows are grouped by the Monday of their week.
  - Each week, the time logged on the overhead project `Email (various)` is shared
    out over the week's other rows, in proportion to their durations.
  - Weekly totals and the e-mail share are stamped onto every row. The output column
    list is merged.
  - The week loop is imperative: it stamps an `array` of rows in place.
  - Proved: no week loses or gains time, rows of one week carry the same summary, and
    the mismatch warning never fires.
- **The holiday calendar** (`holiday_calendar.py`, modules `HolidayCalendar`,
  `DayHours` and `DateParse`).
  - Hours are summed per day of one year.
  - A weekday below the threshold is a holiday. A weekend day at or above it is a
    worked weekend day.
  - Future days of the current year are skipped.
- **The colour-map calendar** (`holiday_calendar_colormap.py`, module `ColormapCalendar`).
  - The hours of every day of the year.
  - The grid of Monday-to-Sunday weeks from the Monday on or before January 1st to the
    Sunday on or after December 31st.
  - Each week's total. The week totals add up to the year's total.
- **The workday histogram** (`histogram_hours_per_workday.py`, module
  `WorkdayHistogram`): hours per date, split into workday, Saturday and Sunday
  dictionaries. Each dated row lands in exactly one of them.
- **`Activity` and `Work`** (`timekeeping.py`, modules `Activities`, `Timekeeping`,
  `ActivitySums`, `Tags` and `TagLoops`).
  - Activities are built from rows, with the start and end moved to the activity's day
    and the end recomputed from the duration.
  - `Work` keeps them in a mutable list: the `Work` class with its `activities` field.
  - The seconds worked per day and per week. A week is the sum of its seven days.
  - Holidays and worked weekend days of a date range, listed in order.
  - The time per tag of a year, as the pie chart sums it.

Shared modules:

- `Calendar`: the proleptic Gregorian calendar, with day ordinals as in
  `date.toordinal`, weekdays, Mondays, the days of a year, and ISO 8601 week numbers
  as `%V` and `isocalendar()` give them.
- `Durations`: the `H:MM` token, and the `hh:mm:ss` and `"N days, H:MM"` texts.
- `Text`: digits, padding, `split` and `strip`.
- `Tallies`: a `defaultdict` filled by `+=` in a loop.
- `Buckets`: grouping into lists by key, and sums.
- `Columns`: the output column list.
- `Selection`: sets and increasing lists picked out by a test.
- `Wrappers`: `Option` and `Result`.

Durations are whole seconds. Sums of durations and the redistributed durations are
exact reals.

## Model

| member | source | states |
|---|---|---|
| Calendar.FromDayNumber | timekeeping.py:153 | the date reached by whole-day steps has exactly the ordinal asked for |
| Calendar.FromDayNumberOfDayNumber | timekeeping.py:153 | turning a date into its ordinal and back gives the same date |
| Calendar.DayNumber | timekeeping.py:149-153 | a date's ordinal (`toordinal()`, 0001-01-01 being 1), on which comparing and stepping dates rest, is at least 1 |
| Calendar.DayNumberInjective | timekeeping.py:149 | two dates with the same ordinal are the same date |
| Calendar.PlusDays | timekeeping.py:153 | `day + timedelta(days=k)` is the date whose ordinal is `k` more |
| Calendar.BeforeIsOrdinalOrder | timekeeping.py:149 | comparing dates is comparing their ordinals |
| Calendar.IsoWeekday | timekeeping.py:15-19 | `%u` is a number from 1 (Monday) to 7 (Sunday) |
| Calendar.IsoWeekdayIsWeekdayPlusOne | timekeeping.py:15-19 | `%u` is one more than `date.weekday()` (`Calendar.Weekday`), which therefore runs from 0 (Monday) to 6 (Sunday) |
| Calendar.WeekStart | process_tmetric_email_adjusted.py:15-16 | `day - weekday()` is a Monday, and lies within the six days up to `day` |
| Calendar.WeekStartIso | timekeeping.py:29-35 | `day - (%u - 1)` is a Monday, and lies within the six days up to `day` |
| Calendar.WeekStartsAgree | timekeeping.py:29-35 | the two `week_start` functions, one per script, give the same Monday for every date |
| Calendar.WeekStartUnique | process_tmetric_email_adjusted.py:15-16 | the Monday within the six days up to a date is that date's week start, and no other date is |
| Calendar.WeekStartOfWeekDay | process_tmetric_email_adjusted.py:15-16 | each of the seven days from a Monday has that Monday as its week start |
| Calendar.SameWeekIffSameMonday | process_tmetric_email_adjusted.py:34-37 | two days are grouped into the same week exactly when their ordinal minus weekday agree |
| Calendar.YearDays | holiday_calendar.py:36 | `all_days` holds one date per day of the year, consecutive from January 1st |
| Calendar.YearDaysCount | holiday_calendar.py:36 | `all_days` has 366 dates in a leap year and 365 otherwise |
| Calendar.YearDaysAreTheYear | holiday_calendar.py:36 | a date is in `all_days` exactly when it lies in the year, and it sits at its day-of-year position |
| Calendar.IsoWeekNumber | timekeeping.py:21-27 | `%V` is between 1 and 53 |
| Calendar.IsoWeekNumberIsIsoCalendarWeek | timekeeping.py:21-27 | `Calendar.IsoCalendarWeek`, the week number as CPython's `isocalendar()` computes it (counting from week 1's Monday of the day's year, falling back to the previous year's or moving on to the next year's), always equals the week of the year holding the week's Thursday (ISO 8601), so it too lies in 1..53 |
| Calendar.IsoWeekNumberConstantOverWeek | timekeeping.py:21-27 | all seven days of a Monday-to-Sunday week have the same week number |
| Calendar.January4InWeekOne | timekeeping.py:21-27 | January 4th is always in week 1 |
| Calendar.WeekStartSameIsoWeek | process_tmetric_email_adjusted.py:61 | a week's Monday has the same `isocalendar()` week number as every row day filed under it |
| Activities.FromInstant | timekeeping.py:86 | the moment built from a count of seconds has exactly that count |
| Activities.Plus | timekeeping.py:86 | `start_time + duration` lies exactly `duration` seconds after `start_time` |
| Activities.InstantInjective | timekeeping.py:84 | two moments the same number of seconds after day 0 are the same moment, so comparing differences compares moments |
| Activities.OnDayAsWrittenAgrees | timekeeping.py:72-81 | whenever the chain of three `replace` calls succeeds, it gives the time of day on the activity's day |
| Activities.OnDayAsWrittenEarlyInMonth | timekeeping.py:72-81 | the chain always succeeds for a parsed time whose day of the month is at most 28 |
| Activities.OnDayAsWrittenFailsFromJanuary31 | timekeeping.py:72-75 | a time parsed on 2024-01-31, moved to the day 2024-04-15, fails at `replace(month=4)`; the intended moment exists |
| Activities.OnDayAsWrittenFailsFromLeapDay | timekeeping.py:72-73 | a time parsed on February 29th fails at `replace(year=…)` for any day in a common year |
| Activities.NewActivity | timekeeping.py:58-91 | with start and end placed on the activity's day as intended (see Findings), building an activity fails exactly when its `Duration` cell is not an `H:MM` token |
| Activities.NewActivityFacts | timekeeping.py:64-90 | an activity lies on its row's day and starts at the row's start time there. Its end is exactly its duration after its start, on that day or the next, which is the assertion at line 87. The row's end time is kept whenever it already agrees. Tags and project code are the row's cells, empty when absent |
| Activities.EndWithinNextDay | timekeeping.py:84-87 | a moment less than a day after a start falls on the start's day or the next |
| Durations.ParseDuration | process_tmetric_email_adjusted.py:18-21 | a duration read from an `H:MM` token is a whole number of minutes below one day |
| Durations.ParseDurationOfClock | process_tmetric_email_adjusted.py:18-21 | the token `"%d:%02d" % (h, m)` reads as exactly `h` hours and `m` minutes |
| Durations.ParseDurationOfPaddedClock | process_tmetric_email_adjusted.py:18-21 | the zero-padded token `"%02d:%02d" % (h, m)`, such as `09:30`, reads as exactly `h` hours and `m` minutes |
| Durations.ParseDurationRejectsHour | process_tmetric_email_adjusted.py:18-21 | an hour of 24 or more is not a time of day and does not read |
| Durations.FloatMod | process_tmetric_email_adjusted.py:48-50 | Python's `%` on a non-negative float by a positive divisor lies in `[0, divisor)` |
| Durations.HmsFieldsRecombine | process_tmetric_email_adjusted.py:48-51 | the fields `HmsFields` takes with `//` and `%`: hours are not negative, minutes and seconds lie in 0..59, and the three add up to the whole seconds of the duration |
| Durations.FormatHmsRoundTrip | process_tmetric_email_adjusted.py:51 | reading the `hh:mm:ss` text of `FormatHms` back gives the duration's whole seconds; minutes and seconds take two digits |
| Durations.DaySeconds | timekeeping.py:43 | `td.seconds` lies in 0..86399 |
| Durations.HoursMinutesRoundTrip | timekeeping.py:37-51 | within one day, the `H:MM` text of `HoursMinutes` reads back as the duration with its seconds dropped |
| Durations.HoursMinutesDayPrefix | timekeeping.py:43-51 | within one day the text is the clock alone. Otherwise it is the day count, `" day, "` for plus or minus one day and `" days, "` for any other count, then the clock |
| Durations.HoursMinutesCommaIffDays | timekeeping.py:46-50 | the text holds a comma exactly when the duration is not within one day |
| Text.NatToStringValue | timekeeping.py:45 | `%d` of a natural number reads back as that number, with no leading zero |
| Text.Pad2Value | process_tmetric_email_adjusted.py:51 | `%02d` reads back as its number, in two digits below 100 |
| Text.SplitJoin | timekeeping.py:376 | joining the pieces of `split(',')` gives the text back, and no piece holds a comma |
| Text.StripKeepsTheMiddle | timekeeping.py:376 | `strip()` removes exactly the whitespace at both ends |
| DateParse.MakeDate | holiday_calendar.py:23-29 | building a date succeeds exactly when year, month and day name an existing date |
| DateParse.ParseIsoDate | holiday_calendar.py:24 | a `%Y-%m-%d` text that parses has a four-digit year and is 8 to 10 characters long |
| DateParse.ParseDayFirstDate | holiday_calendar.py:27 | a `%d/%m/%Y` text that parses has a four-digit year and is 8 to 10 characters long |
| DateParse.ParseDay | holiday_calendar.py:23-29 | `%Y-%m-%d` is tried first. The day fails to parse exactly when both formats fail |
| DateParse.RowDayText | holiday_calendar.py:20-22 | `parsed_day` is used when it is not empty, else `Day`. The row is skipped exactly when both are absent or empty |
| DateParse.RowDate | holiday_calendar.py:20-29 | a row has a date only when it has a day text |
| DateParse.FormatsAreDisjoint | holiday_calendar.py:23-29 | no text reads under both formats, so trying one first changes nothing |
| DateParse.IsoFormatRoundTrip | holiday_calendar.py:24 | a date written `YYYY-MM-DD`, as the processed file writes `parsed_day`, parses back to itself |
| DateParse.DayFirstFormatRoundTrip | holiday_calendar.py:27 | a date written `DD/MM/YYYY` parses back to itself |
| DateParse.UnpaddedIsoDate | holiday_calendar.py:24 | `strptime` also accepts a month and a day written without leading zeros |
| DateParse.NonexistentDateRejected | holiday_calendar.py:24 | a well-formed text naming a date that does not exist (a February 30th) is rejected |
| Tallies.TallyValue | timekeeping.py:115-117 | after the loop, a key's entry is the sum of the values of exactly the items filed under it (0 when there are none) |
| Tallies.TallyDomain | timekeeping.py:115-117 | the dictionary's keys are exactly the keys of the items met |
| Tallies.TallyOrderFacts | timekeeping.py:115-117 | the keys in insertion order are exactly the dictionary's keys, each once |
| Tallies.TallyTotal | timekeeping.py:115-117 | the entries add up to the total of all the items that were filed |
| Tallies.TallyCoarsen | timekeeping.py:126-131 | a coarse key's entry is the sum of the entries of the fine keys it gathers |
| Buckets.GroupIndices | process_tmetric_email_adjusted.py:33-37 | `week_to_rows` files every row under its key, the row positions of a key in order. The keys are listed once each, and `order` is exactly `KeyOrder` of all the rows, the keys in order of first appearance |
| Buckets.KeyOrderFirstAppearance | process_tmetric_email_adjusted.py:33-37 | for two keys listed in that order, the first row with the earlier key comes before the first row with the later key |
| Buckets.KeyOrderFacts | process_tmetric_email_adjusted.py:34-40 | the weeks the loop visits are exactly the weeks of the rows, each once, and none of them has an empty list |
| Buckets.BucketIndicesComplete | process_tmetric_email_adjusted.py:34-37 | a row's position is in a week's list exactly when the row lies in that week |
| Buckets.PickBucketIndices | process_tmetric_email_adjusted.py:37 | the rows at a week's positions are the week's rows, in file order |
| Columns.AppendAbsent | process_tmetric_email_adjusted.py:122-127 | the merged column list starts with the first row's columns |
| Columns.AppendAbsentContents | process_tmetric_email_adjusted.py:122-127 | the merged list names exactly the row's columns and the extra ones, with no name twice |
| Columns.AppendPresent | process_tmetric_email_adjusted.py:126-127 | when every extra column is already present, the list is unchanged |
| Columns.AppendAbsentIdempotent | process_tmetric_email_adjusted.py:122-127 | merging the extra columns a second time changes nothing |
| Columns.HeaderKeysContents | process_tmetric_email_adjusted.py:27-29 | a row's keys name each column of the header once |
| Columns.MergeColumns | process_tmetric_email_adjusted.py:122-127 | the loop over the extra columns builds the merged list |
| EmailWeeks.RowWeek | process_tmetric_email_adjusted.py:36 | a row's week is a Monday within the six days up to its day, the same Monday `timekeeping.week_start` gives |
| EmailWeeks.TotalIsEmailPlusOther | process_tmetric_email_adjusted.py:41-42 | a week's total is its e-mail time plus its other time (line 67) |
| EmailWeeks.NoOtherTime | process_tmetric_email_adjusted.py:66-68 | the week takes the "only e-mail" branch exactly when every non-e-mail row has zero duration |
| EmailWeeks.Adjust | process_tmetric_email_adjusted.py:68-99 | an adjusted duration is never negative |
| EmailWeeks.EmailShare | process_tmetric_email_adjusted.py:46 | the e-mail share lies in [0, 1]. It is 0 for an empty week, and otherwise it times the total is the e-mail time |
| EmailWeeks.SumAdjustedScales | process_tmetric_email_adjusted.py:90-99 | with other time present, the adjusted durations add up to the other time scaled by (other + e-mail) / other |
| EmailWeeks.SumAdjustedIdentity | process_tmetric_email_adjusted.py:70-73 | in the "only e-mail" branch every duration is kept, so the adjusted durations add up to the total |
| EmailWeeks.WeekConservation | process_tmetric_email_adjusted.py:68-99 | in both branches, a week's adjusted durations add up to its total: no e-mail time is lost or counted twice |
| EmailWeeks.ProportionalScaling | process_tmetric_email_adjusted.py:93-99 | an e-mail row is adjusted to 0. Every other row is scaled by the same factor, which is at least 1 |
| EmailWeeks.SharesKeepRatios | process_tmetric_email_adjusted.py:97-99 | any two non-e-mail rows of a week keep the ratio of their durations |
| EmailWeeks.AdjustedIn | process_tmetric_email_adjusted.py:68-99 | a row's adjusted duration within the whole file is never negative |
| EmailWeeks.FieldsOf | process_tmetric_email_adjusted.py:41-61 | the week's year and month are its Monday's, and its number is the Monday's ISO week. The share lies in [0, 1]. The e-mail and total hours are the week's e-mail and total seconds over 3600 |
| EmailWeeks.WeekFieldsOf | process_tmetric_email_adjusted.py:41-61 | the same fields for the week as found in the whole file |
| EmailWeeks.StampWith | process_tmetric_email_adjusted.py:104-114 | stamping keeps a row's day, project and duration, and adds the ten result columns it lacks, in order |
| EmailWeeks.Stamp | process_tmetric_email_adjusted.py:68-114 | the same for a row stamped with its own week's figures |
| EmailWeeks.SameWeekSameFields | process_tmetric_email_adjusted.py:58-61 | rows of the same week get the same weekly fields (lines 79-84), and the week number is the row day's ISO week |
| EmailWeeks.AllWeeksConservation | process_tmetric_email_adjusted.py:40-119 | over the whole file the adjusted durations add up to the total of the original durations |
| EmailWeeks.ConservationOverWeeks | process_tmetric_email_adjusted.py:40-119 | the same over any list of rows that holds each of its weeks whole |
| EmailWeeks.Redistributed | process_tmetric_email_adjusted.py:33-119 | the output has one row per input row, in input order, each stamped with its week's figures |
| EmailWeeks.RedistributedColumns | process_tmetric_email_adjusted.py:68-119 | each output row's `Duration adjusted` holds its adjusted seconds, as `hh:mm:ss` and in hours, and its weekly columns hold its week's fields. The `Duration adjusted` column adds up to the input's total seconds |
| EmailProcess.LoadRow | process_tmetric_email_adjusted.py:28-31 | a row loads exactly when its duration parses. It keeps its day and project, and its duration is the parsed one |
| EmailProcess.Loaded | process_tmetric_email_adjusted.py:25-31 | the loaded list has one row per input row, in order |
| EmailProcess.LoadRows | process_tmetric_email_adjusted.py:25-31 | a missing `Day` or `Duration` column fails on the first row, in that order. Otherwise the first bad duration fails. When loading succeeds, every row loaded |
| EmailProcess.AdjustedSeconds | process_tmetric_email_adjusted.py:68-99 | the branches of both week loops (lines 70-73 and 90-99) compute the adjusted duration |
| EmailProcess.SecondsListSum | process_tmetric_email_adjusted.py:116 | `orig_seconds_list` adds up to the week's total |
| EmailProcess.AdjustedListSum | process_tmetric_email_adjusted.py:117 | `adjusted_seconds_list` adds up to the week's adjusted durations |
| EmailProcess.StampWeek | process_tmetric_email_adjusted.py:68-114 | stamping a week in place changes exactly the week's rows, each to its stamped form. It returns the two lists of original and adjusted seconds |
| EmailProcess.WeekStats | process_tmetric_email_adjusted.py:41-61 | the week's summary fields, its e-mail seconds and its other seconds |
| EmailProcess.WeekListsAgree | process_tmetric_email_adjusted.py:115-119 | the two lists of a week add up to the same sum, so the mismatch warning never fires |
| EmailProcess.StampOneWeek | process_tmetric_email_adjusted.py:41-119 | one turn of the week loop stamps that week's rows and no others, and raises no warning |
| EmailProcess.StampedAllWeeks | process_tmetric_email_adjusted.py:40-119 | once every week of the file has had its turn, the rows are the redistributed output |
| EmailProcess.StampWeeks | process_tmetric_email_adjusted.py:40-119 | the week loop over `week_to_rows` yields the redistributed rows, with no warnings |
| EmailProcess.FirstRowKeys | process_tmetric_email_adjusted.py:122-127 | the first output row already has every result column, so the merge keeps its columns as they are |
| EmailProcess.Process | process_tmetric_email_adjusted.py:23-127 | `main` succeeds exactly when the file has a row, the `Day`, `Duration` and `Project` columns, and durations that all parse. It names each failure. On success the rows are redistributed, there are no warnings, and the columns are the first row's |
| DayHours.SumHoursOfYear | holiday_calendar.py:16-33 | the reading loop fills the per-day tally of the rows dated in the year |
| DayHours.SumRowsOfYear | holiday_calendar.py:19-33 | the same loop over any kind of row |
| DayHours.DayHoursOfYear | holiday_calendar.py:16-33 | a date has an entry exactly when it lies in the year and some row is dated on it. The entry is the sum of that date's hours |
| DayHours.NoRowsNoHours | holiday_calendar.py:43 | a date without rows has 0 hours, the `get(…, 0.0)` default |
| HolidayCalendar.GetHolidaysByYear | holiday_calendar.py:14-53 | a date is a holiday exactly when it lies in the year and is not a future day of the current year (`Judged`, lines 40-41), is a weekday, and has fewer than `threshold` hours. It is a worked weekend day exactly when, under the same first two conditions, it is a Saturday or Sunday with at least `threshold` hours. The threshold is `DAILY_THRESHOLD`, 2 hours, by default (`DailyThreshold`) |
| HolidayCalendar.ClassifyDate | holiday_calendar.py:38-52 | one day of the loop: a holiday exactly when it is judged, a weekday and below the threshold; worked exactly when it is judged, a weekend day and at or above the threshold; never both |
| HolidayCalendar.ClassifiedYear | holiday_calendar.py:36-52 | `ClassifiedDay` for every date at once |
| HolidayCalendar.ClassifiedDay | holiday_calendar.py:36-52 | the two sets picked from `all_days` are the sets that characterisation describes |
| HolidayCalendar.MissingWorkdayIsHoliday | holiday_calendar.py:43-48 | a date with no rows is below any positive threshold |
| ColormapCalendar.GetDayHoursByYear | holiday_calendar_colormap.py:49-70 | the result has an entry for exactly the days of the year, each that day's hours, 0 when it has no rows |
| ColormapCalendar.FirstMonday | holiday_calendar_colormap.py:85-87 | the grid starts on a Monday, at most six days before January 1st |
| ColormapCalendar.LastSunday | holiday_calendar_colormap.py:88-90 | the grid ends on a Sunday, at most six days after December 31st |
| ColormapCalendar.FirstMondayIsWeekStart | holiday_calendar_colormap.py:85-87 | the first Monday is the week start of January 1st |
| ColormapCalendar.GridDays | holiday_calendar_colormap.py:91 | `all_days` runs day by day from the first Monday to the last Sunday |
| ColormapCalendar.WeeklyShape | holiday_calendar_colormap.py:92 | cutting a list whose length is a multiple of 7 into slices of 7 gives `len / 7` slices, the `w`-th being `xs[7w:7w+7]` |
| ColormapCalendar.Weekly | holiday_calendar_colormap.py:92 | cutting a list into slices of 7 gives `len / 7` slices rounded up, each holding 1 to 7 items |
| ColormapCalendar.WeeklyFlatten | holiday_calendar_colormap.py:92 | the slices laid end to end give back the list: no item is lost, repeated or reordered |
| ColormapCalendar.GridShape | holiday_calendar_colormap.py:85-94 | the grid has 371 or 378 days, so `weeks` (`ColormapCalendar.Weeks`) holds 53 or 54 full weeks |
| ColormapCalendar.GridWeek | holiday_calendar_colormap.py:91-92 | every week of the grid has seven days, Monday to Sunday, and they are consecutive |
| ColormapCalendar.WeeklyCell | holiday_calendar_colormap.py:92 | cell `k` of week `w` is item `7w + k` |
| ColormapCalendar.YearDayCell | holiday_calendar_colormap.py:85-92 | every day of the year appears in the grid, in exactly one cell |
| ColormapCalendar.GridIndex | holiday_calendar_colormap.py:91 | a day of the year sits at its distance from the first Monday, inside the grid |
| ColormapCalendar.WeekTotal | holiday_calendar_colormap.py:107-112 | a week's total is the sum of its days' hours, 0 for days without an entry |
| ColormapCalendar.WeekTotals | holiday_calendar_colormap.py:106-112 | one total per week, in order |
| ColormapCalendar.WeeklySum | holiday_calendar_colormap.py:106-112 | summing week by week is summing all the days |
| ColormapCalendar.GridTotalIsYearTotal | holiday_calendar_colormap.py:106-112 | the week totals of the grid add up to the hours of the year: the padding days before and after hold none |
| WorkdayHistogram.SplitHours | histogram_hours_per_workday.py:15-36 | the three dictionaries are the per-date tallies of the workday, Saturday and Sunday rows |
| WorkdayHistogram.SplitRows | histogram_hours_per_workday.py:17-36 | the same loop over any kind of row |
| WorkdayHistogram.SplitOfDate | histogram_hours_per_workday.py:15-36 | a date has an entry in a dictionary exactly when it is of that dictionary's kind and has rows. The entry is that date's hours |
| WorkdayHistogram.ExactlyOneDictionary | histogram_hours_per_workday.py:30-36 | a date with rows is in exactly one of the three dictionaries, the one of its weekday |
| WorkdayHistogram.SplitConservesHours | histogram_hours_per_workday.py:15-36 | the three dictionaries together hold all the hours of the dated rows |
| ActivitySums.SumPerWeek | timekeeping.py:126-131 | the loop builds the per-week tally of the activities' seconds, keyed by a week-start function |
| TagLoops.AddTags | timekeeping.py:376-377 | adding an activity's seconds to each of its tags extends the tag tally by those pairs |
| TagLoops.AddActivity | timekeeping.py:368-377 | one activity: none of its pairs outside the year, otherwise one pair per tag of its `Work Type` text, or of its `Project Code` when that is empty (`Tags.TagsOf`, lines 369-373) |
| TagLoops.SumPerTag | timekeeping.py:366-377 | the loop over the activities builds the tag tally of the year |
| Tags.StrippedNonEmpty | timekeeping.py:376 | the list comprehension keeps at most as many pieces as there were |
| Tags.StripOfStripped | timekeeping.py:376 | `strip()` leaves a text without whitespace at its ends alone |
| Tags.StripIdempotent | timekeeping.py:376 | stripping twice is stripping once, and adds no character |
| Tags.StrippedMembers | timekeeping.py:376 | the tags are exactly the non-empty stripped pieces |
| Tags.TagsAreWellFormed | timekeeping.py:376 | every tag of `TagList`, the comprehension over a comma-separated text, is non-empty, holds no comma, and has no whitespace at either end |
| Tags.SplitOfJoin | timekeeping.py:376 | splitting pieces joined by a separator none of them holds gives the pieces back |
| Tags.StrippedWellFormed | timekeeping.py:376 | well-formed tags come through the comprehension unchanged |
| Tags.TagListOfJoin | timekeeping.py:376 | a list of well-formed tags written comma-separated reads back as that list |
| Tags.PairsOf | timekeeping.py:376-377 | one (tag, seconds) pair per tag, in order |
| Tags.PairsOfShare | timekeeping.py:376-377 | a tag gets the activity's seconds once for each time it occurs |
| Tags.PairsOfTotal | timekeeping.py:376-377 | an activity adds its seconds once per tag in all |
| Tags.ActivityShare | timekeeping.py:368-377 | what one activity adds to a tag: its seconds times the tag's occurrences, when it lies in the year, else nothing |
| Tags.ActivityTotal | timekeeping.py:368-377 | what one activity adds to all tags together: its seconds times its number of tags, when it lies in the year, else nothing |
| Tags.TagSumValue | timekeeping.py:366-377 | a tag's entry is the sum, over the activities, of each one's seconds times the tag's occurrences in it |
| Tags.TagSumTotal | timekeeping.py:366-377 | the entries add up to every activity's seconds times its number of tags |
| Tags.YearPairTags | timekeeping.py:366-377 | the tags met are exactly the tags of the year's activities |
| Tags.TagSumKeys | timekeeping.py:366-377 | a tag has an entry exactly when some activity of the year has it, and every entry's tag is well formed |
| Timekeeping.WeekStartIsoIdempotent | timekeeping.py:29-35 | a day's week start is its own week start, and has the same ISO week number as the day |
| Timekeeping.DaySumFacts | timekeeping.py:110-118 | `day_sum` has an entry for exactly the days with activities, each the sum of that day's durations |
| Timekeeping.WeekSumFacts | timekeeping.py:120-132 | `week_sum` has an entry for exactly the week starts of the activities, all Mondays, each the sum of that week's durations |
| Timekeeping.DaySumTotal | timekeeping.py:110-118 | the day entries add up to all the durations |
| Timekeeping.WeekSumTotal | timekeeping.py:120-132 | the week entries add up to all the durations |
| Timekeeping.SevenDays | timekeeping.py:29-35 | the seven consecutive days from a date |
| Timekeeping.InSevenDays | timekeeping.py:29-35 | a date is among the seven days from a Monday exactly when that Monday is its week start |
| Timekeeping.WeekIsSumOfDays | timekeeping.py:110-132 | a week's entry is the sum of the day entries of its seven days |
| Timekeeping.WeekendHolidayOrWorked | timekeeping.py:135-190 | with weekends included and a threshold that is not negative, a Saturday or Sunday is a holiday exactly when it is not a worked weekend day |
| Timekeeping.IdleDayIsHoliday | timekeeping.py:150-152 | a day without activities is a holiday, unless it is an excluded weekend day |
| Timekeeping.Work.constructor | timekeeping.py:103 | a new `Work` has no activities |
| Timekeeping.Work.Append | timekeeping.py:108 | the activity is appended at the end and nothing else changes |
| Timekeeping.Work.Load | timekeeping.py:98-108 | loading succeeds exactly when every row builds an activity, and gives one activity per row in order. Otherwise the first bad row is named |
| Timekeeping.Work.LoadWith | timekeeping.py:103-108 | the same for the loop with the activity constructor passed in |
| Timekeeping.Work.HoursPerDay | timekeeping.py:110-118 | the loop builds the per-day tally of the durations |
| Timekeeping.Work.HoursPerWeek | timekeeping.py:120-132 | the loop builds the per-week tally of the durations, keyed by `week_start` |
| Timekeeping.Work.Holidays | timekeeping.py:135-164 | the result holds exactly the days from start to end that are `IsHoliday`: no entry or at most the threshold, leaving out Saturdays and Sundays when excluded. It is in increasing date order. By default weekends are excluded and the threshold is 4 hours (`DefaultThreshold`, 14400 seconds) |
| Timekeeping.Work.Weekends | timekeeping.py:166-190 | the result holds exactly the days from start to end that are `IsWorkedWeekend`: Saturdays and Sundays with more than the threshold. It is in increasing date order. The threshold is 4 hours by default |
| Timekeeping.Work.TagSums | timekeeping.py:362-381 | the tag tally of the year, or nothing when it is empty (the early return at line 379) |

## Left out

- Files and output are not modelled: reading files (`open`, `csv.DictReader`, encodings), writing the CSV and Excel files, the plots, `print`, the `verbose` output and the script entry points. Rows come in as sequences of values and results are returned.
- `dateutil.parser.parse` of the `Day`, `Start Time` and `End Time` cells (process_tmetric_email_adjusted.py:29, timekeeping.py:64, 72, 77) is not modelled: the model takes those cells already parsed into a date or a date and time of day. `Day` parses of the processed CSV (`strptime`) are modelled.
- Durations.ParseDuration: accepts only one or two digits of hours, a colon and two digits of minutes. Other texts `dateutil` would read as a time are rejected, and so is a colon with surrounding spaces. Seconds in a token are not modelled.
- EmailWeeks.FieldsOf: the durations of the redistribution script are floats and its sums are float sums. The model uses exact reals, so `Weekly Email %` is the exact ratio rather than its `.4f` text, and the `(hours)` columns are not rounded to four decimals (`round(…, 4)`).
- EmailWeeks.Stamp: the `Duration adjusted` text is the `hh:mm:ss` of the exact adjusted seconds, where Python formats a float.
- EmailProcess.Process: a `Project` cell missing from a single ragged row (`DictReader` fills it with `None`), and a `Day` cell that does not parse, are not modelled.
- Python's largest year, 9999, is not a bound on `Calendar` dates. Only the date texts are limited to four-digit years.
- `strptime`'s `\d` also matches non-ASCII digits. The model reads ASCII digits only.
- HolidayCalendar.GetHolidaysByYear: `datetime.date.today()` (holiday_calendar.py:35) is a parameter `today`.
- A `Duration adjusted (hours)` cell that is not a number is not modelled (`float()` raises). The hours of a row are given as a real, 0 when the cell is absent.
- Microseconds of parsed times are not modelled; all times are whole seconds.
- Timekeeping.WeekendHolidayOrWorked: holds only for a threshold that is not negative. With a negative threshold an empty weekend day is both a holiday and a worked day.
- The histogram's value lists and plots (histogram_hours_per_workday.py:38-73) are not modelled.
- The colour-map's colours and drawing are not modelled; only its grid and week totals are.
- The drawing part of `plot_tags_pie` (timekeeping.py:382 on) is not modelled, nor the other plotting methods of `Work`.
- Activities.NewActivity: the start and end times are placed on the activity's day directly, as timekeeping.py:72-81 evidently intends. The `ValueError` the chain of `replace` calls raises when an intermediate date does not exist (see Findings) is not a failure of `NewActivity`. The chain as written is `Activities.OnDayAsWritten`.
- Activities.NewActivity: `Activity.row` (timekeeping.py:91) keeps only the `Project Code` cell, the one cell it is read for. The `Tags` and `Tag` attributes at line 369 never exist on an activity, so those lookups always give nothing.

## Findings

| source | as written | input that shows it | evidently intended | confidence | as-written member | corrected member |
|---|---|---|---|---|---|---|
| timekeeping.py:72-81 | the start and end times are moved to the activity's day by `replace(year=…)`, then `replace(month=…)`, then `replace(day=…)`, and each call must produce an existing date | `Start Time` `09:00` parsed on 2024-01-31 (`dateutil` fills in today's date), `Day` 2024-04-15: `replace(month=4)` asks for April 31st and raises `ValueError` | the time of day on the activity's day, which always exists | not executed | Activities.OnDayAsWrittenFailsFromJanuary31 | Activities.OnDayAsWrittenAgrees |
