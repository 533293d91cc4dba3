/**
 * The steps of the redistribution script's `main`: read the rows and parse
 * their durations, file them by week, write the result fields into every row
 * week by week, and merge the output column list.
 */
module EmailProcess {
  import opened Wrappers
  import opened Calendar
  import opened Durations
  import opened Columns
  import opened Buckets
  import opened EmailWeeks

  /**
   * One CSV row as read: its `Day` already parsed to a date, its `Project`, and
   * its `Duration` text.
   */
  datatype InputRow = InputRow(day: Date, project: string, duration: string)

  datatype Failure =
    | MissingColumn(name: string)  // a `KeyError` on the first row
    | BadDuration(row: nat)        // the first row whose duration is not an `H:MM` token
    | NoRows                       // `rows[0]` of an empty file

  datatype Output = Output(rows: seq<Row>, fieldnames: seq<string>, warnings: seq<Date>)

  /** The two columns the reading loop adds to every row. */
  const ParsedColumns := ["parsed_day", "parsed_duration"]

  predicate DurationsParse(input: seq<InputRow>) {
    forall i :: 0 <= i < |input| ==> ParseDuration(input[i].duration).Some?
  }

  /** The keys of every row once it is read: the header's columns, then the two parsed ones. */
  function LoadedKeys(header: seq<string>): seq<string> {
    AppendAbsent(HeaderKeys(header), ParsedColumns)
  }

  /** A row as the reading loop leaves it, with keys `keys`. */
  function LoadRow(keys: seq<string>, input: InputRow): (r: Option<Row>)
    ensures r.Some? <==> ParseDuration(input.duration).Some?
    ensures r.Some? ==> r.value.day == input.day && r.value.project == input.project
                        && r.value.seconds == ParseDuration(input.duration).value
  {
    match ParseDuration(input.duration)
    case None => None
    case Some(secs) =>
      Some(Row(keys, input.day, input.project, secs, None, None))
  }

  /** All rows as the reading loop leaves them. */
  function Loaded(header: seq<string>, input: seq<InputRow>): (rows: seq<Row>)
    requires DurationsParse(input)
    ensures |rows| == |input|
    ensures forall i :: 0 <= i < |input| ==> Some(rows[i]) == LoadRow(LoadedKeys(header), input[i])
  {
    var keys := LoadedKeys(header);
    seq(|input|, i requires 0 <= i < |input| => LoadRow(keys, input[i]).value)
  }

  /**
   * The reading loop (lines 25-31): looks up `Day` and `Duration` in every row
   * and parses the duration, stopping at the first failure.
   */
  method LoadRows(header: seq<string>, input: seq<InputRow>) returns (res: Result<seq<Row>, Failure>)
    ensures input != [] && "Day" !in header ==> res == Failure(MissingColumn("Day"))
    ensures input != [] && "Day" in header && "Duration" !in header ==> res == Failure(MissingColumn("Duration"))
    ensures res.Success? <==> (input == [] || ("Day" in header && "Duration" in header)) && DurationsParse(input)
    ensures res.Success? ==> res.value == Loaded(header, input)
    ensures res.Failure? && res.error.BadDuration? ==>
      res.error.row < |input| && ParseDuration(input[res.error.row].duration).None?
      && forall j :: 0 <= j < res.error.row ==> ParseDuration(input[j].duration).Some?
    ensures res.Failure? ==> input != []
    ensures res.Failure? && "Day" in header && "Duration" in header ==> res.error.BadDuration?
  {
    var keys := LoadedKeys(header);
    var rows: seq<Row> := [];
    var i := 0;
    while i < |input|
      invariant 0 <= i <= |input|
      invariant i > 0 ==> "Day" in header && "Duration" in header
      invariant DurationsParse(input[..i])
      invariant rows == Loaded(header, input[..i])
    {
      if "Day" !in header {
        return Failure(MissingColumn("Day"));
      }
      if "Duration" !in header {
        return Failure(MissingColumn("Duration"));
      }
      var row := LoadRow(keys, input[i]);
      if row.None? {
        PrefixParses(input, i);
        return Failure(BadDuration(i));
      }
      LoadedStep(header, input, i);
      rows := rows + [row.value];
      i := i + 1;
    }
    assert input[..i] == input;
    return Success(rows);
  }

  /** Reading one more row whose duration parses extends the rows read so far by that row. */
  lemma LoadedStep(header: seq<string>, input: seq<InputRow>, i: nat)
    requires i < |input| && DurationsParse(input[..i]) && ParseDuration(input[i].duration).Some?
    ensures DurationsParse(input[..i + 1])
    ensures Loaded(header, input[..i + 1]) == Loaded(header, input[..i]) + [LoadRow(LoadedKeys(header), input[i]).value]
  {
    assert input[..i + 1] == input[..i] + [input[i]];
  }

  /** Every row of a prefix whose durations parse has a parsing duration. */
  lemma PrefixParses(input: seq<InputRow>, i: nat)
    requires i <= |input| && DurationsParse(input[..i])
    ensures forall j :: 0 <= j < i ==> ParseDuration(input[j].duration).Some?
  {
    forall j | 0 <= j < i
      ensures ParseDuration(input[j].duration).Some?
    {
      assert input[..i][j] == input[j];
    }
  }

  /**
   * The term of `sum(xs)` over a list of reals. It is a named function rather
   * than a lambda so that the sums taken in the loop and in the lemmas below are
   * sums of the same term.
   */
  function Value(x: real): real { x }

  predicate Ascending(idxs: seq<nat>, n: nat) {
    (forall j :: 0 <= j < |idxs| ==> idxs[j] < n)
    && (forall j, j' :: 0 <= j < j' < |idxs| ==> idxs[j] < idxs[j'])
  }

  /** One row of a week with totals `other` and `email`, stamped with `fields`. */
  function Restamp(r: Row, other: nat, email: nat, fields: WeekFields): Row {
    StampWith(r, Adjust(r, other, email), fields)
  }

  /** The stamping of a week with totals `other` and `email` and fields `fields`, as a function of the row. */
  function RestampBy(other: nat, email: nat, fields: WeekFields): Row -> Row {
    r => Restamp(r, other, email, fields)
  }

  /** `xs` with each row at a position in `idxs` stamped with its adjusted duration and `fields`. */
  function StampedAt(xs: seq<Row>, idxs: seq<nat>, other: nat, email: nat, fields: WeekFields): (ys: seq<Row>)
    requires BucketIndicesValid(xs, idxs)
    ensures |ys| == |xs|
  {
    UpdatedAt(xs, idxs, RestampBy(other, email, fields))
  }

  /** Position by position: stamped where listed, untouched elsewhere. */
  lemma StampedAtIndex(xs: seq<Row>, idxs: seq<nat>, other: nat, email: nat, fields: WeekFields, i: nat)
    requires BucketIndicesValid(xs, idxs) && i < |xs|
    ensures StampedAt(xs, idxs, other, email, fields)[i] ==
      if i in idxs then Restamp(xs[i], other, email, fields) else xs[i]
  {
    UpdatedAtIndex(xs, idxs, RestampBy(other, email, fields), i);
  }

  /**
   * The adjusted duration of one row (lines 70-73, 90-95): unchanged in a
   * week without other time, 0 for an email row, otherwise the row's share of
   * the week's email time added to it.
   */
  method AdjustedSeconds(r: Row, other: nat, email: nat) returns (adjusted: real)
    ensures adjusted == Adjust(r, other, email)
  {
    var orig := r.seconds as real;
    if other == 0 {
      adjusted := orig;
    } else if r.project == EmailProject {
      adjusted := 0.0;
    } else {
      var share := orig / other as real;
      adjusted := orig + share * email as real;
    }
  }

  /** Stamping one more listed position: it is still untouched, and afterwards stamped. */
  lemma StampedAtStep(xs: seq<Row>, idxs: seq<nat>, j: nat, other: nat, email: nat, fields: WeekFields)
    requires Ascending(idxs, |xs|) && j < |idxs|
    ensures StampedAt(xs, idxs[..j], other, email, fields)[idxs[j]] == xs[idxs[j]]
    ensures StampedAt(xs, idxs[..j + 1], other, email, fields)
         == StampedAt(xs, idxs[..j], other, email, fields)[idxs[j] := Restamp(xs[idxs[j]], other, email, fields)]
  {
    assert idxs[..j + 1][..j] == idxs[..j];
    assert idxs[j] !in idxs[..j];
    StampedAtIndex(xs, idxs[..j], other, email, fields, idxs[j]);
  }

  /** `orig_seconds_list`: the seconds of each row, in order. */
  function SecondsList(rs: seq<Row>): (xs: seq<real>)
    ensures |xs| == |rs|
    decreases |rs|
  {
    if rs == [] then [] else SecondsList(rs[..|rs| - 1]) + [rs[|rs| - 1].seconds as real]
  }

  /** `adjusted_seconds_list`: the adjusted seconds of each row, in order. */
  function AdjustedList(rs: seq<Row>, other: nat, email: nat): (xs: seq<real>)
    ensures |xs| == |rs|
    decreases |rs|
  {
    if rs == [] then [] else AdjustedList(rs[..|rs| - 1], other, email) + [Adjust(rs[|rs| - 1], other, email)]
  }

  /** The first list adds up to the week's total seconds. */
  lemma {:induction false} SecondsListSum(rs: seq<Row>)
    ensures RealSum(SecondsList(rs), Value) == TotalSeconds(rs) as real
    decreases |rs|
  {
    if rs != [] {
      var init := rs[..|rs| - 1];
      var last := rs[|rs| - 1];
      SecondsListSum(init);
      RealSumAppend(SecondsList(init), last.seconds as real, Value);
      assert rs == init + [last];
      SumAppend(init, last, RowSeconds);
    }
  }

  /** The second list adds up to the sum of the adjusted durations. */
  lemma {:induction false} AdjustedListSum(rs: seq<Row>, other: nat, email: nat)
    ensures RealSum(AdjustedList(rs, other, email), Value) == SumAdjusted(rs, other, email)
    decreases |rs|
  {
    if rs != [] {
      var init := rs[..|rs| - 1];
      var last := rs[|rs| - 1];
      AdjustedListSum(init, other, email);
      RealSumAppend(AdjustedList(init, other, email), Adjust(last, other, email), Value);
      assert rs == init + [last];
      RealSumAppend(init, last, AdjustBy(other, email));
    }
  }

  /** Both lists grow by the next row's entry. */
  lemma ListsStep(rs: seq<Row>, j: nat, other: nat, email: nat)
    requires j < |rs|
    ensures SecondsList(rs[..j + 1]) == SecondsList(rs[..j]) + [rs[j].seconds as real]
    ensures AdjustedList(rs[..j + 1], other, email) == AdjustedList(rs[..j], other, email) + [Adjust(rs[j], other, email)]
  {
    assert rs[..j + 1][..j] == rs[..j];
  }

  /**
   * The inner loop of one week (lines 68-114): each row of the week, in
   * order, gets its adjusted seconds and the week's fields, written in place,
   * and its original and adjusted seconds are appended to the two lists.
   */
  method StampWeek(a: array<Row>, idxs: seq<nat>, fields: WeekFields, other: nat, email: nat)
      returns (origList: seq<real>, adjList: seq<real>)
    requires Ascending(idxs, a.Length)
    modifies a
    ensures a[..] == StampedAt(old(a[..]), idxs, other, email, fields)
    ensures origList == SecondsList(Pick(old(a[..]), idxs))
    ensures adjList == AdjustedList(Pick(old(a[..]), idxs), other, email)
  {
    ghost var before := a[..];
    ghost var week := Pick(before, idxs);
    origList := [];
    adjList := [];
    var j := 0;
    while j < |idxs|
      invariant 0 <= j <= |idxs|
      invariant a[..] == StampedAt(before, idxs[..j], other, email, fields)
      invariant origList == SecondsList(week[..j])
      invariant adjList == AdjustedList(week[..j], other, email)
    {
      var idx := idxs[j];
      StampedAtStep(before, idxs, j, other, email, fields);
      ListsStep(week, j, other, email);
      var r := a[idx];
      var orig := r.seconds as real;
      var adjusted := AdjustedSeconds(r, other, email);
      origList := origList + [orig];
      adjList := adjList + [adjusted];
      a[idx] := StampWith(r, adjusted, fields);
      j := j + 1;
    }
    assert idxs[..j] == idxs;
    assert week[..j] == week;
  }

  /** The rows with those of the weeks in `weeks` stamped. */
  function StampedWeeks(rows: seq<Row>, weeks: seq<Date>): (ys: seq<Row>)
    ensures |ys| == |rows|
  {
    seq(|rows|, i requires 0 <= i < |rows| => if WeekOf(rows[i]) in weeks then Stamp(rows, rows[i]) else rows[i])
  }

  /**
   * The group of `week` lists the positions of the week's rows in ascending
   * order, and while the week has not had its turn those rows are untouched.
   */
  lemma WeekGroup(rows: seq<Row>, done: seq<Date>, week: Date)
    requires week !in done
    ensures Ascending(BucketIndices(rows, WeekOf, week, |rows|), |rows|)
    ensures BucketIndicesValid(StampedWeeks(rows, done), BucketIndices(rows, WeekOf, week, |rows|))
    ensures Pick(StampedWeeks(rows, done), BucketIndices(rows, WeekOf, week, |rows|)) == RowsOfWeek(rows, week)
  {
    var idxs := BucketIndices(rows, WeekOf, week, |rows|);
    var xs := StampedWeeks(rows, done);
    BucketIndicesFacts(rows, WeekOf, week, |rows|);
    PickBucketIndices(rows, WeekOf, week, |rows|);
    assert rows[..|rows|] == rows;
    forall p | 0 <= p < |idxs|
      ensures xs[idxs[p]] == rows[idxs[p]]
    {
      assert WeekOf(rows[idxs[p]]) == week;
    }
    assert Pick(xs, idxs) == Pick(rows, idxs);
  }

  /** Stamping the rows of `week` completes its turn of the week loop. */
  lemma WeekTurn(rows: seq<Row>, done: seq<Date>, week: Date, idxs: seq<nat>)
    requires week !in done
    requires idxs == BucketIndices(rows, WeekOf, week, |rows|) && Ascending(idxs, |rows|)
    ensures StampedAt(StampedWeeks(rows, done), idxs,
                      NonEmailSeconds(RowsOfWeek(rows, week)), EmailSeconds(RowsOfWeek(rows, week)),
                      FieldsOf(RowsOfWeek(rows, week), week))
         == StampedWeeks(rows, done + [week])
  {
    var ws := RowsOfWeek(rows, week);
    var ys := StampedAt(StampedWeeks(rows, done), idxs, NonEmailSeconds(ws), EmailSeconds(ws), FieldsOf(ws, week));
    var zs := StampedWeeks(rows, done + [week]);
    forall i | 0 <= i < |rows|
      ensures ys[i] == zs[i]
    {
      WeekTurnAt(rows, done, week, idxs, i);
    }
  }

  /** `WeekTurn` at position `i`. */
  lemma WeekTurnAt(rows: seq<Row>, done: seq<Date>, week: Date, idxs: seq<nat>, i: nat)
    requires week !in done && i < |rows|
    requires idxs == BucketIndices(rows, WeekOf, week, |rows|) && Ascending(idxs, |rows|)
    ensures StampedAt(StampedWeeks(rows, done), idxs,
                      NonEmailSeconds(RowsOfWeek(rows, week)), EmailSeconds(RowsOfWeek(rows, week)),
                      FieldsOf(RowsOfWeek(rows, week), week))[i]
         == StampedWeeks(rows, done + [week])[i]
  {
    var xs := StampedWeeks(rows, done);
    var ws := RowsOfWeek(rows, week);
    StampedAtIndex(xs, idxs, NonEmailSeconds(ws), EmailSeconds(ws), FieldsOf(ws, week), i);
    BucketIndicesComplete(rows, WeekOf, week, |rows|, i);
    if WeekOf(rows[i]) == week {
      assert xs[i] == rows[i];
    }
  }

  /**
   * The weekly totals and fields (lines 41-61): total and email seconds, the
   * email share (0 for an empty week), both totals as `hh:mm:ss`, the Monday's
   * year, month and ISO week, and the seconds of the week's other rows.
   */
  method WeekStats(weekRows: seq<Row>, week: Date) returns (fields: WeekFields, email: nat, other: nat)
    ensures fields == FieldsOf(weekRows, week)
    ensures email == EmailSeconds(weekRows) && other == NonEmailSeconds(weekRows)
  {
    var total := TotalSeconds(weekRows);
    email := EmailSeconds(weekRows);
    var pct: real := if total > 0 then email as real / total as real else 0.0;
    var weekNumber := IsoCalendarWeek(week);
    fields := WeekFields(FormatHms(email as real), pct, week.year, week.month, weekNumber,
                         FormatHms(total as real), email as real / 3600.0, total as real / 3600.0);
    other := NonEmailSeconds(weekRows);
  }

  /**
   * The part of turn `k` of the week loop that does not depend on the
   * rows' contents: the week's positions are ascending and pick out the
   * week's rows from the rows stamped so far, and stamping them there gives
   * the rows stamped up to and including this week.
   */
  lemma WeekLoopStep(rows: seq<Row>, done: seq<Date>, week: Date, idxs: seq<nat>)
    requires week !in done
    requires idxs == BucketIndices(rows, WeekOf, week, |rows|)
    ensures Ascending(idxs, |rows|)
    ensures BucketIndicesValid(StampedWeeks(rows, done), idxs)
    ensures Pick(StampedWeeks(rows, done), idxs) == RowsOfWeek(rows, week)
    ensures StampedAt(StampedWeeks(rows, done), idxs,
                      NonEmailSeconds(RowsOfWeek(rows, week)), EmailSeconds(RowsOfWeek(rows, week)),
                      FieldsOf(RowsOfWeek(rows, week), week))
         == StampedWeeks(rows, done + [week])
  {
    WeekGroup(rows, done, week);
    WeekTurn(rows, done, week, idxs);
  }

  /**
   * One turn of the week loop (lines 41-118): the week's totals and fields,
   * then its rows rewritten in place; in a week with other time the sums of
   * the two lists are compared, and `warn` says whether they differ by more
   * than a second, which they never do.
   */
  method StampOneWeek(a: array<Row>, rows: seq<Row>, ghost done: seq<Date>, week: Date, idxs: seq<nat>)
      returns (warn: bool)
    requires a.Length == |rows| && a[..] == StampedWeeks(rows, done)
    requires week !in done && idxs == BucketIndices(rows, WeekOf, week, |rows|)
    modifies a
    ensures a[..] == StampedWeeks(rows, done + [week])
    ensures !warn
  {
    WeekLoopStep(rows, done, week, idxs);
    var weekRows := Pick(a[..], idxs);
    var fields, email, other := WeekStats(weekRows, week);
    WeekListsAgree(weekRows, other, email);
    ghost var next := StampedWeeks(rows, done + [week]);
    assert StampedAt(a[..], idxs, other, email, fields) == next;
    var origList, adjList := StampWeek(a, idxs, fields, other, email);
    warn := false;
    if other != 0 {
      var origSum := RealSum(origList, Value);
      var adjSum := RealSum(adjList, Value);
      warn := origSum - adjSum > 1.0 || adjSum - origSum > 1.0;
    }
  }


  /** In a week with other time, the two lists the loop builds add up to the same total. */
  lemma WeekListsAgree(weekRows: seq<Row>, other: nat, email: nat)
    requires email == EmailSeconds(weekRows) && other == NonEmailSeconds(weekRows)
    ensures RealSum(SecondsList(weekRows), Value) == RealSum(AdjustedList(weekRows, other, email), Value)
  {
    WeekConservation(weekRows);
    SecondsListSum(weekRows);
    AdjustedListSum(weekRows, other, email);
  }

  /** Once every week has had its turn, every row is stamped. */
  lemma StampedAllWeeks(rows: seq<Row>, weeks: seq<Date>)
    requires forall i :: 0 <= i < |rows| ==> WeekOf(rows[i]) in weeks
    ensures StampedWeeks(rows, weeks) == Redistributed(rows)
  {
  }

  /**
   * The week loop (lines 40-119): the weekly totals and fields of each week,
   * in the order the weeks were first met, then its rows rewritten in place;
   * in a week with other time the sums of the two lists are compared, and a
   * week whose sums differ by more than a second would be reported.
   */
  method StampWeeks(rows: seq<Row>, groups: map<Date, seq<nat>>, order: seq<Date>) returns (out: seq<Row>, warnings: seq<Date>)
    requires forall w :: w in groups ==> groups[w] == BucketIndices(rows, WeekOf, w, |rows|)
    requires forall i :: 0 <= i < |rows| ==> WeekOf(rows[i]) in order
    requires forall w :: w in groups <==> w in order
    requires NoRepeats(order)
    ensures out == Redistributed(rows)
    ensures warnings == []
  {
    var a := new Row[|rows|](i requires 0 <= i < |rows| => rows[i]);
    warnings := [];
    var k := 0;
    assert a[..] == StampedWeeks(rows, order[..k]) by {
      assert order[..k] == [];
    }
    while k < |order|
      invariant 0 <= k <= |order|
      invariant a[..] == StampedWeeks(rows, order[..k])
      invariant warnings == []
    {
      var week := order[k];
      NotEarlier(order, k);
      var warn := StampOneWeek(a, rows, order[..k], week, groups[week]);
      if warn {
        warnings := warnings + [week];
      }
      k := k + 1;
    }
    assert order[..k] == order;
    StampedAllWeeks(rows, order);
    out := a[..];
  }

  /**
   * Every stamped row, the first included, has the loaded columns followed by
   * the ten result columns, and merging the ten again adds nothing.
   */
  lemma FirstRowKeys(header: seq<string>, input: seq<InputRow>)
    requires DurationsParse(input) && input != []
    ensures Redistributed(Loaded(header, input))[0].keys == AppendAbsent(LoadedKeys(header), ExtraColumns)
    ensures AppendAbsent(AppendAbsent(LoadedKeys(header), ExtraColumns), ExtraColumns)
         == AppendAbsent(LoadedKeys(header), ExtraColumns)
  {
    var keys := LoadedKeys(header);
    var rows := Loaded(header, input);
    assert rows[0].keys == keys by {
      assert Some(rows[0]) == LoadRow(keys, input[0]);
    }
    AppendAbsentIdempotent(keys, ExtraColumns);
  }

  /**
   * `main` up to writing the files (lines 25-127): read, group, stamp, and merge
   * the column list. The columns it looks up must exist, every duration must
   * parse, and the file must have a row.
   */
  method Process(header: seq<string>, input: seq<InputRow>) returns (res: Result<Output, Failure>)
    ensures res.Success? <==>
      input != [] && "Day" in header && "Duration" in header && "Project" in header && DurationsParse(input)
    ensures input == [] ==> res == Failure(NoRows)
    ensures input != [] && "Day" !in header ==> res == Failure(MissingColumn("Day"))
    ensures input != [] && "Day" in header && "Duration" !in header ==> res == Failure(MissingColumn("Duration"))
    ensures input != [] && "Day" in header && "Duration" in header && !DurationsParse(input) ==>
      res.Failure? && res.error.BadDuration? && res.error.row < |input|
      && ParseDuration(input[res.error.row].duration).None?
      && forall j :: 0 <= j < res.error.row ==> ParseDuration(input[j].duration).Some?
    ensures input != [] && "Day" in header && "Duration" in header && DurationsParse(input) && "Project" !in header ==>
      res == Failure(MissingColumn("Project"))
    ensures res.Success? ==>
      res.value.rows == Redistributed(Loaded(header, input))
      && res.value.warnings == []
      && res.value.fieldnames == AppendAbsent(LoadedKeys(header), ExtraColumns)
      && res.value.fieldnames == res.value.rows[0].keys
  {
    var loaded := LoadRows(header, input);
    if loaded.Failure? {
      return Failure(loaded.error);
    }
    var rows := loaded.value;
    var groups, order := GroupIndices(rows, WeekOf);
    if rows != [] && "Project" !in header {
      return Failure(MissingColumn("Project"));
    }
    var stamped, warnings := StampWeeks(rows, groups, order);
    if stamped == [] {
      return Failure(NoRows);
    }
    FirstRowKeys(header, input);
    var fieldnames := MergeColumns(stamped[0].keys, ExtraColumns);
    return Success(Output(stamped, fieldnames, warnings));
  }
}
