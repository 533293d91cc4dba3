/**
 * The date parser the three report scripts share: `strptime(day, '%Y-%m-%d')`,
 * and when that fails `strptime(day, '%d/%m/%Y')`, and when that fails too the
 * row is skipped. `%Y` is exactly four digits, `%m` one or two digits naming
 * a month, `%d` two digits naming 1..31, one digit 1..9, or a space and one
 * digit 1..9; the whole text must be consumed, and the date must exist.
 */
module DateParse {
  import opened Wrappers
  import opened Calendar
  import opened Text

  /** A `%Y` field: exactly four digits. */
  predicate YearToken(s: string) {
    |s| == 4 && AllDigits(s)
  }

  /** A `%m` field: `1[0-2]`, `0[1-9]` or `[1-9]`. */
  predicate MonthToken(s: string) {
    (|s| == 1 && '1' <= s[0] <= '9')
    || (|s| == 2 && s[0] == '1' && '0' <= s[1] <= '2')
    || (|s| == 2 && s[0] == '0' && '1' <= s[1] <= '9')
  }

  /** A `%d` field: `3[01]`, `[12]` and a digit, `0[1-9]`, `[1-9]` or a space and `[1-9]`. */
  predicate DayToken(s: string) {
    (|s| == 1 && '1' <= s[0] <= '9')
    || (|s| == 2 && s[0] == '3' && '0' <= s[1] <= '1')
    || (|s| == 2 && '1' <= s[0] <= '2' && IsDigit(s[1]))
    || (|s| == 2 && s[0] == '0' && '1' <= s[1] <= '9')
    || (|s| == 2 && s[0] == ' ' && '1' <= s[1] <= '9')
  }

  /** The number a `%m` field denotes. */
  function MonthValue(s: string): (v: nat)
    requires MonthToken(s)
    ensures 1 <= v <= 12
  {
    if |s| == 2 then TwoDigitsValue(s); DigitsValue(s) else DigitValue(s[0])
  }

  /** The number a `%d` field denotes; a leading space counts for nothing. */
  function DayValue(s: string): (v: nat)
    requires DayToken(s)
    ensures 1 <= v <= 31
  {
    if |s| == 1 then DigitValue(s[0])
    else if s[0] == ' ' then DigitValue(s[1])
    else TwoDigitsValue(s); DigitsValue(s)
  }

  /** The date the three fields name, when it exists (year 0 and 31 April do not). */
  function MakeDate(y: int, m: int, d: int): (r: Option<Date>)
    ensures r.Some? <==> IsValid(Ymd(y, m, d))
    ensures r.Some? ==> r.value == Ymd(y, m, d)
  {
    var ymd := Ymd(y, m, d);
    if IsValid(ymd) then Some(ymd) else None
  }

  /**
   * `strptime(s, '%Y-%m-%d')`. None of the field patterns matches a `-`, so the
   * text must split at `-` into exactly a year, a month and a day field.
   */
  function ParseIsoDate(s: string): (r: Option<Date>)
    ensures r.Some? ==> r.value.year <= 9999 && 8 <= |s| <= 10
  {
    var parts := Split(s, '-');
    if |parts| == 3 && YearToken(parts[0]) && MonthToken(parts[1]) && DayToken(parts[2]) then
      JoinThree(parts, '-');
      SplitJoin(s, '-');
      FourDigitsBound(parts[0]);
      MakeDate(DigitsValue(parts[0]), MonthValue(parts[1]), DayValue(parts[2]))
    else
      None
  }

  /** `strptime(s, '%d/%m/%Y')`, split at `/` in the same way. */
  function ParseDayFirstDate(s: string): (r: Option<Date>)
    ensures r.Some? ==> r.value.year <= 9999 && 8 <= |s| <= 10
  {
    var parts := Split(s, '/');
    if |parts| == 3 && DayToken(parts[0]) && MonthToken(parts[1]) && YearToken(parts[2]) then
      JoinThree(parts, '/');
      SplitJoin(s, '/');
      FourDigitsBound(parts[2]);
      MakeDate(DigitsValue(parts[2]), MonthValue(parts[1]), DayValue(parts[0]))
    else
      None
  }

  /** The ISO format first, then the day-first one; `None` means the row is skipped. */
  function ParseDay(s: string): (r: Option<Date>)
    ensures ParseIsoDate(s).Some? ==> r == ParseIsoDate(s)
    ensures r.None? <==> ParseIsoDate(s).None? && ParseDayFirstDate(s).None?
  {
    match ParseIsoDate(s)
    case Some(d) => Some(d)
    case None => ParseDayFirstDate(s)
  }

  /**
   * The day text of a CSV row: `row.get('parsed_day') or row.get('Day')`, where
   * an absent or empty `parsed_day` falls back to `Day`, and an absent or empty
   * result skips the row.
   */
  function RowDayText(parsedDay: Option<string>, day: Option<string>): (r: Option<string>)
    ensures r.Some? ==> r.value != []
    ensures parsedDay.Some? && parsedDay.value != [] ==> r == parsedDay
    ensures r.None? <==> (parsedDay.None? || parsedDay.value == []) && (day.None? || day.value == [])
  {
    if parsedDay.Some? && parsedDay.value != [] then parsedDay
    else if day.Some? && day.value != [] then day
    else None
  }

  /** The date a row is filed under, or `None` when the row is skipped. */
  function RowDate(parsedDay: Option<string>, day: Option<string>): (r: Option<Date>)
    ensures r.Some? ==> RowDayText(parsedDay, day).Some?
  {
    match RowDayText(parsedDay, day)
    case None => None
    case Some(text) => ParseDay(text)
  }

  /** The two formats never both accept one text, so trying them in either order gives the same date. */
  lemma FormatsAreDisjoint(s: string)
    ensures ParseIsoDate(s).None? || ParseDayFirstDate(s).None?
  {
    var dmy := Split(s, '/');
    if ParseDayFirstDate(s).Some? {
      SplitJoin(s, '/');
      JoinThree(dmy, '/');
      assert '-' !in dmy[0] && '-' !in dmy[1] && '-' !in dmy[2];
      assert '-' !in s;
      SplitWithoutSeparator(s, '-');
      assert |Split(s, '-')| == 1;
    }
  }

  /** `str(date)`, that is `"%04d-%02d-%02d"`, as the redistribution script writes `parsed_day`. */
  function IsoFormat(d: Date): string
    requires d.year <= 9999
  {
    ZeroPad(NatToString(d.year), 4) + "-" + Pad2(d.month) + "-" + Pad2(d.day)
  }

  /** The same fields written day first, `"%02d/%02d/%04d"`. */
  function DayFirstFormat(d: Date): string
    requires d.year <= 9999
  {
    Pad2(d.day) + "/" + Pad2(d.month) + "/" + ZeroPad(NatToString(d.year), 4)
  }

  /** The year written with `"%04d"` is a `%Y` field that reads back as the year. */
  lemma YearFieldReadsBack(y: nat)
    requires y <= 9999
    ensures YearToken(ZeroPad(NatToString(y), 4))
    ensures DigitsValue(ZeroPad(NatToString(y), 4)) == y
    ensures '-' !in ZeroPad(NatToString(y), 4) && '/' !in ZeroPad(NatToString(y), 4)
  {
    NatToStringShort(y);
    NatToStringValue(y);
    ZeroPadValue(NatToString(y), 4);
  }

  /** A month written with `"%02d"` is a `%m` field that reads back as the month. */
  lemma MonthFieldReadsBack(m: int)
    requires 1 <= m <= 12
    ensures MonthToken(Pad2(m)) && MonthValue(Pad2(m)) == m
    ensures '-' !in Pad2(m) && '/' !in Pad2(m)
  {
    var s := Pad2(m);
    Pad2Value(m);
    TwoDigitsValue(s);
  }

  /** A day written with `"%02d"` is a `%d` field that reads back as the day. */
  lemma DayFieldReadsBack(d: int)
    requires 1 <= d <= 31
    ensures DayToken(Pad2(d)) && DayValue(Pad2(d)) == d
    ensures '-' !in Pad2(d) && '/' !in Pad2(d)
  {
    var s := Pad2(d);
    Pad2Value(d);
    TwoDigitsValue(s);
  }

  /** The date of every `parsed_day` written by the redistribution script reads back unchanged. */
  lemma IsoFormatRoundTrip(d: Date)
    requires d.year <= 9999
    ensures ParseIsoDate(IsoFormat(d)) == Some(d)
    ensures ParseDay(IsoFormat(d)) == Some(d)
  {
    YearFieldReadsBack(d.year);
    MonthFieldReadsBack(d.month);
    DayFieldReadsBack(d.day);
    SplitThree(ZeroPad(NatToString(d.year), 4), Pad2(d.month), Pad2(d.day), '-');
  }

  /** A day-first date reads back unchanged, through the fallback format. */
  lemma DayFirstFormatRoundTrip(d: Date)
    requires d.year <= 9999
    ensures ParseDayFirstDate(DayFirstFormat(d)) == Some(d)
    ensures ParseDay(DayFirstFormat(d)) == Some(d)
  {
    YearFieldReadsBack(d.year);
    MonthFieldReadsBack(d.month);
    DayFieldReadsBack(d.day);
    SplitThree(Pad2(d.day), Pad2(d.month), ZeroPad(NatToString(d.year), 4), '/');
    FormatsAreDisjoint(DayFirstFormat(d));
  }

  /** Fields without leading zeros are accepted too: `2024-3-5` is 5 March 2024. */
  lemma UnpaddedIsoDate(d: Date)
    requires 1000 <= d.year <= 9999
    ensures ParseIsoDate(NatToString(d.year) + "-" + NatToString(d.month) + "-" + NatToString(d.day)) == Some(d)
  {
    UnpaddedYearReadsBack(d.year);
    UnpaddedMonthReadsBack(d.month);
    UnpaddedDayReadsBack(d.day);
    SplitThree(NatToString(d.year), NatToString(d.month), NatToString(d.day), '-');
  }

  /** A year from 1000 on written with `"%d"` is a `%Y` field that reads back as the year. */
  lemma UnpaddedYearReadsBack(y: nat)
    requires 1000 <= y <= 9999
    ensures YearToken(NatToString(y)) && DigitsValue(NatToString(y)) == y
    ensures '-' !in NatToString(y) && '/' !in NatToString(y)
  {
    NatToStringShort(y);
    NatToStringValue(y);
    ShortDigitsBound(NatToString(y));
  }

  /** A month written with `"%d"` is a `%m` field that reads back as the month. */
  lemma UnpaddedMonthReadsBack(m: nat)
    requires 1 <= m <= 12
    ensures MonthToken(NatToString(m)) && MonthValue(NatToString(m)) == m
    ensures '-' !in NatToString(m) && '/' !in NatToString(m)
  {
    NatToStringValue(m);
    var s := NatToString(m);
    if |s| == 2 {
      TwoDigitsValue(s);
    }
  }

  /** A day written with `"%d"` is a `%d` field that reads back as the day. */
  lemma UnpaddedDayReadsBack(d: nat)
    requires 1 <= d <= 31
    ensures DayToken(NatToString(d)) && DayValue(NatToString(d)) == d
    ensures '-' !in NatToString(d) && '/' !in NatToString(d)
  {
    NatToStringValue(d);
    var s := NatToString(d);
    if |s| == 2 {
      TwoDigitsValue(s);
    }
  }

  lemma NonexistentDateRejected(y: int, m: int, d: int)
    requires 1 <= y <= 9999 && 1 <= m <= 12 && 1 <= d <= 31 && !IsValid(Ymd(y, m, d))
    ensures ParseIsoDate(ZeroPad(NatToString(y), 4) + "-" + Pad2(m) + "-" + Pad2(d)) == None
  {
    YearFieldReadsBack(y);
    MonthFieldReadsBack(m);
    DayFieldReadsBack(d);
    SplitThree(ZeroPad(NatToString(y), 4), Pad2(m), Pad2(d), '-');
  }
}
