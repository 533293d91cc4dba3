/**
 * Durations as the scripts read and write them: the `H:MM` token of the
 * `Duration` column, the `hh:mm:ss` text of the redistribution script and the
 * `"N days, H:MM"` text of `hours_minutes`. Durations are whole seconds;
 * adjusted durations, which are fractions of seconds, are exact reals.
 */
module Durations {
  import opened Wrappers
  import opened Text

  /**
   * The `H:MM` token: one or two digits of hours below 24, a colon and two
   * digits of minutes below 60, read as a time of day whose hours and minutes
   * become a duration in seconds. Anything else fails (`None`).
   */
  function ParseDuration(s: string): (r: Option<nat>)
    ensures r.Some? ==> r.value % 60 == 0 && r.value < 86400
  {
    var parts := Split(s, ':');
    if |parts| == 2 && 1 <= |parts[0]| <= 2 && AllDigits(parts[0]) && |parts[1]| == 2 && AllDigits(parts[1]) then
      var h := DigitsValue(parts[0]);
      var m := DigitsValue(parts[1]);
      if h < 24 && m < 60 then Some(h * 3600 + m * 60) else None
    else
      None
  }

  /** A token written as `"%d:%02d"` of an hour and a minute reads as exactly that many seconds. */
  lemma ParseDurationOfClock(h: nat, m: nat)
    requires h < 24 && m < 60
    ensures ParseDuration(NatToString(h) + ":" + Pad2(m)) == Some(h * 3600 + m * 60)
  {
    NatToStringValue(h);
    Pad2Value(m);
    SplitAtSeparator(NatToString(h), Pad2(m), ':');
  }

  /** A zero-padded `"%02d:%02d"` token such as `"09:30"` reads as the same number of seconds. */
  lemma ParseDurationOfPaddedClock(h: nat, m: nat)
    requires h < 24 && m < 60
    ensures ParseDuration(Pad2(h) + ":" + Pad2(m)) == Some(h * 3600 + m * 60)
  {
    Pad2Value(h);
    Pad2Value(m);
    SplitAtSeparator(Pad2(h), Pad2(m), ':');
  }

  /** An hour of 24 or more does not exist on a clock: the token is rejected. */
  lemma ParseDurationRejectsHour(h: nat, m: nat)
    requires 24 <= h < 100 && m < 60
    ensures ParseDuration(Pad2(h) + ":" + Pad2(m)) == None
  {
    Pad2Value(h);
    Pad2Value(m);
    SplitAtSeparator(Pad2(h), Pad2(m), ':');
  }

  // ---------------------------------------------------------------------------
  // hh:mm:ss (process_tmetric_email_adjusted.py)

  /** Python's `x // c` on a non-negative float and a positive divisor. */
  function FloorDiv(x: real, c: real): int
    requires c > 0.0
  {
    (x / c).Floor
  }

  /** Python's `x % c` on floats with a positive divisor: never negative, below `c`. */
  function FloatMod(x: real, c: real): (r: real)
    requires c > 0.0
    ensures 0.0 <= r < c
  {
    var q := FloorDiv(x, c) as real;
    assert q <= x / c < q + 1.0;
    assert c * (x / c) == x;
    ScaleStrict(c, x / c, q + 1.0);
    assert c * (q + 1.0) == c * q + c;
    assert c * q <= c * (x / c) by {
      if q < x / c { ScaleStrict(c, q, x / c); }
    }
    assert c * q <= x < c * q + c;
    x - c * q
  }

  /** Multiplying by a positive factor keeps a strict order. */
  lemma ScaleStrict(c: real, a: real, b: real)
    requires c > 0.0 && a < b
    ensures c * a < c * b
  {
    assert c * b - c * a == c * (b - a);
  }

  datatype Hms = Hms(hours: int, minutes: int, seconds: int)

  /** `int(s // 3600)`, `int((s % 3600) // 60)`, `int(s % 60)`. */
  function HmsFields(s: real): Hms
    requires s >= 0.0
  {
    Hms(FloorDiv(s, 3600.0), FloorDiv(FloatMod(s, 3600.0), 60.0), FloatMod(s, 60.0).Floor)
  }

  /** `f"{h:02d}:{m:02d}:{s:02d}"` of those fields. */
  function FormatHms(s: real): string
    requires s >= 0.0
  {
    var f := HmsFields(s);
    Pad2(f.hours) + ":" + Pad2(f.minutes) + ":" + Pad2(f.seconds)
  }

  /** The floor of a quotient is the integer quotient of the floor. */
  lemma FloorOfQuotient(x: real, c: nat)
    requires x >= 0.0 && c > 0
    ensures FloorDiv(x, c as real) == x.Floor / c
  {
    var n := x.Floor;
    var q := n / c;
    var cr := c as real;
    assert q * c <= n < (q + 1) * c;
    assert (q * c) as real == q as real * cr;
    assert ((q + 1) * c) as real == (q + 1) as real * cr;
    assert q as real * cr <= x;
    assert x < (q + 1) as real * cr;
    LowerBoundOfQuotient(q as real, x, cr);
    UpperBoundOfQuotient(x, (q + 1) as real, cr);
  }

  /** `a * c <= x` gives `a <= x / c` for positive `c`. */
  lemma LowerBoundOfQuotient(a: real, x: real, c: real)
    requires c > 0.0 && a * c <= x
    ensures a <= x / c
  {
    var d := x / c;
    assert d * c == x;
    assert (d - a) * c == x - a * c;
    if d < a {
      ScaleStrict(c, d, a);
      assert false;
    }
  }

  /** `x < b * c` gives `x / c < b` for positive `c`. */
  lemma UpperBoundOfQuotient(x: real, b: real, c: real)
    requires c > 0.0 && x < b * c
    ensures x / c < b
  {
    var d := x / c;
    assert d * c == x;
    if d > b {
      ScaleStrict(c, b, d);
      assert false;
    }
  }

  /** The floor of a float remainder is the integer remainder of the floor. */
  lemma FloorOfRemainder(x: real, c: nat)
    requires x >= 0.0 && c > 0
    ensures FloatMod(x, c as real).Floor == x.Floor % c
  {
    FloorOfQuotient(x, c);
    var k := x.Floor / c;
    assert x - (c * k) as real == x - c as real * k as real;
    assert (x - (c * k) as real).Floor == x.Floor - c * k;
  }

  /**
   * The three fields: minutes and seconds below 60, and together they give
   * back the whole seconds of `s`.
   */
  lemma HmsFieldsRecombine(s: real)
    requires s >= 0.0
    ensures var f := HmsFields(s);
      f.hours >= 0 && 0 <= f.minutes < 60 && 0 <= f.seconds < 60
      && f.hours * 3600 + f.minutes * 60 + f.seconds == s.Floor
  {
    FloorOfQuotient(s, 3600);
    FloorOfRemainder(s, 3600);
    FloorOfQuotient(FloatMod(s, 3600.0), 60);
    FloorOfRemainder(s, 60);
    WholeSecondsRecombine(s.Floor);
  }

  /** Hours, minutes within the hour and seconds within the minute of `n` whole seconds add back up to `n`. */
  lemma WholeSecondsRecombine(n: int)
    requires n >= 0
    ensures n / 3600 >= 0 && 0 <= (n % 3600) / 60 < 60 && 0 <= n % 60 < 60
    ensures (n / 3600) * 3600 + ((n % 3600) / 60) * 60 + n % 60 == n
  {
    var q, r := n / 3600, n % 3600;
    var m, t := r / 60, r % 60;
    assert n == 3600 * q + r && r == 60 * m + t;
    assert n == 60 * (60 * q + m) + t;
  }

  /** Reads `hh:mm:ss` text back as whole seconds. */
  function ParseHms(t: string): (r: Option<int>)
    ensures r.Some? ==> r.value >= 0
  {
    var parts := Split(t, ':');
    if |parts| == 3 && AllDigits(parts[0]) && AllDigits(parts[1]) && AllDigits(parts[2]) then
      Some(DigitsValue(parts[0]) * 3600 + DigitsValue(parts[1]) * 60 + DigitsValue(parts[2]))
    else
      None
  }

  /** The `hh:mm:ss` text loses only the fraction of a second: it reads back as the floor of `s`. */
  lemma FormatHmsRoundTrip(s: real)
    requires s >= 0.0
    ensures ParseHms(FormatHms(s)) == Some(s.Floor)
    ensures var f := HmsFields(s); |Pad2(f.minutes)| == 2 && |Pad2(f.seconds)| == 2
  {
    var f := HmsFields(s);
    HmsFieldsRecombine(s);
    Pad2Value(f.hours);
    Pad2Value(f.minutes);
    Pad2Value(f.seconds);
    SplitThree(Pad2(f.hours), Pad2(f.minutes), Pad2(f.seconds), ':');
  }

  // ---------------------------------------------------------------------------
  // "N days, H:MM" (timekeeping.py hours_minutes)

  /** `timedelta.days`: whole days, rounded towards minus infinity. */
  function Days(td: int): int {
    td / 86400
  }

  /** `timedelta.seconds`: the seconds left over, in 0..86399. */
  function DaySeconds(td: int): (r: nat)
    ensures r < 86400
  {
    td % 86400
  }

  /** The `"%d:%02d"` clock of `td.seconds`: hours, and minutes padded to two digits. */
  function Clock(secs: nat): string
    requires secs < 86400
  {
    var mm := secs / 60;
    NatToString(mm / 60) + ":" + Pad2(mm % 60)
  }

  /** `hours_minutes(td)` for a duration of `td` whole seconds. */
  function HoursMinutes(td: int): string {
    var days := Days(td);
    var clock := Clock(DaySeconds(td));
    if days != 0 then
      IntToString(days) + " day" + (if days != 1 && days != -1 then "s" else "") + ", " + clock
    else
      clock
  }

  /** Within one day the text reads back as the duration with its seconds dropped. */
  lemma HoursMinutesRoundTrip(td: int)
    requires 0 <= td < 86400
    ensures ParseDuration(HoursMinutes(td)) == Some(td - td % 60)
  {
    var mm := td / 60;
    var h, m := mm / 60, mm % 60;
    assert Days(td) == 0 && DaySeconds(td) == td;
    assert HoursMinutes(td) == NatToString(h) + ":" + Pad2(m);
    assert td - td % 60 == 60 * mm;
    assert mm == 60 * h + m;
    assert h * 3600 + m * 60 == 60 * (60 * h + m);
    ParseDurationOfClock(h, m);
  }

  /**
   * Outside one day the text is a day count, `" day, "` for one day either way
   * and `" days, "` otherwise, then the clock of the seconds within the day.
   */
  lemma HoursMinutesDayPrefix(td: int)
    ensures 0 <= td < 86400 ==> HoursMinutes(td) == Clock(td)
    ensures !(0 <= td < 86400) ==>
      Days(td) != 0 && HoursMinutes(td) ==
        IntToString(Days(td)) + (if Days(td) == 1 || Days(td) == -1 then " day, " else " days, ") + HoursMinutes(DaySeconds(td))
  {
    var secs := DaySeconds(td);
    assert Days(secs) == 0 && DaySeconds(secs) == secs;
    if !(0 <= td < 86400) {
      var days := Days(td);
      var word := if days != 1 && days != -1 then "s" else "";
      assert " day" + word + ", " == if days == 1 || days == -1 then " day, " else " days, ";
      assert IntToString(days) + " day" + word + ", " + Clock(secs)
          == IntToString(days) + (" day" + word + ", ") + Clock(secs);
    }
  }

  /** The clock holds no comma, so a comma shows exactly when the duration is not within one day. */
  lemma HoursMinutesCommaIffDays(td: int)
    ensures ',' in HoursMinutes(td) <==> !(0 <= td < 86400)
  {
    var clock := Clock(DaySeconds(td));
    var mm := DaySeconds(td) / 60;
    assert AllDigits(NatToString(mm / 60)) && AllDigits(Pad2(mm % 60));
    assert ',' !in clock;
    if Days(td) != 0 {
      var text := HoursMinutes(td);
      var k := |IntToString(Days(td))| + (if Days(td) != 1 && Days(td) != -1 then 5 else 4);
      assert text[k] == ',';
    }
  }
}
