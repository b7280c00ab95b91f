/** The two fixed invariant-culture patterns the pages use: `dd-MM-yyyy`
    for a to-do's due date, and `dd-MM-yyyy h:mm tt` for the reminder's
    date and time. Each has a formatter and a strict parser for the same
    pattern (`DateTime.TryParseExact` with `DateTimeStyles.None`). */
module DatePatterns {
  import opened Wrappers
  import opened Text
  import opened Clock
  import opened Calendar

  /** `ToString("dd-MM-yyyy", CultureInfo.InvariantCulture)` of a day. */
  function FormatDate(d: Date): (r: string)
    requires ValidDate(d)
    ensures |r| == 10 && r[2] == '-' && r[5] == '-'
    ensures AllDigits(r[..2]) && AllDigits(r[3..5]) && AllDigits(r[6..])
  {
    FixedDigitsRoundTrip(d.day, 2);
    FixedDigitsRoundTrip(d.month, 2);
    assert Pow10(4) == 10000;
    FixedDigitsRoundTrip(d.year, 4);
    var r := FixedDigits(d.day, 2) + "-" + FixedDigits(d.month, 2) + "-" + FixedDigits(d.year, 4);
    assert r[..2] == FixedDigits(d.day, 2) && r[3..5] == FixedDigits(d.month, 2);
    assert r[6..] == FixedDigits(d.year, 4);
    r
  }

  /** Reads `dd-MM-yyyy`: two-digit day, two-digit month, four-digit year,
      separated by '-', naming a day that exists. */
  function ParseDate(s: string): (r: Option<Date>)
    ensures r.Some? ==> ValidDate(r.value)
    ensures r.Some? ==> |s| == 10 && s[2] == '-' && s[5] == '-'
  {
    if |s| == 10 && s[2] == '-' && s[5] == '-'
       && AllDigits(s[..2]) && AllDigits(s[3..5]) && AllDigits(s[6..])
    then
      var d := Date(DigitsValue(s[6..]), DigitsValue(s[3..5]), DigitsValue(s[..2]));
      if ValidDate(d) then Some(d) else None
    else None
  }

  /** The three fields of a formatted date sit at fixed positions. */
  lemma FormatDateLayout(d: Date)
    requires ValidDate(d)
    ensures |FormatDate(d)| == 10
    ensures FormatDate(d)[..2] == FixedDigits(d.day, 2)
    ensures FormatDate(d)[2] == '-' && FormatDate(d)[5] == '-'
    ensures FormatDate(d)[3..5] == FixedDigits(d.month, 2)
    ensures FormatDate(d)[6..] == FixedDigits(d.year, 4)
  {
    FixedDigitsRoundTrip(d.day, 2);
    FixedDigitsRoundTrip(d.month, 2);
    assert Pow10(4) == 10000;
    FixedDigitsRoundTrip(d.year, 4);
  }

  /** Formatting a day and parsing the text gives the day back. */
  lemma DateRoundTrip(d: Date)
    requires ValidDate(d)
    ensures ParseDate(FormatDate(d)) == Some(d)
  {
    FormatDateLayout(d);
    FixedDigitsRoundTrip(d.day, 2);
    FixedDigitsRoundTrip(d.month, 2);
    assert Pow10(4) == 10000;
    FixedDigitsRoundTrip(d.year, 4);
  }

  /** The `h` field: the hour on a 12-hour clock, 12 for noon and midnight. */
  function Hour12(h: int): (r: int)
    requires 0 <= h < 24
    ensures 1 <= r <= 12
  {
    if h % 12 == 0 then 12 else h % 12
  }

  /** The `tt` field in the invariant culture. */
  function Designator(h: int): string {
    if h < 12 then "AM" else "PM"
  }

  /** The 24-hour hour named by a 12-hour hour and its designator, as .NET's
      parser resolves it (12 AM is hour 0, 12 PM is hour 12). */
  function Hour24(h12: int, am: bool): int {
    if am then (if h12 == 12 then 0 else h12)
    else (if h12 == 12 then 12 else h12 + 12)
  }

  /** `h:mm tt` of a time of day. */
  function FormatClock(tod: int): string
    requires IsTimeOfDay(tod)
  {
    var h := tod / TicksPerHour;
    NatToDigits(Hour12(h)) + ":" + FixedDigits((tod / TicksPerMinute) % 60, 2) + " " + Designator(h)
  }

  /** Reads `h:mm tt`: a one- or two-digit hour from 0 to 12, two-digit
      minutes below 60, one space, then `AM` or `PM`. */
  function ParseClock(s: string): (r: Option<int>)
    ensures r.Some? ==> IsTimeOfDay(r.value) && r.value % TicksPerMinute == 0
  {
    if |s| == 7 || |s| == 8 then
      var hl := |s| - 6;
      if AllDigits(s[..hl]) && s[hl] == ':' && AllDigits(s[hl + 1..hl + 3]) && s[hl + 3] == ' '
         && (s[hl + 4..] == "AM" || s[hl + 4..] == "PM")
      then
        var h := DigitsValue(s[..hl]);
        var m := DigitsValue(s[hl + 1..hl + 3]);
        if h <= 12 && m <= 59 then
          HoursMinutesComponents(Hour24(h, s[hl + 4..] == "AM"), m);
          Some(HoursMinutes(Hour24(h, s[hl + 4..] == "AM"), m))
        else None
      else None
    else None
  }

  /** `ToString("dd-MM-yyyy h:mm tt", CultureInfo.InvariantCulture)`. */
  /** The text is 18 or 19 characters: a date that reads back as the day,
      a space, and a clock ending in `AM` exactly for times before noon. */
  function FormatReminder(t: DateTime): (r: string)
    requires ValidDateTime(t)
    ensures |r| == 18 || |r| == 19
    ensures r[10] == ' ' && ParseDate(r[..10]) == Some(t.date)
    ensures r[|r| - 2..] == "AM" <==> t.timeOfDay < 12 * TicksPerHour
  {
    var date := FormatDate(t.date);
    var clock := FormatClock(t.timeOfDay);
    DateRoundTrip(t.date);
    FormatClockLayout(t.timeOfDay);
    var r := date + " " + clock;
    assert r[..10] == date;
    assert r[|r| - 2..] == clock[|clock| - 2..];
    r
  }

  /** `DateTime.TryParseExact(s, "dd-MM-yyyy h:mm tt", InvariantCulture,
      DateTimeStyles.None, out dt)`: the parsed value, or none on failure.
      Whatever it accepts is a valid date-time on a whole minute. */
  function ParseReminder(s: string): (r: Option<DateTime>)
    ensures r.Some? ==> ValidDateTime(r.value) && r.value.timeOfDay % TicksPerMinute == 0
  {
    if |s| >= 11 && s[10] == ' ' then
      match (ParseDate(s[..10]), ParseClock(s[11..]))
      case (Some(d), Some(tod)) => Some(DateTime(d, tod))
      case _ => None
    else None
  }

  /** The clock text splits into hour, ':', minutes, ' ', designator. */
  lemma FormatClockLayout(tod: int)
    requires IsTimeOfDay(tod)
    ensures var s := FormatClock(tod);
            var h := tod / TicksPerHour;
            var hl := |NatToDigits(Hour12(h))|;
            && (hl == 1 || hl == 2) && |s| == hl + 6
            && s[..hl] == NatToDigits(Hour12(h))
            && s[hl] == ':'
            && s[hl + 1..hl + 3] == FixedDigits((tod / TicksPerMinute) % 60, 2)
            && s[hl + 3] == ' '
            && s[hl + 4..] == Designator(h)
  {
    var h := tod / TicksPerHour;
    SmallDigitsLength(Hour12(h));
    FixedDigitsRoundTrip((tod / TicksPerMinute) % 60, 2);
  }

  /** Formatting a time of day and parsing it back keeps the hour and the
      minute and drops the seconds and ticks. */
  lemma ClockRoundTrip(tod: int)
    requires IsTimeOfDay(tod)
    ensures ParseClock(FormatClock(tod)) == Some((tod / TicksPerMinute) * TicksPerMinute)
  {
    var s := FormatClock(tod);
    var h := tod / TicksPerHour;
    var m := (tod / TicksPerMinute) % 60;
    FormatClockLayout(tod);
    var hl := |NatToDigits(Hour12(h))|;
    assert s[..hl] == NatToDigits(Hour12(h));
    DigitsRoundTrip(Hour12(h));
    FixedDigitsRoundTrip(m, 2);
    assert s[hl + 4..] == "AM" <==> h < 12;
    assert Hour24(Hour12(h), h < 12) == h;
    var total := tod / TicksPerMinute;
    assert h == total / 60;
    assert HoursMinutes(h, m) == total * TicksPerMinute;
  }

  /** Reminder round trip: a formatted value parses back as the same value
      truncated to the minute. */
  lemma ReminderRoundTrip(t: DateTime)
    requires ValidDateTime(t)
    ensures ParseReminder(FormatReminder(t)) == Some(TruncateToMinute(t))
  {
    var s := FormatReminder(t);
    FormatDateLayout(t.date);
    assert s[..10] == FormatDate(t.date);
    assert s[11..] == FormatClock(t.timeOfDay);
    DateRoundTrip(t.date);
    ClockRoundTrip(t.timeOfDay);
  }
}
