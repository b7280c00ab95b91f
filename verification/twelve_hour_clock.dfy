/** `TimeSpanConverter`: shows an alarm's `TimeSpan` on a 12-hour clock.
    The parameter selects the part: `true` gives the time (`h:mm`), `false`
    gives the suffix (" AM" or " PM", with its leading space), anything else
    gives the time, a space, then the suffix. */
module TwelveHourClock {
  import opened Text
  import opened Clock
  import opened Converters
  import opened DatePatterns

  /** The converter's `twelveHrsTime`: twelve hours earlier for hours 13 to
      23, exactly twelve hours for hour 0, the span itself otherwise. */
  function TwelveHourSpan(ts: int): int {
    if Hours(ts) > 12 then ts - 12 * TicksPerHour
    else if Hours(ts) == 0 then 12 * TicksPerHour
    else ts
  }

  /** The hour the converter prints. */
  function DisplayHour(ts: int): int {
    Hours(TwelveHourSpan(ts))
  }

  /** The suffix, decided on the 24-hour hour component. */
  function Suffix(ts: int): string {
    if Hours(ts) < 12 then " AM" else " PM"
  }

  /** `{twelveHrsTime.Hours}:{timeSpan.Minutes:D2}`. */
  function TimePart(ts: int): string {
    IntToString(DisplayHour(ts)) + ":" + FormatD2(Minutes(ts))
  }

  /** `TimeSpanConverter.Convert`. */
  function Convert(value: Boxed, parameter: Parameter): (r: string)
    ensures !value.BoxedTimeSpan? ==> r == ""
    ensures value.BoxedTimeSpan? && parameter == BoolParameter(true) ==> r == TimePart(value.ticks)
    ensures value.BoxedTimeSpan? && parameter == BoolParameter(false) ==> r == Suffix(value.ticks)
    ensures value.BoxedTimeSpan? && parameter.OtherParameter? ==>
              r == TimePart(value.ticks) + " " + Suffix(value.ticks)
  {
    match value
    case BoxedTimeSpan(ts) =>
      (match parameter
       case BoolParameter(flag) => if flag then TimePart(ts) else Suffix(ts)
       case OtherParameter => TimePart(ts) + " " + Suffix(ts))
    case _ => ""
  }

  /** The hour shown is 12 for hour 0, twelve less for hours 13 to 23, and the
      hour itself for 1 to 12; for any span whose hour component is not
      negative it lies in 1..12. */
  lemma DisplayHourMapping(ts: int)
    ensures var h := Hours(ts);
            DisplayHour(ts) == (if h == 0 then 12 else if h > 12 then h - 12 else h)
    ensures Hours(ts) >= 0 ==> 1 <= DisplayHour(ts) <= 12
  {
    var h := Hours(ts);
    assert Hours(12 * TicksPerHour) == 12;
    if h > 12 {
      var q := ts / TicksPerHour;
      assert ts >= 0 && Quot(ts, TicksPerHour) == q;
      assert (ts - 12 * TicksPerHour) / TicksPerHour == q - 12;
      assert q % 24 == h;
      assert (q - 12) % 24 == h - 12;
    }
  }

  /** A non-negative span's minutes are printed as exactly two digits that
      read back as the minute component. */
  lemma MinutesTwoDigits(ts: int)
    requires ts >= 0
    ensures |FormatD2(Minutes(ts))| == 2
    ensures AllDigits(FormatD2(Minutes(ts)))
    ensures DigitsValue(FormatD2(Minutes(ts))) == Minutes(ts)
  {
    NonNegativeComponents(ts);
    FormatD2TwoDigits(Minutes(ts));
  }

  /** The 12-hour rendering loses nothing: the displayed hour and the suffix
      together give back the 24-hour hour of any time of day. */
  lemma TwelveHourInverse(ts: int)
    requires IsTimeOfDay(ts)
    ensures Hour24(DisplayHour(ts), Suffix(ts) == " AM") == Hours(ts)
    ensures Suffix(ts) == " AM" <==> Hours(ts) < 12
  {
    TimeOfDayHours(ts);
    DisplayHourMapping(ts);
  }

  /** What a bound alarm time looks like with no parameter: the hour in
      1..12 without padding, ':', two minute digits, one separating space,
      then the suffix, which brings its own leading space. */
  lemma FullRendering(ts: int)
    requires IsTimeOfDay(ts)
    ensures var r := Convert(BoxedTimeSpan(ts), OtherParameter);
            var h12 := DisplayHour(ts);
            && 1 <= h12 <= 12
            && r == NatToDigits(h12) + ":" + FormatD2(Minutes(ts)) + "  " + (if Hours(ts) < 12 then "AM" else "PM")
            && |r| == |NatToDigits(h12)| + 7
  {
    TimeOfDayHours(ts);
    DisplayHourMapping(ts);
    MinutesTwoDigits(ts);
    var h12 := DisplayHour(ts);
    var tail := if Hours(ts) < 12 then "AM" else "PM";
    assert TimePart(ts) + " " + Suffix(ts) == NatToDigits(h12) + ":" + FormatD2(Minutes(ts)) + "  " + tail;
  }
}
