/** `AlarmTimer`: the "Alarm in ..." text under each alarm. The current
    time of day is a parameter. The alarm time is moved a day ahead when the
    current hour component is not before the alarm's hour component, the
    current time is subtracted, and the difference is shown in seconds when
    its hour and minute components are both zero, in hours and minutes
    otherwise. */
module AlarmCountdown {
  import opened Text
  import opened Clock
  import opened Converters

  /** The alarm time after the day rollover, decided on hours only. */
  function RolledAlarm(alarm: int, now: int): int {
    if Hours(now) >= Hours(alarm) then alarm + TicksPerDay else alarm
  }

  /** `timeDifference`. */
  function Countdown(alarm: int, now: int): int {
    RolledAlarm(alarm, now) - now
  }

  /** Reference definition: the time from `now` until the alarm's time of
      day next comes round, zero when it is now. */
  function WaitUntil(alarm: int, now: int): (w: int)
    ensures 0 <= w < TicksPerDay
  {
    (alarm - now) % TicksPerDay
  }

  function SecondsMessage(s: int): string {
    "Alarm in " + IntToString(s) + " seconds"
  }

  function HoursMinutesMessage(h: int, m: int): string {
    "Alarm in " + IntToString(h) + " hours " + IntToString(m) + " minutes"
  }

  predicate EndsWith(s: string, suffix: string) {
    |suffix| <= |s| && s[|s| - |suffix|..] == suffix
  }

  /** The text for one alarm: the seconds form exactly when the countdown
      has no whole hour and no whole minute in its components. */
  function CountdownText(alarm: int, now: int): (r: string)
    ensures var d := Countdown(alarm, now);
            EndsWith(r, " seconds") <==> Hours(d) == 0 && Minutes(d) == 0
    ensures var d := Countdown(alarm, now);
            EndsWith(r, " minutes") <==> !(Hours(d) == 0 && Minutes(d) == 0)
  {
    var d := Countdown(alarm, now);
    if Minutes(d) == 0 && Hours(d) == 0 then
      var r := SecondsMessage(Seconds(d));
      assert r[|r| - 8..] == " seconds";
      assert r[|r| - 8..] != " minutes" by { assert r[|r| - 7] == 's'; }
      r
    else
      var r := HoursMinutesMessage(Hours(d), Minutes(d));
      assert r[|r| - 8..] == " minutes";
      assert r[|r| - 8..] != " seconds" by { assert r[|r| - 7] == 'm'; }
      r
  }

  /** `AlarmTimer.Convert`: the countdown text for a `TimeSpan`, empty for
      anything else. */
  function Convert(value: Boxed, now: int): (r: string)
    ensures !value.BoxedTimeSpan? ==> r == ""
    ensures value.BoxedTimeSpan? ==> EndsWith(r, " seconds") || EndsWith(r, " minutes")
  {
    match value
    case BoxedTimeSpan(alarm) => CountdownText(alarm, now)
    case _ => ""
  }

  /** For times of day the countdown is positive and under 25 hours; it
      passes a full day only when both share an hour and the alarm is later
      in that hour. */
  lemma CountdownBounds(alarm: int, now: int)
    requires IsTimeOfDay(alarm) && IsTimeOfDay(now)
    ensures 0 < Countdown(alarm, now) < TicksPerDay + TicksPerHour
    ensures Countdown(alarm, now) > TicksPerDay ==> Hours(alarm) == Hours(now) && alarm > now
    ensures Countdown(alarm, now) == WaitUntil(alarm, now)
         || Countdown(alarm, now) == WaitUntil(alarm, now) + TicksPerDay
  {
    TimeOfDayHours(alarm);
    TimeOfDayHours(now);
  }

  /** The components shown are those of the true time until the next
      occurrence: the extra day added on an hour tie only ever lands in the
      day count, which the text does not show. */
  lemma CountdownShowsWait(alarm: int, now: int)
    requires IsTimeOfDay(alarm) && IsTimeOfDay(now)
    ensures var d := Countdown(alarm, now);
            var w := WaitUntil(alarm, now);
            && Hours(d) == w / TicksPerHour
            && Minutes(d) == (w / TicksPerMinute) % 60
            && Seconds(d) == (w / TicksPerSecond) % 60
  {
    CountdownBounds(alarm, now);
    var d := Countdown(alarm, now);
    var w := WaitUntil(alarm, now);
    NonNegativeComponents(d);
    if d != w {
      assert d == w + TicksPerDay;
      assert d / TicksPerHour == w / TicksPerHour + 24;
      assert d / TicksPerMinute == w / TicksPerMinute + 1440;
      assert d / TicksPerSecond == w / TicksPerSecond + 86400;
    }
  }

  /** The seconds message appears exactly when the alarm is less than a
      minute away. */
  lemma SecondsMessageIffUnderAMinute(alarm: int, now: int)
    requires IsTimeOfDay(alarm) && IsTimeOfDay(now)
    ensures EndsWith(CountdownText(alarm, now), " seconds") <==> WaitUntil(alarm, now) < TicksPerMinute
  {
    CountdownShowsWait(alarm, now);
    var w := WaitUntil(alarm, now);
    var d := Countdown(alarm, now);
    assert Hours(d) == 0 && Minutes(d) == 0 <==> w < TicksPerMinute by {
      if w < TicksPerHour {
        assert w / TicksPerHour == 0;
        assert w / TicksPerMinute < 60;
      } else {
        assert w / TicksPerHour > 0;
      }
    }
  }

  /** The text names the true wait: under a minute it gives the seconds
      left, otherwise the whole hours and the minutes past them. */
  lemma CountdownTextShowsWait(alarm: int, now: int)
    requires IsTimeOfDay(alarm) && IsTimeOfDay(now)
    ensures var w := WaitUntil(alarm, now);
            CountdownText(alarm, now)
              == if w < TicksPerMinute then SecondsMessage(w / TicksPerSecond)
                 else HoursMinutesMessage(w / TicksPerHour, (w / TicksPerMinute) % 60)
  {
    CountdownShowsWait(alarm, now);
    SecondsMessageIffUnderAMinute(alarm, now);
    var w := WaitUntil(alarm, now);
    if w < TicksPerMinute {
      assert (w / TicksPerSecond) % 60 == w / TicksPerSecond;
    }
  }
}
