/** .NET `TimeSpan` as its tick count (one tick is 100 ns), with the
    component properties `Hours`, `Minutes` and `Seconds` computed the way
    `System.TimeSpan` does: C#'s `/` and `%` on `long`, which truncate toward
    zero, so the components of a negative span are zero or negative. */
module Clock {

  const TicksPerSecond: int := 10_000_000
  const TicksPerMinute: int := 600_000_000
  const TicksPerHour: int := 36_000_000_000
  const TicksPerDay: int := 864_000_000_000

  /** C#'s integer `/`: rounds toward zero. */
  function Quot(a: int, b: int): int
    requires b > 0
  {
    if a >= 0 then a / b else -((-a) / b)
  }

  /** C#'s integer `%`: takes the sign of the dividend. */
  function Rem(a: int, b: int): (r: int)
    requires b > 0
    ensures a >= 0 ==> 0 <= r < b
    ensures a < 0 ==> -b < r <= 0
  {
    if a >= 0 then a % b else -((-a) % b)
  }

  /** C#'s quotient and remainder recompose the dividend. */
  lemma QuotRem(a: int, b: int)
    requires b > 0
    ensures a == b * Quot(a, b) + Rem(a, b)
  {
    if a < 0 {
      assert -a == b * ((-a) / b) + (-a) % b;
    }
  }

  /** `TimeSpan.Hours`: whole hours, wrapped into a day. */
  function Hours(ticks: int): int {
    Rem(Quot(ticks, TicksPerHour), 24)
  }

  /** `TimeSpan.Minutes`. */
  function Minutes(ticks: int): int {
    Rem(Quot(ticks, TicksPerMinute), 60)
  }

  /** `TimeSpan.Seconds`. */
  function Seconds(ticks: int): int {
    Rem(Quot(ticks, TicksPerSecond), 60)
  }

  /** A span that is a time of day, as `DateTime.TimeOfDay` and a time
      picker's selection are. */
  predicate IsTimeOfDay(ticks: int) {
    0 <= ticks < TicksPerDay
  }

  /** `new TimeSpan(h, m, 0)`. */
  function HoursMinutes(h: int, m: int): int {
    h * TicksPerHour + m * TicksPerMinute
  }

  /** On a non-negative span the components are the familiar ones: whole
      hours modulo 24, whole minutes modulo 60, whole seconds modulo 60. */
  lemma NonNegativeComponents(ticks: int)
    requires ticks >= 0
    ensures Hours(ticks) == (ticks / TicksPerHour) % 24
    ensures Minutes(ticks) == (ticks / TicksPerMinute) % 60
    ensures Seconds(ticks) == (ticks / TicksPerSecond) % 60
    ensures 0 <= Hours(ticks) < 24 && 0 <= Minutes(ticks) < 60 && 0 <= Seconds(ticks) < 60
  {
  }

  /** For a time of day the hour component is the hour of the day. */
  lemma TimeOfDayHours(ticks: int)
    requires IsTimeOfDay(ticks)
    ensures Hours(ticks) == ticks / TicksPerHour
    ensures 0 <= Hours(ticks) < 24
  {
  }

  /** `new TimeSpan(h, m, 0)` has exactly those components. */
  lemma HoursMinutesComponents(h: int, m: int)
    requires 0 <= h < 24 && 0 <= m < 60
    ensures IsTimeOfDay(HoursMinutes(h, m))
    ensures Hours(HoursMinutes(h, m)) == h
    ensures Minutes(HoursMinutes(h, m)) == m
    ensures Seconds(HoursMinutes(h, m)) == 0
  {
    var t := HoursMinutes(h, m);
    assert t / TicksPerHour == h;
    assert t / TicksPerMinute == 60 * h + m;
    assert t / TicksPerSecond == 3600 * h + 60 * m;
  }
}
