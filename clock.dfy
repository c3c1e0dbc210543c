/**
 * Wall-clock time as the scheduler uses it.  Every date the program builds
 * has its seconds and milliseconds cleared, so an instant is a whole number
 * of minutes counted from local midnight of an abstract day 0.  Time zones
 * and daylight-saving shifts are not modelled: a day is always 1440 minutes.
 */
module Clock {

  type Instant = int

  const MinutesPerHour := 60
  const MinutesPerDay := 1440

  /** The calendar day of an instant (day, month and year taken together). */
  function DayOf(t: Instant): int {
    t / MinutesPerDay
  }

  /** Minutes elapsed since midnight of the instant's own day. */
  function MinuteOfDay(t: Instant): (m: nat)
    ensures m < MinutesPerDay
  {
    t % MinutesPerDay
  }

  /** `Date.getHours()`. */
  function HourOf(t: Instant): (h: nat)
    ensures h < 24
  {
    MinuteOfDay(t) / MinutesPerHour
  }

  /** `Date.getMinutes()`. */
  function MinuteOf(t: Instant): (m: nat)
    ensures m < MinutesPerHour
  {
    MinuteOfDay(t) % MinutesPerHour
  }

  /** The instant `hour:minute` on `day`; out-of-range parts carry over, as in `Date`. */
  function At(day: int, hour: int, minute: int): Instant {
    day * MinutesPerDay + hour * MinutesPerHour + minute
  }

  /** `d.setHours(hour, minute, 0, 0)` applied to a copy of `t`. */
  function SetHours(t: Instant, hour: int, minute: int): Instant {
    At(DayOf(t), hour, minute)
  }

  /** `d.setMinutes(minute)` applied to a copy of `t`: day and hour are kept. */
  function SetMinutes(t: Instant, minute: int): Instant {
    At(DayOf(t), HourOf(t), minute)
  }

  /** Two instants fall on the same calendar day. */
  predicate SameDay(t: Instant, u: Instant) {
    DayOf(t) == DayOf(u)
  }

  /** An instant lies inside the 1440 minutes of its own day. */
  lemma DayBounds(t: Instant)
    ensures DayOf(t) * MinutesPerDay <= t < DayOf(t) * MinutesPerDay + MinutesPerDay
    ensures t == At(DayOf(t), HourOf(t), MinuteOf(t))
    ensures MinuteOfDay(t) == HourOf(t) * MinutesPerHour + MinuteOf(t)
  {
  }

  /** Reading the parts back from an in-range `At` gives the parts. */
  lemma AtParts(day: int, hour: int, minute: int)
    requires 0 <= hour < 24 && 0 <= minute < MinutesPerHour
    ensures DayOf(At(day, hour, minute)) == day
    ensures MinuteOfDay(At(day, hour, minute)) == hour * MinutesPerHour + minute
    ensures HourOf(At(day, hour, minute)) == hour
    ensures MinuteOf(At(day, hour, minute)) == minute
  {
    var t := At(day, hour, minute);
    var m := hour * MinutesPerHour + minute;
    assert t == day * MinutesPerDay + m && 0 <= m < MinutesPerDay;
    DivModUnique(t, MinutesPerDay, day, m);
    DivModUnique(m, MinutesPerHour, hour, minute);
  }

  /** Setting the minutes of an instant to its own minutes plus `k` moves it by `k`. */
  lemma SetMinutesAdvances(t: Instant, k: int)
    ensures SetMinutes(t, MinuteOf(t) + k) == t + k
  {
    DayBounds(t);
  }

  /** Euclidean division is determined by its quotient and remainder. */
  lemma DivModUnique(a: int, b: int, q: int, r: int)
    requires b > 0 && a == q * b + r && 0 <= r < b
    ensures a / b == q && a % b == r
  {
    var q', r' := a / b, a % b;
    assert a == q' * b + r' && 0 <= r' < b;
    assert (q' - q) * b == r - r' by {
      assert q' * b - q * b == (q' - q) * b;
    }
    if q' > q {
      AtLeastOnce(q' - q, b);
    } else if q' < q {
      AtLeastOnce(q - q', b);
    }
  }

  lemma AtLeastOnce(k: int, b: int)
    requires k >= 1 && b > 0
    ensures k * b >= b
  {
    assert k * b == (k - 1) * b + b;
    assert (k - 1) * b >= 0;
  }
}
