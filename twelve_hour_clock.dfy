/**
 * The 12-hour clock text shared by the current-time badge and the
 * appointment tooltips: `${hours % 12 || 12}:${mm} ${hours >= 12 ? "PM" : "AM"}`,
 * with the minutes zero-padded to two digits.
 */
module TwelveHourClock {
  import opened Wrappers
  import opened Decimal
  import opened Clock

  /** `hour % 12 || 12`: midnight and noon show as 12. */
  function DisplayHour(hour: nat): (h: nat)
    ensures 1 <= h <= 12
    ensures h % 12 == hour % 12
  {
    if hour % 12 == 0 then 12 else hour % 12
  }

  function Period(hour: nat): string {
    if hour >= 12 then "PM" else "AM"
  }

  /** Hour of the day (0..23) named by a 12-hour reading and its period. */
  function FromTwelveHour(h12: nat, pm: bool): (hour: nat)
    requires 1 <= h12 <= 12
    ensures hour < 24 && (hour >= 12) == pm
  {
    if pm then (if h12 == 12 then 12 else h12 + 12) else (if h12 == 12 then 0 else h12)
  }

  function ClockLabel(hour: nat, minute: nat): (s: string)
    requires minute < 60
    ensures 7 <= |s| <= 8
  {
    var mm := PadStart(NatToString(minute), 2, '0');
    NatToString(DisplayHour(hour)) + [':', mm[0], mm[1], ' '] + Period(hour)
  }

  /** Reads `h:mm AM` / `h:mm PM` back into an hour of the day and a minute. */
  function ParseClockLabel(s: string): Option<(nat, nat)> {
    if |s| < 7 || s[|s| - 6] != ':' || s[|s| - 3] != ' ' || s[|s| - 1] != 'M'
       || (s[|s| - 2] != 'A' && s[|s| - 2] != 'P')
       || !IsDigit(s[|s| - 5]) || !IsDigit(s[|s| - 4]) || !AllDigits(s[..|s| - 6])
    then None
    else
      var h12 := ParseNat(s[..|s| - 6]);
      var minute := DigitValue(s[|s| - 5]) * 10 + DigitValue(s[|s| - 4]);
      if h12 < 1 || 12 < h12 || 60 <= minute then None
      else Some((FromTwelveHour(h12, s[|s| - 2] == 'P'), minute))
  }

  /** The two characters of a zero-padded minute read back as the minute. */
  lemma TwoDigitMinute(minute: nat) returns (c0: char, c1: char)
    requires minute < 60
    ensures PadStart(NatToString(minute), 2, '0') == [c0, c1]
    ensures IsDigit(c0) && IsDigit(c1) && DigitValue(c0) * 10 + DigitValue(c1) == minute
  {
    if minute < 10 {
      assert NatToString(minute) == [DigitChar(minute)];
      c0, c1 := '0', DigitChar(minute);
    } else {
      assert NatToString(minute / 10) == [DigitChar(minute / 10)];
      c0, c1 := DigitChar(minute / 10), DigitChar(minute % 10);
    }
  }

  /** How a label of the right shape is read, whatever produced its parts. */
  lemma ParseLabelShape(hh: string, c0: char, c1: char, p: char)
    requires |hh| >= 1 && AllDigits(hh) && IsDigit(c0) && IsDigit(c1) && (p == 'A' || p == 'P')
    requires 1 <= ParseNat(hh) <= 12 && DigitValue(c0) * 10 + DigitValue(c1) < 60
    ensures ParseClockLabel(hh + [':', c0, c1, ' ', p, 'M'])
      == Some((FromTwelveHour(ParseNat(hh), p == 'P'), DigitValue(c0) * 10 + DigitValue(c1)))
  {
    var s := hh + [':', c0, c1, ' ', p, 'M'];
    assert s[..|s| - 6] == hh;
  }

  /** The label determines the time it was made from: no two times of day share a label. */
  lemma ClockLabelRoundTrip(hour: nat, minute: nat)
    requires hour < 24 && minute < 60
    ensures ParseClockLabel(ClockLabel(hour, minute)) == Some((hour, minute))
  {
    var p := if hour >= 12 then 'P' else 'A';
    var c0, c1 := TwoDigitMinute(minute);
    LabelLayout(hour, minute);
    ParseNatToString(DisplayHour(hour));
    ReadLabel(hour, minute, NatToString(DisplayHour(hour)), c0, c1, p);
  }

  /** A label assembled from correctly read parts reads back as the time. */
  lemma ReadLabel(hour: nat, minute: nat, hh: string, c0: char, c1: char, p: char)
    requires hour < 24 && minute < 60 && p == (if hour >= 12 then 'P' else 'A')
    requires |hh| >= 1 && AllDigits(hh) && ParseNat(hh) == DisplayHour(hour)
    requires IsDigit(c0) && IsDigit(c1) && DigitValue(c0) * 10 + DigitValue(c1) == minute
    ensures ParseClockLabel(hh + [':', c0, c1, ' ', p, 'M']) == Some((hour, minute))
  {
    TwelveHourRoundTrip(hour);
    ParseLabelShape(hh, c0, c1, p);
  }

  /** The displayed hour and the period recover the hour of the day. */
  lemma TwelveHourRoundTrip(hour: nat)
    requires hour < 24
    ensures FromTwelveHour(DisplayHour(hour), hour >= 12) == hour
  {
  }

  /** `ClockLabel` laid out character by character after the hour digits. */
  lemma LabelLayout(hour: nat, minute: nat)
    requires minute < 60
    ensures var mm := PadStart(NatToString(minute), 2, '0');
      ClockLabel(hour, minute)
      == NatToString(DisplayHour(hour)) + [':', mm[0], mm[1], ' ', if hour >= 12 then 'P' else 'A', 'M']
  {
    var mm := PadStart(NatToString(minute), 2, '0');
    PeriodChars(hour);
    Regroup(NatToString(DisplayHour(hour)), [':', mm[0], mm[1], ' '], Period(hour), if hour >= 12 then 'P' else 'A', 'M');
  }

  lemma PeriodChars(hour: nat)
    ensures Period(hour) == [if hour >= 12 then 'P' else 'A', 'M']
  {
  }

  lemma Regroup(a: string, b: string, c: string, x: char, y: char)
    requires |b| == 4 && c == [x, y]
    ensures a + b + c == a + [b[0], b[1], b[2], b[3], x, y]
  {
    assert b + c == [b[0], b[1], b[2], b[3], x, y];
  }

  lemma ClockLabelInjective(h1: nat, m1: nat, h2: nat, m2: nat)
    requires h1 < 24 && m1 < 60 && h2 < 24 && m2 < 60
    ensures ClockLabel(h1, m1) == ClockLabel(h2, m2) ==> h1 == h2 && m1 == m2
  {
    ClockLabelRoundTrip(h1, m1);
    ClockLabelRoundTrip(h2, m2);
  }

  /**
   * The label of an instant, as both `formatCurrentTime` in the day view and
   * `formatTime` in the appointment item build it from `getHours()` and
   * `getMinutes()`.
   */
  function TimeLabel(t: Instant): string {
    ClockLabel(HourOf(t), MinuteOf(t))
  }

  /**
   * The label names the instant's hour of the day and minute: it reads back
   * as a 12-hour clock reading with an hour 1..12, two minute digits and
   * AM exactly when the hour is before noon.
   */
  lemma TimeLabelRoundTrip(t: Instant)
    ensures ParseClockLabel(TimeLabel(t)) == Some((HourOf(t), MinuteOf(t)))
  {
    ClockLabelRoundTrip(HourOf(t), MinuteOf(t));
  }

  /** Two instants get the same label exactly when they share hour and minute. */
  lemma TimeLabelSameMinute(t: Instant, u: Instant)
    ensures TimeLabel(t) == TimeLabel(u) <==> MinuteOfDay(t) == MinuteOfDay(u)
  {
    ClockLabelInjective(HourOf(t), MinuteOf(t), HourOf(u), MinuteOf(u));
    DayBounds(t);
    DayBounds(u);
  }
}
