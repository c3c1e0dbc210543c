/**
 * The time column: one label per hour of the grid and, inside each hour
 * row, invisible tick lines at the slot boundaries.
 */
module TimeColumn {
  import opened Wrappers
  import opened Decimal
  import opened TwelveHourClock

  /** `formatTime(hour)`: `${displayHour}:00\n${period}`. */
  function HourLabel(hour: nat): string {
    NatToString(DisplayHour(hour)) + ":00\n" + Period(hour)
  }

  /** Reads an hour label back into the hour of the day. */
  function ParseHourLabel(s: string): Option<nat> {
    if |s| < 7 || s[|s| - 6] != ':' || s[|s| - 5] != '0' || s[|s| - 4] != '0' || s[|s| - 3] != '\n'
       || s[|s| - 1] != 'M' || (s[|s| - 2] != 'A' && s[|s| - 2] != 'P') || !AllDigits(s[..|s| - 6])
    then None
    else
      var h12 := ParseNat(s[..|s| - 6]);
      if h12 < 1 || 12 < h12 then None
      else Some(FromTwelveHour(h12, s[|s| - 2] == 'P'))
  }

  /** How a label of the right shape is read, whatever produced its parts. */
  lemma ParseHourLabelShape(hh: string, p: char)
    requires |hh| >= 1 && AllDigits(hh) && 1 <= ParseNat(hh) <= 12 && (p == 'A' || p == 'P')
    ensures ParseHourLabel(hh + [':', '0', '0', '\n', p, 'M']) == Some(FromTwelveHour(ParseNat(hh), p == 'P'))
  {
    var s := hh + [':', '0', '0', '\n', p, 'M'];
    assert s[..|s| - 6] == hh;
  }

  lemma HourLabelLayout(hour: nat, p: char)
    requires p == (if hour >= 12 then 'P' else 'A')
    ensures HourLabel(hour) == NatToString(DisplayHour(hour)) + [':', '0', '0', '\n', p, 'M']
  {
    Regroup(NatToString(DisplayHour(hour)), ":00\n", Period(hour), p, 'M');
  }

  /**
   * The label names its hour: it reads back as a 12-hour reading with an
   * hour 1..12 (12 for midnight and noon) and PM exactly from noon on.
   */
  lemma HourLabelRoundTrip(hour: nat)
    requires hour < 24
    ensures ParseHourLabel(HourLabel(hour)) == Some(hour)
  {
    var p := if hour >= 12 then 'P' else 'A';
    HourLabelLayout(hour, p);
    ParseNatToString(DisplayHour(hour));
    TwelveHourRoundTrip(hour);
    ParseHourLabelShape(NatToString(DisplayHour(hour)), p);
  }

  /** The period is PM exactly when the hour is 12 or later. */
  lemma HourLabelPeriod(hour: nat)
    ensures var s := HourLabel(hour); |s| >= 7 && (s[|s| - 2] == 'P' <==> hour >= 12)
  {
    HourLabelLayout(hour, if hour >= 12 then 'P' else 'A');
  }

  /**
   * Number of tick lines per hour row: none unless the slot is shorter than
   * an hour, else `Array.from({ length: 60 / d - 1 })`, whose fractional or
   * negative length is cut down to a whole number, at least 0.  A zero
   * duration makes that length infinite and the call throws.
   */
  function TickCount(d: int): (n: nat)
    requires d != 0
    ensures d >= 60 || d < 0 ==> n == 0
    ensures 0 < d < 60 ==> (n + 1) * d <= 60 < (n + 2) * d
    ensures 0 < d < 60 && 60 % d == 0 ==> n == 60 / d - 1
  {
    if d < 60 then
      if d > 0 then
        assert 60 == (60 / d) * d + 60 % d;
        assert (60 / d + 1) * d == (60 / d) * d + d;
        60 / d - 1
      else 0
    else 0
  }

  /** Top of tick `i` inside its hour row, in rem: `(((i + 1) * d) / 60) * 4`. */
  function TickTop(i: int, d: int): real {
    (((i + 1) * d) as real / 60.0) * 4.0
  }

  /** The tick positions of one hour row, in order. */
  function Ticks(d: int): (ticks: seq<real>)
    requires d != 0
    ensures |ticks| == TickCount(d)
  {
    seq(TickCount(d), i => TickTop(i, d))
  }

  /** Each tick lies strictly inside the 4 rem hour row, and the ticks go down the row in order. */
  lemma TicksInsideRow(d: int)
    requires d != 0
    ensures forall i :: 0 <= i < |Ticks(d)| ==> 0.0 < Ticks(d)[i] < 4.0
    ensures forall i, j :: 0 <= i < j < |Ticks(d)| ==> Ticks(d)[i] < Ticks(d)[j]
  {
    var n := TickCount(d);
    if n > 0 {
      assert 0 < d < 60;
      forall i | 0 <= i < n
        ensures 0.0 < Ticks(d)[i] < 4.0
      {
        TickBelowHour(i, n, d);
      }
      forall i, j | 0 <= i < j < n
        ensures Ticks(d)[i] < Ticks(d)[j]
      {
        StrictMulMonotone(i + 1, j + 1, d);
      }
    }
  }

  lemma TickBelowHour(i: int, n: int, d: int)
    requires 0 < d && 0 <= i < n && (n + 1) * d <= 60
    ensures 0 < (i + 1) * d < 60
  {
    StrictMulMonotone(i + 1, n + 1, d);
  }

  lemma StrictMulMonotone(x: int, y: int, d: int)
    requires 0 < x < y && d > 0
    ensures 0 < x * d < y * d
  {
    assert y * d == x * d + (y - x) * d;
  }
}
