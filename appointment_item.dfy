/**
 * Placement and style of one appointment block in a resource column.  One
 * hour row is 4 rem high, so one rem stands for 15 minutes.  Lengths are
 * exact reals: floating-point rounding of the rem values is not modelled.
 */
module AppointmentItem {
  import opened Clock

  /** The hour-row height the item's own arithmetic uses, in rem. */
  const RowHeight: real := 4.0

  /** Minutes from `startHour:00` to the time of day of `t`. */
  function MinutesFromDayStart(t: Instant, startHour: int): int {
    (HourOf(t) - startHour) * MinutesPerHour + MinuteOf(t)
  }

  /** `topPosition`: distance of the block from the top of the grid, in rem. */
  function Top(start: Instant, startHour: int): (top: real)
    ensures top == (MinuteOfDay(start) - startHour * MinutesPerHour) as real / 15.0
  {
    DayBounds(start);
    ((HourOf(start) - startHour) as real + MinuteOf(start) as real / 60.0) * RowHeight
  }

  /** `heightPosition`: the block's height, in rem. */
  function Height(start: Instant, end: Instant, startHour: int): (height: real)
    ensures height == (MinuteOfDay(end) - MinuteOfDay(start)) as real / 15.0
  {
    DayBounds(start);
    DayBounds(end);
    var durationMinutes := MinutesFromDayStart(end, startHour) - MinutesFromDayStart(start, startHour);
    (durationMinutes as real / 60.0) * RowHeight
  }

  /** A block starting at `startHour:00` sits at the top of the grid, and only such a block does. */
  lemma TopZeroAtWindowStart(start: Instant, startHour: int)
    ensures Top(start, startHour) == 0.0 <==> HourOf(start) == startHour && MinuteOf(start) == 0
  {
    DayBounds(start);
  }

  /** The height does not depend on where the grid starts. */
  lemma HeightIgnoresWindow(start: Instant, end: Instant, h1: int, h2: int)
    ensures Height(start, end, h1) == Height(start, end, h2)
  {
  }

  /** The bottom edge of a block is the top edge a block starting at its end would have. */
  lemma TopPlusHeight(start: Instant, end: Instant, startHour: int)
    ensures Top(start, startHour) + Height(start, end, startHour) == Top(end, startHour)
  {
  }

  /** The height is positive exactly when the end's time of day is after the start's. */
  lemma HeightPositive(start: Instant, end: Instant, startHour: int)
    ensures Height(start, end, startHour) > 0.0 <==> MinuteOfDay(end) > MinuteOfDay(start)
  {
  }

  /** Within one day, a later instant is that many minutes further into the day. */
  lemma SameDayMinutes(t: Instant, u: Instant)
    requires SameDay(t, u)
    ensures MinuteOfDay(u) - MinuteOfDay(t) == u - t
  {
    DayBounds(t);
    DayBounds(u);
  }

  /** For an appointment within one day, the height is its length in minutes over 15. */
  lemma HeightOfSameDay(start: Instant, end: Instant, startHour: int)
    requires SameDay(start, end)
    ensures Height(start, end, startHour) == (end - start) as real / 15.0
  {
    SameDayMinutes(start, end);
  }

  /**
   * Moving an appointment one hour later, within its day, moves the block
   * down by one hour row and keeps its height.
   */
  lemma ShiftByHour(start: Instant, end: Instant, startHour: int)
    requires SameDay(start, start + 60) && SameDay(end, end + 60)
    ensures Top(start + 60, startHour) == Top(start, startHour) + RowHeight
    ensures Height(start + 60, end + 60, startHour) == Height(start, end, startHour)
  {
    SameDayMinutes(start, start + 60);
    SameDayMinutes(end, end + 60);
  }

  /** Doubling the length of a same-day appointment doubles its height. */
  lemma DoubleDuration(start: Instant, end: Instant, startHour: int)
    requires SameDay(start, end) && SameDay(start, end + (end - start))
    ensures Height(start, end + (end - start), startHour) == 2.0 * Height(start, end, startHour)
  {
    HeightOfSameDay(start, end, startHour);
    HeightOfSameDay(start, end + (end - start), startHour);
  }

  /** `Math.max(heightPosition, 6)`: the block's height while the pointer is over it. */
  function ExpandedHeight(height: real): (h: real)
    ensures h >= 6.0 && h >= height
    ensures h == height || h == 6.0
  {
    if height > 6.0 then height else 6.0
  }

  /** Class names for background, border and text. */
  datatype Style = Style(background: string, border: string, text: string)

  /** `colors.appointment` of the scheduler configuration. */
  const ConfigAppointmentColors := Style("bg-blue-50", "border-blue-300", "text-blue-800")

  /** The gray style written into the item for unavailable blocks. */
  const UnavailableStyle := Style("bg-gray-200", "border-gray-300", "text-gray-600")

  /** An "unavailable" block is gray; any other type takes `colors.appointment`. */
  function StyleFor(kind: string, appointmentColors: Style): (s: Style)
    ensures s == (if kind == "unavailable" then UnavailableStyle else appointmentColors)
  {
    var isUnavailable := kind == "unavailable";
    if isUnavailable then Style("bg-gray-200", "border-gray-300", "text-gray-600")
    else Style(appointmentColors.background, appointmentColors.border, appointmentColors.text)
  }

  /** With the configured colors, unavailable blocks and appointments never look alike. */
  lemma StylesDistinguishKinds(kind: string)
    ensures StyleFor(kind, ConfigAppointmentColors) == UnavailableStyle <==> kind == "unavailable"
  {
    assert "bg-blue-50" != "bg-gray-200" by {
      assert "bg-blue-50"[3] != "bg-gray-200"[3];
    }
  }
}
