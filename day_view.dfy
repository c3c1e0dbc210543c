/**
 * The day view: the hour list that drives the grid, the working-window
 * length, the current-time indicator and its label, and `isSlotAvailable`,
 * the conflict test the add button runs against the appointments shown.
 */
module DayView {
  import opened Wrappers
  import opened Clock
  import opened Overlap
  import opened Domain
  import opened SchedulerConfig
  import opened TwelveHourClock
  import AppointmentItem
  import MockData
  import TimeColumn

  /**
   * The `for (hour = startHour; hour <= endHour; hour++) hours.push(hour)`
   * loop: every hour of the window, both ends included.
   */
  method Hours(startHour: int, endHour: int) returns (hours: seq<int>)
    ensures |hours| == if startHour <= endHour then endHour - startHour + 1 else 0
    ensures forall i :: 0 <= i < |hours| ==> hours[i] == startHour + i
    ensures forall h :: h in hours <==> startHour <= h <= endHour
    ensures startHour <= endHour ==> (|hours| - 1) * MinutesPerHour == TotalMinutes(startHour, endHour)
  {
    hours := [];
    var hour := startHour;
    while hour <= endHour
      invariant startHour <= hour
      invariant if startHour <= endHour then hour <= endHour + 1 else hour == startHour
      invariant |hours| == hour - startHour
      invariant forall i :: 0 <= i < |hours| ==> hours[i] == startHour + i
    {
      hours := hours + [hour];
      hour := hour + 1;
    }
    forall h | startHour <= h <= endHour
      ensures h in hours
    {
      assert hours[h - startHour] == h;
    }
  }

  /** `totalMinutes`: the length of the working window in minutes. */
  function TotalMinutes(startHour: int, endHour: int): (m: int)
    ensures m == At(0, endHour, 0) - At(0, startHour, 0)
  {
    (endHour - startHour) * 60
  }

  /**
   * The configured window (the day view's default hours) is the 9:00-17:00
   * window the slot finder writes out, 480 minutes long, and the configured
   * 15-minute grid draws three ticks in each hour row.
   */
  lemma ConfiguredGrid()
    ensures TotalMinutes(StartHour, EndHour) == 480
    ensures MockData.SlotWindowStartHour == StartHour && MockData.SlotWindowEndHour == EndHour
    ensures |TimeColumn.Ticks(TimeSlotDuration)| == 3
  {
  }

  /** `isCurrentTimeVisible`: the hour of `now` lies in the window. */
  predicate IsCurrentTimeVisible(now: Instant, startHour: int, endHour: int) {
    var nowHour := HourOf(now);
    nowHour >= startHour && nowHour < endHour
  }

  /** The hour test is a test on the time of day: from `startHour:00` up to, not including, `endHour:00`. */
  lemma CurrentTimeVisibleWindow(now: Instant, startHour: int, endHour: int)
    ensures IsCurrentTimeVisible(now, startHour, endHour)
        <==> startHour * MinutesPerHour <= MinuteOfDay(now) < endHour * MinutesPerHour
  {
    DayBounds(now);
  }

  /**
   * `formatCurrentTime`: the label of the timer's `currentTime`, which reads
   * back as its hour and minute.
   */
  function FormatCurrentTime(currentTime: Instant): (s: string)
    ensures ParseClockLabel(s) == Some((HourOf(currentTime), MinuteOf(currentTime)))
  {
    TimeLabelRoundTrip(currentTime);
    TimeLabel(currentTime)
  }

  /** Top of the gridline drawn for the hour at position `hourIndex` of `hours`, in rem. */
  function GridlineTop(hourIndex: int): real {
    (hourIndex * HourHeight) as real
  }

  /**
   * Top of the current-time indicator, in rem. It is placed by `currentTime`,
   * the state the one-minute timer refreshes, while `isCurrentTimeVisible`
   * reads a fresh `new Date()`: the two instants are separate here.
   */
  function IndicatorTop(currentTime: Instant, startHour: int): real {
    ((HourOf(currentTime) - startHour) as real + MinuteOf(currentTime) as real / 60.0) * HourHeight as real
  }

  /** On the hour, the indicator lies on that hour's gridline. */
  lemma IndicatorOnGridline(currentTime: Instant, startHour: int)
    requires MinuteOf(currentTime) == 0
    ensures IndicatorTop(currentTime, startHour) == GridlineTop(HourOf(currentTime) - startHour)
  {
  }

  /** Otherwise it lies inside the row of its hour, below that hour's gridline and above the next. */
  lemma IndicatorInHourRow(currentTime: Instant, startHour: int)
    ensures GridlineTop(HourOf(currentTime) - startHour) <= IndicatorTop(currentTime, startHour)
    ensures IndicatorTop(currentTime, startHour) < GridlineTop(HourOf(currentTime) - startHour + 1)
  {
  }

  /**
   * When the fresh read and the timer's `currentTime` fall in the same hour,
   * the indicator is drawn exactly when it falls between the first and the
   * last gridline.
   */
  lemma IndicatorVisibleOnGrid(now: Instant, currentTime: Instant, startHour: int, endHour: int)
    requires HourOf(now) == HourOf(currentTime)
    ensures IsCurrentTimeVisible(now, startHour, endHour)
        <==> 0.0 <= IndicatorTop(currentTime, startHour) < GridlineTop(endHour - startHour)
  {
    IndicatorInHourRow(currentTime, startHour);
    if IsCurrentTimeVisible(now, startHour, endHour) {
      assert GridlineTop(HourOf(currentTime) - startHour + 1) <= GridlineTop(endHour - startHour);
    } else if HourOf(currentTime) < startHour {
      assert GridlineTop(HourOf(currentTime) - startHour + 1) <= 0.0;
    } else {
      assert GridlineTop(endHour - startHour) <= GridlineTop(HourOf(currentTime) - startHour);
    }
  }

  /**
   * When the timer's `currentTime` still lies in the hour before the window
   * while the fresh read is inside it, the indicator is drawn above the
   * first gridline.
   */
  lemma StaleIndicatorAboveGrid(now: Instant, currentTime: Instant, startHour: int, endHour: int)
    requires IsCurrentTimeVisible(now, startHour, endHour)
    requires HourOf(currentTime) < startHour
    ensures IndicatorTop(currentTime, startHour) < GridlineTop(0)
  {
    IndicatorInHourRow(currentTime, startHour);
    assert GridlineTop(HourOf(currentTime) - startHour + 1) <= GridlineTop(0);
  }

  /**
   * When the fresh read has left the window while the timer's `currentTime`
   * is still inside it, the indicator is hidden although its position lies
   * on the grid.
   */
  lemma StaleIndicatorHidden(now: Instant, currentTime: Instant, startHour: int, endHour: int)
    requires HourOf(now) >= endHour
    requires startHour <= HourOf(currentTime) < endHour
    ensures !IsCurrentTimeVisible(now, startHour, endHour)
    ensures 0.0 <= IndicatorTop(currentTime, startHour) < GridlineTop(endHour - startHour)
  {
    IndicatorVisibleOnGrid(currentTime, currentTime, startHour, endHour);
  }

  /** The indicator uses the same placement as an appointment starting now. */
  lemma IndicatorMatchesAppointmentTop(currentTime: Instant, startHour: int)
    ensures IndicatorTop(currentTime, startHour) == AppointmentItem.Top(currentTime, startHour)
  {
  }

  /**
   * `isSlotAvailable(resourceId, start, end)`: no appointment of the
   * resource conflicts with `[start, end)` under the three-case rule.
   */
  function IsSlotAvailable(appointments: seq<Appointment>, resourceId: string, start: Instant, end: Instant): bool {
    var resourceAppointments := ForResource(appointments, resourceId);
    !AnyOverlap(resourceAppointments, start, end)
  }

  /** The slot is taken exactly when some appointment of the same resource conflicts with it. */
  lemma SlotAvailableIff(appointments: seq<Appointment>, resourceId: string, start: Instant, end: Instant)
    ensures IsSlotAvailable(appointments, resourceId, start, end)
        <==> forall a :: a in appointments && a.resourceId == resourceId ==> !ThreeCaseOverlap(start, end, a.start, a.end)
  {
    ForResourceMembers(appointments, resourceId);
    AnyOverlapExists(ForResource(appointments, resourceId), start, end);
  }

  /**
   * For a non-empty candidate and non-empty appointments, the test is the
   * usual half-open interval test.
   */
  lemma SlotAvailableHalfOpen(appointments: seq<Appointment>, resourceId: string, start: Instant, end: Instant)
    requires start < end
    requires forall a :: a in appointments ==> a.start < a.end
    ensures IsSlotAvailable(appointments, resourceId, start, end)
        <==> forall a :: a in appointments && a.resourceId == resourceId ==> !HalfOpenOverlap(start, end, a.start, a.end)
  {
    SlotAvailableIff(appointments, resourceId, start, end);
    forall a | a in appointments
      ensures ThreeCaseOverlap(start, end, a.start, a.end) <==> HalfOpenOverlap(start, end, a.start, a.end)
    {
      ThreeCaseIsHalfOpen(start, end, a.start, a.end);
    }
  }

  /**
   * A slot that at most touches the resource's (non-empty) appointments end
   * to end is available.
   */
  lemma BackToBackAvailable(appointments: seq<Appointment>, resourceId: string, start: Instant, end: Instant)
    requires forall a :: a in appointments && a.resourceId == resourceId ==> a.start < a.end && (a.end <= start || end <= a.start)
    requires start < end
    ensures IsSlotAvailable(appointments, resourceId, start, end)
  {
    SlotAvailableIff(appointments, resourceId, start, end);
  }

  /** Appointments of other resources never change the answer. */
  lemma SlotAvailableIgnoresOthers(appointments: seq<Appointment>, other: Appointment, resourceId: string, start: Instant, end: Instant)
    requires other.resourceId != resourceId
    ensures IsSlotAvailable(appointments + [other], resourceId, start, end)
        == IsSlotAvailable(appointments, resourceId, start, end)
  {
    ForResourceAppend(appointments, [other], resourceId);
    assert ForResource([other], resourceId) == [];
    assert ForResource(appointments, resourceId) + [] == ForResource(appointments, resourceId);
  }

  /** Every slot the slot finder offers passes this test: the two apply the same rule. */
  lemma OfferedSlotIsAvailable(res: Resource, appointments: seq<Appointment>, date: Instant, d: int, x: MockData.FreeSlot)
    requires d > 0 && x in MockData.ResourceSlots(res, appointments, date, d)
    ensures IsSlotAvailable(appointments, res.id, x.start, x.end)
  {
    MockData.ResourceSlotsExactly(res, appointments, date, d, x);
    assert MockData.IsFreeSlot(res, appointments, date, d, x);
    assert forall a :: a in appointments && a.resourceId == res.id ==> !ThreeCaseOverlap(x.start, x.end, a.start, a.end);
    SlotAvailableIff(appointments, res.id, x.start, x.end);
  }

  /**
   * The time column's tick `i` in the row of `hour` lies exactly where a
   * block starting `(i + 1) * d` minutes after `hour:00` has its top.
   */
  lemma TickAtSlotStart(d: int, i: int, day: int, hour: int, startHour: int)
    requires d != 0 && 0 <= i < |TimeColumn.Ticks(d)| && 0 <= hour < 24
    ensures GridlineTop(hour - startHour) + TimeColumn.Ticks(d)[i]
         == AppointmentItem.Top(At(day, hour, (i + 1) * d), startHour)
  {
    var n := TimeColumn.TickCount(d);
    TimeColumn.TickBelowHour(i, n, d);
    AtParts(day, hour, (i + 1) * d);
  }
}
