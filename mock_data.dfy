/**
 * The mock-data module: the seed resources and appointments the app starts
 * with, and `findAvailableSlots`, which walks a fixed 9:00-17:00 grid of
 * candidate slots for every resource and keeps those that do not conflict
 * with one of that resource's appointments.
 */
module MockData {
  import opened Wrappers
  import opened Clock
  import opened Overlap
  import opened Domain
  import opened Sequences

  /** The slot finder's own window; it does not read the scheduler configuration. */
  const SlotWindowStartHour := 9
  const SlotWindowEndHour := 17
  /** The default value of the `duration` parameter, in minutes. */
  const DefaultSlotDuration := 15

  datatype FreeSlot = FreeSlot(resourceId: string, resourceName: string, start: Instant, end: Instant)

  // ---------------------------------------------------------------------
  // Seed data
  // ---------------------------------------------------------------------

  /** `mockResources`: the four stylists. */
  function MockResources(): seq<Resource> {
    [ Resource("r1", "John Smith", "Haircuts", "#3b82f6"),
      Resource("r2", "Sarah Johnson", "Color Treatment", "#10b981"),
      Resource("r3", "Michael Brown", "Beard & Shaving", "#8b5cf6"),
      Resource("r4", "Emily Davis", "Styling", "#f97316") ]
  }

  /** `today`: local midnight of the day the data is created. */
  function Today(now: Instant): (today: Instant)
    ensures SameDay(today, now) && MinuteOfDay(today) == 0
  {
    AtParts(DayOf(now), 0, 0);
    SetHours(now, 0, 0)
  }

  /** `createTimeForToday(hours, minutes)`. */
  function CreateTimeForToday(today: Instant, hours: int, minutes: int): Instant {
    SetHours(today, hours, minutes)
  }

  /** `generateAppointments()`: the ten seed bookings and blocks of `today`. */
  function GenerateAppointments(today: Instant): seq<Appointment> {
    [ Appointment("a1", "r1", "Haircut & Style", CreateTimeForToday(today, 9, 15), CreateTimeForToday(today, 10, 0), "appointment",
        Some("Alex Morgan"), Some("c1"), Some("Prefers shorter on sides, longer on top"), Some("confirmed")),
      Appointment("a2", "r1", "Unavailable", CreateTimeForToday(today, 12, 0), CreateTimeForToday(today, 13, 0), "unavailable",
        None, None, Some("Lunch break"), None),
      Appointment("a3", "r2", "Color Treatment", CreateTimeForToday(today, 9, 0), CreateTimeForToday(today, 10, 45), "appointment",
        Some("Taylor Wilson"), Some("c2"), Some("Wants to go from blonde to auburn"), Some("confirmed")),
      Appointment("a4", "r3", "Beard Trim", CreateTimeForToday(today, 11, 30), CreateTimeForToday(today, 12, 15), "appointment",
        Some("Jordan Lee"), Some("c3"), None, Some("confirmed")),
      Appointment("a5", "r2", "Unavailable", CreateTimeForToday(today, 13, 0), CreateTimeForToday(today, 14, 30), "unavailable",
        None, None, Some("Training session"), None),
      Appointment("a6", "r4", "Hair Wash & Blowdry", CreateTimeForToday(today, 10, 0), CreateTimeForToday(today, 10, 45), "appointment",
        Some("Casey Ryan"), Some("c4"), None, Some("confirmed")),
      Appointment("a7", "r3", "Hair Coloring", CreateTimeForToday(today, 14, 15), CreateTimeForToday(today, 16, 15), "appointment",
        Some("Jamie Parker"), Some("c5"), Some("Going for blue highlights"), Some("pending")),
      Appointment("a8", "r4", "Haircut", CreateTimeForToday(today, 13, 15), CreateTimeForToday(today, 14, 0), "appointment",
        Some("Riley Smith"), Some("c6"), None, Some("confirmed")),
      Appointment("a9", "r1", "Full Makeover", CreateTimeForToday(today, 14, 30), CreateTimeForToday(today, 16, 45), "appointment",
        Some("Avery Johnson"), Some("c7"), Some("Complete styling for wedding tomorrow"), Some("confirmed")),
      Appointment("a10", "r4", "Unavailable", CreateTimeForToday(today, 15, 0), CreateTimeForToday(today, 16, 30), "unavailable",
        None, None, Some("Meeting with product vendor"), None) ]
  }

  // ---------------------------------------------------------------------
  // Specification of the slot finder, one function per loop
  // ---------------------------------------------------------------------

  /** The slots the inner loop adds for `hour`, from `minute` on in steps of `d`. */
  function SlotsFromMinute(res: Resource, ra: seq<Appointment>, date: Instant, d: int, hour: int, minute: int): seq<FreeSlot>
    requires d > 0
    decreases 60 - minute
  {
    if minute >= 60 then []
    else
      var start := SetHours(date, hour, minute);
      var end := start + d;
      (if AnyOverlap(ra, start, end) then [] else [FreeSlot(res.id, res.name, start, end)])
      + SlotsFromMinute(res, ra, date, d, hour, minute + d)
  }

  /** The slots the middle loop adds from `hour` up to the end of the window. */
  function SlotsFromHour(res: Resource, ra: seq<Appointment>, date: Instant, d: int, hour: int): seq<FreeSlot>
    requires d > 0
    decreases SlotWindowEndHour - hour
  {
    if hour >= SlotWindowEndHour then []
    else SlotsFromMinute(res, ra, date, d, hour, 0) + SlotsFromHour(res, ra, date, d, hour + 1)
  }

  /** The free slots of one resource on the day of `date`. */
  function ResourceSlots(res: Resource, appointments: seq<Appointment>, date: Instant, d: int): seq<FreeSlot>
    requires d > 0
  {
    SlotsFromHour(res, ForResource(appointments, res.id), date, d, SlotWindowStartHour)
  }

  /** The free slots of all resources, grouped by resource in input order. */
  function AvailableSlots(resources: seq<Resource>, appointments: seq<Appointment>, date: Instant, d: int): seq<FreeSlot>
    requires d > 0
    decreases |resources|
  {
    if resources == [] then []
    else ResourceSlots(resources[0], appointments, date, d) + AvailableSlots(resources[1..], appointments, date, d)
  }

  /**
   * `findAvailableSlots(resources, appointments, date, duration = 15)`.  The
   * source's loop `minute += duration` only ends for a positive duration.
   */
  method FindAvailableSlots(resources: seq<Resource>, appointments: seq<Appointment>, date: Instant, duration: int := DefaultSlotDuration)
    returns (slots: seq<FreeSlot>)
    requires duration > 0
    ensures slots == AvailableSlots(resources, appointments, date, duration)
  {
    slots := [];
    var i := 0;
    while i < |resources|
      invariant 0 <= i <= |resources|
      invariant slots + AvailableSlots(resources[i..], appointments, date, duration)
             == AvailableSlots(resources, appointments, date, duration)
    {
      assert resources[i..][1..] == resources[i + 1..];
      AppendAssociative(slots, ResourceSlots(resources[i], appointments, date, duration),
                        AvailableSlots(resources[i + 1..], appointments, date, duration));
      slots := PushResourceSlots(slots, resources[i], appointments, date, duration);
      i := i + 1;
    }
  }

  /**
   * The `resources.forEach` callback: filters the resource's appointments,
   * then walks the hours of the window, pushing every free slot.
   */
  method PushResourceSlots(slots0: seq<FreeSlot>, resource: Resource, appointments: seq<Appointment>, date: Instant, duration: int)
    returns (slots: seq<FreeSlot>)
    requires duration > 0
    ensures slots == slots0 + ResourceSlots(resource, appointments, date, duration)
  {
    slots := slots0;
    var resourceAppointments := ForResource(appointments, resource.id);
    var hour := SlotWindowStartHour;
    while hour < SlotWindowEndHour
      invariant SlotWindowStartHour <= hour <= SlotWindowEndHour
      invariant slots + SlotsFromHour(resource, resourceAppointments, date, duration, hour)
             == slots0 + ResourceSlots(resource, appointments, date, duration)
    {
      AppendAssociative(slots, SlotsFromMinute(resource, resourceAppointments, date, duration, hour, 0),
                        SlotsFromHour(resource, resourceAppointments, date, duration, hour + 1));
      slots := PushHourSlots(slots, resource, resourceAppointments, date, duration, hour);
      hour := hour + 1;
    }
    assert SlotsFromHour(resource, resourceAppointments, date, duration, hour) == [];
    assert slots + [] == slots;
  }

  /**
   * The body of the hour loop: the candidates `hour:00`, `hour:d`, ... up to
   * the end of the hour, each pushed when no appointment conflicts with it.
   */
  method PushHourSlots(slots0: seq<FreeSlot>, resource: Resource, resourceAppointments: seq<Appointment>,
                       date: Instant, duration: int, hour: int)
    returns (slots: seq<FreeSlot>)
    requires duration > 0
    ensures slots == slots0 + SlotsFromMinute(resource, resourceAppointments, date, duration, hour, 0)
  {
    slots := slots0;
    var minute := 0;
    while minute < 60
      invariant 0 <= minute
      invariant slots + SlotsFromMinute(resource, resourceAppointments, date, duration, hour, minute)
             == slots0 + SlotsFromMinute(resource, resourceAppointments, date, duration, hour, 0)
      decreases 60 - minute
    {
      var slotStart := SetHours(date, hour, minute);
      var slotEnd := SetMinutes(slotStart, MinuteOf(slotStart) + duration);
      SetMinutesAdvances(slotStart, duration);
      var isAvailable := !AnyOverlap(resourceAppointments, slotStart, slotEnd);
      SlotsFromMinuteStep(resource, resourceAppointments, date, duration, hour, minute);
      if isAvailable {
        var slot := FreeSlot(resource.id, resource.name, slotStart, slotEnd);
        AppendAssociative(slots, [slot], SlotsFromMinute(resource, resourceAppointments, date, duration, hour, minute + duration));
        slots := slots + [slot];
      }
      minute := minute + duration;
    }
    assert slots + [] == slots;
  }

  /** One turn of the minute loop. */
  lemma SlotsFromMinuteStep(res: Resource, ra: seq<Appointment>, date: Instant, d: int, hour: int, minute: int)
    requires d > 0 && minute < 60
    ensures var start := SetHours(date, hour, minute);
      var end := start + d;
      SlotsFromMinute(res, ra, date, d, hour, minute)
      == if AnyOverlap(ra, start, end) then SlotsFromMinute(res, ra, date, d, hour, minute + d)
         else [FreeSlot(res.id, res.name, start, end)] + SlotsFromMinute(res, ra, date, d, hour, minute + d)
  {
    var start := SetHours(date, hour, minute);
    var end := start + d;
    if AnyOverlap(ra, start, end) {
      assert [] + SlotsFromMinute(res, ra, date, d, hour, minute + d) == SlotsFromMinute(res, ra, date, d, hour, minute + d);
    }
  }


  // ---------------------------------------------------------------------
  // What the finder returns
  // ---------------------------------------------------------------------

  /** A grid candidate: on the day of `date`, hour 9..16, minute a multiple of `d`. */
  predicate OnGrid(date: Instant, d: int, t: Instant)
    requires d > 0
  {
    SameDay(t, date) && SlotWindowStartHour <= HourOf(t) < SlotWindowEndHour && MinuteOf(t) % d == 0
  }

  /**
   * `x` is a slot of `res`: a grid candidate lasting `d` minutes that no
   * appointment of `res` conflicts with under the three-case rule.
   */
  predicate IsFreeSlot(res: Resource, appointments: seq<Appointment>, date: Instant, d: int, x: FreeSlot)
    requires d > 0
  {
    && x.resourceId == res.id
    && x.resourceName == res.name
    && OnGrid(date, d, x.start)
    && x.end == x.start + d
    && forall a :: a in appointments && a.resourceId == res.id ==> !ThreeCaseOverlap(x.start, x.end, a.start, a.end)
  }

  lemma {:induction false} SlotsFromMinuteMembers(res: Resource, ra: seq<Appointment>, date: Instant, d: int, hour: int, minute: int, x: FreeSlot)
    requires d > 0 && 0 <= hour < 24 && 0 <= minute && minute % d == 0
    ensures x in SlotsFromMinute(res, ra, date, d, hour, minute) <==>
      && x.resourceId == res.id && x.resourceName == res.name
      && SameDay(x.start, date) && HourOf(x.start) == hour
      && minute <= MinuteOf(x.start) && MinuteOf(x.start) % d == 0
      && x.end == x.start + d && !AnyOverlap(ra, x.start, x.end)
    decreases 60 - minute
  {
    if minute < 60 {
      AtParts(DayOf(date), hour, minute);
      SlotsFromMinuteStep(res, ra, date, d, hour, minute);
      AddDivisor(minute, d);
      SlotsFromMinuteMembers(res, ra, date, d, hour, minute + d, x);
      DayBounds(x.start);
      if MinuteOf(x.start) > minute && MinuteOf(x.start) % d == 0 {
        NextMultiple(minute, MinuteOf(x.start), d);
      }
    }
  }

  lemma {:induction false} SlotsFromHourMembers(res: Resource, ra: seq<Appointment>, date: Instant, d: int, hour: int, x: FreeSlot)
    requires d > 0 && 0 <= hour
    ensures x in SlotsFromHour(res, ra, date, d, hour) <==>
      && x.resourceId == res.id && x.resourceName == res.name
      && SameDay(x.start, date) && hour <= HourOf(x.start) < SlotWindowEndHour
      && MinuteOf(x.start) % d == 0
      && x.end == x.start + d && !AnyOverlap(ra, x.start, x.end)
    decreases SlotWindowEndHour - hour
  {
    if hour < SlotWindowEndHour {
      var here := SlotsFromMinute(res, ra, date, d, hour, 0);
      var later := SlotsFromHour(res, ra, date, d, hour + 1);
      assert SlotsFromHour(res, ra, date, d, hour) == here + later;
      assert x in here + later <==> x in here || x in later;
      SlotsFromMinuteMembers(res, ra, date, d, hour, 0, x);
      SlotsFromHourMembers(res, ra, date, d, hour + 1, x);
    }
  }

  /**
   * Soundness and completeness: the finder returns a slot for `res` exactly
   * when it is a free grid candidate, with the resource's id and name.
   */
  lemma ResourceSlotsExactly(res: Resource, appointments: seq<Appointment>, date: Instant, d: int, x: FreeSlot)
    requires d > 0
    ensures x in ResourceSlots(res, appointments, date, d) <==> IsFreeSlot(res, appointments, date, d, x)
  {
    var ra := ForResource(appointments, res.id);
    SlotsFromHourMembers(res, ra, date, d, SlotWindowStartHour, x);
    AnyOverlapExists(ra, x.start, x.end);
    ForResourceMembers(appointments, res.id);
  }

  /** The completeness half of `ResourceSlotsExactly`. */
  lemma FreeSlotReturned(res: Resource, appointments: seq<Appointment>, date: Instant, d: int, x: FreeSlot)
    requires d > 0 && IsFreeSlot(res, appointments, date, d, x)
    ensures x in ResourceSlots(res, appointments, date, d)
  {
    ResourceSlotsExactly(res, appointments, date, d, x);
  }

  /** Over all resources: a slot is returned exactly when it is free for one of them. */
  lemma {:induction false} AvailableSlotsExactly(resources: seq<Resource>, appointments: seq<Appointment>, date: Instant, d: int, x: FreeSlot)
    requires d > 0
    ensures x in AvailableSlots(resources, appointments, date, d) <==>
      exists r :: r in resources && IsFreeSlot(r, appointments, date, d, x)
    decreases |resources|
  {
    if resources != [] {
      ResourceSlotsExactly(resources[0], appointments, date, d, x);
      AvailableSlotsExactly(resources[1..], appointments, date, d, x);
      assert resources == [resources[0]] + resources[1..];
    }
  }

  /** The result is the concatenation of the per-resource results, in input order. */
  lemma {:induction false} AvailableSlotsAppend(rs1: seq<Resource>, rs2: seq<Resource>, appointments: seq<Appointment>, date: Instant, d: int)
    requires d > 0
    ensures AvailableSlots(rs1 + rs2, appointments, date, d)
         == AvailableSlots(rs1, appointments, date, d) + AvailableSlots(rs2, appointments, date, d)
    decreases |rs1|
  {
    if rs1 == [] {
      assert rs1 + rs2 == rs2;
    } else {
      assert (rs1 + rs2)[1..] == rs1[1..] + rs2;
      AvailableSlotsAppend(rs1[1..], rs2, appointments, date, d);
      AppendAssociative(ResourceSlots(rs1[0], appointments, date, d),
                        AvailableSlots(rs1[1..], appointments, date, d),
                        AvailableSlots(rs2, appointments, date, d));
    }
  }

  /** An appointment of another resource does not change a resource's slots. */
  lemma ResourceSlotsIgnoreOthers(res: Resource, appointments: seq<Appointment>, other: Appointment, date: Instant, d: int)
    requires d > 0 && other.resourceId != res.id
    ensures ResourceSlots(res, appointments + [other], date, d) == ResourceSlots(res, appointments, date, d)
  {
    ForResourceAppend(appointments, [other], res.id);
    assert ForResource([other], res.id) == [];
    assert ForResource(appointments, res.id) + [] == ForResource(appointments, res.id);
  }

  // ---------------------------------------------------------------------
  // Order
  // ---------------------------------------------------------------------

  predicate StartsIncreasing(slots: seq<FreeSlot>) {
    forall i, j :: 0 <= i < j < |slots| ==> slots[i].start < slots[j].start
  }

  lemma ConcatIncreasing(a: seq<FreeSlot>, b: seq<FreeSlot>)
    requires StartsIncreasing(a) && StartsIncreasing(b)
    requires forall x, y :: x in a && y in b ==> x.start < y.start
    ensures StartsIncreasing(a + b)
  {
    forall i, j | 0 <= i < j < |a + b|
      ensures (a + b)[i].start < (a + b)[j].start
    {
      if j < |a| {
      } else if i >= |a| {
        assert (a + b)[i] == b[i - |a|] && (a + b)[j] == b[j - |a|];
      } else {
        assert (a + b)[i] in a && (a + b)[j] in b;
      }
    }
  }

  /** On one day, an earlier hour or an earlier minute of the same hour is an earlier instant. */
  lemma EarlierInDay(t: Instant, u: Instant)
    requires SameDay(t, u)
    requires HourOf(t) < HourOf(u) || (HourOf(t) == HourOf(u) && MinuteOf(t) < MinuteOf(u))
    ensures t < u
  {
    DayBounds(t);
    DayBounds(u);
  }

  lemma {:induction false} SlotsFromMinuteIncreasing(res: Resource, ra: seq<Appointment>, date: Instant, d: int, hour: int, minute: int)
    requires d > 0 && 0 <= hour < 24 && 0 <= minute && minute % d == 0
    ensures StartsIncreasing(SlotsFromMinute(res, ra, date, d, hour, minute))
    decreases 60 - minute
  {
    if minute < 60 {
      var start := SetHours(date, hour, minute);
      var end := start + d;
      var rest := SlotsFromMinute(res, ra, date, d, hour, minute + d);
      AtParts(DayOf(date), hour, minute);
      SlotsFromMinuteStep(res, ra, date, d, hour, minute);
      AddDivisor(minute, d);
      SlotsFromMinuteIncreasing(res, ra, date, d, hour, minute + d);
      forall y | y in rest
        ensures start < y.start
      {
        SlotsFromMinuteMembers(res, ra, date, d, hour, minute + d, y);
        EarlierInDay(start, y.start);
      }
      ConcatIncreasing([FreeSlot(res.id, res.name, start, end)], rest);
    }
  }

  lemma {:induction false} SlotsFromHourIncreasing(res: Resource, ra: seq<Appointment>, date: Instant, d: int, hour: int)
    requires d > 0 && 0 <= hour
    ensures StartsIncreasing(SlotsFromHour(res, ra, date, d, hour))
    decreases SlotWindowEndHour - hour
  {
    if hour < SlotWindowEndHour {
      var first := SlotsFromMinute(res, ra, date, d, hour, 0);
      var rest := SlotsFromHour(res, ra, date, d, hour + 1);
      SlotsFromMinuteIncreasing(res, ra, date, d, hour, 0);
      SlotsFromHourIncreasing(res, ra, date, d, hour + 1);
      forall x, y | x in first && y in rest
        ensures x.start < y.start
      {
        HourBeforeLaterHours(res, ra, date, d, hour, x, y);
      }
      ConcatIncreasing(first, rest);
    }
  }

  lemma HourBeforeLaterHours(res: Resource, ra: seq<Appointment>, date: Instant, d: int, hour: int, x: FreeSlot, y: FreeSlot)
    requires d > 0 && 0 <= hour < SlotWindowEndHour
    requires x in SlotsFromMinute(res, ra, date, d, hour, 0)
    requires y in SlotsFromHour(res, ra, date, d, hour + 1)
    ensures x.start < y.start
  {
    SlotsFromMinuteMembers(res, ra, date, d, hour, 0, x);
    SlotsFromHourMembers(res, ra, date, d, hour + 1, y);
    EarlierInDay(x.start, y.start);
  }

  /** Within one resource, slot starts are strictly increasing. */
  lemma ResourceSlotsIncreasing(res: Resource, appointments: seq<Appointment>, date: Instant, d: int)
    requires d > 0
    ensures StartsIncreasing(ResourceSlots(res, appointments, date, d))
  {
    SlotsFromHourIncreasing(res, ForResource(appointments, res.id), date, d, SlotWindowStartHour);
  }

  // ---------------------------------------------------------------------
  // Counts and the end of the window
  // ---------------------------------------------------------------------

  /** Candidates per hour: one for each multiple of `d` below 60, i.e. ceil(60 / d). */
  function CandidatesPerHour(d: int): int
    requires d > 0
  {
    (59 + d) / d
  }

  lemma {:induction false} SlotsFromMinuteCount(res: Resource, date: Instant, d: int, hour: int, minute: int)
    requires d > 0 && 0 <= minute < 60 + d
    ensures |SlotsFromMinute(res, [], date, d, hour, minute)| == (59 + d - minute) / d
    decreases 60 - minute
  {
    if minute < 60 {
      SlotsFromMinuteStep(res, [], date, d, hour, minute);
      SlotsFromMinuteCount(res, date, d, hour, minute + d);
      AddDivisor(59 - minute, d);
    } else {
      DivModUnique(59 + d - minute, d, 0, 59 + d - minute);
    }
  }

  lemma {:induction false} SlotsFromHourCount(res: Resource, date: Instant, d: int, hour: int)
    requires d > 0 && hour <= SlotWindowEndHour
    ensures |SlotsFromHour(res, [], date, d, hour)| == (SlotWindowEndHour - hour) * CandidatesPerHour(d)
    decreases SlotWindowEndHour - hour
  {
    if hour < SlotWindowEndHour {
      SlotsFromMinuteCount(res, date, d, hour, 0);
      SlotsFromHourCount(res, date, d, hour + 1);
      MulSucc(SlotWindowEndHour - (hour + 1), CandidatesPerHour(d));
    }
  }

  /**
   * A resource without appointments gets every candidate: eight hours of
   * ceil(60 / d) slots each.
   */
  lemma FreeResourceSlotCount(res: Resource, appointments: seq<Appointment>, date: Instant, d: int)
    requires d > 0 && ForResource(appointments, res.id) == []
    ensures |ResourceSlots(res, appointments, date, d)| == 8 * CandidatesPerHour(d)
  {
    SlotsFromHourCount(res, date, d, SlotWindowStartHour);
  }

  /** When `d` divides 60 that is 8 * 60 / d slots, covering the 480 minutes of the window. */
  lemma FreeResourceSlotCountDividing(res: Resource, appointments: seq<Appointment>, date: Instant, d: int)
    requires d > 0 && 60 % d == 0 && ForResource(appointments, res.id) == []
    ensures |ResourceSlots(res, appointments, date, d)| == 8 * (60 / d)
    ensures |ResourceSlots(res, appointments, date, d)| * d == (SlotWindowEndHour - SlotWindowStartHour) * 60
  {
    FreeResourceSlotCount(res, appointments, date, d);
    DividingCandidates(d);
  }

  lemma DividingCandidates(d: int)
    requires d > 0 && 60 % d == 0
    ensures CandidatesPerHour(d) == 60 / d
    ensures 8 * (60 / d) * d == 480
  {
    var q := 60 / d;
    assert q * d == 60;
    DivModUnique(59 + d, d, q, d - 1);
    assert 8 * q * d == 8 * (q * d);
  }

  /** When `d` divides 60, every slot ends by 17:00 of the day. */
  lemma SlotsEndByWindowClose(res: Resource, appointments: seq<Appointment>, date: Instant, d: int, x: FreeSlot)
    requires d > 0 && 60 % d == 0
    requires x in ResourceSlots(res, appointments, date, d)
    ensures At(DayOf(date), SlotWindowStartHour, 0) <= x.start
    ensures x.end <= At(DayOf(date), SlotWindowEndHour, 0)
  {
    ResourceSlotsExactly(res, appointments, date, d, x);
    NextMultiple(MinuteOf(x.start), 60, d);
    DayBounds(x.start);
  }

  /**
   * When `d` does not divide 60, the last candidate of hour 16 runs past
   * 17:00 and is still offered to a resource without appointments.
   */
  lemma LastSlotOverruns(res: Resource, appointments: seq<Appointment>, date: Instant, d: int, x: FreeSlot)
    requires d > 0 && 60 % d != 0 && ForResource(appointments, res.id) == []
    requires x.resourceId == res.id && x.resourceName == res.name
    requires x.start == At(DayOf(date), 16, d * (59 / d)) && x.end == x.start + d
    ensures x in ResourceSlots(res, appointments, date, d)
    ensures x.end > At(DayOf(date), SlotWindowEndHour, 0)
  {
    LastMultipleOverruns(d);
    GridSlotOffered(res, appointments, date, d, d * (59 / d), x);
  }

  lemma GridSlotOffered(res: Resource, appointments: seq<Appointment>, date: Instant, d: int, m: int, x: FreeSlot)
    requires d > 0 && 0 <= m < 60 && m % d == 0 && ForResource(appointments, res.id) == []
    requires x.resourceId == res.id && x.resourceName == res.name
    requires x.start == At(DayOf(date), 16, m) && x.end == x.start + d
    ensures x in ResourceSlots(res, appointments, date, d)
  {
    GridSlotIsFree(res, appointments, date, d, m, x);
    FreeSlotReturned(res, appointments, date, d, x);
  }

  /** With no appointments, the candidate at `16:m` is free for any multiple `m` of `d` below 60. */
  lemma GridSlotIsFree(res: Resource, appointments: seq<Appointment>, date: Instant, d: int, m: int, x: FreeSlot)
    requires d > 0 && 0 <= m < 60 && m % d == 0 && ForResource(appointments, res.id) == []
    requires x.resourceId == res.id && x.resourceName == res.name
    requires x.start == At(DayOf(date), 16, m) && x.end == x.start + d
    ensures IsFreeSlot(res, appointments, date, d, x)
  {
    AtParts(DayOf(date), 16, m);
    ForResourceMembers(appointments, res.id);
  }

  /** The largest multiple of `d` below 60 is followed by one above 60 unless `d` divides 60. */
  lemma LastMultipleOverruns(d: int)
    requires d > 0 && 60 % d != 0
    ensures var m := d * (59 / d); 0 <= m < 60 && m % d == 0 && m + d > 60
  {
    var q := 59 / d;
    var m := d * q;
    assert 59 == q * d + 59 % d;
    DivModUnique(m, d, q, 0);
    if m + d == 60 {
      DivModUnique(60, d, q + 1, 0);
    }
  }

  /** A booking of `res` from 10:00 to 10:45 on `day`. */
  function Booking(res: Resource, day: int): Appointment {
    Appointment("b", res.id, "Booking", At(day, 10, 0), At(day, 10, 45), "appointment", None, None, None, None)
  }

  /** With that booking and 15-minute slots, 9:45-10:00 is offered: touching the booking is free. */
  lemma BookingScenarioOffered(res: Resource, date: Instant)
    ensures FreeSlot(res.id, res.name, At(DayOf(date), 9, 45), At(DayOf(date), 10, 0))
            in ResourceSlots(res, [Booking(res, DayOf(date))], date, 15)
  {
    AtParts(DayOf(date), 9, 45);
    FreeSlotReturned(res, [Booking(res, DayOf(date))], date, 15,
                     FreeSlot(res.id, res.name, At(DayOf(date), 9, 45), At(DayOf(date), 10, 0)));
  }

  /**
   * With that booking, the slots at 10:00 and 10:30 are not offered, and
   * 9:50-10:05 is not offered either, being off the 15-minute grid.
   */
  lemma BookingScenarioRefused(res: Resource, date: Instant)
    ensures var slots := ResourceSlots(res, [Booking(res, DayOf(date))], date, 15);
      && FreeSlot(res.id, res.name, At(DayOf(date), 10, 0), At(DayOf(date), 10, 15)) !in slots
      && FreeSlot(res.id, res.name, At(DayOf(date), 10, 30), At(DayOf(date), 10, 45)) !in slots
      && FreeSlot(res.id, res.name, At(DayOf(date), 9, 50), At(DayOf(date), 10, 5)) !in slots
  {
    var day := DayOf(date);
    var booking := Booking(res, day);
    assert booking in [booking];
    AtParts(day, 9, 50);
    BusySlotNotReturned(res, [booking], date, 15, FreeSlot(res.id, res.name, At(day, 10, 0), At(day, 10, 15)));
    BusySlotNotReturned(res, [booking], date, 15, FreeSlot(res.id, res.name, At(day, 10, 30), At(day, 10, 45)));
    BusySlotNotReturned(res, [booking], date, 15, FreeSlot(res.id, res.name, At(day, 9, 50), At(day, 10, 5)));
  }

  /** The soundness half of `ResourceSlotsExactly`, read backwards. */
  lemma BusySlotNotReturned(res: Resource, appointments: seq<Appointment>, date: Instant, d: int, x: FreeSlot)
    requires d > 0 && !IsFreeSlot(res, appointments, date, d, x)
    ensures x !in ResourceSlots(res, appointments, date, d)
  {
    ResourceSlotsExactly(res, appointments, date, d, x);
  }

  // ---------------------------------------------------------------------
  // Arithmetic helpers
  // ---------------------------------------------------------------------

  lemma AddDivisor(x: int, d: int)
    requires d > 0
    ensures (x + d) / d == x / d + 1 && (x + d) % d == x % d
  {
    DivModUnique(x + d, d, x / d + 1, x % d);
  }

  lemma MulSucc(k: int, c: int)
    ensures (k + 1) * c == k * c + c
  {
  }

  lemma MulMonotone(x: int, y: int, d: int)
    requires x <= y && d > 0
    ensures x * d <= y * d
  {
  }

  /** Between two multiples of `d`, the larger is at least `d` above the smaller. */
  lemma NextMultiple(a: int, b: int, d: int)
    requires d > 0 && a % d == 0 && b % d == 0 && a < b
    ensures a + d <= b
  {
    var qa, qb := a / d, b / d;
    assert a == qa * d && b == qb * d;
    if qb <= qa {
      MulMonotone(qb, qa, d);
    }
    MulMonotone(qa + 1, qb, d);
  }
}
