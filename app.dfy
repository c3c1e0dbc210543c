/**
 * The application shell: the selected date, the appointment list it owns,
 * `getFilteredAppointments`, which hands the day view the appointments of
 * the selected calendar day, and `handleAddAppointment`, which appends a
 * submitted appointment under a generated id.
 */
module App {
  import opened Wrappers
  import opened Clock
  import opened Overlap
  import opened Decimal
  import opened Domain
  import opened Sequences
  import MockData

  /** The appointment data the add form forwards; it carries no id. */
  datatype NewAppointment = NewAppointment(
    title: string,
    resourceId: string,
    clientName: string,
    start: Instant,
    end: Instant,
    kind: string,
    details: string)

  // ---------------------------------------------------------------------
  // getFilteredAppointments
  // ---------------------------------------------------------------------

  /** The appointments whose start falls on the calendar day of `selectedDate`, in list order. */
  function GetFilteredAppointments(appointments: seq<Appointment>, selectedDate: Instant): (r: seq<Appointment>)
    ensures |r| <= |appointments|
    decreases |appointments|
  {
    if appointments == [] then []
    else
      (if SameDay(appointments[0].start, selectedDate) then [appointments[0]] else [])
      + GetFilteredAppointments(appointments[1..], selectedDate)
  }

  /** The filter keeps exactly the appointments of the selected day. */
  lemma {:induction false} FilteredMembers(appointments: seq<Appointment>, selectedDate: Instant)
    ensures forall a ::
      a in GetFilteredAppointments(appointments, selectedDate) <==> a in appointments && SameDay(a.start, selectedDate)
    decreases |appointments|
  {
    if appointments != [] {
      FilteredMembers(appointments[1..], selectedDate);
      assert appointments == [appointments[0]] + appointments[1..];
    }
  }

  /**
   * The filter keeps the list order: filtering a concatenation filters each
   * side, so with a one-element side it keeps or drops just that element.
   */
  lemma {:induction false} FilteredAppend(a: seq<Appointment>, b: seq<Appointment>, selectedDate: Instant)
    ensures GetFilteredAppointments(a + b, selectedDate)
         == GetFilteredAppointments(a, selectedDate) + GetFilteredAppointments(b, selectedDate)
    decreases |a|
  {
    if a == [] {
      assert a + b == b;
    } else {
      assert (a + b)[0] == a[0] && (a + b)[1..] == a[1..] + b;
      FilteredAppend(a[1..], b, selectedDate);
      var head := if SameDay(a[0].start, selectedDate) then [a[0]] else [];
      AppendAssociative(head, GetFilteredAppointments(a[1..], selectedDate), GetFilteredAppointments(b, selectedDate));
    }
  }

  /** Only the calendar day of `selectedDate` matters, not its time. */
  lemma {:induction false} FilterIgnoresTimeOfDay(appointments: seq<Appointment>, d1: Instant, d2: Instant)
    requires SameDay(d1, d2)
    ensures GetFilteredAppointments(appointments, d1) == GetFilteredAppointments(appointments, d2)
    decreases |appointments|
  {
    if appointments != [] {
      FilterIgnoresTimeOfDay(appointments[1..], d1, d2);
    }
  }

  // ---------------------------------------------------------------------
  // Generated ids
  // ---------------------------------------------------------------------

  const IdPrefix := "appointment-"

  /** `` `appointment-${n}` ``. */
  function GeneratedId(n: nat): string {
    IdPrefix + NatToString(n)
  }

  /** The number inside an id of the generated form, if the id has that form. */
  function GeneratedNumber(id: string): Option<nat> {
    if |id| > |IdPrefix| && id[..|IdPrefix|] == IdPrefix && AllDigits(id[|IdPrefix|..])
    then Some(ParseNat(id[|IdPrefix|..]))
    else None
  }

  /** A generated id names the number it was made from. */
  lemma GeneratedIdRoundTrip(n: nat)
    ensures GeneratedNumber(GeneratedId(n)) == Some(n)
  {
    var id := GeneratedId(n);
    assert id[..|IdPrefix|] == IdPrefix;
    assert id[|IdPrefix|..] == NatToString(n);
    ParseNatToString(n);
  }

  /** Different list lengths give different ids. */
  lemma GeneratedIdInjective(m: nat, n: nat)
    ensures GeneratedId(m) == GeneratedId(n) <==> m == n
  {
    GeneratedIdRoundTrip(m);
    GeneratedIdRoundTrip(n);
  }

  /** The record `{ id, ...newAppointment }` that is appended. */
  function Stamp(data: NewAppointment, id: string): Appointment {
    Appointment(id, data.resourceId, data.title, data.start, data.end, data.kind,
      Some(data.clientName), None, Some(data.details), None)
  }

  // ---------------------------------------------------------------------
  // The invariant of the appointment list
  // ---------------------------------------------------------------------

  /** A non-empty interval inside one calendar day. */
  predicate WellFormed(a: Appointment) {
    a.start < a.end && SameDay(a.start, a.end)
  }

  /** No two appointments of one resource share a minute. */
  predicate NoConflicts(apps: seq<Appointment>) {
    forall i, j :: 0 <= i < j < |apps| && apps[i].resourceId == apps[j].resourceId
      ==> !HalfOpenOverlap(apps[i].start, apps[i].end, apps[j].start, apps[j].end)
  }

  predicate DistinctIds(apps: seq<Appointment>) {
    forall i, j :: 0 <= i < j < |apps| ==> apps[i].id != apps[j].id
  }

  /** Every id of the generated form carries a number no larger than the list length. */
  predicate IdsIssuedBelow(apps: seq<Appointment>) {
    forall i :: 0 <= i < |apps| && GeneratedNumber(apps[i].id).Some? ==> GeneratedNumber(apps[i].id).value <= |apps|
  }

  predicate ScheduleInvariant(apps: seq<Appointment>) {
    (forall i :: 0 <= i < |apps| ==> WellFormed(apps[i]))
    && NoConflicts(apps) && DistinctIds(apps) && IdsIssuedBelow(apps)
  }

  /**
   * Appending a well-formed appointment that clashes with no appointment of
   * its resource, under the id the list length generates, keeps the invariant.
   */
  lemma AppendKeepsInvariant(apps: seq<Appointment>, x: Appointment)
    requires ScheduleInvariant(apps) && WellFormed(x)
    requires forall a :: a in apps && a.resourceId == x.resourceId ==> !HalfOpenOverlap(a.start, a.end, x.start, x.end)
    requires x.id == GeneratedId(|apps| + 1)
    ensures ScheduleInvariant(apps + [x])
  {
    var next := apps + [x];
    GeneratedIdRoundTrip(|apps| + 1);
    forall i, j | 0 <= i < j < |next|
      ensures next[i].id != next[j].id
    {
      if j == |apps| {
        assert next[i] in apps;
      }
    }
    forall i, j | 0 <= i < j < |next| && next[i].resourceId == next[j].resourceId
      ensures !HalfOpenOverlap(next[i].start, next[i].end, next[j].start, next[j].end)
    {
      if j == |apps| {
        assert next[i] in apps;
      }
    }
  }

  /** Two well-formed appointments on different calendar days never overlap. */
  lemma DifferentDaysDisjoint(a: Appointment, b: Appointment)
    requires WellFormed(a) && WellFormed(b) && !SameDay(a.start, b.start)
    ensures !HalfOpenOverlap(a.start, a.end, b.start, b.end)
  {
    DayBounds(a.start);
    DayBounds(b.start);
    DayBounds(a.end);
    DayBounds(b.end);
    if DayOf(a.start) < DayOf(b.start) {
      assert DayOf(a.start) * MinutesPerDay + MinutesPerDay <= DayOf(b.start) * MinutesPerDay;
    } else {
      assert DayOf(b.start) * MinutesPerDay + MinutesPerDay <= DayOf(a.start) * MinutesPerDay;
    }
  }

  // ---------------------------------------------------------------------
  // The App component's state
  // ---------------------------------------------------------------------

  /**
   * The state `App` keeps with `useState`: the selected date, the flag of
   * its own add dialog, the resources and the appointment list.
   */
  class Scheduler {
    var selectedDate: Instant
    var isAddModalOpen: bool
    const resources: seq<Resource>
    var appointments: seq<Appointment>

    /** The appointment list keeps the schedule invariant. */
    predicate Valid()
      reads this
    {
      ScheduleInvariant(appointments)
    }

    /**
     * The first render: the date is `now`, the lists are the seed data, made
     * for the midnight `today` of the instant `loadTime` the data module was
     * loaded at.
     */
    constructor (loadTime: Instant, now: Instant)
      ensures selectedDate == now && !isAddModalOpen
      ensures resources == MockData.MockResources()
      ensures appointments == MockData.GenerateAppointments(MockData.Today(loadTime))
      ensures Valid()
    {
      selectedDate := now;
      isAddModalOpen := false;
      resources := MockData.MockResources();
      appointments := MockData.GenerateAppointments(MockData.Today(loadTime));
      SeedSatisfiesInvariant(MockData.Today(loadTime));
    }

    /** `getFilteredAppointments()`, the list the day view is given. */
    function FilteredAppointments(): seq<Appointment>
      reads this
    {
      GetFilteredAppointments(appointments, selectedDate)
    }

    /** `onDateChange`, wired to `setSelectedDate`. */
    method SetSelectedDate(date: Instant)
      modifies this
      ensures selectedDate == date
      ensures appointments == old(appointments) && isAddModalOpen == old(isAddModalOpen)
    {
      selectedDate := date;
    }

    /**
     * `handleAddAppointment`: the list grows by one record at its end,
     * carrying the id `appointment-<old length + 1>` and the submitted
     * fields; the add dialog flag is cleared.
     */
    method HandleAddAppointment(newAppointment: NewAppointment)
      modifies this
      ensures appointments == old(appointments) + [Stamp(newAppointment, GeneratedId(|old(appointments)| + 1))]
      ensures !isAddModalOpen && selectedDate == old(selectedDate)
    {
      appointments := appointments + [Stamp(newAppointment, GeneratedId(|appointments| + 1))];
      isAddModalOpen := false;
    }
  }

  // ---------------------------------------------------------------------
  // The seed list
  // ---------------------------------------------------------------------

  /** The seed appointments keep the invariant. */
  lemma SeedSatisfiesInvariant(today: Instant)
    ensures ScheduleInvariant(MockData.GenerateAppointments(today))
  {
    SeedWithinWindow(today);
    SeedNoConflicts(today);
    SeedIds(today);
  }

  /** The seed times, read as `hour:minute` on the day of `today`. */
  lemma SeedTimes(today: Instant)
    ensures var day := DayOf(today);
      var seed := MockData.GenerateAppointments(today);
      |seed| == 10
      && seed[0].start == At(day, 9, 15) && seed[0].end == At(day, 10, 0)
      && seed[1].start == At(day, 12, 0) && seed[1].end == At(day, 13, 0)
      && seed[2].start == At(day, 9, 0) && seed[2].end == At(day, 10, 45)
      && seed[3].start == At(day, 11, 30) && seed[3].end == At(day, 12, 15)
      && seed[4].start == At(day, 13, 0) && seed[4].end == At(day, 14, 30)
      && seed[5].start == At(day, 10, 0) && seed[5].end == At(day, 10, 45)
      && seed[6].start == At(day, 14, 15) && seed[6].end == At(day, 16, 15)
      && seed[7].start == At(day, 13, 15) && seed[7].end == At(day, 14, 0)
      && seed[8].start == At(day, 14, 30) && seed[8].end == At(day, 16, 45)
      && seed[9].start == At(day, 15, 0) && seed[9].end == At(day, 16, 30)
  {
  }

  /** An interval between 9:00 and 17:00 of `day` lies on that day. */
  lemma WorkingHoursOnDay(day: int, s: Instant, e: Instant)
    requires At(day, 9, 0) <= s < e <= At(day, 17, 0)
    ensures SameDay(s, e) && DayOf(s) == day
  {
    DivModUnique(s, MinutesPerDay, day, s - day * MinutesPerDay);
    DivModUnique(e, MinutesPerDay, day, e - day * MinutesPerDay);
  }

  /**
   * Every seed appointment is a non-empty interval between 9:00 and 17:00
   * of the day the data was created.
   */
  lemma SeedWithinWindow(today: Instant)
    ensures var seed := MockData.GenerateAppointments(today);
      forall i :: 0 <= i < |seed| ==>
        WellFormed(seed[i]) && DayOf(seed[i].start) == DayOf(today)
        && At(DayOf(today), 9, 0) <= seed[i].start && seed[i].end <= At(DayOf(today), 17, 0)
  {
    SeedTimes(today);
    var seed := MockData.GenerateAppointments(today);
    forall i | 0 <= i < |seed|
      ensures At(DayOf(today), 9, 0) <= seed[i].start < seed[i].end <= At(DayOf(today), 17, 0)
    {
    }
    forall i | 0 <= i < |seed|
      ensures SameDay(seed[i].start, seed[i].end) && DayOf(seed[i].start) == DayOf(today)
    {
      WorkingHoursOnDay(DayOf(today), seed[i].start, seed[i].end);
    }
  }

  /** No two seed appointments of one stylist overlap. */
  lemma SeedNoConflicts(today: Instant)
    ensures NoConflicts(MockData.GenerateAppointments(today))
  {
    SeedTimes(today);
  }

  /** The seed ids a1..a10 are distinct and none has the generated form. */
  lemma SeedIds(today: Instant)
    ensures DistinctIds(MockData.GenerateAppointments(today))
    ensures forall i :: 0 <= i < |MockData.GenerateAppointments(today)| ==>
      GeneratedNumber(MockData.GenerateAppointments(today)[i].id).None?
  {
    var seed := MockData.GenerateAppointments(today);
    forall i | 0 <= i < |seed|
      ensures GeneratedNumber(seed[i].id).None?
    {
      assert |seed[i].id| <= 3;
    }
  }

  /** Every seed appointment belongs to one of the seed resources. */
  lemma SeedResources(today: Instant)
    ensures forall a :: a in MockData.GenerateAppointments(today) ==>
      exists r :: r in MockData.MockResources() && r.id == a.resourceId
  {
    var rs := MockData.MockResources();
    assert rs[0].id == "r1" && rs[1].id == "r2" && rs[2].id == "r3" && rs[3].id == "r4";
  }
}
