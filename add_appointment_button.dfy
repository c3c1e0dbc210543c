/**
 * The "Add Appointment" button: it owns the `modalOpen` flag and the
 * admission gate `handleAddAppointment`, which refuses a submission whose
 * slot `isSlotAvailable` reports taken and otherwise forwards it to the
 * application and closes the dialog.
 */
module AddAppointmentButton {
  import opened Wrappers
  import opened Clock
  import opened Overlap
  import opened Domain
  import opened App
  import DayView

  /** The object `handleAddAppointment` returns: `{ success, message }`. */
  datatype SubmitResult = SubmitResult(success: bool, message: Option<string>)

  const SlotTakenMessage := "This time slot is not available. Please select another time or resource."

  class Button {
    var modalOpen: bool
    /** The application whose `handleAddAppointment` is the `onAddAppointment` callback. */
    const app: Scheduler

    constructor (app: Scheduler)
      ensures this.app == app && !modalOpen
    {
      this.app := app;
      modalOpen := false;
    }

    method HandleOpenModal()
      modifies this
      ensures modalOpen
    {
      modalOpen := true;
    }

    method HandleCloseModal()
      modifies this
      ensures !modalOpen
    {
      modalOpen := false;
    }

    /**
     * `handleAddAppointment(appointmentData)`.  The day view's
     * `isSlotAvailable` runs over the appointments it shows, those of the
     * selected day, on the submitted resource, start and end.  A taken slot
     * is refused and nothing changes; a free one is appended once, unchanged,
     * and the dialog closes.  A submission on the selected day with a
     * non-empty interval inside that day keeps the schedule invariant.
     */
    method HandleAddAppointment(appointmentData: NewAppointment) returns (result: SubmitResult)
      modifies this, app
      ensures var available := DayView.IsSlotAvailable(old(app.FilteredAppointments()),
          appointmentData.resourceId, appointmentData.start, appointmentData.end);
        if available then
          result == SubmitResult(true, None) && !modalOpen
          && app.appointments == old(app.appointments) + [Stamp(appointmentData, GeneratedId(|old(app.appointments)| + 1))]
          && !app.isAddModalOpen && app.selectedDate == old(app.selectedDate)
        else
          result == SubmitResult(false, Some(SlotTakenMessage)) && modalOpen == old(modalOpen)
          && app.appointments == old(app.appointments)
          && app.isAddModalOpen == old(app.isAddModalOpen) && app.selectedDate == old(app.selectedDate)
      ensures old(app.Valid()) && Admissible(appointmentData, old(app.selectedDate)) ==> app.Valid()
    {
      var appointments := app.FilteredAppointments();
      if !DayView.IsSlotAvailable(appointments, appointmentData.resourceId, appointmentData.start, appointmentData.end) {
        return SubmitResult(false, Some(SlotTakenMessage));
      }
      if app.Valid() && Admissible(appointmentData, app.selectedDate) {
        AdmissionPreservesInvariant(app.appointments, app.selectedDate, appointmentData);
      }
      app.HandleAddAppointment(appointmentData);
      HandleCloseModal();
      return SubmitResult(true, None);
    }
  }

  /** A non-empty interval inside the selected day, as the add form produces. */
  predicate Admissible(data: NewAppointment, selectedDate: Instant) {
    data.start < data.end && SameDay(data.start, data.end) && SameDay(data.start, selectedDate)
  }

  /**
   * Admitting what the gate lets through keeps the schedule invariant: the
   * gate sees only the selected day, and appointments of other days cannot
   * overlap an interval inside that day.
   */
  lemma AdmissionPreservesInvariant(apps: seq<Appointment>, selectedDate: Instant, data: NewAppointment)
    requires ScheduleInvariant(apps) && Admissible(data, selectedDate)
    requires DayView.IsSlotAvailable(GetFilteredAppointments(apps, selectedDate), data.resourceId, data.start, data.end)
    ensures ScheduleInvariant(apps + [Stamp(data, GeneratedId(|apps| + 1))])
  {
    var x := Stamp(data, GeneratedId(|apps| + 1));
    var shown := GetFilteredAppointments(apps, selectedDate);
    DayView.SlotAvailableIff(shown, data.resourceId, data.start, data.end);
    FilteredMembers(apps, selectedDate);
    forall a | a in apps && a.resourceId == x.resourceId
      ensures !HalfOpenOverlap(a.start, a.end, x.start, x.end)
    {
      assert WellFormed(a);
      if SameDay(a.start, selectedDate) {
        assert a in shown;
        ThreeCaseIsHalfOpen(x.start, x.end, a.start, a.end);
      } else {
        DifferentDaysDisjoint(a, x);
      }
    }
    AppendKeepsInvariant(apps, x);
  }

  /**
   * The converse: a submission that overlaps a shown appointment of the same
   * resource (both non-empty) is refused.
   */
  lemma ConflictRefused(shown: seq<Appointment>, data: NewAppointment, a: Appointment)
    requires a in shown && a.resourceId == data.resourceId
    requires a.start < a.end && data.start < data.end
    requires HalfOpenOverlap(data.start, data.end, a.start, a.end)
    ensures !DayView.IsSlotAvailable(shown, data.resourceId, data.start, data.end)
  {
    DayView.SlotAvailableIff(shown, data.resourceId, data.start, data.end);
    ThreeCaseIsHalfOpen(data.start, data.end, a.start, a.end);
  }
}
