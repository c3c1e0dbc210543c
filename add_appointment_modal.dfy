/**
 * The add-appointment dialog: the form's values and their validation
 * schema, the defaults and the two effects that rewrite fields, and
 * `handleFormSubmit`, which moves the chosen times onto the day shown,
 * checks the working window and then the minimum length, and only then
 * hands the appointment to the button's admission gate.
 */
module AddAppointmentModal {
  import opened Wrappers
  import opened Clock
  import opened App
  import AddAppointmentButton
  import DayView
  import SchedulerConfig

  /** What the form holds; a cleared time picker leaves its field empty. */
  datatype FormValues = FormValues(
    title: string,
    resourceId: string,
    clientName: string,
    start: Option<Instant>,
    end: Option<Instant>,
    kind: string,
    details: string)

  /** Which check stopped a submission; the text shown is left out except the gate's. */
  datatype Rule = OutsideWorkingHours | TooShort | SlotTaken(message: string)

  /** The outcome of the two checks `handleFormSubmit` makes itself. */
  datatype Check = Rejected(rule: Rule) | Forward(appointment: NewAppointment)

  /** The shortest appointment the dialog accepts, in minutes (a literal in the dialog). */
  const MinimumLength := 15

  /** The dialog's literal minimum is the configured `minAppointmentDuration`. */
  lemma MinimumIsConfigured()
    ensures MinimumLength == SchedulerConfig.MinAppointmentDuration
  {
  }

  /** The minutes the end follows a newly chosen start by. */
  const DefaultLength := 30

  // ---------------------------------------------------------------------
  // Schema
  // ---------------------------------------------------------------------

  /** The `is-after-start` test: it only judges when both times are present. */
  predicate EndAfterStart(start: Option<Instant>, end: Option<Instant>) {
    start.Some? && end.Some? ==> start.value < end.value
  }

  /** The yup schema: the text fields but `details` are required, both times too, and the end must follow the start. */
  predicate SchemaValid(v: FormValues) {
    v.title != "" && v.resourceId != "" && v.clientName != ""
    && v.start.Some? && v.end.Some? && EndAfterStart(v.start, v.end)
    && v.kind != ""
  }

  /** `setHours(date, h)` of date-fns: the hour changes, the minutes stay. */
  function WithHour(t: Instant, hour: int): Instant {
    At(DayOf(t), hour, MinuteOf(t))
  }

  /** `setMinutes(date, m)` of date-fns: the minutes change, the hour stays. */
  function WithMinute(t: Instant, minute: int): Instant {
    SetMinutes(t, minute)
  }

  /** The values the form is reset to whenever the dialog opens. */
  function DefaultValues(date: Instant): FormValues {
    FormValues("", "", "",
      Some(WithHour(WithMinute(date, 0), 9)),
      Some(WithHour(WithMinute(date, 30), 9)),
      "appointment", "")
  }

  /** The defaults are 9:00 to 9:30 on the day shown, an appointment with empty texts. */
  lemma DefaultsAreNineToHalfPast(date: Instant)
    ensures var v := DefaultValues(date);
      v.start == Some(At(DayOf(date), 9, 0)) && v.end == Some(At(DayOf(date), 9, 30))
      && v.end.value == v.start.value + DefaultLength
      && v.kind == "appointment" && v.title == "" && v.clientName == "" && v.details == ""
  {
    AtParts(DayOf(date), HourOf(date), 0);
    AtParts(DayOf(date), HourOf(date), 30);
  }

  // ---------------------------------------------------------------------
  // Effects
  // ---------------------------------------------------------------------

  /** The form after the start picker changes: a new start pulls the end to 30 minutes later. */
  function AfterStartChange(v: FormValues, start: Option<Instant>): FormValues {
    if start.Some? then v.(start := start, end := Some(start.value + DefaultLength))
    else v.(start := start)
  }

  /** The form after the type changes, with the type effect applied. */
  function AfterTypeChange(v: FormValues, kind: string): FormValues {
    if kind == "unavailable" then v.(kind := kind, clientName := "Unavailable", details := "")
    else if kind == "appointment" && v.clientName == "Unavailable" then v.(kind := kind, clientName := "")
    else v.(kind := kind)
  }

  /** A chosen start always leaves a 30-minute interval that passes the end-after-start test. */
  lemma StartChangeKeepsOrder(v: FormValues, start: Instant)
    ensures var w := AfterStartChange(v, Some(start));
      w.end.value - w.start.value == DefaultLength && EndAfterStart(w.start, w.end)
      && w.title == v.title && w.resourceId == v.resourceId && w.clientName == v.clientName && w.kind == v.kind
  {
  }

  /**
   * The type effect: a block is always for "Unavailable" with no details; switching
   * back to an appointment clears that placeholder name; other fields are kept.
   */
  lemma TypeChangeRewrites(v: FormValues, kind: string)
    ensures var w := AfterTypeChange(v, kind);
      w.kind == kind && w.start == v.start && w.end == v.end && w.title == v.title && w.resourceId == v.resourceId
      && (kind == "unavailable" ==> w.clientName == "Unavailable" && w.details == "")
      && (kind == "appointment" ==> w.clientName != "Unavailable" && w.details == v.details)
      && (kind == "appointment" && v.clientName != "Unavailable" ==> w == v.(kind := kind))
  {
  }

  /** Applying the type effect twice changes nothing more. */
  lemma TypeChangeIdempotent(v: FormValues, kind: string)
    ensures AfterTypeChange(AfterTypeChange(v, kind), kind) == AfterTypeChange(v, kind)
  {
  }

  // ---------------------------------------------------------------------
  // The checks of handleFormSubmit
  // ---------------------------------------------------------------------

  /** `new Date(date)` with `setHours(t.getHours(), t.getMinutes(), 0, 0)`. */
  function Rebase(date: Instant, t: Instant): Instant {
    SetHours(date, HourOf(t), MinuteOf(t))
  }

  /** The window test as written on the hours and minutes. */
  predicate OutsideWindow(startHour: int, endHour: int, start: Instant, end: Instant) {
    HourOf(start) < startHour || HourOf(end) > endHour || (HourOf(end) == endHour && MinuteOf(end) > 0)
  }

  /** The window check, then the length check, then the data `onSubmit` receives. */
  function CheckSubmission(date: Instant, startHour: int, endHour: int, data: FormValues): Check
    requires data.start.Some? && data.end.Some?
  {
    var start := Rebase(date, data.start.value);
    var end := Rebase(date, data.end.value);
    if OutsideWindow(startHour, endHour, start, end) then Rejected(OutsideWorkingHours)
    else if end - start < MinimumLength then Rejected(TooShort)
    else Forward(NewAppointment(
      data.title,
      data.resourceId,
      if data.kind == "appointment" then data.clientName else "Unavailable",
      start,
      end,
      data.kind,
      data.details))
  }

  /** Rebasing keeps the hour and the minute and lands on the day of `date`. */
  lemma RebaseParts(date: Instant, t: Instant)
    ensures DayOf(Rebase(date, t)) == DayOf(date)
    ensures HourOf(Rebase(date, t)) == HourOf(t) && MinuteOf(Rebase(date, t)) == MinuteOf(t)
    ensures Rebase(date, t) == At(DayOf(date), 0, 0) + MinuteOfDay(t)
  {
    AtParts(DayOf(date), HourOf(t), MinuteOf(t));
    DayBounds(t);
  }

  /**
   * On one day, the hour-and-minute test means: the interval starts no
   * earlier than `startHour:00` and ends no later than `endHour:00`.
   */
  lemma WindowMeaning(day: int, startHour: int, endHour: int, start: Instant, end: Instant)
    requires DayOf(start) == day && DayOf(end) == day
    ensures !OutsideWindow(startHour, endHour, start, end)
        <==> At(day, startHour, 0) <= start && end <= At(day, endHour, 0)
  {
    DayBounds(start);
    DayBounds(end);
  }

  /** The window rule: rejected for the window exactly when the rebased times leave it. */
  lemma WindowRule(date: Instant, startHour: int, endHour: int, data: FormValues)
    requires data.start.Some? && data.end.Some?
    ensures var start := Rebase(date, data.start.value);
      var end := Rebase(date, data.end.value);
      var day := DayOf(date);
      var rejected := CheckSubmission(date, startHour, endHour, data) == Rejected(OutsideWorkingHours);
      rejected <==> !(At(day, startHour, 0) <= start && end <= At(day, endHour, 0))
  {
    RebaseParts(date, data.start.value);
    RebaseParts(date, data.end.value);
    WindowMeaning(DayOf(date), startHour, endHour, Rebase(date, data.start.value), Rebase(date, data.end.value));
  }

  /** The length rule: inside the window, rejected for length exactly when under 15 minutes. */
  lemma LengthRule(date: Instant, startHour: int, endHour: int, data: FormValues)
    requires data.start.Some? && data.end.Some?
    ensures var start := Rebase(date, data.start.value);
      var end := Rebase(date, data.end.value);
      var day := DayOf(date);
      var rejected := CheckSubmission(date, startHour, endHour, data) == Rejected(TooShort);
      rejected <==> At(day, startHour, 0) <= start && end <= At(day, endHour, 0) && end - start < MinimumLength
  {
    WindowRule(date, startHour, endHour, data);
  }

  /**
   * What is forwarded: at least 15 minutes inside the window of the day
   * shown, at the hours and minutes chosen, with the texts of the form, the
   * client "Unavailable" for anything but an appointment.
   */
  lemma Forwarded(date: Instant, startHour: int, endHour: int, data: FormValues)
    requires data.start.Some? && data.end.Some?
    requires CheckSubmission(date, startHour, endHour, data).Forward?
    ensures var a := CheckSubmission(date, startHour, endHour, data).appointment;
      var day := DayOf(date);
      DayOf(a.start) == day && DayOf(a.end) == day
      && At(day, startHour, 0) <= a.start && a.end <= At(day, endHour, 0)
      && a.start + MinimumLength <= a.end
      && HourOf(a.start) == HourOf(data.start.value) && MinuteOf(a.start) == MinuteOf(data.start.value)
      && HourOf(a.end) == HourOf(data.end.value) && MinuteOf(a.end) == MinuteOf(data.end.value)
      && a.title == data.title && a.resourceId == data.resourceId && a.kind == data.kind
      && a.details == data.details
      && a.clientName == (if data.kind == "appointment" then data.clientName else "Unavailable")
  {
    RebaseParts(date, data.start.value);
    RebaseParts(date, data.end.value);
    WindowRule(date, startHour, endHour, data);
  }

  /** Whatever is forwarded is admissible for the day shown. */
  lemma ForwardedIsAdmissible(date: Instant, startHour: int, endHour: int, data: FormValues)
    requires data.start.Some? && data.end.Some?
    requires CheckSubmission(date, startHour, endHour, data).Forward?
    ensures AddAppointmentButton.Admissible(CheckSubmission(date, startHour, endHour, data).appointment, date)
  {
    Forwarded(date, startHour, endHour, data);
  }

  // ---------------------------------------------------------------------
  // The dialog's state
  // ---------------------------------------------------------------------

  /**
   * The mounted dialog.  It shows the day the application has selected, and
   * its `onSubmit` is the button's `handleAddAppointment`.
   */
  class AppointmentModal {
    var values: FormValues
    /** `errorMessage`; `None` is the empty message. */
    var error: Option<Rule>
    const button: AddAppointmentButton.Button
    const startHour: int
    const endHour: int

    /** Opening resets the form to its defaults and clears the message. */
    constructor (button: AddAppointmentButton.Button, startHour: int, endHour: int)
      ensures this.button == button && this.startHour == startHour && this.endHour == endHour
      ensures values == DefaultValues(button.app.selectedDate) && error == None
    {
      this.button := button;
      this.startHour := startHour;
      this.endHour := endHour;
      values := DefaultValues(button.app.selectedDate);
      error := None;
    }

    method ChangeStart(start: Option<Instant>)
      modifies this
      ensures values == AfterStartChange(old(values), start) && error == old(error)
    {
      values := values.(start := start);
      if start.Some? {
        values := values.(end := Some(start.value + DefaultLength));
      }
    }

    method ChangeType(kind: string)
      modifies this
      ensures values == AfterTypeChange(old(values), kind) && error == old(error)
    {
      values := values.(kind := kind);
      if kind == "unavailable" {
        values := values.(clientName := "Unavailable", details := "");
      } else if kind == "appointment" && values.clientName == "Unavailable" {
        values := values.(clientName := "");
      }
    }

    /** The cancel button: the dialog's `onClose` closes it through the button. */
    method Cancel()
      modifies button
      ensures !button.modalOpen
    {
      button.HandleCloseModal();
    }

    /**
     * What `handleFormSubmit(data)` does, from the state before it to the
     * state after.  A window or length failure sets its message and changes
     * nothing else.  A forwarded appointment goes to the button's gate, which
     * checks it against the appointments shown.  If the slot is free, it is
     * appended under the next generated id and both dialogs are closed.
     * Otherwise the gate's message is shown and nothing else changes.  The
     * form values and the selected date stay as they were.
     */
    twostate predicate SubmitEffect(data: FormValues)
      requires data.start.Some? && data.end.Some?
      reads this, button, button.app
    {
      var check := CheckSubmission(old(button.app.selectedDate), startHour, endHour, data);
      && values == old(values)
      && button.app.selectedDate == old(button.app.selectedDate)
      && match check
        case Rejected(rule) =>
          && error == Some(rule)
          && button.modalOpen == old(button.modalOpen)
          && button.app.appointments == old(button.app.appointments)
          && button.app.isAddModalOpen == old(button.app.isAddModalOpen)
        case Forward(a) =>
          if DayView.IsSlotAvailable(old(button.app.FilteredAppointments()), a.resourceId, a.start, a.end) then
            && error == old(error)
            && !button.modalOpen
            && button.app.appointments == old(button.app.appointments) + [Stamp(a, GeneratedId(|old(button.app.appointments)| + 1))]
            && !button.app.isAddModalOpen
          else
            && error == Some(SlotTaken(AddAppointmentButton.SlotTakenMessage))
            && button.modalOpen == old(button.modalOpen)
            && button.app.appointments == old(button.app.appointments)
            && button.app.isAddModalOpen == old(button.app.isAddModalOpen)
    }

    /**
     * `handleFormSubmit(data)`: the steps of `SubmitEffect`, as the dialog
     * takes them; the schedule invariant of the application is kept.
     */
    method HandleFormSubmit(data: FormValues)
      requires data.start.Some? && data.end.Some?
      modifies this, button, button.app
      ensures SubmitEffect(data)
      ensures old(button.app.Valid()) ==> button.app.Valid()
    {
      var date := button.app.selectedDate;
      var startDateTime := SetHours(date, HourOf(data.start.value), MinuteOf(data.start.value));
      var endDateTime := SetHours(date, HourOf(data.end.value), MinuteOf(data.end.value));
      var startHourValue := HourOf(startDateTime);
      var endHourValue := HourOf(endDateTime);
      var endMinValue := MinuteOf(endDateTime);
      if startHourValue < startHour || endHourValue > endHour || (endHourValue == endHour && endMinValue > 0) {
        error := Some(OutsideWorkingHours);
        return;
      }
      var durationInMinutes := endDateTime - startDateTime;
      if durationInMinutes < MinimumLength {
        error := Some(TooShort);
        return;
      }
      var appointmentData := NewAppointment(
        data.title,
        data.resourceId,
        if data.kind == "appointment" then data.clientName else "Unavailable",
        startDateTime,
        endDateTime,
        data.kind,
        data.details);
      ForwardedIsAdmissible(date, startHour, endHour, data);
      var result := button.HandleAddAppointment(appointmentData);
      if !result.success {
        error := Some(SlotTaken(result.message.value));
      }
    }

    /**
     * The form's submit: `handleSubmit(handleFormSubmit)` runs the handler
     * only when the schema accepts the values; otherwise nothing changes here.
     */
    method Submit()
      modifies this, button, button.app
      ensures !SchemaValid(old(values)) ==> error == old(error) && values == old(values) && unchanged(button, button.app)
      ensures SchemaValid(old(values)) ==> SubmitEffect(old(values))
      ensures old(button.app.Valid()) ==> button.app.Valid()
    {
      if SchemaValid(values) {
        HandleFormSubmit(values);
      }
    }
  }
}
