# Resource Scheduler — the appointment core, in Dafny

Resource Scheduler is a one-day calendar for a salon. A column per stylist
(a *resource*) shows that day's appointments and unavailable blocks between
9:00 and 17:00. An "Add Appointment" button opens a form. The form checks the
working window and a minimum length, the button refuses a slot that conflicts
with the stylist's appointments on the day shown, and the application appends
an accepted booking under a generated id `appointment-N`. A mock-data module
seeds four stylists and ten bookings for today, and offers `findAvailableSlots`,
which lists every free grid slot of every stylist.

This project models that logic and proves what it promises:

- `Clock`. Time is a whole number of minutes (`Instant`). `setHours`,
  `setMinutes`, `getHours` and `getMinutes` act on it by day, hour and minute.
- `Overlap`. The three-case conflict test that the slot finder and the day view
  share, related to half-open interval overlap.
- `Domain`. Resources, appointments and the per-resource filter.
- `MockData`. The seed data, and `findAvailableSlots` as three loop methods
  proved equal to a recursive specification. Lemmas give that specification's
  exact membership, its order, its count and how it behaves at the window edge.
- `App`. The application state as a class. It covers the same-day filter, the
  appended booking with its generated id, and the schedule invariant: bookings
  lie within one day, a stylist's bookings never overlap, and ids are distinct.
  The seed satisfies that invariant.
- `AddAppointmentButton`. The admission gate as a class with the `modalOpen`
  flag. The lemma beside it shows that what the gate admits keeps the invariant.
- `AddAppointmentModal`. The form as a class: its schema, its defaults and the
  effects of changing the start or the type. Submission runs the window check,
  then the length check, then the forward to the gate.
- `DayView`, `AppointmentItem`, `TimeColumn` and `ResourceHeader`. The hour
  list, the current-time indicator, block geometry in rem (exact reals), the
  12-hour clock labels with their parsers, the subdivision ticks and name
  initials.
- `TwelveHourClock`, `Decimal`, `Wrappers`, `Sequences` and `SchedulerConfig`
  are shared helpers and constants.

The browser, the clock and React state are not modelled. A component's state
is a class field. "Now" and "today" are parameters.

## Model

| member | source | states |
|---|---|---|
| Overlap.ThreeCaseOverlap | src/components/DayView.jsx:97-100 | the conflict test of a candidate against one appointment: the candidate's start inside it, its end inside it, or the candidate covering it (the same test as mockData.js:233-235) |
| Overlap.ThreeCaseIsHalfOpen | src/components/DayView.jsx:96-101 | for non-empty intervals the three-case conflict test is exactly half-open overlap |
| Overlap.ThreeCaseExactly | mockData.js:231-237 | for ordered intervals the test is half-open overlap, or an empty interval touching or inside the other |
| Overlap.EmptyCandidateAtEnd | mockData.js:231-237 | an empty interval at an appointment's end conflicts under the three-case test, but not under half-open overlap |
| Overlap.TouchingIsFree | src/components/DayView.jsx:96-101 | back-to-back non-empty intervals do not conflict, in either order |
| Overlap.ContainmentClashes | src/components/DayView.jsx:96-101 | an interval covering an appointment conflicts with it, in either order |
| Overlap.ThreeCaseSymmetric | src/components/DayView.jsx:96-101 | for non-empty intervals the test is symmetric |
| Clock.HourOf | src/components/DayView.jsx:48 | `getHours()`: the hour of the instant's day, 0..23 |
| Clock.MinuteOf | src/components/DayView.jsx:55 | `getMinutes()`: the minute of the hour, 0..59 |
| Clock.SetHours | mockData.js:26 | `setHours(h, m, 0, 0)`: the same day at `h:m` |
| Clock.SetMinutes | mockData.js:228 | `setMinutes(m)`: the same day and hour at minute `m`, carried over into the hour when `m` reaches 60 |
| Clock.SameDay | src/App.jsx:20-22 | equal date, month and year: the same calendar day |
| Clock.DayBounds | mockData.js:24-27 | an instant lies in its own day and is rebuilt from its day, hour and minute |
| Clock.AtParts | mockData.js:24-27 | `setHours(h, m)` within a day yields that day, hour and minute |
| Clock.SetMinutesAdvances | mockData.js:227-228 | `setMinutes(getMinutes() + d)` moves an instant exactly `d` minutes on |
| Decimal.NatToString | src/App.jsx:31 | `n.toString()` for the id counter (also `minutes.toString()` at src/components/DayView.jsx:58 and src/components/AppointmentItem.jsx:29): at least one character, digits only, one digit exactly below 10, at most two below 100, and a leading `0` only for zero |
| Decimal.PadStart | src/components/DayView.jsx:58 | `padStart(2, "0")` (also src/components/AppointmentItem.jsx:29): the result has length `max(|s|, width)`, ends with `s`, is filled with the fill character before it, and stays all digits when `s` and the fill are digits |
| Decimal.ParseNatToString | src/App.jsx:31 | the decimal text of a number reads back as the number |
| Decimal.NatToStringInjective | src/App.jsx:31 | different numbers have different decimal text |
| Decimal.PaddedRoundTrip | src/components/DayView.jsx:58 | a zero-padded decimal reads back as the number |
| Domain.ForResource | src/components/DayView.jsx:92-94 | `appointments.filter(appt => appt.resourceId === resourceId)`; no longer than its input |
| Domain.AnyOverlap | src/components/DayView.jsx:96-101 | `some` over the three-case test |
| Domain.ForResourceMembers | src/components/DayView.jsx:92-94 | the per-resource filter keeps exactly the appointments with that resource id |
| Domain.ForResourceAppend | src/components/DayView.jsx:92-94 | filtering distributes over concatenation, so order is kept |
| Domain.AnyOverlapExists | src/components/DayView.jsx:96-101 | `some` is true exactly when some appointment conflicts |
| MockData.MockResources | mockData.js:2-17 | the four stylists with their ids, names, specialties and colours |
| MockData.Today | mockData.js:20-21 | midnight of the day the data is created: the same day, minute 0 |
| MockData.CreateTimeForToday | mockData.js:24-28 | `hours:minutes` on that day |
| MockData.GenerateAppointments | mockData.js:88-198 | the ten seed bookings and blocks, field by field |
| MockData.SlotsFromMinute | mockData.js:223-247 | specification of the minute loop: the free candidates of one hour from `minute` on |
| MockData.SlotsFromHour | mockData.js:222-248 | specification of the hour loop: those of the hours from `hour` up to 16 |
| MockData.ResourceSlots | mockData.js:217-248 | specification of one `forEach` callback: the resource's own appointments, then the hour loop |
| MockData.AvailableSlots | mockData.js:216-249 | specification of the whole result: the resources' slot lists, in resource order |
| MockData.FindAvailableSlots | mockData.js:205-252 | the outer `forEach` loop returns exactly the specified slot list; the duration defaults to 15 |
| MockData.PushResourceSlots | mockData.js:216-249 | the callback for one resource appends exactly that resource's slots |
| MockData.PushHourSlots | mockData.js:223-247 | the minute loop appends exactly the free candidates of one hour |
| MockData.SlotsFromMinuteStep | mockData.js:224-246 | one candidate: start at `hour:minute`, end `d` minutes later, pushed exactly when nothing conflicts |
| MockData.SlotsFromMinuteMembers | mockData.js:223-246 | a slot of the minute loop is exactly a free, `d`-aligned candidate in that hour from `minute` on |
| MockData.SlotsFromHourMembers | mockData.js:222-246 | a slot of the hour loop is exactly a free, aligned candidate from `hour` up to 16 |
| MockData.ResourceSlotsExactly | mockData.js:216-249 | completeness and soundness: a resource's slots are exactly the free grid candidates (9..16, minute k·d, end = start + d, copied id and name, no conflict) |
| MockData.FreeSlotReturned | mockData.js:239-246 | every free grid candidate is returned |
| MockData.BusySlotNotReturned | mockData.js:231-239 | no returned slot conflicts with an appointment of its resource |
| MockData.AvailableSlotsExactly | mockData.js:216-251 | a returned slot is exactly a free candidate of some resource in the list |
| MockData.AvailableSlotsAppend | mockData.js:216 | slots are grouped by resource, in input order |
| MockData.ResourceSlotsIgnoreOthers | mockData.js:217-219 | appointments of other resources do not change a resource's slots |
| MockData.SlotsFromMinuteIncreasing | mockData.js:223 | within an hour, slot starts strictly increase |
| MockData.SlotsFromHourIncreasing | mockData.js:222-223 | across the hours, slot starts strictly increase |
| MockData.HourBeforeLaterHours | mockData.js:222-223 | every slot of an hour starts before every slot of later hours |
| MockData.ResourceSlotsIncreasing | mockData.js:222-248 | a resource's slot starts strictly increase |
| MockData.SlotsFromMinuteCount | mockData.js:223 | with no appointments the minute loop yields ⌈(60 − minute)/d⌉ slots |
| MockData.SlotsFromHourCount | mockData.js:222-223 | with no appointments each remaining hour yields ⌈60/d⌉ slots |
| MockData.FreeResourceSlotCount | mockData.js:212-223 | a resource without appointments gets 8·⌈60/d⌉ slots |
| MockData.FreeResourceSlotCountDividing | mockData.js:212-223 | when d divides 60 that is 8·60/d slots, covering exactly the 480 minutes |
| MockData.DividingCandidates | mockData.js:223 | when d divides 60 an hour has 60/d candidates |
| MockData.SlotsEndByWindowClose | mockData.js:212-228 | when d divides 60 every slot lies between 9:00 and 17:00 |
| MockData.LastSlotOverruns | mockData.js:222-228 | when d does not divide 60 the last slot of hour 16 is returned and ends after 17:00 |
| MockData.GridSlotOffered | mockData.js:222-246 | for a resource with no appointments, every aligned candidate of hour 16 is returned |
| MockData.BookingScenarioOffered | mockData.js:231-239 | a 15-minute slot ending where a booking starts is offered |
| MockData.BookingScenarioRefused | mockData.js:231-239 | slots inside a booking, or straddling its start, are not offered |
| App.Scheduler.FilteredAppointments | src/App.jsx:55 | the list the day view receives: the state's appointments filtered by the selected date |
| App.FilteredMembers | src/App.jsx:16-25 | the filter keeps exactly the appointments starting on the selected calendar day |
| App.GetFilteredAppointments | src/App.jsx:16-25 | the filtered list is no longer than the input |
| App.FilteredAppend | src/App.jsx:16-25 | the filter distributes over concatenation, so order is kept |
| App.FilterIgnoresTimeOfDay | src/App.jsx:19-23 | only the day of the selected date matters, not its time |
| App.GeneratedId | src/App.jsx:31 | `appointment-${n}` |
| App.Stamp | src/App.jsx:30-33 | the stored record: the generated id with the submitted fields spread after it |
| App.GeneratedIdRoundTrip | src/App.jsx:31 | `appointment-N` reads back as N |
| App.GeneratedIdInjective | src/App.jsx:31 | two generated ids are equal exactly when their numbers are |
| App.AppendKeepsInvariant | src/App.jsx:28-34 | appending a well-formed, non-conflicting booking under id `appointment-(n+1)` keeps the schedule invariant |
| App.DifferentDaysDisjoint | src/App.jsx:16-25 | bookings on different days never overlap |
| App.Scheduler.constructor | src/App.jsx:10-13 | the initial state is the current date, a closed modal, the seed resources and the seed appointments of the day the data was loaded, and it satisfies the invariant |
| App.Scheduler.SetSelectedDate | src/App.jsx:10 | changes only the selected date |
| App.Scheduler.HandleAddAppointment | src/App.jsx:27-36 | appends one booking stamped `appointment-(old length + 1)` with the submitted fields, keeps earlier ones, and closes the modal |
| App.SeedSatisfiesInvariant | mockData.js:88-198 | the seed list satisfies the schedule invariant |
| App.SeedTimes | mockData.js:88-198 | the ten seed bookings have the listed start and end times of today |
| App.SeedWithinWindow | mockData.js:88-198 | every seed booking ends after it starts, lies on today and lies within 9:00–17:00 |
| App.SeedNoConflicts | mockData.js:88-198 | seed bookings of one stylist do not overlap |
| App.SeedIds | mockData.js:88-198 | the seed ids are distinct and none has the generated form, so generated ids never clash with them |
| App.SeedResources | mockData.js:88-198 | every seed booking names one of the four stylists |
| AddAppointmentButton.Button.constructor | src/components/AddAppointmentButton.jsx:13 | the modal starts closed |
| AddAppointmentButton.Button.HandleOpenModal | src/components/AddAppointmentButton.jsx:15 | opening sets `modalOpen` and changes nothing else |
| AddAppointmentButton.Button.HandleCloseModal | src/components/AddAppointmentButton.jsx:16 | closing clears `modalOpen` and changes nothing else |
| AddAppointmentButton.Button.HandleAddAppointment | src/components/AddAppointmentButton.jsx:18-38 | a conflicting slot yields failure with the message and changes nothing; a free slot appends the unchanged data once, closes the modal and yields success; for a non-empty booking on the shown day, the schedule invariant is kept |
| AddAppointmentButton.AdmissionPreservesInvariant | src/components/AddAppointmentButton.jsx:18-37 | a booking on the shown day that passes the gate keeps the schedule invariant |
| AddAppointmentButton.ConflictRefused | src/components/AddAppointmentButton.jsx:19-31 | a booking overlapping a shown appointment of its stylist is refused |
| AddAppointmentModal.EndAfterStart | src/components/AddAppointmentModal.jsx:34-40 | the `is-after-start` test: when both times are present, the end is strictly after the start |
| AddAppointmentModal.SchemaValid | src/components/AddAppointmentModal.jsx:26-44 | the schema: the required texts non-empty, both times present, and the end strictly after the start, so a valid form describes a non-empty interval |
| AddAppointmentModal.WithHour | src/components/AddAppointmentModal.jsx:70-71 | date-fns `setHours`: the hour changes, the minute stays |
| AddAppointmentModal.WithMinute | src/components/AddAppointmentModal.jsx:70-71 | date-fns `setMinutes`: the minute changes, the hour stays |
| AddAppointmentModal.DefaultValues | src/components/AddAppointmentModal.jsx:66-74 | the values the form starts from and is reset to |
| AddAppointmentModal.DefaultsAreNineToHalfPast | src/components/AddAppointmentModal.jsx:66-74 | the defaults are 9:00–9:30 on the shown day, type "appointment", empty texts |
| AddAppointmentModal.AfterStartChange | src/components/AddAppointmentModal.jsx:80-84 | a new start, and when it is present the end 30 minutes after it |
| AddAppointmentModal.AfterTypeChange | src/components/AddAppointmentModal.jsx:86-96 | a new type, with the client and details rewritten as the type effect does |
| AddAppointmentModal.StartChangeKeepsOrder | src/components/AddAppointmentModal.jsx:80-84 | choosing a start sets the end 30 minutes later, which passes the end-after-start test; other fields stay |
| AddAppointmentModal.TypeChangeRewrites | src/components/AddAppointmentModal.jsx:86-96 | "unavailable" sets the client to "Unavailable" and clears details; "appointment" clears a left-over "Unavailable"; times stay |
| AddAppointmentModal.TypeChangeIdempotent | src/components/AddAppointmentModal.jsx:86-96 | applying the type effect twice is applying it once |
| AddAppointmentModal.Rebase | src/components/AddAppointmentModal.jsx:114-123 | `new Date(date)` set to the picked hour and minute, seconds zeroed |
| AddAppointmentModal.CheckSubmission | src/components/AddAppointmentModal.jsx:113-154 | the window check, then the length check, then the data handed on |
| AddAppointmentModal.MinimumIsConfigured | src/config/schedulerConfig.js:34 | the dialog's literal 15-minute minimum equals the configured `minAppointmentDuration` |
| AddAppointmentModal.RebaseParts | src/components/AddAppointmentModal.jsx:114-123 | rebasing keeps the hour and minute and moves the time onto the shown day |
| AddAppointmentModal.OutsideWindow | src/components/AddAppointmentModal.jsx:125-133 | the working-hours test as written: the start hour before `startHour`, or the end hour after `endHour`, or the end at `endHour` with minutes past zero; `WindowMeaning` gives its meaning |
| AddAppointmentModal.WindowMeaning | src/components/AddAppointmentModal.jsx:129-133 | on one day, the hour and minute test accepts exactly the intervals within `startHour:00`–`endHour:00` |
| AddAppointmentModal.WindowRule | src/components/AddAppointmentModal.jsx:125-138 | a submission is refused with the window rule exactly when the rebased interval leaves the working window |
| AddAppointmentModal.LengthRule | src/components/AddAppointmentModal.jsx:140-144 | a submission is refused as too short exactly when it passes the window and lasts under 15 minutes |
| AddAppointmentModal.Forwarded | src/components/AddAppointmentModal.jsx:146-156 | what is forwarded is rebased, in the window, at least 15 minutes long, with "Unavailable" as client unless the type is "appointment", and other fields copied |
| AddAppointmentModal.ForwardedIsAdmissible | src/components/AddAppointmentModal.jsx:113-156 | what is forwarded is non-empty and on the shown day, so the gate's admission keeps the invariant |
| AddAppointmentModal.AppointmentModal.constructor | src/components/AddAppointmentModal.jsx:98-111 | opening resets the form to the defaults and clears the message |
| AddAppointmentModal.AppointmentModal.ChangeStart | src/components/AddAppointmentModal.jsx:80-84 | the start effect is applied to the form |
| AddAppointmentModal.AppointmentModal.ChangeType | src/components/AddAppointmentModal.jsx:86-96 | the type effect is applied to the form |
| AddAppointmentModal.AppointmentModal.Cancel | src/components/AddAppointmentModal.jsx:167 | closing the dialog closes the button's modal |
| AddAppointmentModal.AppointmentModal.SubmitEffect | src/components/AddAppointmentModal.jsx:113-162 | the outcome of a submission: a window or length refusal sets its rule and changes nothing else; a forwarded booking is appended and closes both dialogs when the gate admits it, and otherwise shows the gate's message and changes nothing else |
| AddAppointmentModal.AppointmentModal.HandleFormSubmit | src/components/AddAppointmentModal.jsx:113-162 | window, then length, then the gate, with exactly the outcome `SubmitEffect` describes; the invariant is kept |
| AddAppointmentModal.AppointmentModal.Submit | src/components/AddAppointmentModal.jsx:189 | values the schema refuses change nothing; values it accepts get the full `handleFormSubmit` outcome; the invariant is kept |
| DayView.ConfiguredGrid | src/config/schedulerConfig.js:5-8 | the configured window is the slot finder's 9:00–17:00, 480 minutes long, and the configured 15-minute grid draws 3 ticks an hour |
| DayView.Hours | src/components/DayView.jsx:39-44 | the hours are startHour..endHour inclusive, endHour − startHour + 1 of them, spanning `totalMinutes` |
| DayView.TotalMinutes | src/components/DayView.jsx:44 | the window length is the minutes between `startHour:00` and `endHour:00` |
| DayView.IsCurrentTimeVisible | src/components/DayView.jsx:46-50 | the hour of a fresh reading of the clock lies in [startHour, endHour) |
| DayView.CurrentTimeVisibleWindow | src/components/DayView.jsx:46-50 | the indicator shows exactly when the time of day is in [startHour:00, endHour:00) |
| DayView.GridlineTop | src/components/DayView.jsx:197 | the gridline of the hour at position `hourIndex` lies `hourIndex` hour heights down |
| DayView.IndicatorTop | src/components/DayView.jsx:224-229 | the indicator's top, from the timer's `currentTime` |
| DayView.FormatCurrentTime | src/components/DayView.jsx:52-59 | the label of `currentTime` reads back as its hour and minute |
| DayView.IndicatorOnGridline | src/components/DayView.jsx:197-229 | on the hour, the indicator lies on that hour's gridline |
| DayView.IndicatorInHourRow | src/components/DayView.jsx:197-229 | otherwise it lies within its hour's row |
| DayView.IndicatorVisibleOnGrid | src/components/DayView.jsx:219-229 | when the fresh reading and `currentTime` share the hour, the indicator is visible exactly when it falls between the first and the last gridline |
| DayView.StaleIndicatorAboveGrid | src/components/DayView.jsx:219-229 | when `currentTime` still lies in an hour before the window while the fresh reading is in it, the indicator is drawn above the first gridline |
| DayView.StaleIndicatorHidden | src/components/DayView.jsx:219-229 | when the fresh reading has left the window while `currentTime` is still in it, the indicator is hidden although its position is on the grid |
| DayView.IndicatorMatchesAppointmentTop | src/components/DayView.jsx:224-229 | it sits where a block starting now would |
| DayView.IsSlotAvailable | src/components/DayView.jsx:91-102 | the resource's appointments, then no conflict under the three-case test |
| DayView.SlotAvailableIff | src/components/DayView.jsx:91-102 | a slot is available exactly when no appointment of that resource conflicts |
| DayView.SlotAvailableHalfOpen | src/components/DayView.jsx:91-102 | for non-empty intervals that is half-open disjointness |
| DayView.BackToBackAvailable | src/components/DayView.jsx:96-101 | a slot touching the resource's appointments end to end is available |
| DayView.SlotAvailableIgnoresOthers | src/components/DayView.jsx:92-94 | appointments of other resources never change the answer |
| DayView.OfferedSlotIsAvailable | src/components/DayView.jsx:91-102 | every slot the slot finder offers passes this test |
| DayView.TickAtSlotStart | src/components/TimeColumn.jsx:33-38 | tick i of an hour row lies where a block starting (i + 1)·d minutes into the hour has its top |
| TwelveHourClock.Period | src/components/DayView.jsx:56 | PM from noon, AM before |
| TwelveHourClock.DisplayHour | src/components/DayView.jsx:57 | the shown hour is in 1..12 and agrees with the hour modulo 12 |
| TwelveHourClock.FromTwelveHour | src/components/DayView.jsx:56-57 | a 12-hour reading names an hour of the day, PM exactly from noon |
| TwelveHourClock.TwelveHourRoundTrip | src/components/DayView.jsx:56-57 | the shown hour and the period recover the hour of the day |
| TwelveHourClock.ClockLabel | src/components/DayView.jsx:56-58 | the displayed hour, a colon, the minute padded to two digits, a space and the period; 7 or 8 characters |
| TwelveHourClock.TimeLabel | src/components/AppointmentItem.jsx:24-30 | `formatTime(date)`: the label of the instant's hour and minute |
| TwelveHourClock.ClockLabelRoundTrip | src/components/AppointmentItem.jsx:24-30 | the label `h:mm AM/PM` reads back as its hour and minute |
| TwelveHourClock.ClockLabelInjective | src/components/AppointmentItem.jsx:24-30 | different times of day have different labels |
| TwelveHourClock.TimeLabelRoundTrip | src/components/DayView.jsx:52-59 | the current-time label reads back as the instant's hour and minute: hour 1..12, two minute digits, AM before noon |
| TwelveHourClock.TimeLabelSameMinute | src/components/DayView.jsx:52-59 | two instants share a label exactly when they share the minute of the day |
| AppointmentItem.MinutesFromDayStart | src/components/AppointmentItem.jsx:16-18 | minutes from `startHour:00` to the time of day |
| AppointmentItem.Top | src/components/AppointmentItem.jsx:21 | the top is the minutes after `startHour:00` over 15 (4 rem an hour) |
| AppointmentItem.Height | src/components/AppointmentItem.jsx:16-22 | the height is the minutes of the day between end and start over 15 |
| AppointmentItem.TopZeroAtWindowStart | src/components/AppointmentItem.jsx:21 | the top is 0 exactly for a block starting at `startHour:00` |
| AppointmentItem.HeightIgnoresWindow | src/components/AppointmentItem.jsx:16-22 | the height does not depend on `startHour` |
| AppointmentItem.TopPlusHeight | src/components/AppointmentItem.jsx:16-22 | top plus height is the top of the end time |
| AppointmentItem.HeightPositive | src/components/AppointmentItem.jsx:19-22 | the height is positive exactly when the end is later in the day than the start |
| AppointmentItem.HeightOfSameDay | src/components/AppointmentItem.jsx:16-22 | on one day the height is the duration over 15 |
| AppointmentItem.ShiftByHour | src/components/AppointmentItem.jsx:21-22 | moving a block one hour later adds 4 rem to its top and keeps its height |
| AppointmentItem.DoubleDuration | src/components/AppointmentItem.jsx:22 | doubling the duration doubles the height |
| AppointmentItem.ExpandedHeight | src/components/AppointmentItem.jsx:138-140 | the hover height is the larger of the height and 6 rem |
| AppointmentItem.StyleFor | src/components/AppointmentItem.jsx:32-43 | "unavailable" takes the gray style, any other type the configured appointment colours |
| AppointmentItem.StylesDistinguishKinds | src/components/AppointmentItem.jsx:32-43 | the gray style is chosen exactly for "unavailable" |
| TimeColumn.HourLabel | src/components/TimeColumn.jsx:4-8 | the displayed hour, `:00`, a line break and the period |
| TimeColumn.HourLabelRoundTrip | src/components/TimeColumn.jsx:4-8 | the label `h:00\nAM/PM` reads back as the hour of the day |
| TimeColumn.HourLabelPeriod | src/components/TimeColumn.jsx:5 | the period is PM exactly from noon |
| TimeColumn.TickCount | src/components/TimeColumn.jsx:31-33 | no ticks for d ≥ 60; otherwise the largest n with (n + 1)·d ≤ 60, which is 60/d − 1 when d divides 60 |
| TimeColumn.TickTop | src/components/TimeColumn.jsx:38 | tick `i` lies at ((i + 1)·d / 60)·4 rem |
| TimeColumn.Ticks | src/components/TimeColumn.jsx:33-38 | one position per tick |
| TimeColumn.TicksInsideRow | src/components/TimeColumn.jsx:21-38 | tick positions strictly increase and lie strictly inside the 4 rem row |
| ResourceHeader.GetInitials | src/components/ResourceHeader.jsx:5-11 | split at spaces, first characters of the parts, joined, upper-cased |
| ResourceHeader.Split | src/components/ResourceHeader.jsx:7 | splitting yields at least one part |
| ResourceHeader.JoinSplit | src/components/ResourceHeader.jsx:7 | joining the parts with spaces gives the name back |
| ResourceHeader.SplitPartsHaveNoSpace | src/components/ResourceHeader.jsx:7 | no part contains a space |
| ResourceHeader.SplitAtSpace | src/components/ResourceHeader.jsx:7 | splitting `a + " " + b` is splitting `a`, then `b` |
| ResourceHeader.FirstChars | src/components/ResourceHeader.jsx:8-9 | `part[0]` of each part, joined; an empty part's `undefined` joins as nothing |
| ResourceHeader.Join | src/components/ResourceHeader.jsx:7 | the parts joined with single spaces, the inverse of splitting |
| ResourceHeader.NonEmpty | src/components/ResourceHeader.jsx:8 | the non-empty parts, in order |
| ResourceHeader.Upper | src/components/ResourceHeader.jsx:10 | a lowercase ASCII letter becomes its capital; other characters stay |
| ResourceHeader.UpperString | src/components/ResourceHeader.jsx:10 | upper-casing acts character by character |
| ResourceHeader.InitialsOfParts | src/components/ResourceHeader.jsx:6-10 | the initials number the non-empty parts; the i-th is the capital of the i-th non-empty part's first character |
| ResourceHeader.InitialsAreUpper | src/components/ResourceHeader.jsx:10 | the initials contain no lowercase letter |
| ResourceHeader.SingleWordInitial | src/components/ResourceHeader.jsx:6-10 | a name without spaces yields one initial |
| ResourceHeader.InitialsAtSpace | src/components/ResourceHeader.jsx:6-10 | the initials of `a + " " + b` are those of `a` followed by those of `b` |

## Left out

- Rendering is not modelled: JSX, MUI, framer-motion, Tailwind classes and hover animations. The hover flag `isExpanded` is also left out; only the height it selects is modelled.
- Timers and the DOM are not modelled: the one-minute clock tick, `setTimeout` and the scrolling to the current time (src/components/DayView.jsx:24-37, 61-73). The two clock readings are parameters. One is the fresh `new Date()` of `isCurrentTimeVisible`; the other is the `currentTime` state that places the indicator and its label.
- DayView.IndicatorVisibleOnGrid: holds only when the two readings share the hour. Around the window's edges the timer's `currentTime` can lag the fresh reading by up to a minute. Then the indicator is drawn off the grid (`DayView.StaleIndicatorAboveGrid`) or hidden while on it (`DayView.StaleIndicatorHidden`).
- Day navigation (`handlePreviousDay`, `handleNextDay`, `handleTodayClick`) is left out; `App.Scheduler.SetSelectedDate` is what it calls.
- Time zones and daylight saving are not modelled. A day is 1440 minutes.
- Seconds and milliseconds are not modelled; an instant is a whole minute. The slot finder, the seed data and `handleFormSubmit` zero them. The form's defaults and the automatic end do not: date-fns `setHours`, `setMinutes` and `addMinutes` keep the seconds of `new Date(date)`, and `date` is the selected date, first `new Date()`. `DefaultValues` and `AfterStartChange` keep only the minute. Both defaults, and a start with its automatic end, carry the same seconds, so the schema's `isAfter` outcome is the same as on whole minutes. Submission drops the seconds by rebasing.
- Geometry uses exact reals, not IEEE floating point.
- yup, react-hook-form and the resolver are not modelled. The schema is a predicate, and the required-field messages are left out.
- Message texts are modelled only as the rule that failed, except the gate's message.
- AddAppointmentModal.AppointmentModal.HandleFormSubmit: the window message interpolates the configured hours; the model keeps only the rule.
- The second modal instance in src/App.jsx:62-68 never opens, because its props do not match the modal's, so it is not modelled. `isAddModalOpen` is modelled as a field that only `HandleAddAppointment` clears.
- `maxAppointmentDuration` is not modelled; nothing enforces it.
- The mock clients and appointment types (mockData.js:31-85) are unused data and are left out.
- The `totalMinutes` and `isWeekView` props of the appointment block are left out; they do not affect layout.
- `toUpperCase` is modelled on ASCII letters only; other characters are kept as they are. JavaScript's `part[0]` is a UTF-16 code unit, while a Dafny `char` is a whole character, so the first half of a surrogate pair is not modelled.
- The time picker's 5-minute step is a widget setting and is not modelled. Any hour and minute can be submitted.
- Editing the text fields is not modelled as operations; `Submit` takes whatever the form holds.
- AddAppointmentModal.AppointmentModal.HandleFormSubmit: the `result &&` presence test is not modelled, because the gate always returns a result.
- `findAvailableSlots` is modelled as three methods, one per loop (`forEach`, hours, minutes). Each `Date` copy is a value.
- MockData.FindAvailableSlots: requires a positive whole duration. For a duration of 0 or less, `minute += duration` never reaches 60 and the source does not return. Fractional durations are not modelled.
- The modal's `date` is the selected date that the day view passes down; the model reads it from the application state.
- The gray style of unavailable blocks is hard-coded in the component (`border-gray-300`). The configuration's `border-gray-400` is not used, and the model follows the component.
- TimeColumn.TickCount and TimeColumn.Ticks: require a duration other than 0. For 0, `60 / 0 - 1` is `Infinity`, and `Array.from` throws on that length.
- The tick count uses JavaScript's truncation of the array length `60/d − 1`. For d below 60 that does not divide 60, it is the largest n with (n + 1)·d ≤ 60.
- The modal's 15-minute minimum is a literal in the component. It equals the configuration's `minAppointmentDuration`, and `AddAppointmentModal.MinimumIsConfigured` states that.
