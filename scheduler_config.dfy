/** The numeric settings of the scheduler configuration object. */
module SchedulerConfig {

  /** First hour of the working window shown in the day view. */
  const StartHour := 9
  /** Hour at which the working window ends (the grid also labels this hour). */
  const EndHour := 17
  /** Granularity of the time grid in minutes. */
  const TimeSlotDuration := 15
  /** Height of one hour row, in rem. */
  const HourHeight := 4
  /** Shortest appointment the configuration allows, in minutes. */
  const MinAppointmentDuration := 15
}
