/**
 * Days, times of day and the weekly shift template.
 *
 * Days are numbered consecutively with day 0 a Sunday, so the weekday of day `d`
 * is `d % 7` in the Sunday-first order of `WeekDays`. Every day has 1440
 * minutes (no daylight-saving changes). Instants are measured from midnight of
 * day 0 in the branch's local time.
 */
module Calendar {

  const MinutesPerDay: int := 1440
  const MsPerMinute: int := 60000
  const MsPerHour: int := 3600000
  const MsPerDay: int := 86400000

  /** The `WeekDays` table: the names `format(date, "EEEE")` produces, Sunday first. */
  const WeekDays: seq<string> :=
    ["Sunday", "Monday", "Tuesday", "Wednesday", "Thursday", "Friday", "Saturday"]

  /** `format(date, "EEEE")` for a date on day `day`. */
  function WeekdayName(day: int): string
  {
    WeekDays[day % 7]
  }

  /** The calendar day of an instant given in milliseconds (`startOfDay`, `isSameDay`). */
  function DayOfInstant(ms: int): int
  {
    ms / MsPerDay
  }

  /** One `{ from, to }` entry of a weekday: the "HH:mm" strings as minutes past midnight. */
  datatype WorkingShift = WorkingShift(from: int, to: int)

  /** `WorkingShifts`: weekday name to that day's shifts. A missing name has no shifts. */
  type WorkingShifts = map<string, seq<WorkingShift>>

  /** `workingShifts?.[format(date, "EEEE")] ?? []` */
  function ShiftsOn(shifts: WorkingShifts, day: int): seq<WorkingShift>
  {
    if WeekdayName(day) in shifts then shifts[WeekdayName(day)] else []
  }
}
