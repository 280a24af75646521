/**
 * `isWithinShift`: whether a branch is open at the instant `now`, from its
 * weekly shift template. `now` is already in the branch's time zone (the
 * `utcToZonedTime` conversion and the clock are parameters of the model).
 */
module ShiftStatus {
  import opened Wrappers
  import opened Calendar

  datatype Status = Open | Closed | ClosingSoon

  /** `parse(shift.from, "HH:mm", now)`: that time on the day of `now`, in milliseconds. */
  function ShiftStartMs(day: int, shift: WorkingShift): int
  {
    (day * MinutesPerDay + shift.from) * MsPerMinute
  }

  /** `parse(shift.to, "HH:mm", now)`. */
  function ShiftEndMs(day: int, shift: WorkingShift): int
  {
    (day * MinutesPerDay + shift.to) * MsPerMinute
  }

  /** The interval check of `isWithinInterval` on a well-formed interval: both ends included. */
  predicate Contains(day: int, shift: WorkingShift, nowMs: int)
  {
    ShiftStartMs(day, shift) <= nowMs <= ShiftEndMs(day, shift)
  }

  /** Every shift of the day of `now` ends no earlier than it starts. */
  predicate WellFormedToday(shifts: Option<WorkingShifts>, nowMs: int)
  {
    shifts.Some? ==>
      var today := ShiftsOn(shifts.value, DayOfInstant(nowMs));
      forall j :: 0 <= j < |today| ==> today[j].from <= today[j].to
  }

  /**
   * `shifts.find(...)` from position `i` on: the index of the first shift that
   * contains `now`, or `None` when none does.
   */
  function FindShift(shifts: seq<WorkingShift>, i: nat, day: int, nowMs: int): (r: Option<nat>)
    requires i <= |shifts|
    decreases |shifts| - i
    ensures r.Some? ==>
              i <= r.value < |shifts| && Contains(day, shifts[r.value], nowMs)
              && forall j :: i <= j < r.value ==> !Contains(day, shifts[j], nowMs)
    ensures r.None? ==> forall j :: i <= j < |shifts| ==> !Contains(day, shifts[j], nowMs)
  {
    if i == |shifts| then None
    else if Contains(day, shifts[i], nowMs) then Some(i)
    else FindShift(shifts, i + 1, day, nowMs)
  }

  /** The search `isWithinShift` runs: today's shifts, or none when there is no template. */
  function SearchToday(shifts: Option<WorkingShifts>, nowMs: int): Option<nat>
  {
    match shifts
    case None => None
    case Some(m) => FindShift(ShiftsOn(m, DayOfInstant(nowMs)), 0, DayOfInstant(nowMs), nowMs)
  }

  /** The shift `find` returned. */
  function FoundShift(shifts: Option<WorkingShifts>, nowMs: int): WorkingShift
    requires SearchToday(shifts, nowMs).Some?
  {
    ShiftsOn(shifts.value, DayOfInstant(nowMs))[SearchToday(shifts, nowMs).value]
  }

  /** Open at `now`: some shift of today, both ends included, contains it. */
  predicate OpenAt(shifts: Option<WorkingShifts>, nowMs: int)
  {
    shifts.Some? &&
      var today := ShiftsOn(shifts.value, DayOfInstant(nowMs));
      exists j :: 0 <= j < |today| && Contains(DayOfInstant(nowMs), today[j], nowMs)
  }

  /**
   * The `hours` field of `intervalToDuration({ start: now, end })`: whole hours
   * left until the end of the shift (less than a day, so no days field).
   */
  function HoursLeft(day: int, shift: WorkingShift, nowMs: int): int
  {
    (ShiftEndMs(day, shift) - nowMs) / MsPerHour
  }

  /** The test `duration.hours && duration.hours < 1`: `0` is falsy in JavaScript. */
  predicate ClosingSoonTest(hours: int)
  {
    hours != 0 && hours < 1
  }

  /**
   * `isWithinShift(shifts, timezone)` as written: open exactly when one of
   * today's shifts contains `now` (both ends included), closed otherwise
   * (no template, no shift today, none containing `now`); the closing-soon
   * outcome is never returned.
   */
  function IsWithinShift(shifts: Option<WorkingShifts>, nowMs: int): (r: Status)
    requires WellFormedToday(shifts, nowMs)
    ensures r == Open <==> OpenAt(shifts, nowMs)
    ensures r == Closed <==> !OpenAt(shifts, nowMs)
    ensures r != ClosingSoon
  {
    match SearchToday(shifts, nowMs)
    case None => Closed
    case Some(i) =>
      var hours := HoursLeft(DayOfInstant(nowMs), FoundShift(shifts, nowMs), nowMs);
      assert hours >= 0;
      if ClosingSoonTest(hours) then ClosingSoon else Open
  }

  /** A Monday (day 1) with one shift, 09:00 to 17:00. */
  function MondayNineToFive(): WorkingShifts
  {
    map["Monday" := [WorkingShift(9 * 60, 17 * 60)]]
  }

  /** 16:30 on Monday (day 1), half an hour before closing. */
  const HalfHourBeforeClosing: int := MsPerDay + (16 * 60 + 30) * MsPerMinute

  /** As written: half an hour before the end of the shift the branch is reported open. */
  lemma ClosingSoonNeverReported()
    ensures IsWithinShift(Some(MondayNineToFive()), HalfHourBeforeClosing) == Open
  {
    assert WeekdayName(DayOfInstant(HalfHourBeforeClosing)) == "Monday";
    assert FindShift(ShiftsOn(MondayNineToFive(), 1), 0, 1, HalfHourBeforeClosing) == Some(0);
  }

  /**
   * The evidently intended check: open when a shift of today contains `now`,
   * closing soon when less than an hour of the first such shift is left.
   */
  function IsWithinShiftIntended(shifts: Option<WorkingShifts>, nowMs: int): (r: Status)
    requires WellFormedToday(shifts, nowMs)
    ensures r == Closed <==> !OpenAt(shifts, nowMs)
    ensures r == ClosingSoon <==>
              OpenAt(shifts, nowMs) && ShiftEndMs(DayOfInstant(nowMs), FoundShift(shifts, nowMs)) - nowMs < MsPerHour
  {
    match SearchToday(shifts, nowMs)
    case None => Closed
    case Some(i) =>
      var hours := HoursLeft(DayOfInstant(nowMs), FoundShift(shifts, nowMs), nowMs);
      if hours < 1 then ClosingSoon else Open
  }

  /** The intended check differs from the code only where it reports closing soon. */
  lemma IntendedRefinesWritten(shifts: Option<WorkingShifts>, nowMs: int)
    requires WellFormedToday(shifts, nowMs)
    ensures IsWithinShift(shifts, nowMs)
         == if IsWithinShiftIntended(shifts, nowMs) == ClosingSoon then Open else IsWithinShiftIntended(shifts, nowMs)
  {
  }

  /** With the intended check, 16:30 on a 09:00 to 17:00 Monday is closing soon. */
  lemma ClosingSoonReportedWhenIntended()
    ensures IsWithinShiftIntended(Some(MondayNineToFive()), HalfHourBeforeClosing) == ClosingSoon
  {
    assert WeekdayName(DayOfInstant(HalfHourBeforeClosing)) == "Monday";
    assert FindShift(ShiftsOn(MondayNineToFive(), 1), 0, 1, HalfHourBeforeClosing) == Some(0);
  }
}
