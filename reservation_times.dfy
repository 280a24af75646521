/**
 * `getReservationTimes`: the bookable slots of one service on one date.
 *
 * Four steps: generate candidate `{ start, end }` pairs of "HH:mm" times by
 * stepping through the calendar day in steps of the service duration; keep the
 * candidates that lie in a working shift of the selected weekday and in the
 * service's reservation window and that do not overlap a blocked interval nor
 * a reserved (or, when an employee is required, an employee-busy) interval;
 * turn each survivor back into absolute instants, moving an end that wrapped
 * past midnight to the next day; de-duplicate and sort by start.
 *
 * The filter as written (`Keep`) judges a wrapped end as 00:00 of the selected
 * date, and `GetReservationTimes` uses it, as the source does. `KeepFixed`
 * judges the rebuilt slot instead; `ReservationTimes` is the computation with
 * that corrected filter.
 *
 * Times of day are minutes past midnight (the "HH:mm" strings); slot instants
 * are absolute minutes `day * 1440 + minute`; the clock `now` and the busy
 * intervals are instants in milliseconds.
 */
module ReservationTimes {
  import opened Wrappers
  import opened Seqs
  import opened Sorting
  import opened Calendar

  /**
   * One `{ from_date_time, to_date_time }` record, each bound parsed by
   * `parseISO` to milliseconds; `None` is the Invalid Date that a `null` or
   * unparsable string gives.
   */
  datatype BusyInterval = BusyInterval(fromDateTime: Option<int>, toDateTime: Option<int>)

  /** `Service.reservation_time`: the daily window, as minutes past midnight. */
  datatype ReservationWindow = ReservationWindow(from: int, to: int)

  /** A generated `{ start, end }` pair of "HH:mm" times, as minutes past midnight. */
  datatype Candidate = Candidate(start: int, end: int)

  /** An output `{ from, to }` pair, in absolute minutes. */
  datatype Slot = Slot(from: int, to: int)

  /** The arguments of `getReservationTimes`; the duration "HH:mm" is given in minutes. */
  datatype Request = Request(
    selectedDay: int,
    duration: int,
    workingShifts: WorkingShifts,
    reservationTime: Option<ReservationWindow>,
    blockedTimes: seq<BusyInterval>,
    reservedTimes: seq<BusyInterval>,
    isRequireEmployee: bool,
    employeeTimes: seq<BusyInterval>,
    ignoreCurrentTime: bool)

  /** `startOfDay(selectedDate)`, in minutes. */
  function StartOfDay(day: int): int
  {
    day * MinutesPerDay
  }

  /** `endOfDay(selectedDate)` (23:59:59.999), in milliseconds. */
  function EndOfDayMs(day: int): int
  {
    (day + 1) * MsPerDay - 1
  }

  /** `format(t, "HH:mm")` of an absolute minute `t`. */
  function TimeOfDay(t: int): int
  {
    t % MinutesPerDay
  }

  /** `isSameDay(selectedDate, now)`. */
  predicate IsToday(day: int, nowMs: int)
  {
    DayOfInstant(nowMs) == day
  }

  /**
   * The test that skips a candidate: it runs after `currentSlot` has advanced,
   * so it compares the candidate's END with `now`.
   */
  predicate IsPast(day: int, ignoreCurrentTime: bool, nowMs: int, slotEnd: int)
  {
    !ignoreCurrentTime && IsToday(day, nowMs) && slotEnd * MsPerMinute < nowMs
  }

  /**
   * The candidates the generation loop pushes from `currentSlot` on, until
   * `currentSlot` passes `endOfDay`.
   */
  function Generate(day: int, duration: int, ignoreCurrentTime: bool, nowMs: int, currentSlot: int)
    : seq<Candidate>
    requires duration > 0
    decreases EndOfDayMs(day) - currentSlot * MsPerMinute
  {
    if currentSlot * MsPerMinute > EndOfDayMs(day) then []
    else
      var next := currentSlot + duration;
      var c := Candidate(TimeOfDay(currentSlot), TimeOfDay(next));
      (if IsPast(day, ignoreCurrentTime, nowMs, next) then [] else [c])
        + Generate(day, duration, ignoreCurrentTime, nowMs, next)
  }

  /** One step of `Generate` before the end of the day, and the step's progress in milliseconds. */
  lemma GenerateUnfold(day: int, duration: int, ignoreCurrentTime: bool, nowMs: int, currentSlot: int)
    requires duration > 0 && currentSlot * MsPerMinute <= EndOfDayMs(day)
    ensures Generate(day, duration, ignoreCurrentTime, nowMs, currentSlot)
         == (if IsPast(day, ignoreCurrentTime, nowMs, currentSlot + duration) then []
             else [Candidate(TimeOfDay(currentSlot), TimeOfDay(currentSlot + duration))])
            + Generate(day, duration, ignoreCurrentTime, nowMs, currentSlot + duration)
    ensures (currentSlot + duration) * MsPerMinute > currentSlot * MsPerMinute
  {
  }

  /** Pushing (or skipping) the head of the remaining candidates keeps their concatenation. */
  lemma PushStep(pushed: seq<Candidate>, c: Candidate, skip: bool, rest: seq<Candidate>, next: seq<Candidate>)
    requires rest == (if skip then [] else [c]) + next
    ensures (if skip then pushed else pushed + [c]) + next == pushed + rest
  {
    if !skip {
      assert (pushed + [c]) + next == pushed + ([c] + next);
    }
  }

  /** The `23:00`-`00:00` pair appended when the selected date is today. */
  const LateCandidate: Candidate := Candidate(23 * 60, 0)

  /** Every candidate before filtering, in push order. */
  function Candidates(q: Request, nowMs: int): seq<Candidate>
    requires q.duration > 0
  {
    Generate(q.selectedDay, q.duration, q.ignoreCurrentTime, nowMs, StartOfDay(q.selectedDay))
      + (if IsToday(q.selectedDay, nowMs) then [LateCandidate] else [])
  }

  /** `parseISO(`${yyyy-MM-dd}T${HH:mm}`)` on the selected date, in minutes. */
  function At(day: int, t: int): int
  {
    StartOfDay(day) + t
  }

  /** Closed containment in one shift: `start >= from` and `end <= to`, on the selected date. */
  predicate InShift(day: int, c: Candidate, shift: WorkingShift)
  {
    At(day, shift.from) <= At(day, c.start) && At(day, c.end) <= At(day, shift.to)
  }

  /** `isWithinWorkingShift`: some shift of the selected weekday contains the candidate. */
  predicate WithinWorkingShift(q: Request, c: Candidate)
  {
    exists shift :: shift in ShiftsOn(q.workingShifts, q.selectedDay) && InShift(q.selectedDay, c, shift)
  }

  /**
   * `isWithinReservationTime`: closed containment in the service window. Without a
   * window both bounds are Invalid Dates and every comparison is false.
   */
  predicate WithinReservationTime(q: Request, c: Candidate)
  {
    match q.reservationTime
    case None => false
    case Some(w) => At(q.selectedDay, w.from) <= At(q.selectedDay, c.start)
                    && At(q.selectedDay, c.end) <= At(q.selectedDay, w.to)
  }

  /**
   * The busy-overlap test written out for blocked, reserved and employee
   * intervals alike, on millisecond instants:
   * `(bs <= s < be) || (bs <= e <= be) || (s < bs && e > be)`.
   * Every comparison with an Invalid Date bound is false, so such an interval
   * never overlaps.
   */
  predicate Overlaps(startMs: int, endMs: int, busy: BusyInterval): (r: bool)
    ensures r ==> busy.fromDateTime.Some? && busy.toDateTime.Some?
    ensures busy.fromDateTime.Some? && busy.toDateTime.Some? && startMs < endMs
            && busy.fromDateTime.value <= busy.toDateTime.value ==>
              (r <==>
                 busy.fromDateTime.value <= endMs && startMs < busy.toDateTime.value)
  {
    match (busy.fromDateTime, busy.toDateTime)
    case (Some(bs), Some(be)) =>
      (bs <= startMs && startMs < be) || (bs <= endMs && endMs <= be) || (startMs < bs && be < endMs)
    case _ => false
  }

  /** `busyTimes.some(...)` for the candidate on the selected date. */
  predicate OverlapsAny(day: int, c: Candidate, busy: seq<BusyInterval>)
  {
    exists b :: b in busy && Overlaps(At(day, c.start) * MsPerMinute, At(day, c.end) * MsPerMinute, b)
  }

  /**
   * The filter callback as written: every test reads the candidate's "HH:mm"
   * times on the selected date, so an end that wrapped past midnight is read
   * as 00:00 of that date.
   */
  predicate Keep(q: Request, c: Candidate): (r: bool)
    ensures r ==> exists shift :: shift in ShiftsOn(q.workingShifts, q.selectedDay)
                              && shift.from <= c.start && c.end <= shift.to
    ensures r ==> q.reservationTime.Some?
                           && q.reservationTime.value.from <= c.start && c.end <= q.reservationTime.value.to
  {
    && WithinWorkingShift(q, c)
    && WithinReservationTime(q, c)
    && !OverlapsAny(q.selectedDay, c, q.blockedTimes)
    && if q.isRequireEmployee then !OverlapsAny(q.selectedDay, c, q.employeeTimes)
       else !OverlapsAny(q.selectedDay, c, q.reservedTimes)
  }

  function KeepFn(q: Request): Candidate -> bool
  {
    c => Keep(q, c)
  }

  /**
   * The `map` step: both times set on the selected date (`setHours`), and an end
   * before the start moved one day forward.
   */
  function Rebuild(day: int, c: Candidate): Slot
  {
    var from, to := At(day, c.start), At(day, c.end);
    if to < from then Slot(from, to + MinutesPerDay) else Slot(from, to)
  }

  function RebuildAll(day: int, cs: seq<Candidate>): (r: seq<Slot>)
    ensures |r| == |cs|
    ensures forall i :: 0 <= i < |cs| ==> r[i] == Rebuild(day, cs[i])
    ensures forall i :: 0 <= i < |cs| && 0 <= cs[i].start < MinutesPerDay && 0 <= cs[i].end < MinutesPerDay ==>
              r[i].from == At(day, cs[i].start) && r[i].to - r[i].from == (cs[i].end - cs[i].start) % MinutesPerDay
  {
    var r := seq(|cs|, i requires 0 <= i < |cs| => Rebuild(day, cs[i]));
    assert forall i :: 0 <= i < |cs| && 0 <= cs[i].start < MinutesPerDay && 0 <= cs[i].end < MinutesPerDay ==>
             r[i].from == At(day, cs[i].start) && r[i].to - r[i].from == (cs[i].end - cs[i].start) % MinutesPerDay by {
      forall i | 0 <= i < |cs| && 0 <= cs[i].start < MinutesPerDay && 0 <= cs[i].end < MinutesPerDay
        ensures r[i].from == At(day, cs[i].start) && r[i].to - r[i].from == (cs[i].end - cs[i].start) % MinutesPerDay
      {
        RebuildSpan(day, cs[i]);
      }
    }
    r
  }

  /** The sort key `a.from.getTime()`. */
  function SlotFrom(s: Slot): int
  {
    s.from
  }

  /**
   * The rebuilt slot starts at the candidate's start on the selected date and
   * spans the clockwise distance from start to end.
   */
  lemma RebuildSpan(day: int, c: Candidate)
    requires 0 <= c.start < MinutesPerDay && 0 <= c.end < MinutesPerDay
    ensures Rebuild(day, c).from == At(day, c.start)
    ensures Rebuild(day, c).to - Rebuild(day, c).from == (c.end - c.start) % MinutesPerDay
  {
  }

  /** Filter the candidates, rebuild, de-duplicate and sort. */
  function Pipeline(day: int, cands: seq<Candidate>, keep: Candidate -> bool): seq<Slot>
  {
    SortBy(Dedupe(RebuildAll(day, Filter(cands, keep))), SlotFrom)
  }

  /** The whole computation as written, as one function of the request and the clock. */
  function ReservationTimesAsWritten(q: Request, nowMs: int): seq<Slot>
    requires q.duration > 0
  {
    Pipeline(q.selectedDay, Candidates(q, nowMs), KeepFn(q))
  }

  /** `busyTimes.some(...)` checked against the rebuilt slot. */
  predicate SlotOverlapsAny(slot: Slot, busy: seq<BusyInterval>)
  {
    exists b :: b in busy && Overlaps(slot.from * MsPerMinute, slot.to * MsPerMinute, b)
  }

  /** The filter callback as evidently intended: every test judges the rebuilt slot. */
  predicate KeepFixed(q: Request, c: Candidate)
  {
    var slot := Rebuild(q.selectedDay, c);
    && (exists shift :: shift in ShiftsOn(q.workingShifts, q.selectedDay)
          && At(q.selectedDay, shift.from) <= slot.from && slot.to <= At(q.selectedDay, shift.to))
    && (match q.reservationTime
        case None => false
        case Some(w) => At(q.selectedDay, w.from) <= slot.from && slot.to <= At(q.selectedDay, w.to))
    && !SlotOverlapsAny(slot, q.blockedTimes)
    && if q.isRequireEmployee then !SlotOverlapsAny(slot, q.employeeTimes)
       else !SlotOverlapsAny(slot, q.reservedTimes)
  }

  function KeepFixedFn(q: Request): Candidate -> bool
  {
    c => KeepFixed(q, c)
  }

  /** The whole computation, with the corrected filter, as one function of the request and the clock. */
  function ReservationTimes(q: Request, nowMs: int): seq<Slot>
    requires q.duration > 0
  {
    Pipeline(q.selectedDay, Candidates(q, nowMs), KeepFixedFn(q))
  }

  /**
   * The generation loop and the chain of array operations, with the filter as
   * written: the result is sorted by start, has no duplicates, and holds
   * exactly the rebuilt candidates that pass the filter.
   */
  method GetReservationTimes(q: Request, nowMs: int) returns (list: seq<Slot>)
    requires q.duration > 0
    ensures list == ReservationTimesAsWritten(q, nowMs)
    ensures SortedBy(list, SlotFrom) && Distinct(list)
    ensures forall x :: x in list <==>
              exists c :: c in Candidates(q, nowMs) && Keep(q, c) && x == Rebuild(q.selectedDay, c)
  {
    var availableTimes := GenerateCandidates(q, nowMs);
    availableTimes := Filter(availableTimes, KeepFn(q));
    list := RebuildAll(q.selectedDay, availableTimes);
    list := Dedupe(list);
    list := SortBy(list, SlotFrom);
    ReservationTimesOrdered(q, nowMs);
    ReservationTimesMembers(q, nowMs);
  }

  /**
   * The generation loop: from midnight of the selected date in steps of the
   * duration, pushing every candidate that is not already past, then the late
   * `23:00`-`00:00` candidate when the date is today.
   */
  method GenerateCandidates(q: Request, nowMs: int) returns (availableTimes: seq<Candidate>)
    requires q.duration > 0
    ensures availableTimes == Candidates(q, nowMs)
  {
    var startTime := StartOfDay(q.selectedDay);
    var endTime := EndOfDayMs(q.selectedDay);
    availableTimes := [];

    // Generate all the possible slots of the selected date.
    var currentSlot := startTime;
    while currentSlot * MsPerMinute <= endTime
      invariant availableTimes + Generate(q.selectedDay, q.duration, q.ignoreCurrentTime, nowMs, currentSlot)
             == Generate(q.selectedDay, q.duration, q.ignoreCurrentTime, nowMs, startTime)
      decreases endTime - currentSlot * MsPerMinute
    {
      ghost var rest := Generate(q.selectedDay, q.duration, q.ignoreCurrentTime, nowMs, currentSlot);
      var start := TimeOfDay(currentSlot);
      var addedDate := currentSlot + q.duration;
      var end := TimeOfDay(addedDate);
      ghost var next := Generate(q.selectedDay, q.duration, q.ignoreCurrentTime, nowMs, addedDate);
      GenerateUnfold(q.selectedDay, q.duration, q.ignoreCurrentTime, nowMs, currentSlot);
      currentSlot := addedDate;
      if !q.ignoreCurrentTime && IsToday(q.selectedDay, nowMs) && currentSlot * MsPerMinute < nowMs {
        PushStep(availableTimes, Candidate(start, end), true, rest, next);
        continue;
      }
      PushStep(availableTimes, Candidate(start, end), false, rest, next);
      availableTimes := availableTimes + [Candidate(start, end)];
    }
    if IsToday(q.selectedDay, nowMs) {
      availableTimes := availableTimes + [LateCandidate];
    }
  }

  /**
   * The output is sorted by start and has no two equal `{ from, to }` pairs,
   * with the filter as written and with the corrected one.
   */
  lemma ReservationTimesOrdered(q: Request, nowMs: int)
    requires q.duration > 0
    ensures SortedBy(ReservationTimesAsWritten(q, nowMs), SlotFrom)
    ensures Distinct(ReservationTimesAsWritten(q, nowMs))
    ensures SortedBy(ReservationTimes(q, nowMs), SlotFrom)
    ensures Distinct(ReservationTimes(q, nowMs))
  {
    PipelineOrdered(q.selectedDay, Candidates(q, nowMs), KeepFn(q));
    PipelineOrdered(q.selectedDay, Candidates(q, nowMs), KeepFixedFn(q));
  }

  lemma PipelineOrdered(day: int, cands: seq<Candidate>, keep: Candidate -> bool)
    ensures SortedBy(Pipeline(day, cands, keep), SlotFrom)
    ensures Distinct(Pipeline(day, cands, keep))
  {
    SortByDistinct(Dedupe(RebuildAll(day, Filter(cands, keep))), SlotFrom);
  }

  /** The filter, map, de-duplicate and sort chain invents no slot ... */
  lemma PipelineSound(day: int, cands: seq<Candidate>, p: Candidate -> bool, x: Slot)
    requires x in Pipeline(day, cands, p)
    ensures exists c :: c in cands && p(c) && x == Rebuild(day, c)
  {
    var kept := Filter(cands, p);
    var rebuilt := RebuildAll(day, kept);
    var deduped := Dedupe(rebuilt);
    SortByMembers(deduped, SlotFrom);
    assert x in deduped;
    var k :| 0 <= k < |deduped| && deduped[k] == x;
    assert x in rebuilt;
    var i :| 0 <= i < |rebuilt| && rebuilt[i] == x;
    assert kept[i] in cands && p(kept[i]);
  }

  /** ... and loses none. */
  lemma PipelineComplete(day: int, cands: seq<Candidate>, p: Candidate -> bool, c: Candidate)
    requires c in cands && p(c)
    ensures Rebuild(day, c) in Pipeline(day, cands, p)
  {
    var kept := Filter(cands, p);
    var rebuilt := RebuildAll(day, kept);
    var deduped := Dedupe(rebuilt);
    SortByMembers(deduped, SlotFrom);
    var j :| 0 <= j < |cands| && cands[j] == c;
    assert c in kept;
    var i :| 0 <= i < |kept| && kept[i] == c;
    assert rebuilt[i] == Rebuild(day, c);
    assert Rebuild(day, c) in deduped;
  }

  /**
   * A slot is returned exactly when some candidate that passes the filter as
   * written rebuilds to it; with the corrected filter, the same for `KeepFixed`.
   */
  lemma ReservationTimesMembers(q: Request, nowMs: int)
    requires q.duration > 0
    ensures forall x :: x in ReservationTimesAsWritten(q, nowMs) <==>
              exists c :: c in Candidates(q, nowMs) && Keep(q, c) && x == Rebuild(q.selectedDay, c)
    ensures forall x :: x in ReservationTimes(q, nowMs) <==>
              exists c :: c in Candidates(q, nowMs) && KeepFixed(q, c) && x == Rebuild(q.selectedDay, c)
  {
    var cands := Candidates(q, nowMs);
    forall x ensures x in ReservationTimesAsWritten(q, nowMs) <==>
                     exists c :: c in cands && Keep(q, c) && x == Rebuild(q.selectedDay, c)
    {
      if x in ReservationTimesAsWritten(q, nowMs) {
        PipelineSound(q.selectedDay, cands, KeepFn(q), x);
        var c :| c in cands && KeepFn(q)(c) && x == Rebuild(q.selectedDay, c);
        assert Keep(q, c);
      }
      if c :| c in cands && Keep(q, c) && x == Rebuild(q.selectedDay, c) {
        assert KeepFn(q)(c);
        PipelineComplete(q.selectedDay, cands, KeepFn(q), c);
      }
    }
    forall x ensures x in ReservationTimes(q, nowMs) <==>
                     exists c :: c in cands && KeepFixed(q, c) && x == Rebuild(q.selectedDay, c)
    {
      if x in ReservationTimes(q, nowMs) {
        PipelineSound(q.selectedDay, cands, KeepFixedFn(q), x);
        var c :| c in cands && KeepFixedFn(q)(c) && x == Rebuild(q.selectedDay, c);
        assert KeepFixed(q, c);
      }
      if c :| c in cands && KeepFixed(q, c) && x == Rebuild(q.selectedDay, c) {
        assert KeepFixedFn(q)(c);
        PipelineComplete(q.selectedDay, cands, KeepFixedFn(q), c);
      }
    }
  }

  /** The start of the `k`-th step of the loop, in minutes past midnight. */
  function StepStart(duration: int, k: nat): int
  {
    k * duration
  }

  /** The candidate the `k`-th step pushes: "HH:mm" drops the date of the end. */
  function CandidateAt(duration: int, k: nat): Candidate
  {
    Candidate(StepStart(duration, k), (StepStart(duration, k) + duration) % MinutesPerDay)
  }

  /** The `k`-th step starts before midnight and its candidate is not skipped as past. */
  predicate Pushed(q: Request, nowMs: int, k: nat)
  {
    && StepStart(q.duration, k) < MinutesPerDay
    && !IsPast(q.selectedDay, q.ignoreCurrentTime, nowMs,
               At(q.selectedDay, StepStart(q.duration, k) + q.duration))
  }

  lemma {:induction false} StepStartMonotone(duration: int, j: nat, k: nat)
    requires duration > 0 && j <= k
    ensures 0 <= StepStart(duration, j) <= StepStart(duration, k)
    decreases k
  {
    if j < k {
      StepStartMonotone(duration, j, k - 1);
    }
  }

  /** One iteration of the loop, at step `k`. */
  lemma GenerateStep(q: Request, nowMs: int, k: nat)
    requires q.duration > 0
    ensures var g := Generate(q.selectedDay, q.duration, q.ignoreCurrentTime, nowMs,
                              At(q.selectedDay, StepStart(q.duration, k)));
            if StepStart(q.duration, k) >= MinutesPerDay then g == []
            else g == (if Pushed(q, nowMs, k) then [CandidateAt(q.duration, k)] else [])
                      + Generate(q.selectedDay, q.duration, q.ignoreCurrentTime, nowMs,
                                 At(q.selectedDay, StepStart(q.duration, k + 1)))
  {
    var day, d := q.selectedDay, q.duration;
    var t := StepStart(d, k);
    var cur := At(day, t);
    assert 0 <= t by {
      StepStartMonotone(d, 0, k);
    }
    assert cur * MsPerMinute == day * MsPerDay + t * MsPerMinute;
    assert cur * MsPerMinute <= EndOfDayMs(day) <==> t < MinutesPerDay;
    if t < MinutesPerDay {
      assert StepStart(d, k + 1) == t + d;
      assert TimeOfDay(cur) == t by {
        assert cur == day * MinutesPerDay + t;
      }
      assert TimeOfDay(cur + d) == (t + d) % MinutesPerDay by {
        assert cur + d == day * MinutesPerDay + (t + d);
      }
    }
  }

  /** Generation from step `k0` on pushes the candidates of the later steps that are not past. */
  lemma {:induction false} GenerateMembers(q: Request, nowMs: int, k0: nat, c: Candidate)
    requires q.duration > 0
    ensures c in Generate(q.selectedDay, q.duration, q.ignoreCurrentTime, nowMs,
                          At(q.selectedDay, StepStart(q.duration, k0)))
            <==> exists k: nat :: k0 <= k && Pushed(q, nowMs, k) && c == CandidateAt(q.duration, k)
    decreases MinutesPerDay - StepStart(q.duration, k0)
  {
    var d := q.duration;
    var g := Generate(q.selectedDay, d, q.ignoreCurrentTime, nowMs, At(q.selectedDay, StepStart(d, k0)));
    GenerateStep(q, nowMs, k0);
    if StepStart(d, k0) >= MinutesPerDay {
      forall k: nat | k0 <= k ensures !Pushed(q, nowMs, k) {
        StepStartMonotone(d, k0, k);
      }
    } else {
      var rest := Generate(q.selectedDay, d, q.ignoreCurrentTime, nowMs, At(q.selectedDay, StepStart(d, k0 + 1)));
      assert StepStart(d, k0 + 1) == StepStart(d, k0) + d;
      GenerateMembers(q, nowMs, k0 + 1, c);
      if c in g && c !in rest {
        assert Pushed(q, nowMs, k0) && c == CandidateAt(d, k0);
      }
      if k: nat :| k0 <= k && Pushed(q, nowMs, k) && c == CandidateAt(d, k) {
        if k == k0 {
          assert c in g;
        } else {
          assert c in rest;
        }
      }
    }
  }

  /**
   * The candidates: for every step start `k * duration` up to 23:59 whose END is
   * not before `now` (or every one, when the date is not today or the clock is
   * ignored), the pair (start, (start + duration) mod 24h); and, when the date
   * is today, `23:00`-`00:00`, whatever the clock says.
   */
  lemma CandidatesMembers(q: Request, nowMs: int, c: Candidate)
    requires q.duration > 0
    ensures c in Candidates(q, nowMs) <==>
              (exists k: nat :: Pushed(q, nowMs, k) && c == CandidateAt(q.duration, k))
              || (IsToday(q.selectedDay, nowMs) && c == LateCandidate)
  {
    GenerateMembers(q, nowMs, 0, c);
    assert At(q.selectedDay, StepStart(q.duration, 0)) == StartOfDay(q.selectedDay);
  }

  /**
   * For a duration under a day every slot starts on the selected date and lasts
   * exactly the duration (an end that wrapped past midnight is moved to the
   * next day), except the appended `23:00`-`00:00` slot of today, which lasts
   * an hour. In particular every slot ends after it starts.
   */
  lemma ReservationTimesShape(q: Request, nowMs: int, x: Slot)
    requires 0 < q.duration < MinutesPerDay
    requires x in ReservationTimesAsWritten(q, nowMs) || x in ReservationTimes(q, nowMs)
    ensures StartOfDay(q.selectedDay) <= x.from < StartOfDay(q.selectedDay) + MinutesPerDay
    ensures x.from < x.to
    ensures x.to - x.from == q.duration
            || (IsToday(q.selectedDay, nowMs) && x == Slot(At(q.selectedDay, 23 * 60), At(q.selectedDay, 24 * 60)))
  {
    var c: Candidate;
    if x in ReservationTimesAsWritten(q, nowMs) {
      PipelineSound(q.selectedDay, Candidates(q, nowMs), KeepFn(q), x);
      c :| c in Candidates(q, nowMs) && x == Rebuild(q.selectedDay, c);
    } else {
      PipelineSound(q.selectedDay, Candidates(q, nowMs), KeepFixedFn(q), x);
      c :| c in Candidates(q, nowMs) && x == Rebuild(q.selectedDay, c);
    }
    CandidateShape(q, nowMs, c);
  }

  /** The shape of the slot any generated candidate rebuilds to, whichever filter it passes. */
  lemma CandidateShape(q: Request, nowMs: int, c: Candidate)
    requires 0 < q.duration < MinutesPerDay
    requires c in Candidates(q, nowMs)
    ensures var x := Rebuild(q.selectedDay, c);
      && StartOfDay(q.selectedDay) <= x.from < StartOfDay(q.selectedDay) + MinutesPerDay
      && x.from < x.to
      && (x.to - x.from == q.duration
          || (IsToday(q.selectedDay, nowMs) && x == Slot(At(q.selectedDay, 23 * 60), At(q.selectedDay, 24 * 60))))
  {
    var x := Rebuild(q.selectedDay, c);
    CandidatesMembers(q, nowMs, c);
    assert (exists k: nat :: Pushed(q, nowMs, k) && c == CandidateAt(q.duration, k))
              || (IsToday(q.selectedDay, nowMs) && c == LateCandidate);
    if k: nat :| Pushed(q, nowMs, k) && c == CandidateAt(q.duration, k) {
      RebuildStep(q.selectedDay, q.duration, k);
      assert x == Slot(At(q.selectedDay, StepStart(q.duration, k)), At(q.selectedDay, StepStart(q.duration, k)) + q.duration);
      assert 0 <= StepStart(q.duration, k) < MinutesPerDay;
    } else {
      assert IsToday(q.selectedDay, nowMs) && c == LateCandidate;
      assert x == Slot(At(q.selectedDay, 23 * 60), At(q.selectedDay, 24 * 60));
    }
  }

  /** The slot of step `k` runs from its start for exactly the duration. */
  lemma RebuildStep(day: int, duration: int, k: nat)
    requires 0 < duration < MinutesPerDay && StepStart(duration, k) < MinutesPerDay
    ensures 0 <= StepStart(duration, k)
    ensures Rebuild(day, CandidateAt(duration, k))
            == Slot(At(day, StepStart(duration, k)), At(day, StepStart(duration, k)) + duration)
  {
    StepStartMonotone(duration, 0, k);
  }

  /** Two requests whose filters as written keep the same candidates give the same slots. */
  lemma SameKeepSameTimes(q1: Request, q2: Request, nowMs: int)
    requires q1.duration > 0
    requires q1.selectedDay == q2.selectedDay && q1.duration == q2.duration
    requires q1.ignoreCurrentTime == q2.ignoreCurrentTime
    requires forall c :: Keep(q1, c) == Keep(q2, c)
    ensures ReservationTimesAsWritten(q1, nowMs) == ReservationTimesAsWritten(q2, nowMs)
  {
    assert Candidates(q1, nowMs) == Candidates(q2, nowMs);
    FilterCongruent(Candidates(q1, nowMs), KeepFn(q1), KeepFn(q2));
  }

  /** The same for the corrected filter. */
  lemma SameKeepFixedSameTimes(q1: Request, q2: Request, nowMs: int)
    requires q1.duration > 0
    requires q1.selectedDay == q2.selectedDay && q1.duration == q2.duration
    requires q1.ignoreCurrentTime == q2.ignoreCurrentTime
    requires forall c :: KeepFixed(q1, c) == KeepFixed(q2, c)
    ensures ReservationTimes(q1, nowMs) == ReservationTimes(q2, nowMs)
  {
    assert Candidates(q1, nowMs) == Candidates(q2, nowMs);
    FilterCongruent(Candidates(q1, nowMs), KeepFixedFn(q1), KeepFixedFn(q2));
  }

  /** Without `isRequireEmployee` the employee intervals do not matter. */
  lemma EmployeeTimesIgnored(q: Request, nowMs: int, employeeTimes: seq<BusyInterval>)
    requires q.duration > 0 && !q.isRequireEmployee
    ensures ReservationTimesAsWritten(q.(employeeTimes := employeeTimes), nowMs) == ReservationTimesAsWritten(q, nowMs)
    ensures ReservationTimes(q.(employeeTimes := employeeTimes), nowMs) == ReservationTimes(q, nowMs)
  {
    SameKeepSameTimes(q.(employeeTimes := employeeTimes), q, nowMs);
    SameKeepFixedSameTimes(q.(employeeTimes := employeeTimes), q, nowMs);
  }

  /** With `isRequireEmployee` the reserved intervals do not matter. */
  lemma ReservedTimesIgnored(q: Request, nowMs: int, reservedTimes: seq<BusyInterval>)
    requires q.duration > 0 && q.isRequireEmployee
    ensures ReservationTimesAsWritten(q.(reservedTimes := reservedTimes), nowMs) == ReservationTimesAsWritten(q, nowMs)
    ensures ReservationTimes(q.(reservedTimes := reservedTimes), nowMs) == ReservationTimes(q, nowMs)
  {
    SameKeepSameTimes(q.(reservedTimes := reservedTimes), q, nowMs);
    SameKeepFixedSameTimes(q.(reservedTimes := reservedTimes), q, nowMs);
  }

  /** Only the selected weekday's entry of `workingShifts` is consulted. */
  lemma OnlySelectedWeekdayShifts(q: Request, nowMs: int, workingShifts: WorkingShifts)
    requires q.duration > 0
    requires ShiftsOn(workingShifts, q.selectedDay) == ShiftsOn(q.workingShifts, q.selectedDay)
    ensures ReservationTimesAsWritten(q.(workingShifts := workingShifts), nowMs) == ReservationTimesAsWritten(q, nowMs)
    ensures ReservationTimes(q.(workingShifts := workingShifts), nowMs) == ReservationTimes(q, nowMs)
  {
    SameKeepSameTimes(q.(workingShifts := workingShifts), q, nowMs);
    SameKeepFixedSameTimes(q.(workingShifts := workingShifts), q, nowMs);
  }

  /**
   * For a proper slot `[s, e]` and a proper busy interval `[bs, be]`, the overlap
   * test is `bs <= e && s < be`: a slot that ends exactly when the busy interval
   * starts conflicts with it, a slot that starts exactly when it ends does not.
   */
  lemma OverlapsCharacterized(s: int, e: int, bs: int, be: int)
    requires s < e && bs <= be
    ensures Overlaps(s, e, BusyInterval(Some(bs), Some(be))) <==> bs <= e && s < be
  {
  }

  /** A busy interval with an Invalid Date bound never conflicts. */
  lemma InvalidBusyNeverOverlaps(s: int, e: int, b: BusyInterval)
    requires b.fromDateTime.None? || b.toDateTime.None?
    ensures !Overlaps(s, e, b)
  {
  }

  // A candidate whose end wrapped past midnight has its end read as 00:00 of
  // the selected date, at or before every shift's and window's end, so the
  // last slot of the day passes the containment checks of any shift that
  // starts early enough.

  /** A Monday (day 1) with one shift and a reservation window of 09:00-17:00 and hour-long slots. */
  function NineToFiveMonday(): Request
  {
    Request(1, 60, map["Monday" := [WorkingShift(9 * 60, 17 * 60)]],
            Some(ReservationWindow(9 * 60, 17 * 60)), [], [], false, [], false)
  }

  /**
   * As written: with hour-long slots, the 23:00-24:00 slot is offered whenever
   * some shift and the window START by 23:00, whatever time they end, and no
   * busy interval overlaps 23:00-00:00 read on the selected date.
   */
  lemma LateSlotOffered(q: Request, nowMs: int, shift: WorkingShift)
    requires q.duration == 60 && !IsToday(q.selectedDay, nowMs)
    requires shift in ShiftsOn(q.workingShifts, q.selectedDay) && shift.from <= 23 * 60 && 0 <= shift.to
    requires q.reservationTime.Some?
    requires q.reservationTime.value.from <= 23 * 60 && 0 <= q.reservationTime.value.to
    requires !OverlapsAny(q.selectedDay, LateCandidate, q.blockedTimes)
    requires !OverlapsAny(q.selectedDay, LateCandidate,
                          if q.isRequireEmployee then q.employeeTimes else q.reservedTimes)
    ensures Slot(At(q.selectedDay, 23 * 60), At(q.selectedDay, 24 * 60)) in ReservationTimesAsWritten(q, nowMs)
  {
    var c := CandidateAt(60, 23);
    assert StepStart(60, 23) == 23 * 60;
    assert c == Candidate(23 * 60, 0);
    assert c in Candidates(q, nowMs) by {
      assert Pushed(q, nowMs, 23);
      CandidatesMembers(q, nowMs, c);
    }
    assert KeepFn(q)(c) by {
      assert InShift(q.selectedDay, c, shift);
      assert Keep(q, c);
    }
    PipelineComplete(q.selectedDay, Candidates(q, nowMs), KeepFn(q), c);
    assert Rebuild(q.selectedDay, c) == Slot(At(q.selectedDay, 23 * 60), At(q.selectedDay, 24 * 60));
  }

  /** The instance: a Monday 09:00-17:00 branch, asked on an earlier day. */
  lemma LateSlotOutsideShiftOffered()
    ensures Slot(At(1, 23 * 60), At(1, 24 * 60)) in ReservationTimesAsWritten(NineToFiveMonday(), 0)
  {
    var q := NineToFiveMonday();
    assert WeekdayName(1) == "Monday";
    LateSlotOffered(q, 0, WorkingShift(9 * 60, 17 * 60));
  }

  /**
   * As written, a busy interval strictly inside 23:00-24:00 of the selected date
   * does not conflict with a candidate ending at "00:00", read as the start of
   * that date, although it lies inside the rebuilt slot.
   */
  lemma LateBusyMissed(day: int, bs: int, be: int)
    requires At(day, 23 * 60) * MsPerMinute < bs <= be < At(day, 24 * 60) * MsPerMinute
    ensures !Overlaps(At(day, 23 * 60) * MsPerMinute, At(day, 0) * MsPerMinute, BusyInterval(Some(bs), Some(be)))
    ensures Overlaps(At(day, 23 * 60) * MsPerMinute, At(day, 24 * 60) * MsPerMinute, BusyInterval(Some(bs), Some(be)))
  {
  }

  /** The Monday of the example with a reservation 23:30-23:45. */
  function LateReservedMonday(): Request
  {
    NineToFiveMonday().(reservedTimes :=
      [BusyInterval(Some(At(1, 23 * 60 + 30) * MsPerMinute), Some(At(1, 23 * 60 + 45) * MsPerMinute))])
  }

  /** As written: 23:00-24:00 is offered although a reservation 23:30-23:45 lies inside it. */
  lemma LateSlotOverReservationOffered()
    ensures SlotOverlapsAny(Slot(At(1, 23 * 60), At(1, 24 * 60)), LateReservedMonday().reservedTimes)
    ensures Slot(At(1, 23 * 60), At(1, 24 * 60)) in ReservationTimesAsWritten(LateReservedMonday(), 0)
  {
    var q := LateReservedMonday();
    var b := q.reservedTimes[0];
    LateBusyMissed(1, b.fromDateTime.value, b.toDateTime.value);
    assert !OverlapsAny(1, LateCandidate, q.reservedTimes) by {
      assert forall b' :: b' in q.reservedTimes ==> b' == b;
    }
    assert WeekdayName(1) == "Monday";
    LateSlotOffered(q, 0, WorkingShift(9 * 60, 17 * 60));
  }

  /**
   * Corrected: an "HH:mm" shift end is at most 23:59, so the appended
   * 23:00-00:00 pair, rebuilt to end at midnight of the next day, is never kept.
   */
  lemma LateCandidateNeverKeptFixed(q: Request)
    requires forall shift :: shift in ShiftsOn(q.workingShifts, q.selectedDay) ==> shift.to < MinutesPerDay
    ensures !KeepFixed(q, LateCandidate)
  {
    assert Rebuild(q.selectedDay, LateCandidate) == Slot(At(q.selectedDay, 23 * 60), At(q.selectedDay, 24 * 60));
  }

  /** A Monday branch and window open 00:00-23:59, asked today. */
  function AllDayMonday(): Request
  {
    Request(1, 60, map["Monday" := [WorkingShift(0, 23 * 60 + 59)]],
            Some(ReservationWindow(0, 23 * 60 + 59)), [], [], false, [], false)
  }

  /** The appended pair: kept as written on an all-day Monday, refused by the correction. */
  lemma LateCandidateKeptOnlyAsWritten()
    ensures Keep(AllDayMonday(), LateCandidate)
    ensures !KeepFixed(AllDayMonday(), LateCandidate)
  {
    var q := AllDayMonday();
    assert WeekdayName(1) == "Monday";
    assert ShiftsOn(q.workingShifts, 1) == [WorkingShift(0, 23 * 60 + 59)];
    assert InShift(1, LateCandidate, WorkingShift(0, 23 * 60 + 59));
    LateCandidateNeverKeptFixed(q);
  }

  /** A Monday branch and window open overnight, 22:00-02:00, with hour-long slots. */
  function OvernightMonday(): Request
  {
    Request(1, 60, map["Monday" := [WorkingShift(22 * 60, 2 * 60)]],
            Some(ReservationWindow(22 * 60, 2 * 60)), [], [], false, [], false)
  }

  /**
   * The wrapped 23:00-00:00 pair lies inside an overnight 22:00-02:00 shift: the
   * filter as written keeps it, and the correction, which reads the shift's end
   * on the selected date, refuses it.
   */
  lemma OvernightKeptOnlyAsWritten()
    ensures Keep(OvernightMonday(), LateCandidate)
    ensures !KeepFixed(OvernightMonday(), LateCandidate)
  {
    var q := OvernightMonday();
    assert WeekdayName(1) == "Monday";
    assert ShiftsOn(q.workingShifts, 1) == [WorkingShift(22 * 60, 2 * 60)];
    assert InShift(1, LateCandidate, WorkingShift(22 * 60, 2 * 60));
    LateCandidateNeverKeptFixed(q);
  }

  /** The two filters differ only on candidates whose end wrapped past midnight. */
  lemma KeepFixedAgreesUnwrapped(q: Request, c: Candidate)
    requires 0 <= c.start <= c.end < MinutesPerDay
    ensures KeepFixed(q, c) == Keep(q, c)
  {
    assert Rebuild(q.selectedDay, c) == Slot(At(q.selectedDay, c.start), At(q.selectedDay, c.end));
  }

  /**
   * Corrected: every slot offered lies, as an absolute interval, inside a shift
   * of the selected weekday and inside the reservation window, and overlaps no
   * blocked interval nor any reserved (employee-busy, when an employee is
   * required) interval.
   */
  lemma ReservationTimesContained(q: Request, nowMs: int, x: Slot)
    requires q.duration > 0
    requires x in ReservationTimes(q, nowMs)
    ensures exists shift :: shift in ShiftsOn(q.workingShifts, q.selectedDay)
              && At(q.selectedDay, shift.from) <= x.from && x.to <= At(q.selectedDay, shift.to)
    ensures q.reservationTime.Some?
    ensures At(q.selectedDay, q.reservationTime.value.from) <= x.from
            && x.to <= At(q.selectedDay, q.reservationTime.value.to)
    ensures !SlotOverlapsAny(x, q.blockedTimes)
    ensures !SlotOverlapsAny(x, if q.isRequireEmployee then q.employeeTimes else q.reservedTimes)
  {
    PipelineSound(q.selectedDay, Candidates(q, nowMs), KeepFixedFn(q), x);
    var c :| c in Candidates(q, nowMs) && KeepFixedFn(q)(c) && x == Rebuild(q.selectedDay, c);
    assert KeepFixed(q, c);
  }

  /** Corrected: the Monday of the example no longer offers 23:00-24:00. */
  lemma LateSlotOutsideShiftRefused()
    ensures Slot(At(1, 23 * 60), At(1, 24 * 60)) !in ReservationTimes(NineToFiveMonday(), 0)
  {
    var q := NineToFiveMonday();
    var x := Slot(At(1, 23 * 60), At(1, 24 * 60));
    assert WeekdayName(1) == "Monday";
    assert ShiftsOn(q.workingShifts, 1) == [WorkingShift(9 * 60, 17 * 60)];
    if x in ReservationTimes(q, 0) {
      ReservationTimesContained(q, 0, x);
    }
  }
}
