# TakeTkt scheduling and pricing core, in Dafny

This project models the scheduling and pricing core of the TakeTkt client
library (TypeScript) and proves properties of that model.

- **Reservation slots** (`reservation_times.dfy`). `getReservationTimes`
  builds the bookable `{ from, to }` slots of a service on a selected date in
  four steps. First, a loop steps through the calendar day in steps of the
  service duration and pushes `{ start, end }` "HH:mm" pairs. It skips pairs
  that have already ended when the date is today, and appends `23:00`–`00:00`
  when the date is today. Second, a filter keeps the pairs that lie in a
  working shift of the selected weekday and in the service's reservation
  window, and that overlap no blocked interval and no reserved interval (or
  employee-busy interval, when an employee is required). Third, a map rebuilds
  absolute instants and moves an end that wrapped past midnight to the next
  day. Fourth, the slots are de-duplicated and sorted by start. The method
  `GetReservationTimes` keeps the loop and the chain of array operations. It
  is proved against the function `ReservationTimesAsWritten`, whose
  properties are proved as lemmas. `ReservationTimes` is the same computation
  with the corrected filter of the first finding below; the general lemmas
  are stated of both.
- **Ticket ordering** (`tickets.dfy`). `sortWaitings` and `sortReservations`
  put tickets into five status groups, in the order serving, ready, queue,
  done, canceled. Only the queue group is re-sorted, by `created_date` or
  `from`, using `sortArrayByDate`. That function sorts its array in place and
  is modelled as a method on an `array`.
- **Shift status** (`shift_status.dfy`). `isWithinShift` reports whether a
  branch is open at the current instant, using its weekly shift template.
- **Prices** (`pricing.dfy`, `clock_strings.dfy`). `getPriceWithVat`,
  `isPriceModifierEligible` and `calculatePriceWithModifiers` are modelled.
  The eligibility test compares "HH:mm" strings, and `clock_strings.dfy`
  models those strings and JavaScript's string `<=`.
- **Initials** (`initials.dfy`). `getInitials` is modelled.
- `seqs.dfy` and `sorting.dfy` model `Array.prototype.filter`, the
  `findIndex` de-duplication and the stable `Array.prototype.sort`.
  `calendar.dfy` holds the day, weekday and shift-template conventions.

Conventions. Days are numbered consecutively, and day 0 is a Sunday. Every day
has 1440 minutes. A time of day is in minutes past midnight. A slot is in
absolute minutes, `day * 1440 + minute`. The clock `now` and the busy
intervals are in milliseconds, because the code compares full `Date` values.
The clock is a parameter, and so is the time zone conversion, which is already
applied to it. An Invalid Date is `None`. Every date-fns comparison with an
Invalid Date is false.

Where the code differs from what a scheduler might be expected to do, the
model follows the code:
- Slots are generated from midnight of the selected date, not from the start
  of a shift. Only the selected weekday's shifts are consulted, and a shift
  never runs into the next day.
- A slot that ends exactly when a busy interval starts counts as overlapping
  it (`OverlapsCharacterized`).
- Today's "past" test compares the slot's end, not its start, with `now`.
- When an employee is required, the reserved intervals are not consulted at
  all (`ReservedTimesIgnored`).
- The filter as written judges a wrapped end as 00:00 of the selected date.
  `GetReservationTimes` keeps that filter (`Keep`). The consequences are
  reported under Findings, and `ReservationTimes` with `KeepFixed` is the
  corrected computation.

## Model

| member | source | states |
|---|---|---|
| Seqs.Filter | src/utils.ts:376-480 | every kept element is an input element that passes the callback, and every input element that passes it is kept |
| Seqs.FilterSubsequence | src/utils.ts:376-480 | the kept elements are in input order: the result is a subsequence of the input |
| Seqs.FilterMultiset | src/utils.ts:376-480 | each value that passes the callback is kept as often as the input has it, and every other value not at all |
| Seqs.Dedupe | src/utils.ts:497-507 | keeping the first occurrence of each slot gives a duplicate-free list with exactly the input's members, ordered by where each first occurs in the input |
| Seqs.FirstIndex | src/utils.ts:501-505 | `findIndex` finds the position of the first element equal to the one sought: it holds that element and no earlier position does |
| Sorting.SortBy | src/utils.ts:509-512 | the sort returns a permutation of its input, ordered by the key |
| Sorting.SortByStable | src/utils.ts:149-154 | the sort is stable: elements with equal keys keep their relative order |
| ReservationTimes.RebuildSpan | src/utils.ts:483-495 | a rebuilt slot starts at the candidate's start on the selected date and lasts the clockwise distance from start to end, so a wrapped end moves to the next day |
| ReservationTimes.RebuildAll | src/utils.ts:483-495 | the `map` keeps the number of candidates and turns the candidate at each position into the slot at that position, which starts at the candidate's start on the selected date and lasts the clockwise distance from its start to its end |
| ReservationTimes.GetReservationTimes | src/utils.ts:314-516 | the loop and the array chain compute `ReservationTimesAsWritten`; the list is sorted by start and has no duplicates; a slot is listed exactly when a generated candidate passes the filter as written (`Keep`) and rebuilds to it |
| ReservationTimes.GenerateCandidates | src/utils.ts:334-372 | the generation loop pushes exactly `Candidates`: one pair per step from midnight whose end is not before `now` on today, then the late `23:00`-`00:00` pair on today |
| ReservationTimes.ReservationTimesOrdered | src/utils.ts:497-512 | the result as written, and the corrected result, are sorted by `from` and free of duplicate `{ from, to }` pairs |
| ReservationTimes.PipelineSound | src/utils.ts:374-512 | filter, map, de-duplication and sort invent no slot: every output slot is a kept candidate rebuilt |
| ReservationTimes.PipelineComplete | src/utils.ts:374-512 | and they lose none: every kept candidate's rebuilt slot is in the output |
| ReservationTimes.Overlaps | src/utils.ts:417-465 | the busy-overlap test: an interval with an Invalid Date bound never conflicts, and for a proper slot and busy interval it conflicts exactly when the busy interval starts no later than the slot's end and ends after the slot's start |
| ReservationTimes.Keep | src/utils.ts:376-480 | as written, a kept candidate's start and end, as times of day, lie inside a shift of the selected weekday and inside the window; so an end that wrapped to `00:00` is compared as minute 0 |
| ReservationTimes.ReservationTimesMembers | src/utils.ts:374-512 | as written, a slot is returned if and only if some candidate passes `Keep` and rebuilds to it; corrected, the same with `KeepFixed` |
| ReservationTimes.GenerateMembers | src/utils.ts:341-365 | a pair is generated exactly when it is the pair of some step k (start k·d, end (k+1)·d, as times of day) whose start is within the day and which has not ended before `now` on today |
| ReservationTimes.CandidatesMembers | src/utils.ts:341-372 | the candidates are the generated step pairs plus, exactly when the date is today, `23:00`–`00:00` |
| ReservationTimes.ReservationTimesShape | src/utils.ts:341-372 | for a duration under a day, every slot of the result as written or corrected starts within the selected day, ends after it starts, and lasts exactly the duration, except today's appended `23:00`–`24:00` slot |
| ReservationTimes.SameKeepSameTimes | src/utils.ts:376-480 | two requests whose filters as written keep the same candidates return the same slots |
| ReservationTimes.SameKeepFixedSameTimes | src/utils.ts:376-480 | corrected: two requests whose corrected filters keep the same candidates get the same slots |
| ReservationTimes.EmployeeTimesIgnored | src/utils.ts:466-479 | without `isRequireEmployee` the employee intervals do not affect the result, as written or corrected |
| ReservationTimes.ReservedTimesIgnored | src/utils.ts:466-473 | with `isRequireEmployee` the reserved intervals do not affect the result, as written or corrected |
| ReservationTimes.OnlySelectedWeekdayShifts | src/utils.ts:383-385 | only the selected weekday's entry of `workingShifts` affects the result, as written or corrected |
| ReservationTimes.OverlapsCharacterized | src/utils.ts:417-431 | for a proper slot and busy interval, the three-way overlap test is `busyStart <= end && start < busyEnd`, so touching at the busy start conflicts and touching at the busy end does not |
| ReservationTimes.InvalidBusyNeverOverlaps | src/utils.ts:417-419 | a busy interval with a null or unparsable bound never conflicts |
| ReservationTimes.LateSlotOffered | src/utils.ts:376-480 | as written: with hour-long slots, on a date other than today, `23:00`–`24:00` is offered whenever a shift and the window start by 23:00, however early they end, and no busy interval overlaps `23:00`–`00:00` read on the selected date |
| ReservationTimes.LateSlotOutsideShiftOffered | src/utils.ts:376-414 | as written: a Monday 09:00–17:00 branch is offered `23:00`–`24:00` |
| ReservationTimes.LateBusyMissed | src/utils.ts:417-431 | as written: a busy interval strictly inside `23:00`–`24:00` does not conflict with an end read as `00:00` of the selected date, although it overlaps the rebuilt slot |
| ReservationTimes.LateSlotOverReservationOffered | src/utils.ts:376-480 | as written: the Monday 09:00–17:00 branch with a reservation 23:30–23:45 is still offered `23:00`–`24:00`, which overlaps it |
| ReservationTimes.LateCandidateNeverKeptFixed | src/utils.ts:367-372 | corrected: when every shift ends by 23:59, the appended `23:00`–`00:00` pair is never kept |
| ReservationTimes.LateCandidateKeptOnlyAsWritten | src/utils.ts:367-414 | on a Monday open 00:00–23:59 the appended pair passes the filter as written and not the corrected one |
| ReservationTimes.OvernightKeptOnlyAsWritten | src/utils.ts:376-414 | on a Monday with an overnight 22:00–02:00 shift and window, the wrapped `23:00`–`00:00` pair, which lies inside that shift, passes the filter as written and not the corrected one |
| ReservationTimes.KeepFixedAgreesUnwrapped | src/utils.ts:376-480 | the corrected filter agrees with the written one on every candidate whose end did not wrap past midnight |
| ReservationTimes.ReservationTimesContained | src/utils.ts:376-480 | corrected: every slot offered lies inside a shift of the selected weekday and inside the reservation window, and overlaps no blocked interval and no reserved (or employee-busy) interval |
| ReservationTimes.LateSlotOutsideShiftRefused | src/utils.ts:376-414 | corrected: the Monday 09:00–17:00 branch is no longer offered `23:00`–`24:00` |
| Tickets.GroupOf | src/utils.ts:158-171 | the five status filters partition the tickets: every ticket passes exactly one of them |
| Tickets.SortedByDate | src/utils.ts:144-155 | a permutation of the array, ordered by the date key ascending or descending as requested |
| Tickets.SortArrayByDate | src/utils.ts:144-155 | the array is sorted in place into `SortedByDate` of its old contents, and the same array is returned |
| Tickets.SortByStatus | src/utils.ts:157-174 | the five status filters concatenated with the queue sorted: every ticket listed is an input ticket; the permutation, group order and order within groups are the lemmas below |
| Tickets.SortByStatusPermutation | src/utils.ts:157-174 | the grouped output is a permutation of the input: no ticket is lost or repeated |
| Tickets.SortByStatusGroupOrder | src/utils.ts:173 | the groups appear in the order serving, ready, queue, done, canceled |
| Tickets.SortByStatusGroups | src/utils.ts:157-174 | the queue tickets in the output are sorted by date, and every other group's tickets are in input order |
| Tickets.SortWaitings | src/utils.ts:157-174 | a permutation of the waitings, in group order, with the queue sorted by `created_date` |
| Tickets.SortReservations | src/utils.ts:176-193 | a permutation of the reservations, in group order, with the queue sorted by `from` |
| ShiftStatus.FindShift | src/utils.ts:237-241 | `find` returns the first shift containing `now` (both ends included), or none when no shift contains it |
| ShiftStatus.IsWithinShift | src/utils.ts:226-258 | as written: open if and only if a shift of today contains `now`, closed otherwise, and never closing soon |
| ShiftStatus.ClosingSoonNeverReported | src/utils.ts:245-256 | as written: 16:30 on a Monday with a 09:00–17:00 shift is reported open |
| ShiftStatus.IsWithinShiftIntended | src/utils.ts:245-256 | corrected: closed exactly when no shift of today contains `now`; closing soon exactly when the containing shift ends in less than an hour |
| ShiftStatus.IntendedRefinesWritten | src/utils.ts:245-256 | the corrected check differs from the written one only where it reports closing soon and the written one reports open |
| ShiftStatus.ClosingSoonReportedWhenIntended | src/utils.ts:245-256 | corrected: 16:30 on that Monday is closing soon |
| ClockStrings.FormatOrder | src/calculations.ts:131-136 | on "HH:mm" texts, JavaScript's string `<=` orders them as the minutes they show |
| ClockStrings.FormatHHmm | src/calculations.ts:131 | `toTimeString().slice(0, 5)` gives five characters, two decimal digits for the hour, a colon and two for the minute, which read back as the hour and minute of the day |
| Pricing.GetPriceWithVat | src/calculations.ts:7-10 | without a numeric positive rate the price is unchanged; with one, the result exceeds the price by that percentage of it, and is at least the price when the price is non-negative |
| Pricing.VatRoundTrip | src/calculations.ts:7-10 | taking the VAT back off the result gives the original price |
| Pricing.AnyRangeMatches | src/calculations.ts:144-146 | `some` holds exactly when one of the time ranges contains the time |
| Pricing.IsPriceModifierEligible | src/calculations.ts:122-148 | eligible if and only if active, all three lists present and containing the date's weekday, day of month and month, and some time range containing its "HH:mm"; an inactive modifier or a missing list is never eligible |
| Pricing.TimeRangeMinutes | src/calculations.ts:131-146 | a range of "HH:mm" texts contains exactly the minutes between its ends, and a range that wraps past midnight contains none |
| Pricing.EligibleMinutes | src/calculations.ts:122-148 | when each range is stored as the "HH:mm" texts of two minutes of the day, a date is eligible exactly when the modifier is active, its three lists contain the date's weekday, day of month and month, and its minute lies between the two ends of some range, both included |
| Pricing.CalculatePriceWithModifiers | src/calculations.ts:99-117 | the loop returns the base price times one plus the eligible modifiers' summed percentages over 100: each increase is taken of the base, without compounding |
| Pricing.TotalIncreasePermutation | src/calculations.ts:110-114 | the summed increase does not depend on the modifiers' order |
| Pricing.ModifierOrderIrrelevant | src/calculations.ts:99-117 | reordering the modifiers does not change the price |
| Pricing.IneligibleModifierIgnored | src/calculations.ts:104-107 | inserting a modifier that is not eligible on the date does not change the price |
| Pricing.NoEligibleModifierKeepsBase | src/calculations.ts:104-116 | with no eligible modifier the price is the base price |
| Initials.ReplaceFirstWhitespaceRun | src/utils.ts:87 | a name without whitespace is unchanged |
| Initials.ReplaceDecomposed | src/utils.ts:87 | exactly the first whitespace run becomes one space |
| Initials.Split | src/utils.ts:88 | `split` gives at least one piece, none containing the separator |
| Initials.SplitJoin | src/utils.ts:88 | joining the pieces with the separator gives the string back |
| Initials.ToUpper | src/utils.ts:90 | `toUpperCase` maps `a`–`z` to `A`–`Z` and leaves every other character unchanged |
| Initials.Initial | src/utils.ts:90 | `v && v[0].toUpperCase()`: an empty part gives the empty text, any other part its first character upper-cased |
| Initials.FirstTwoInitials | src/utils.ts:89-91 | `slice(0, 2)`, `map` and `join`: the initial of the first part, followed by that of the second when there is one |
| Initials.GetInitials | src/utils.ts:85-92 | the initials are at most two characters |
| Initials.OneWordInitials | src/utils.ts:85-92 | a non-empty name without whitespace has one initial, its first letter upper-cased |
| Initials.TrailingWhitespaceInitials | src/utils.ts:85-92 | a word followed only by whitespace has the word's initial alone: the empty second part adds nothing |
| Initials.EmptyNameInitials | src/utils.ts:85-92 | the empty name has no initials |
| Initials.WhitespaceNameInitials | src/utils.ts:85-92 | a name made only of whitespace has no initials |
| Initials.TwoWordInitials | src/utils.ts:85-92 | a name made of a word, whitespace and a second word has the upper-cased first letters of the two words as initials, whatever follows |
| Initials.LeadingWhitespaceInitials | src/utils.ts:85-92 | a name that starts with whitespace has an empty first part and gets one initial only |

## Left out

- The clock (`new Date()`) and `utcToZonedTime` are parameters: `now` is an instant already in the branch's time zone.
- Daylight-saving changes and date-fns internals are left out: every day has 1440 minutes.
- `setHours` on the caller's `selectedDate` is not modelled. The rebuilt slots are computed on values, and the caller's `Date` object is not.
- ReservationTimes.Rebuild: slots are whole minutes. `setHours(h, m, 0)` keeps the milliseconds of `selectedDate`, so every returned `from` and `to` carries them (23:00:00.123 when `selectedDate` was taken from the clock); the model drops that sub-second part.
- ReservationTimes.KeepFixed: the correction judges today's appended `23:00`–`00:00` pair on its rebuilt end, midnight of the next day, which no shift end below 24:00 reaches, so the corrected computation never offers that pair (`LateCandidateNeverKeptFixed`). It also reads every shift's end on the selected date, so a wrapped slot inside an overnight shift is refused: a Monday 22:00–02:00 shift and window keep `23:00`–`00:00` as written and refuse it corrected (`OvernightKeptOnlyAsWritten`); overnight shifts are not modelled by the correction. The source appends it on purpose, and how it was meant to be judged is not evident; the corrected half states only that slots are contained in their shift and window.
- The duration "HH:mm" is given in minutes. `GetReservationTimes` requires a positive duration, because with zero or a negative duration the source's generation loop never ends.
- Shift, window and duration strings are taken to be well-formed "HH:mm" texts. A malformed one would make an Invalid Date and is not modelled.
- ShiftStatus.IsWithinShift: requires every shift of the current day to end no earlier than it starts. A reversed shift goes to date-fns's `isWithinInterval`, whose handling is not part of this model.
- `isWithinWaitingTimeRange`, `licenseValidity`: they read the clock and call date-fns; not part of this model.
- `calculateItem`, `calculateCart`: they depend on `absoluteNumber`, `sumArray` and ticket types that are not part of this model.
- `percentOf`, `toFixed`, `millisToMinsAndSecs`, `isLimitByTicketNearEnd`: floating-point division and rounding.
- `isLimitByTicketEnded`: a single comparison `used >= total`, with nothing to state beyond its body.
- Pricing: prices are `real`s. This is exact where JavaScript's floating-point numbers round, and the model has no `NaN`. `toNumber` is therefore the identity, and a VAT argument that is not a number is `None`.
- Pricing.IsPriceModifierEligible: takes the date's weekday, day of month, month and minute of the day as integers instead of a `Date`.
- ClockStrings.LexLe: compares Unicode scalar values. JavaScript compares UTF-16 code units, and the two orders differ only between characters outside the Basic Multilingual Plane and those from U+E000 up.
- Initials.GetInitials: upper-cases the ASCII letters only. Other letters are left unchanged, and JavaScript's one-to-many case mappings are not modelled. A character of the model is a Unicode scalar value, while JavaScript's `v[0]` is one UTF-16 code unit: for a part starting with a character outside the Basic Multilingual Plane ("😀 Ann") the source takes a lone high surrogate, and the model (`Initials.Initial`) the whole character.
- Busy intervals with a `null` bound: `parseISO` gives an Invalid Date, and the model takes as an assumption that such an interval never conflicts (`InvalidBusyNeverOverlaps`).
- `convertToDate` in `sortArrayByDate` is not modelled: the sort key is the date in milliseconds.
- Dynamic-object utilities (`cleanObject`, `filterNestedObject`, `isDeepEqual`, `jsonParse`, `getUniqueUid`, `convertFromGeoPoint`), `src/setters.ts`, the role and permission tables, payment declarations, `src/awaitable.ts` and `src/index.ts` are not part of this model.

## Findings

| source | as written | input that shows it | evidently intended | confidence | as-written member | corrected member |
|---|---|---|---|---|---|---|
| src/utils.ts:376-414 | the filter parses a candidate's end "00:00", after the end wrapped past midnight, as 00:00 of the selected date. That instant is at or before every shift's and window's end, so the containment checks pass for any shift and window that start by 23:00 | a Monday with a 09:00–17:00 shift and window, hour-long slots, asked on an earlier day: `23:00`–`24:00` is offered; the same Monday with a reservation 23:30–23:45: `23:00`–`24:00` is still offered (`LateSlotOverReservationOffered`) | containment and overlap are judged on the slot as rebuilt, ending at midnight of the next day; this also refuses today's appended `23:00`–`00:00` pair, whose intended treatment is not evident, and a wrapped slot inside an overnight shift (`OvernightKeptOnlyAsWritten`; see Left out) | not executed | ReservationTimes.LateSlotOutsideShiftOffered | ReservationTimes.ReservationTimesContained |
| src/utils.ts:253-255 | `duration.hours && duration.hours < 1` needs a whole-hour count that is non-zero and below one, which no count is, so closing soon is never reported | a Monday with a 09:00–17:00 shift, at 16:30: reported open | closing soon when less than an hour of the shift is left | not executed | ShiftStatus.ClosingSoonNeverReported | ShiftStatus.IsWithinShiftIntended |
