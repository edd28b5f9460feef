# Timeshifter circadian schedule engine in Dafny

This project models the circadian day and week schedule engine of Timeshifter
(`lib/circadian.ts`), the midnight splitter of its timeline view (`lib/viz.ts`) and the pure
part of its schedule API route (`app/api/schedule/route.ts`), and proves properties of the
model.

What each part of the model covers:

- **Times** are "HH:MM" texts. `toMin` and `toTime` are defined once, because `viz.ts`
  repeats the engine's two definitions with identical bodies (written there as function
  declarations rather than arrow constants). The route's own
  `timeToMinutes` lacks the `% 24`. It is modelled separately, together with where it agrees
  with `toMin` and where it does not.
- **The energy curve** clamps a per-minute value into [0, 1] and masks the asleep window.
- **The slot finder** walks a pointer from wake over the fixed blocks sorted by start. It
  emits each gap of at least 30 minutes, and then the gap up to sleep. Its averaging helper
  is never given a curve, so every slot's energy is 0.5.
- **The greedy placer** makes three passes over the slots sorted by descending energy:
  focus, then exercise, then break. The passes share a set of used slot indices. The model
  proves that they give every slot exactly the first-fit placement it would get on its own.
- **The day assembler** builds the sleep block `[sleep, wake)`, one block per commitment and
  one generated block per free slot, all stably sorted by start.
- **The week assembler** builds seven dated days from the week start (given, or the Monday
  of `today`). Each day is the daily schedule of the commitments that apply that day, with
  its duration, its confidence, the rounded mean confidence and the weekly advice.
- **The timeline view** cuts blocks that cross midnight into two pieces and sorts the pieces
  by start minute.
- **The API route** covers the validation order (missing fields, chronotype, commitments),
  the daily and weekly response shapes, its NaN-propagating duration sum, and its daily
  advice rules.

These properties are proved about the engine as written:

- No free slot ever reaches the morning type's focus threshold of 0.6, so a morning type
  never gets a focus block and always draws the advice to add some.
- With no commitments and sleep at least 30 minutes after wake, the sleep block never moves
  the finder's pointer (it ends at wake). The wake-to-sleep gap is therefore found twice:
  `buildSchedule("07:00", "23:00", intermediate, [])` holds two identical 07:00-08:30 focus
  blocks and the night.
- With no commitments, sleep numerically before wake (09:00 / 01:00) leaves no free slot at
  all.

Dates are day numbers: day 0 is 1970-01-01, a Thursday. Advice texts are constructors of
`Types.Advice`. JavaScript's stable `Array.prototype.sort` is modelled by an
insertion sort (`Sorting.SortBy`) whose stability is proved.

## Model

| member | source | states |
|---|---|---|
| TimeText.ParseNumber | timeshifter/lib/circadian.ts:4 | `Number` of a field is a number exactly when the field is all decimal digits |
| TimeText.ClockFields | timeshifter/lib/circadian.ts:4 | the two fields of a "DD:DD" text read as its two digit pairs |
| TimeText.MinuteOf | timeshifter/lib/circadian.ts:3-6 | the minute the engine reads from a time lies in [0, 1440) |
| TimeText.ClockToMin | timeshifter/lib/circadian.ts:3-6 | on a clock text `toMin` is a number, hours times 60 plus minutes |
| TimeText.JsRem | timeshifter/lib/circadian.ts:9 | JavaScript's `%` lies strictly between `-b` and `b`, is at most 0 for a negative dividend, and agrees with the Euclidean remainder on non-negative values |
| TimeText.JsRemCongruent | timeshifter/lib/circadian.ts:9 | JavaScript's `% 1440` differs from its operand by whole days |
| TimeText.NormaliseIsResidue | timeshifter/lib/circadian.ts:9 | `((m % 1440) + 1440) % 1440` with JavaScript's `%` is the residue of `m`, negatives included |
| TimeText.ToTime | timeshifter/lib/circadian.ts:8-13 | `toTime` always gives a zero-padded "HH:MM" with HH <= 23 and MM <= 59, naming `m` modulo 1440 |
| TimeText.ToTimeIsPeriodic | timeshifter/lib/circadian.ts:8-13 | `toTime` depends only on its argument modulo one day |
| TimeText.ToMinOfToTime | timeshifter/lib/circadian.ts:3-13 | `toMin(toTime(m)) == ((m % 1440) + 1440) % 1440` |
| TimeText.ToTimeOfToMin | timeshifter/lib/circadian.ts:3-13 | `toTime(toMin(t)) == t` for every clock text |
| TimeText.ClockInjective | timeshifter/lib/circadian.ts:3-6 | two clock texts that name the same minute are equal |
| TimeText.TimeToMinutesAgreement | timeshifter/app/api/schedule/route.ts:153-156 | `timeToMinutes` equals `toMin` exactly when the hour field is a number below 24, and both are NaN when the hour field is not a number |
| TimeText.TimeToMinutesOnClock | timeshifter/app/api/schedule/route.ts:153-156 | on a clock text `timeToMinutes` gives the engine's minute |
| TimeText.TimeToMinutesDiverges | timeshifter/app/api/schedule/route.ts:153-156 | "24:00" is minute 0 for `toMin` but 1440 for `timeToMinutes` |
| TimeText.WrapDuration | timeshifter/lib/circadian.ts:359 | the duration rule gives 1 to 1440 minutes for in-range minutes, is congruent to end - start, and is 1440 exactly when start equals end |
| Energy.Clamp | timeshifter/lib/circadian.ts:33 | the clamp lands in [0, 1], keeps values already inside, and sends values below 0 to 0 and above 1 to 1 |
| Energy.AsleepIsCircularWindow | timeshifter/lib/circadian.ts:34 | the two-branch asleep test is membership of the circular interval from sleep forward to wake |
| Energy.SinceWake | timeshifter/lib/circadian.ts:29 | minutes since wake lie in [0, 1440) and are congruent to m - w |
| Energy.EnergyCurve | timeshifter/lib/circadian.ts:16-38 | the curve has 1440 entries in [0, 1], exactly 0 in the asleep window and the clamped raw value elsewhere |
| Energy.RangeSumBounds | timeshifter/lib/circadian.ts:94-97 | a sum of `count` curve values in [0, 1] lies in [0, count] |
| Energy.AverageEnergy | timeshifter/lib/circadian.ts:88-100 | the average is 0.5 without a curve or over an empty range, and lies in [0, 1] for a curve in [0, 1] |
| Energy.AverageOfFlatCurve | timeshifter/lib/circadian.ts:88-100 | over a non-empty range a curve that is constant at `v` averages to `v` |
| Rounding.Round2 | timeshifter/lib/circadian.ts:369 | rounding to hundredths moves a value by at most half a hundredth and keeps [0, 1] |
| Rounding.Round2HasTwoDecimals | timeshifter/lib/circadian.ts:369 | a rounded value is a whole number of hundredths |
| Rounding.Round2Idempotent | timeshifter/lib/circadian.ts:369 | rounding a rounded value changes nothing |
| Sorting.SortBy | timeshifter/lib/circadian.ts:259 | the sort by start is a sorted permutation of its input |
| Sorting.SortIsStable | timeshifter/lib/circadian.ts:259 | the sort keeps equal-keyed elements in their input order |
| Sorting.Filter | timeshifter/lib/circadian.ts:329 | `filter` keeps exactly the accepted elements, as many as are accepted |
| Types.PrefsOf | timeshifter/lib/circadian.ts:112-125 | every activity threshold lies in [0, 1] and every activity lasts at least 45 minutes |
| Durations.TotalDuration | timeshifter/lib/circadian.ts:355-362 | every block counts between 1 and 1440 minutes towards the total |
| Durations.BlockMinutesReadsToMin | timeshifter/lib/circadian.ts:357-360 | on a clock block the duration is the wrap-around rule applied to `toMin` of both ends |
| Durations.TotalDurationIsSum | timeshifter/lib/circadian.ts:355-362 | the total is the sum of the blocks' wrap-around durations |
| Durations.TotalDurationPermutation | timeshifter/lib/circadian.ts:355-362 | the total does not depend on the order of the blocks |
| Durations.TotalDurationAppend | timeshifter/lib/circadian.ts:355-362 | the total of two schedules joined is the sum of their totals |
| Confidence.ConfidenceSumPermutation | timeshifter/lib/circadian.ts:368 | the confidence sum does not depend on block order |
| Confidence.DailyConfidence | timeshifter/lib/circadian.ts:365-370 | an empty schedule's confidence is 0, and confidences in [0, 1] give a result in [0, 1] |
| Confidence.DailyConfidenceNearMean | timeshifter/lib/circadian.ts:365-370 | a non-empty schedule's confidence is within half a hundredth of its mean block confidence |
| Confidence.UniformConfidence | timeshifter/lib/circadian.ts:365-370 | when every block has confidence c, the daily confidence is c rounded |
| Slots.Walk | timeshifter/lib/circadian.ts:69 | the slot pointer never decreases |
| Slots.GoodMakeSlot | timeshifter/lib/circadian.ts:59-66 | a gap of at least `minDuration` from a pointer at or after wake gives a clock slot with that duration and energy 0.5 |
| Slots.StepFacts | timeshifter/lib/circadian.ts:53-70 | one loop iteration keeps the pointer in [wake, 1440) and appends at most one good slot, which ends where the block starts |
| Slots.WalkPointer | timeshifter/lib/circadian.ts:53-70 | after the loop the pointer is in [wake, 1440) and at or after the end of every passed block |
| Slots.WalkSlots | timeshifter/lib/circadian.ts:53-70 | the loop only appends slots, at most one per block, each good and ending where a block starts |
| Slots.WalkToSleepFacts | timeshifter/lib/circadian.ts:50-84 | the loop plus the final gap give at most one slot more than there are blocks, each good and ending at sleep or at a block's start |
| Slots.FindAvailableSlots | timeshifter/lib/circadian.ts:41-85 | at most one slot per fixed block plus one; every slot is a clock interval starting at or after wake, lasting end - start >= `minDuration`, with energy 0.5; it ends at sleep or where a fixed block starts. Conversely, with the blocks sorted by start, every gap of at least `minDuration` between the latest end so far (or wake) and a block's start is emitted, and so is such a gap up to sleep |
| Slots.MaxEnd | timeshifter/lib/circadian.ts:69 | the latest of wake and the passed blocks' ends is at least each of them and equal to one of them |
| Slots.WalkPointerIsMaxEnd | timeshifter/lib/circadian.ts:53-70 | after the loop the pointer is exactly the latest of its start and the passed blocks' ends |
| Slots.WalkFindsGap | timeshifter/lib/circadian.ts:53-70 | the loop emits the gap before block `i`, from the latest end among the first `i` blocks, whenever it lasts at least `minDuration` |
| Slots.SleepOnlySlots | timeshifter/lib/circadian.ts:48-84 | with only the sleep block, there are two identical wake-to-sleep slots when sleep is at least `minDuration` after wake, and none otherwise |
| Placer.Placement | timeshifter/lib/circadian.ts:133-200 | the per-slot first-fit policy: focus if it fits, else exercise if it fits, else a whole-slot break when the slot has at least 15 minutes, each with its duration and confidence |
| Placer.ActivityPassMarksOwn | timeshifter/lib/circadian.ts:152 | a pass marks as used only the indices of slots it visits |
| Placer.ActivityPassSelects | timeshifter/lib/circadian.ts:133-178 | the focus (exercise) pass emits exactly the blocks of the slots whose first fit is focus (exercise) and then marks exactly the slots of that rank or lower |
| Placer.BreakPassSelects | timeshifter/lib/circadian.ts:180-200 | the break pass emits exactly the blocks of the slots whose first fit is a break |
| Placer.SelectionsCoverPlacements | timeshifter/lib/circadian.ts:133-200 | together the three selections hold each slot's placement once |
| Placer.EnergyOrderIndices | timeshifter/lib/circadian.ts:130 | sorting by descending energy keeps the slot indices distinct |
| Placer.PlacementCount | timeshifter/lib/circadian.ts:184 | the slots that get a block are exactly those of at least 15 minutes |
| Placer.PassesAreFirstFit | timeshifter/lib/circadian.ts:129-200 | the three passes together place exactly each slot's first-fit block, as a multiset |
| Placer.PlacedComeFromSlots | timeshifter/lib/circadian.ts:133-200 | every placed block is the first-fit placement of some slot |
| Placer.PlaceActivityBlocks | timeshifter/lib/circadian.ts:103-203 | `placeActivityBlocks` holds each slot's first-fit block once, one per slot of at least 15 minutes |
| Placer.ActivityWithinSlot | timeshifter/lib/circadian.ts:136-141 | a focus or exercise block starts at the slot start, lasts exactly its preferred duration and ends inside the slot |
| Schedule.FixedAreClockBlocks | timeshifter/lib/circadian.ts:212-251 | the sleep and commitment blocks are clock blocks with confidence 1.0 |
| Schedule.FixedFacts | timeshifter/lib/circadian.ts:212-251 | the fixed blocks hold the sleep block once and every commitment's block, and no generated kind |
| Schedule.PlacedBlockFacts | timeshifter/lib/circadian.ts:136-198 | a block placed in a free slot is a generated kind with clock ends, starts at or after wake and has confidence 0.5 |
| Schedule.GeneratedFacts | timeshifter/lib/circadian.ts:254-255 | one generated block per free slot, each with the facts above |
| Schedule.Assemble | timeshifter/lib/circadian.ts:258-259 | the combined blocks come out as a sorted permutation of fixed plus generated |
| Schedule.AssembledFacts | timeshifter/lib/circadian.ts:258-259 | membership, length and every label count of the combined schedule add up from its two parts |
| Schedule.GeneratedKindCounts | timeshifter/lib/circadian.ts:138-198 | focus, exercise and break counts of the generated blocks add up to their number |
| Schedule.ScheduleCounts | timeshifter/lib/circadian.ts:206-260 | the day's block and label counts |
| Schedule.ScheduleBlocks | timeshifter/lib/circadian.ts:206-260 | every block of the day is a clock block with confidence in [0, 1]; every generated block is a slot's placement |
| Schedule.BuildSchedule | timeshifter/lib/circadian.ts:206-260 | `buildSchedule` is a sorted permutation of the fixed and the generated blocks: exactly one sleep block `[sleep, wake)`, one block per commitment, one generated block per free slot (its first-fit placement, at or after wake, confidence 0.5), all confidences in [0, 1] |
| Schedule.MorningSlotNotFocus | timeshifter/lib/circadian.ts:114 | a slot of energy 0.5 never gets the morning type's focus block |
| Schedule.PlacedNotFocus | timeshifter/lib/circadian.ts:114 | a schedule whose generated blocks are morning placements in slots of energy 0.5 holds no focus block |
| Schedule.MorningBlockNotFocus | timeshifter/lib/circadian.ts:206-260 | no block of a morning type's day is a focus block |
| Schedule.MorningNeverFocus | timeshifter/lib/circadian.ts:206-260 | a morning type's day has no focus block, whatever the times and commitments |
| Weekly.Weekday | timeshifter/lib/circadian.ts:326 | `getDay` is in 0..6 |
| Weekly.GetWeekStart | timeshifter/lib/circadian.ts:318-322 | `getWeekStart` is a Monday, 0 to 6 days back |
| Weekly.WeekStartOfWeek | timeshifter/lib/circadian.ts:318-322 | every day of a week maps back to that week's Monday |
| Weekly.AppliesExactly | timeshifter/lib/circadian.ts:329-346 | a commitment applies unless it is weekly and the day is a Saturday or Sunday |
| Weekly.FilterCommitmentsForDay | timeshifter/lib/circadian.ts:325-347 | the filtered commitments are exactly those that apply that day, and all of them from Monday to Friday |
| Weekly.FilterPreservesOrder | timeshifter/lib/circadian.ts:329 | the filter keeps the applying commitments in order, as many as apply |
| Weekly.MakeDay | timeshifter/lib/circadian.ts:287-296 | a day's confidence is in [0, 1] when its blocks' confidences are |
| Weekly.ConfidenceTotalBounds | timeshifter/lib/circadian.ts:300 | the sum of n daily confidences in [0, 1] lies in [0, n] |
| Weekly.WeeklyRecommendations | timeshifter/lib/circadian.ts:373-414 | the weekly advice uses only the warnings, optimizations and suggestions of its rule table |
| Weekly.WeeklyConfidenceAdvice | timeshifter/lib/circadian.ts:381-392 | the low-confidence warning is given exactly when the mean daily confidence is below 0.6, and the excellent-week note exactly when it is above 0.8 |
| Weekly.WeeklyAdviceExactly | timeshifter/lib/circadian.ts:382-411 | the focus, exercise and chronotype advice is given exactly when its threshold is crossed |
| Weekly.ScaledThreshold | timeshifter/lib/circadian.ts:381-392 | comparing a mean with a threshold is comparing the total with the threshold times the count |
| Weekly.MeanDailyConfidenceBounds | timeshifter/lib/circadian.ts:300 | the mean of daily confidences in [0, 1] lies in [0, 1] |
| Weekly.OverallConfidence | timeshifter/lib/circadian.ts:300-311 | the overall confidence is within half a hundredth of the mean daily confidence, and in [0, 1] |
| Weekly.DaysFrom | timeshifter/lib/circadian.ts:277-297 | the day loop gives n consecutive dated days, each with its schedule, duration and confidence in [0, 1] |
| Weekly.ScheduleOfDay | timeshifter/lib/circadian.ts:281-285 | a day's schedule is the daily schedule of the commitments that apply that day |
| Weekly.WeekFrom | timeshifter/lib/circadian.ts:270-314 | a week is seven consecutive dated days with their metrics, start and end six days apart, the overall confidence in [0, 1], and the weekly advice |
| Weekly.BuildWeeklySchedule | timeshifter/lib/circadian.ts:263-315 | `buildWeeklySchedule` starts at the given week start or at the Monday on or before today, and is the week of the per-day schedules |
| Weekly.WorkdayScheduleIsDaily | timeshifter/lib/circadian.ts:333-336 | from Monday to Friday a day's schedule is the daily schedule of all commitments |
| Weekly.MondayToFriday | timeshifter/lib/circadian.ts:326 | the first five days from a Monday are workdays |
| Weekly.MondayWeekWorkdays | timeshifter/lib/circadian.ts:277-285 | in a week from a Monday, the first five days share the workday schedule |
| Weekly.CurrentWeekWorkdays | timeshifter/lib/circadian.ts:270-285 | without a week start, Monday to Friday each carry the daily schedule of all commitments |
| Weekly.NoLabelAllWeek | timeshifter/lib/circadian.ts:382-383 | a label absent from every day is absent from the weekly count |
| Weekly.WeekWithoutLabel | timeshifter/lib/circadian.ts:382-383 | a label no day's schedule carries has weekly count 0 |
| Weekly.MorningDaysLackFocus | timeshifter/lib/circadian.ts:281-285 | no day of a morning type's week holds a focus block |
| Weekly.MorningWeekLacksFocus | timeshifter/lib/circadian.ts:394-396 | a morning type's week has no focus block and always draws the advice to add some |
| Viz.SplitAcrossMidnight | timeshifter/lib/viz.ts:52-85 | a non-wrapping block is one unchanged piece from toMin(start) to toMin(end). A wrapping block (end <= start) becomes [start, 1440) ending "23:59" and [0, end) starting "00:00". Each piece keeps the activity and lies within [0, 1440], and the lengths add up to the block's duration |
| Viz.SplitReadsToMin | timeshifter/lib/viz.ts:52-57 | on clock blocks the split reads both ends through `toMin`: a block wraps exactly when `toMin(end) <= toMin(start)`, and the pieces start at `toMin(start)` and end at `toMin(end)` |
| Viz.SplitCoversBlock | timeshifter/lib/viz.ts:52-85 | the pieces cover exactly the minutes the block occupies |
| Viz.SplitAllLength | timeshifter/lib/viz.ts:91-94 | splitting gives one piece per block plus one per wrapping block |
| Viz.SplitAllMinutes | timeshifter/lib/viz.ts:91-94 | the pieces span as many minutes as the blocks' total duration |
| Viz.NormalizeBlocks | timeshifter/lib/viz.ts:88-98 | `normalizeBlocks` is a stably sorted permutation of all pieces by start minute, one per block plus one per wrapping block |
| Viz.NormalizedMinutes | timeshifter/lib/viz.ts:88-98 | normalising keeps the total number of minutes |
| Viz.NightSplit | timeshifter/lib/viz.ts:48-51 | 23:00-07:00 becomes 1380-1440 and 0-420, and normalising puts the morning piece first |
| Route.ParseChronotype | timeshifter/app/api/schedule/route.ts:20-21 | a chronotype is accepted exactly when it is morning, intermediate or evening |
| Route.ChronotypeNameRoundTrip | timeshifter/app/api/schedule/route.ts:20-21 | every chronotype's name is accepted as that chronotype |
| Route.Validate | timeshifter/app/api/schedule/route.ts:10-39 | the missing-field error comes exactly when wake, sleep or chronotype is empty or absent. The chronotype error comes exactly when those are present and the name is unknown. The commitment error comes exactly when some commitment lacks start, end or title. Otherwise the request is accepted with its fields carried over and non-arrays read as no commitments |
| Route.NaNSum | timeshifter/app/api/schedule/route.ts:96-101 | a sum is a number exactly when every term is |
| Route.NaNSumOfNumbers | timeshifter/app/api/schedule/route.ts:96-101 | where no term is NaN the sum is the plain sum |
| Route.RouteTotalDuration | timeshifter/app/api/schedule/route.ts:95-102 | the route's total is a number exactly when every block's times parse |
| Route.RouteBlockOnClock | timeshifter/app/api/schedule/route.ts:97-99 | on a clock block the route's duration is the engine's |
| Route.RouteTotalDurationOnClocks | timeshifter/app/api/schedule/route.ts:95-102 | on clock blocks the route's total equals the engine's `calculateTotalDuration` |
| Route.RouteDurationDiverges | timeshifter/app/api/schedule/route.ts:95-102 | "00:00"-"25:00" lasts 1500 minutes for the route and 60 through `toMin` |
| Route.DailyRecommendations | timeshifter/app/api/schedule/route.ts:113-150 | the daily advice draws only from its rule table: at most three suggestions, one warning, one optimization |
| Route.DailyAdviceExactly | timeshifter/app/api/schedule/route.ts:121-147 | each daily advice is given exactly when its condition holds, and the two focus advices never come together |
| Route.DailyResponse | timeshifter/app/api/schedule/route.ts:65-81 | the daily branch returns the daily schedule, its duration, its confidence in [0, 1] and the daily advice, with no week |
| Route.FirstDayFacts | timeshifter/app/api/schedule/route.ts:50 | the week's first day is the daily schedule of the commitments applying on the week start |
| Route.WeeklyResponse | timeshifter/app/api/schedule/route.ts:44-64 | the weekly branch returns the week, its first day as the main schedule with that day's duration, and the week's overall confidence and advice |
| Route.Respond | timeshifter/app/api/schedule/route.ts:12-83 | a rejected request gets status 400 with its error; an accepted one gets the weekly or the daily response as requested |
| Route.CurrentWeekMainScheduleIsDaily | timeshifter/app/api/schedule/route.ts:44-81 | without a week start the weekly and daily responses have the same main schedule and duration |
| Route.MorningDailyAdvice | timeshifter/app/api/schedule/route.ts:126-127 | a morning type's daily response always suggests adding focus blocks |
| Scenarios.EmptyDaySlots | timeshifter/lib/circadian.ts:50-82 | wake 07:00, sleep 23:00 and no commitments give two identical 07:00-23:00 slots |
| Scenarios.DaySlotFocus | timeshifter/lib/circadian.ts:136-153 | that slot gives the intermediate type a 07:00-08:30 focus block |
| Scenarios.EmptyDayGenerated | timeshifter/lib/circadian.ts:254-255 | the placer then yields that focus block twice |
| Scenarios.RepeatedSlotDay | timeshifter/lib/circadian.ts:206-260 | `buildSchedule("07:00", "23:00", intermediate, [])` is two identical focus blocks then the night |
| Scenarios.RepeatedSlotDayMetrics | timeshifter/lib/circadian.ts:355-370 | that day lasts 660 minutes and has confidence 0.67 |
| Scenarios.NightOnly | timeshifter/lib/circadian.ts:206-260 | with no free slot and no commitment the day is the night alone |
| Scenarios.LateSleeperDay | timeshifter/lib/circadian.ts:206-260 | with no commitments, wake 09:00 and sleep 01:00 leave no free slot, and the night lasts 480 minutes |
| Scenarios.OneCommitmentSlots | timeshifter/lib/circadian.ts:48-84 | a commitment starting at least 30 minutes after wake and ending at least 30 minutes before sleep leaves the gap before it and then the gap from its end to sleep twice |
| Scenarios.OneMeetingSlots | timeshifter/lib/circadian.ts:48-84 | with wake 07:00, sleep 23:00 and a 09:00-10:00 meeting, the free slots are 07:00-09:00 and then 10:00-23:00 twice |
| Scenarios.EqualTimesDay | timeshifter/lib/circadian.ts:224-226 | equal wake and sleep give a 1440-minute night and no free slot |

## Left out

- The Gaussian sum of `energyCurve` (floating-point `Math.exp`) is a function parameter. Only the clamp and the asleep masking are modelled.
- `calculateAverageEnergy` with a curve is modelled, but no caller passes one. The curve that `buildSchedule` computes and passes to `placeActivityBlocks` is never read, so it is not a parameter.
- JavaScript `Date` objects, time zones and `formatDate` are left out: dates are day numbers. `new Date()` is the parameter `today`, and the route's `weekStart` text is a day number.
- Texts that are not clock texts are outside the engine's domain. The slot finder and the day and week assemblers require "HH:MM" texts, and every block they build is a clock block. The placer has no such requirement, but it is only given the slot finder's slots, whose ends are clock texts; on a slot starting at a non-clock text such as "7:00" it would read minute 0 and end an intermediate type's 90-minute focus block at "01:30", where the source ends it at "08:30". `MinuteOf` reads any other text as 0. The route's `timeToMinutes` and `toMin` are modelled on all texts, with NaN as `None`. Only decimal-digit fields are read as numbers; other `Number` forms such as " 7", "1e1" or "0x10" read as NaN.
- Block ids, icons, colours, priorities, tags, descriptions, rationale wording and advice wording are left out. Advice is a tag datatype.
- The response metadata `generatedAt`, `version` and `algorithm` is left out.
- `viz.ts` repeats the bodies of `toMin` and `toTime` (as function declarations rather than arrow constants), so they are defined once.
- The route's `calculateOverallConfidence` is the same code as `calculateDailyConfidence` and is `Confidence.DailyConfidence`.
- JSON parsing, the 500 path for thrown errors, the `GET` 405 handler, `labelToEmoji` and `COLORS` are left out. They are I/O or presentation.
- The weekly branch's fallbacks `days[0]?.schedule || []` and `overallConfidence || 0` are left out: a week always has seven days, and an overall confidence of 0 gives 0 either way.
- Route.Respond: requires an accepted request to carry clock texts for wake, sleep and the commitment ends. The route passes any non-empty text to the engine; the engine on other texts is not modelled.
- Weekly.BuildWeeklySchedule: its per-day facts are stated through `Weekly.WeekFrom`, which it equals.
- Viz.SplitAcrossMidnight: reads times through `MinuteOf`, so it matches `splitAcrossMidnight` only on clock blocks (`Viz.SplitReadsToMin`). On other texts it diverges: the block "7:00"-"9:00" is one piece of 120 minutes in the source, but two pieces in the model, because both ends read as 0. The same holds for `Viz.SplitAllLength`, `Viz.SplitAllMinutes`, `Viz.NormalizeBlocks` and `Viz.NormalizedMinutes`.
- Durations.TotalDuration: reads times through `MinuteOf`, so it matches `calculateTotalDuration` only on clock blocks (`Durations.BlockMinutesReadsToMin`). For "7:00"-"9:00" the source counts 120 minutes and the model 1440. The engine only passes its own clock blocks, so the two agree on every schedule it builds.
- Viz.SplitAcrossMidnight: the first piece of a wrapping block is labelled "23:59" while its `endMin` is 1440, as in the source. The label is not read back as a minute.
- Rounding.Round2: JavaScript doubles are modelled as exact reals, so `Math.round(x * 100) / 100` is computed without floating-point error. At a boundary the two differ: `Round2(0.145)` is 0.15 in the model, but `0.145 * 100` is 14.499999999999998 in JavaScript, so the source gives 0.14. The same abstraction covers block confidences, energies, the daily and weekly confidence means, and the weekly comparisons of the mean with 0.6 and 0.8, which can fall on the other side of a boundary in the source.
- The `confidence || 0` fallbacks in the confidence sums are left out. A confidence of 0 and an absent one give the same sum, and every block has one.
- The UI pages, the timeline component and the machine-learning service call are not part of this model.
