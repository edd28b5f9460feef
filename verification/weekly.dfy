/**
 `buildWeeklySchedule` of lib/circadian.ts and its helpers `getWeekStart`,
 `filterCommitmentsForDay` and `generateWeeklyRecommendations`. Dates are day numbers: day 0 is
 1970-01-01, a Thursday, and a date's text form is not modelled.
 */
module Weekly {
  import opened Wrappers
  import opened TimeText
  import opened Types
  import opened Sorting
  import opened Schedule
  import opened Durations
  import opened Confidence
  import opened Rounding

  const DaysPerWeek: nat := 7

  /** `getDay()`: 0 is Sunday, 1 Monday, ..., 6 Saturday. */
  function Weekday(d: int): (w: int)
    ensures 0 <= w < 7
  {
    (d + 4) % 7
  }

  /** `getWeekStart`: the Monday on or before `d` (a Sunday belongs to the week that started
      six days earlier). */
  function GetWeekStart(d: int): (r: int)
    ensures Weekday(r) == 1
    ensures r <= d <= r + 6
  {
    var day := Weekday(d);
    d - day + (if day == 0 then -6 else 1)
  }

  /** Every day of a week maps back to that week's Monday. */
  lemma WeekStartOfWeek(monday: int, k: int)
    requires Weekday(monday) == 1 && 0 <= k < 7
    ensures GetWeekStart(monday + k) == monday
  {
    assert Weekday(monday + k) == (k + 1) % 7;
  }

  /** The per-commitment test of `filterCommitmentsForDay`, branch by branch. */
  function Applies(c: Commitment, weekday: int): bool {
    match c.recurrence
    case None => true
    case Some(r) =>
      if r == "daily" then true
      else if r == "weekly" then 1 <= weekday && weekday <= 5
      else if r == "monthly" then true
      else true
  }

  function AppliesOn(weekday: int): Commitment -> bool {
    (c: Commitment) => Applies(c, weekday)
  }

  /** Only weekly commitments are ever dropped, and only on Saturdays and Sundays. */
  lemma AppliesExactly(c: Commitment, weekday: int)
    ensures Applies(c, weekday) <==> c.recurrence != Some("weekly") || 1 <= weekday <= 5
  {
  }

  /** Monday to Friday. */
  predicate IsWorkday(d: int) {
    1 <= Weekday(d) <= 5
  }

  /** `filterCommitmentsForDay(commitments, date)`: the commitments that apply on day `d`,
      in their order. */
  function FilterCommitmentsForDay(cs: seq<Commitment>, d: int): (r: seq<Commitment>)
    ensures forall c :: c in r <==> c in cs && Applies(c, Weekday(d))
    ensures IsWorkday(d) ==> r == cs
  {
    if |cs| == 0 then []
    else (if Applies(cs[0], Weekday(d)) then [cs[0]] else []) + FilterCommitmentsForDay(cs[1..], d)
  }

  /** The filter is `commitments.filter(...)` with the per-commitment test: it keeps the
      accepted commitments in their order, as many as the test accepts. */
  lemma {:induction false} FilterPreservesOrder(cs: seq<Commitment>, d: int)
    ensures FilterCommitmentsForDay(cs, d) == Filter(cs, AppliesOn(Weekday(d)))
    ensures |FilterCommitmentsForDay(cs, d)| == Count(cs, AppliesOn(Weekday(d)))
  {
    if |cs| > 0 {
      FilterPreservesOrder(cs[1..], d);
    }
  }

  datatype DaySchedule = DaySchedule(date: int, schedule: seq<Block>, totalDuration: int, confidence: real)

  datatype WeeklySchedule = WeeklySchedule(
    weekStart: int,
    weekEnd: int,
    days: seq<DaySchedule>,
    chronotype: Chronotype,
    overallConfidence: real,
    recommendations: Recommendations)

  /** Every block's confidence lies in [0, 1]. */
  predicate ConfidencesInRange(schedule: seq<Block>) {
    forall b :: b in schedule ==> ConfidenceInRange(b)
  }

  /** A day's record: its date, its schedule and that schedule's metrics. */
  function MakeDay(d: int, schedule: seq<Block>): (r: DaySchedule)
    ensures ConfidencesInRange(schedule) ==> 0.0 <= r.confidence <= 1.0
  {
    DaySchedule(d, schedule, TotalDuration(schedule), DailyConfidence(schedule))
  }

  /** Sum of the days' confidences. */
  function ConfidenceTotal(days: seq<DaySchedule>): real {
    if |days| == 0 then 0.0 else days[0].confidence + ConfidenceTotal(days[1..])
  }

  lemma {:induction false} ConfidenceTotalBounds(days: seq<DaySchedule>)
    requires forall i :: 0 <= i < |days| ==> 0.0 <= days[i].confidence <= 1.0
    ensures 0.0 <= ConfidenceTotal(days) <= |days| as real
  {
    if |days| > 0 {
      ConfidenceTotalBounds(days[1..]);
    }
  }

  /** Number of blocks with label `l` over all days. */
  function LabelTotal(days: seq<DaySchedule>, l: Label): nat {
    if |days| == 0 then 0 else CountLabel(days[0].schedule, l) + LabelTotal(days[1..], l)
  }

  /** `generateWeeklyRecommendations(days, type)`. The mean confidence is compared with a
      threshold by comparing the total with the threshold times the number of days (the two
      agree, see `ScaledThreshold`); the mean of no days is NaN in the source, which passes
      neither threshold. */
  function WeeklyRecommendations(days: seq<DaySchedule>, t: Chronotype): (r: Recommendations)
    ensures forall a :: a in r.warnings ==> a in {LowWeeklyConfidence, ManyWeeklyFocusBlocks}
    ensures forall a :: a in r.optimizations ==> a in {ExcellentWeek, MorningWeekConsistency, EveningWeekConsistency}
    ensures forall a :: a in r.suggestions ==> a in {FewWeeklyFocusBlocks, FewWeeklyExerciseBlocks}
    ensures |r.warnings| <= 2 && |r.optimizations| <= 2 && |r.suggestions| <= 2
  {
    var total, n := ConfidenceTotal(days), |days| as real;
    var low := n > 0.0 && total < 0.6 * n;
    var excellent := n > 0.0 && total > 0.8 * n;
    var focus := LabelTotal(days, Focus);
    var exercise := LabelTotal(days, Exercise);
    Recommendations(
      (if low then [] else if excellent then [ExcellentWeek] else [])
        + (if t == Morning then [MorningWeekConsistency] else if t == Evening then [EveningWeekConsistency] else []),
      (if low then [LowWeeklyConfidence] else [])
        + (if focus < 5 then [] else if focus > 15 then [ManyWeeklyFocusBlocks] else []),
      (if focus < 5 then [FewWeeklyFocusBlocks] else [])
        + (if exercise < 3 then [FewWeeklyExerciseBlocks] else []))
  }

  /** The confidence advice is given exactly when the mean daily confidence is below 0.6
      (a warning) or, failing that, above 0.8 (an optimization). */
  lemma WeeklyConfidenceAdvice(days: seq<DaySchedule>, t: Chronotype)
    ensures var r := WeeklyRecommendations(days, t);
      && (LowWeeklyConfidence in r.warnings <==> |days| > 0 && ConfidenceTotal(days) < 0.6 * |days| as real)
      && (ExcellentWeek in r.optimizations <==> |days| > 0 && ConfidenceTotal(days) > 0.8 * |days| as real)
  {
  }

  /** The focus, exercise and chronotype advice is given exactly when its threshold is
      crossed. */
  lemma WeeklyAdviceExactly(days: seq<DaySchedule>, t: Chronotype)
    ensures var r := WeeklyRecommendations(days, t);
      && (FewWeeklyFocusBlocks in r.suggestions <==> LabelTotal(days, Focus) < 5)
      && (ManyWeeklyFocusBlocks in r.warnings <==> LabelTotal(days, Focus) > 15)
      && (FewWeeklyExerciseBlocks in r.suggestions <==> LabelTotal(days, Exercise) < 3)
      && (MorningWeekConsistency in r.optimizations <==> t == Morning)
      && (EveningWeekConsistency in r.optimizations <==> t == Evening)
  {
  }

  /** A mean lies below (above) a threshold exactly when the total lies below (above) the
      threshold times the count. */
  lemma ScaledThreshold(total: real, n: real, c: real)
    requires n > 0.0
    ensures total / n < c <==> total < c * n
    ensures total / n > c <==> total > c * n
  {
    assert total == (total / n) * n;
  }

  /** The overall confidence: the mean daily confidence rounded to two decimals. It lies
      within half a hundredth of the mean, and in [0, 1] when every day's confidence does. */
  function OverallConfidence(days: seq<DaySchedule>): (r: real)
    requires |days| > 0
    ensures var mean := ConfidenceTotal(days) / |days| as real;
      mean - 0.005 < r <= mean + 0.005
    ensures (forall i :: 0 <= i < |days| ==> 0.0 <= days[i].confidence <= 1.0) ==> 0.0 <= r <= 1.0
  {
    MeanDailyConfidenceBounds(days);
    Round2(ConfidenceTotal(days) / |days| as real)
  }

  lemma MeanDailyConfidenceBounds(days: seq<DaySchedule>)
    requires |days| > 0
    ensures (forall i :: 0 <= i < |days| ==> 0.0 <= days[i].confidence <= 1.0) ==>
              0.0 <= ConfidenceTotal(days) / |days| as real <= 1.0
  {
    if forall i :: 0 <= i < |days| ==> 0.0 <= days[i].confidence <= 1.0 {
      ConfidenceTotalBounds(days);
      MeanInUnitRange(ConfidenceTotal(days), |days| as real);
    }
  }

  /** The week loop: the days `start`, ..., `start + n - 1`, each with the schedule
      `scheduleOf` builds for it. */
  function DaysFrom(start: int, n: nat, scheduleOf: int -> seq<Block>): (days: seq<DaySchedule>)
    requires forall d :: ConfidencesInRange(scheduleOf(d))
    ensures |days| == n
    ensures forall i :: 0 <= i < n ==> 0.0 <= days[i].confidence <= 1.0
    ensures forall i :: 0 <= i < n ==> days[i].date == start + i
    ensures forall i :: 0 <= i < n ==> days[i].schedule == scheduleOf(start + i)
    ensures forall i :: 0 <= i < n ==> days[i].totalDuration == TotalDuration(days[i].schedule)
    ensures forall i :: 0 <= i < n ==> days[i].confidence == DailyConfidence(days[i].schedule)
    decreases n
  {
    if n == 0 then [] else [MakeDay(start, scheduleOf(start))] + DaysFrom(start + 1, n - 1, scheduleOf)
  }

  /** The schedule of one date of the week: the daily schedule of the commitments that apply
      that day. */
  function ScheduleOfDay(wake: string, sleep: string, t: Chronotype, cs: seq<Commitment>): (f: int -> seq<Block>)
    requires IsClock(wake) && IsClock(sleep)
    requires forall c :: c in cs ==> ClockCommitment(c)
    ensures forall d :: f(d) == BuildSchedule(wake, sleep, t, FilterCommitmentsForDay(cs, d))
    ensures forall d :: ConfidencesInRange(f(d))
  {
    (d: int) => BuildSchedule(wake, sleep, t, FilterCommitmentsForDay(cs, d))
  }

  /** The week loop of `buildWeeklySchedule` for the week starting on day `start`, with
      `scheduleOf` building each day's schedule: seven consecutive dated days with their
      metrics, the overall confidence (the mean daily confidence rounded to two decimals) and
      the weekly recommendations. */
  function WeekFrom(start: int, t: Chronotype, scheduleOf: int -> seq<Block>): (r: WeeklySchedule)
    requires forall d :: ConfidencesInRange(scheduleOf(d))
    ensures r.weekStart == start && r.weekEnd == start + 6 && r.chronotype == t
    ensures |r.days| == 7
    ensures forall i :: 0 <= i < 7 ==> r.days[i].date == start + i
    ensures forall i :: 0 <= i < 7 ==> r.days[i].schedule == scheduleOf(start + i)
    ensures forall i :: 0 <= i < 7 ==> r.days[i].totalDuration == TotalDuration(r.days[i].schedule)
    ensures forall i :: 0 <= i < 7 ==> r.days[i].confidence == DailyConfidence(r.days[i].schedule)
    ensures forall i :: 0 <= i < 7 ==> 0.0 <= r.days[i].confidence <= 1.0
    ensures 0.0 <= r.overallConfidence <= 1.0
    ensures r.overallConfidence == OverallConfidence(r.days)
    ensures r.recommendations == WeeklyRecommendations(r.days, t)
  {
    var days := DaysFrom(start, DaysPerWeek, scheduleOf);
    WeeklySchedule(start, start + 6, days, t, OverallConfidence(days), WeeklyRecommendations(days, t))
  }

  /** `buildWeeklySchedule(wake, sleep, type, commitments, weekStart)`. `today` stands for
      `new Date()`, used when no week start is given. Seven consecutive days from the week
      start, each the daily schedule of the commitments that apply that day, with its metrics;
      the overall confidence is the mean daily confidence rounded to two decimals. */
  function BuildWeeklySchedule(wake: string, sleep: string, t: Chronotype, cs: seq<Commitment>,
                               weekStart: Option<int>, today: int): (r: WeeklySchedule)
    requires IsClock(wake) && IsClock(sleep)
    requires forall c :: c in cs ==> ClockCommitment(c)
    ensures weekStart.Some? ==> r.weekStart == weekStart.value
    ensures weekStart.None? ==> Weekday(r.weekStart) == 1 && r.weekStart <= today <= r.weekStart + 6
    ensures r == WeekFrom(r.weekStart, t, ScheduleOfDay(wake, sleep, t, cs))
  {
    var start := if weekStart.Some? then weekStart.value else GetWeekStart(today);
    WeekFrom(start, t, ScheduleOfDay(wake, sleep, t, cs))
  }

  /** From Monday to Friday a day's schedule is the daily schedule of all the commitments. */
  lemma WorkdayScheduleIsDaily(wake: string, sleep: string, t: Chronotype, cs: seq<Commitment>)
    requires IsClock(wake) && IsClock(sleep)
    requires forall c :: c in cs ==> ClockCommitment(c)
    ensures forall d :: IsWorkday(d) ==> ScheduleOfDay(wake, sleep, t, cs)(d) == BuildSchedule(wake, sleep, t, cs)
  {
  }

  /** The four days after a Monday are Tuesday to Friday. */
  lemma MondayToFriday(monday: int, i: int)
    requires Weekday(monday) == 1 && 0 <= i < 5
    ensures IsWorkday(monday + i)
  {
    assert Weekday(monday + i) == i + 1;
  }

  /** In a week starting on a Monday, the first five days take the schedule every workday
      shares. */
  lemma MondayWeekWorkdays(start: int, t: Chronotype, scheduleOf: int -> seq<Block>, workday: seq<Block>, i: int)
    requires forall d :: ConfidencesInRange(scheduleOf(d))
    requires forall d :: IsWorkday(d) ==> scheduleOf(d) == workday
    requires Weekday(start) == 1 && 0 <= i < 5
    ensures WeekFrom(start, t, scheduleOf).days[i].schedule == workday
  {
    MondayToFriday(start, i);
  }

  /** When no week start is given, the first five days of the week are Monday to Friday, so
      they all carry the daily schedule of every commitment. */
  lemma CurrentWeekWorkdays(wake: string, sleep: string, t: Chronotype, cs: seq<Commitment>, today: int, i: int)
    requires IsClock(wake) && IsClock(sleep)
    requires forall c :: c in cs ==> ClockCommitment(c)
    requires 0 <= i < 5
    ensures var r := BuildWeeklySchedule(wake, sleep, t, cs, None, today);
      r.days[i].schedule == BuildSchedule(wake, sleep, t, cs)
  {
    var r := BuildWeeklySchedule(wake, sleep, t, cs, None, today);
    WorkdayScheduleIsDaily(wake, sleep, t, cs);
    MondayWeekWorkdays(r.weekStart, t, ScheduleOfDay(wake, sleep, t, cs), BuildSchedule(wake, sleep, t, cs), i);
  }

  lemma {:induction false} NoLabelAllWeek(days: seq<DaySchedule>, l: Label)
    requires forall i :: 0 <= i < |days| ==> CountLabel(days[i].schedule, l) == 0
    ensures LabelTotal(days, l) == 0
  {
    if |days| > 0 {
      NoLabelAllWeek(days[1..], l);
    }
  }

  /** A morning type's week holds no focus block at all, so it always draws the advice to add
      focus blocks. */
  lemma MorningWeekLacksFocus(wake: string, sleep: string, cs: seq<Commitment>, weekStart: Option<int>, today: int)
    requires IsClock(wake) && IsClock(sleep)
    requires forall c :: c in cs ==> ClockCommitment(c)
    ensures var r := BuildWeeklySchedule(wake, sleep, Morning, cs, weekStart, today);
      && LabelTotal(r.days, Focus) == 0
      && FewWeeklyFocusBlocks in r.recommendations.suggestions
  {
    var r := BuildWeeklySchedule(wake, sleep, Morning, cs, weekStart, today);
    var f := ScheduleOfDay(wake, sleep, Morning, cs);
    MorningDaysLackFocus(wake, sleep, cs);
    WeekWithoutLabel(r.weekStart, Morning, f, Focus);
    WeeklyAdviceExactly(r.days, Morning);
  }

  /** No day of a morning type's week holds a focus block. */
  lemma MorningDaysLackFocus(wake: string, sleep: string, cs: seq<Commitment>)
    requires IsClock(wake) && IsClock(sleep)
    requires forall c :: c in cs ==> ClockCommitment(c)
    ensures forall d :: CountLabel(ScheduleOfDay(wake, sleep, Morning, cs)(d), Focus) == 0
  {
    forall d
      ensures CountLabel(ScheduleOfDay(wake, sleep, Morning, cs)(d), Focus) == 0
    {
      MorningNeverFocus(wake, sleep, FilterCommitmentsForDay(cs, d));
    }
  }

  /** A label no day's schedule carries is absent from the whole week. */
  lemma WeekWithoutLabel(start: int, t: Chronotype, scheduleOf: int -> seq<Block>, l: Label)
    requires forall d :: ConfidencesInRange(scheduleOf(d))
    requires forall d :: CountLabel(scheduleOf(d), l) == 0
    ensures LabelTotal(WeekFrom(start, t, scheduleOf).days, l) == 0
  {
    NoLabelAllWeek(WeekFrom(start, t, scheduleOf).days, l);
  }
}
