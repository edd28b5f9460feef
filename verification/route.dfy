/**
 The POST handler of app/api/schedule/route.ts: the request validation, the daily and weekly
 response shapes, and the route's own helpers `calculateTotalDuration` (which reads times with
 `timeToMinutes`), `generateRecommendations` and `timeToMinutes`. Its
 `calculateOverallConfidence` is the engine's `DailyConfidence`.
 */
module Route {
  import opened Wrappers
  import opened TimeText
  import opened Types
  import opened Sorting
  import opened Schedule
  import opened Durations
  import opened Confidence
  import opened Weekly

  /** A commitment as it arrives in the request body; `None` is an absent field. */
  datatype RawCommitment = RawCommitment(
    start: Option<string>,
    end: Option<string>,
    title: Option<string>,
    recurrence: Option<string>)

  /** The request body. `commitments` is `None` when it is not an array; `weekStart` is the
      week start as a day number, when given. */
  datatype Request = Request(
    wake: Option<string>,
    sleep: Option<string>,
    chronotype: Option<string>,
    commitments: Option<seq<RawCommitment>>,
    generateWeekly: bool,
    weekStart: Option<int>)

  datatype ErrorKind = MissingFields | InvalidChronotype | InvalidCommitment

  /** The outcome of validation: the 400 error, or the inputs handed to the engine. */
  datatype Validation =
    | Rejected(error: ErrorKind)
    | Accepted(wake: string, sleep: string, t: Chronotype, cs: seq<Commitment>,
               weekly: bool, weekStart: Option<int>)

  /** The JSON reply: an error with its status, or a schedule with its metadata. `weekly` is
      present only for a weekly request; `totalDuration` is `None` where the route's sum is
      NaN. */
  datatype Response =
    | ErrorResponse(status: int, error: ErrorKind)
    | ScheduleResponse(
        schedule: seq<Block>,
        weekly: Option<WeeklySchedule>,
        totalDuration: Option<int>,
        chronotype: Chronotype,
        confidence: real,
        recommendations: Recommendations)

  /** A JavaScript-truthy text field: present and not empty. */
  predicate Truthy(o: Option<string>) {
    o.Some? && o.value != ""
  }

  function ChronotypeName(t: Chronotype): string {
    match t
    case Morning => "morning"
    case Intermediate => "intermediate"
    case Evening => "evening"
  }

  /** `validChronotypes.includes(chronotype)`, giving the chronotype named. */
  function ParseChronotype(s: string): (r: Option<Chronotype>)
    ensures r.Some? <==> s == "morning" || s == "intermediate" || s == "evening"
    ensures r.Some? ==> ChronotypeName(r.value) == s
  {
    if s == "morning" then Some(Morning)
    else if s == "intermediate" then Some(Intermediate)
    else if s == "evening" then Some(Evening)
    else None
  }

  /** Every chronotype's name is accepted and read back as that chronotype. */
  lemma ChronotypeNameRoundTrip(t: Chronotype)
    ensures ParseChronotype(ChronotypeName(t)) == Some(t)
  {
  }

  /** `Array.isArray(commitments) ? commitments : []`. */
  function CommitmentsArray(req: Request): seq<RawCommitment> {
    if req.commitments.Some? then req.commitments.value else []
  }

  /** The commitment has a truthy start, end and title. */
  predicate Complete(c: RawCommitment) {
    Truthy(c.start) && Truthy(c.end) && Truthy(c.title)
  }

  function ToCommitment(c: RawCommitment): (r: Commitment)
    requires Complete(c)
    ensures r.start == c.start.value && r.end == c.end.value && r.title == c.title.value
    ensures r.recurrence == c.recurrence
  {
    Types.Commitment.Commitment(c.start.value, c.end.value, c.title.value, c.recurrence)
  }

  /** The validation of the POST handler, in its order: the three required fields, then the
      chronotype, then each commitment. Exactly one outcome holds for every request. */
  method Validate(req: Request) returns (v: Validation)
    ensures v == Rejected(MissingFields)
        <==> !(Truthy(req.wake) && Truthy(req.sleep) && Truthy(req.chronotype))
    ensures v == Rejected(InvalidChronotype)
        <==> Truthy(req.wake) && Truthy(req.sleep) && Truthy(req.chronotype)
             && ParseChronotype(req.chronotype.value).None?
    ensures v == Rejected(InvalidCommitment)
        <==> Truthy(req.wake) && Truthy(req.sleep) && Truthy(req.chronotype)
             && ParseChronotype(req.chronotype.value).Some?
             && exists i :: 0 <= i < |CommitmentsArray(req)| && !Complete(CommitmentsArray(req)[i])
    ensures v.Accepted? ==>
      && Some(v.wake) == req.wake && Some(v.sleep) == req.sleep
      && Some(v.t) == ParseChronotype(req.chronotype.value)
      && |v.cs| == |CommitmentsArray(req)|
      && (forall i :: 0 <= i < |v.cs| ==>
            Complete(CommitmentsArray(req)[i]) && v.cs[i] == ToCommitment(CommitmentsArray(req)[i]))
      && v.weekly == req.generateWeekly && v.weekStart == req.weekStart
  {
    if !(Truthy(req.wake) && Truthy(req.sleep) && Truthy(req.chronotype)) {
      return Rejected(MissingFields);
    }
    var t := ParseChronotype(req.chronotype.value);
    if t.None? {
      return Rejected(InvalidChronotype);
    }
    var raw := CommitmentsArray(req);
    var cs: seq<Commitment> := [];
    var i := 0;
    while i < |raw|
      invariant 0 <= i <= |raw|
      invariant |cs| == i
      invariant forall j :: 0 <= j < i ==> Complete(raw[j]) && cs[j] == ToCommitment(raw[j])
    {
      if !Complete(raw[i]) {
        return Rejected(InvalidCommitment);
      }
      cs := cs + [ToCommitment(raw[i])];
      i := i + 1;
    }
    return Accepted(req.wake.value, req.sleep.value, t.value, cs, req.generateWeekly, req.weekStart);
  }

  /** The route's duration of one block, reading times with `timeToMinutes`; NaN (`None`) when
      either time does not parse. */
  function RouteBlockMinutes(b: Block): Option<int> {
    match (TimeToMinutes(b.start), TimeToMinutes(b.end))
    case (Some(s), Some(e)) => Some(WrapDuration(s, e))
    case _ => None
  }

  /** The sum of `f` over `xs`, NaN (`None`) as soon as one term is NaN, as JavaScript's `+`
      propagates NaN. */
  function NaNSum<T>(xs: seq<T>, f: T -> Option<int>): (r: Option<int>)
    ensures r.Some? <==> forall i :: 0 <= i < |xs| ==> f(xs[i]).Some?
  {
    if |xs| == 0 then Some(0)
    else
      var d, rest := f(xs[0]), NaNSum(xs[1..], f);
      if d.Some? && rest.Some? then Some(d.value + rest.value) else None
  }

  /** Where no term is NaN, the sum is the plain sum of the terms. */
  lemma {:induction false} NaNSumOfNumbers<T>(xs: seq<T>, f: T -> Option<int>, g: T -> int)
    requires forall i :: 0 <= i < |xs| ==> f(xs[i]) == Some(g(xs[i]))
    ensures NaNSum(xs, f) == Some(SumOf(xs, g))
  {
    if |xs| > 0 {
      NaNSumOfNumbers(xs[1..], f, g);
    }
  }

  /** The route's `calculateTotalDuration`: NaN as soon as one block's duration is NaN. */
  function RouteTotalDuration(bs: seq<Block>): (r: Option<int>)
    ensures r.Some? <==> forall i :: 0 <= i < |bs| ==> RouteBlockMinutes(bs[i]).Some?
  {
    NaNSum(bs, RouteBlockMinutes)
  }

  /** On a clock block the route's duration is the engine's. */
  lemma RouteBlockOnClock(b: Block)
    requires ClockBlock(b)
    ensures RouteBlockMinutes(b) == Some(BlockMinutes(b))
  {
    TimeToMinutesOnClock(b.start);
    TimeToMinutesOnClock(b.end);
  }

  /** On clock texts the route's total duration is the engine's. */
  lemma RouteTotalDurationOnClocks(bs: seq<Block>)
    requires forall b :: b in bs ==> ClockBlock(b)
    ensures RouteTotalDuration(bs) == Some(TotalDuration(bs))
  {
    forall i | 0 <= i < |bs|
      ensures RouteBlockMinutes(bs[i]) == Some(BlockMinutes(bs[i]))
    {
      RouteBlockOnClock(bs[i]);
    }
    NaNSumOfNumbers(bs, RouteBlockMinutes, BlockMinutes);
    TotalDurationIsSum(bs);
  }

  /** Off clock texts the two disagree: a block from "00:00" to "25:00" lasts 1500 minutes for
      the route and 60 for `toMin`, which reads "25:00" as 01:00. */
  lemma RouteDurationDiverges(b: Block)
    requires b.start == "00:00" && b.end == "25:00"
    ensures RouteBlockMinutes(b) == Some(1500)
    ensures WrapDuration(ToMin(b.start).value, ToMin(b.end).value) == 60
  {
    TimeToMinutesOnClock(b.start);
    ClockToMin(b.start);
    ClockFields(b.end);
  }

  /** The route's `generateRecommendations(schedule, chronotype)`. */
  function DailyRecommendations(schedule: seq<Block>, t: Chronotype): (r: Recommendations)
    ensures forall a :: a in r.suggestions ==> a == NoFocusBlocks || a == NoExerciseBlocks || a == FewBreaks
    ensures forall a :: a in r.warnings ==> a == ManyFocusBlocks
    ensures forall a :: a in r.optimizations ==> a == MorningDayPlan || a == EveningDayPlan
    ensures |r.suggestions| <= 3 && |r.warnings| <= 1 && |r.optimizations| <= 1
  {
    var focus := CountLabel(schedule, Focus);
    Recommendations(
      if t == Morning then [MorningDayPlan] else if t == Evening then [EveningDayPlan] else [],
      if focus > 3 then [ManyFocusBlocks] else [],
      (if focus == 0 then [NoFocusBlocks] else [])
        + (if CountLabel(schedule, Exercise) == 0 then [NoExerciseBlocks] else [])
        + (if CountLabel(schedule, Break) < 2 then [FewBreaks] else []))
  }

  /** Each daily advice is given exactly when its condition on the schedule holds; the two
      focus advices never come together. */
  lemma DailyAdviceExactly(schedule: seq<Block>, t: Chronotype)
    ensures var r := DailyRecommendations(schedule, t);
      && (NoFocusBlocks in r.suggestions <==> CountLabel(schedule, Focus) == 0)
      && (ManyFocusBlocks in r.warnings <==> CountLabel(schedule, Focus) > 3)
      && !(NoFocusBlocks in r.suggestions && ManyFocusBlocks in r.warnings)
      && (NoExerciseBlocks in r.suggestions <==> CountLabel(schedule, Exercise) == 0)
      && (FewBreaks in r.suggestions <==> CountLabel(schedule, Break) < 2)
      && (MorningDayPlan in r.optimizations <==> t == Morning)
      && (EveningDayPlan in r.optimizations <==> t == Evening)
  {
  }

  /** The daily branch: today's schedule, its route-computed duration, its mean confidence and
      the route's recommendations. */
  function DailyResponse(wake: string, sleep: string, t: Chronotype, cs: seq<Commitment>): (r: Response)
    requires IsClock(wake) && IsClock(sleep)
    requires forall c :: c in cs ==> ClockCommitment(c)
    ensures r.ScheduleResponse? && r.weekly.None? && r.chronotype == t
    ensures r.schedule == BuildSchedule(wake, sleep, t, cs)
    ensures r.totalDuration == Some(TotalDuration(r.schedule))
    ensures 0.0 <= r.confidence <= 1.0
    ensures r.confidence == DailyConfidence(r.schedule)
    ensures r.recommendations == DailyRecommendations(r.schedule, t)
  {
    var schedule := BuildSchedule(wake, sleep, t, cs);
    RouteTotalDurationOnClocks(schedule);
    ScheduleResponse(schedule, None, RouteTotalDuration(schedule), t, DailyConfidence(schedule),
                     DailyRecommendations(schedule, t))
  }

  /** The first day of a week holds only clock blocks with confidences in [0, 1]. */
  lemma FirstDayFacts(wake: string, sleep: string, t: Chronotype, cs: seq<Commitment>, w: WeeklySchedule)
    requires IsClock(wake) && IsClock(sleep)
    requires forall c :: c in cs ==> ClockCommitment(c)
    requires w == WeekFrom(w.weekStart, t, ScheduleOfDay(wake, sleep, t, cs))
    ensures w.days[0].schedule == BuildSchedule(wake, sleep, t, FilterCommitmentsForDay(cs, w.weekStart))
    ensures forall b :: b in w.days[0].schedule ==> ClockBlock(b)
  {
  }

  /** The weekly branch: the week's first day is the main schedule, the week's overall
      confidence and recommendations are the response's. */
  function WeeklyResponse(wake: string, sleep: string, t: Chronotype, cs: seq<Commitment>,
                          weekStart: Option<int>, today: int): (r: Response)
    requires IsClock(wake) && IsClock(sleep)
    requires forall c :: c in cs ==> ClockCommitment(c)
    ensures r.ScheduleResponse? && r.weekly.Some? && r.chronotype == t
    ensures r.weekly.value == BuildWeeklySchedule(wake, sleep, t, cs, weekStart, today)
    ensures r.schedule == BuildSchedule(wake, sleep, t, FilterCommitmentsForDay(cs, r.weekly.value.weekStart))
    ensures r.totalDuration == Some(TotalDuration(r.schedule))
    ensures 0.0 <= r.confidence <= 1.0
    ensures r.confidence == r.weekly.value.overallConfidence
    ensures r.recommendations == r.weekly.value.recommendations
  {
    var w := BuildWeeklySchedule(wake, sleep, t, cs, weekStart, today);
    var first := w.days[0].schedule;
    FirstDayFacts(wake, sleep, t, cs, w);
    RouteTotalDurationOnClocks(first);
    ScheduleResponse(first, Some(w), RouteTotalDuration(first), t, w.overallConfidence, w.recommendations)
  }

  /** The POST handler after validation: 400 with the validation error, otherwise the weekly
      or the daily response. `today` stands for the clock read when no week start is given. */
  function Respond(v: Validation, today: int): (r: Response)
    requires v.Accepted? ==> IsClock(v.wake) && IsClock(v.sleep) && forall c :: c in v.cs ==> ClockCommitment(c)
    ensures v.Rejected? <==> r.ErrorResponse?
    ensures v.Rejected? ==> r.status == 400 && r.error == v.error
    ensures v.Accepted? && v.weekly ==> r == WeeklyResponse(v.wake, v.sleep, v.t, v.cs, v.weekStart, today)
    ensures v.Accepted? && !v.weekly ==> r == DailyResponse(v.wake, v.sleep, v.t, v.cs)
    ensures v.Accepted? ==> r.weekly.Some? == v.weekly
  {
    if v.Rejected? then ErrorResponse(400, v.error)
    else if v.weekly then WeeklyResponse(v.wake, v.sleep, v.t, v.cs, v.weekStart, today)
    else DailyResponse(v.wake, v.sleep, v.t, v.cs)
  }

  /** Without a week start the weekly response's main schedule is Monday's, which is exactly
      the daily response's schedule. */
  lemma CurrentWeekMainScheduleIsDaily(wake: string, sleep: string, t: Chronotype, cs: seq<Commitment>, today: int,
                                       weekly: Response, daily: Response)
    requires IsClock(wake) && IsClock(sleep)
    requires forall c :: c in cs ==> ClockCommitment(c)
    requires weekly == WeeklyResponse(wake, sleep, t, cs, None, today)
    requires daily == DailyResponse(wake, sleep, t, cs)
    ensures weekly.ScheduleResponse? && daily.ScheduleResponse?
    ensures weekly.schedule == daily.schedule && weekly.totalDuration == daily.totalDuration
  {
    CurrentWeekWorkdays(wake, sleep, t, cs, today, 0);
  }

  /** A morning type's daily response always suggests adding focus blocks. */
  lemma MorningDailyAdvice(wake: string, sleep: string, cs: seq<Commitment>)
    requires IsClock(wake) && IsClock(sleep)
    requires forall c :: c in cs ==> ClockCommitment(c)
    ensures NoFocusBlocks in DailyResponse(wake, sleep, Morning, cs).recommendations.suggestions
  {
    MorningNeverFocus(wake, sleep, cs);
    DailyAdviceExactly(BuildSchedule(wake, sleep, Morning, cs), Morning);
  }
}
