/**
 The engine's entities (lib/types.ts, widened by the fields lib/circadian.ts reads) and the
 two static per-chronotype tables of lib/circadian.ts.
 */
module Types {
  import opened Wrappers
  import opened TimeText
  import opened Sorting

  datatype Chronotype = Morning | Intermediate | Evening

  /** The activity kinds a schedule block can carry. */
  datatype Label = Sleep | Focus | Light | Break | Exercise | Commitment

  /** A schedule block (`label` in the source is `kind` here): its clock texts, kind, title, confidence and estimated minutes.
      Ids, icons, colours, tags, priorities and rationale wording are not modelled. */
  datatype Block = Block(
    start: string,
    end: string,
    kind: Label,
    title: string,
    confidence: real,
    estimatedDuration: int)

  /** A caller's fixed obligation. `recurrence` is the optional text the weekly filter reads. */
  datatype Commitment = Commitment(start: string, end: string, title: string, recurrence: Option<string>)

  /** A free interval found by the slot finder. */
  datatype Slot = Slot(start: string, end: string, duration: int, energy: real)

  /** Peak, second peak and dip positions, in minutes since wake. */
  datatype CurveParams = CurveParams(p1: int, p2: int, dip: int)

  /** Placement thresholds for one generated activity. */
  datatype ActivityPref = ActivityPref(minEnergy: real, duration: int)

  datatype Prefs = Prefs(focus: ActivityPref, exercise: ActivityPref)

  function CurveParamsOf(t: Chronotype): CurveParams {
    match t
    case Morning => CurveParams(120, 540, 420)
    case Intermediate => CurveParams(180, 600, 480)
    case Evening => CurveParams(240, 720, 540)
  }

  function PrefsOf(t: Chronotype): (p: Prefs)
    ensures 0.0 <= p.focus.minEnergy <= 1.0 && 0.0 <= p.exercise.minEnergy <= 1.0
    ensures p.focus.duration >= 45 && p.exercise.duration >= 45
  {
    match t
    case Morning => Prefs(ActivityPref(0.6, 90), ActivityPref(0.5, 60))
    case Intermediate => Prefs(ActivityPref(0.5, 90), ActivityPref(0.4, 45))
    case Evening => Prefs(ActivityPref(0.4, 60), ActivityPref(0.5, 45))
  }

  /** Both ends of the block are clock texts. */
  predicate ClockBlock(b: Block) {
    IsClock(b.start) && IsClock(b.end)
  }

  /** The sort key `toMin(block.start)`. */
  function StartKey(b: Block): real {
    MinuteOf(b.start) as real
  }

  predicate ConfidenceInRange(b: Block) {
    0.0 <= b.confidence <= 1.0
  }

  function HasLabel(l: Label): Block -> bool {
    (b: Block) => b.kind == l
  }

  /** `schedule.filter(block => block.label === l).length`. */
  function CountLabel(bs: seq<Block>, l: Label): nat {
    Count(bs, HasLabel(l))
  }

  /** One constructor per advice text of the two recommendation generators (the weekly one
      of lib/circadian.ts and the daily one of the API route); the wording is not modelled. */
  datatype Advice =
    | LowWeeklyConfidence | ExcellentWeek | FewWeeklyFocusBlocks | ManyWeeklyFocusBlocks
    | FewWeeklyExerciseBlocks | MorningWeekConsistency | EveningWeekConsistency
    | NoFocusBlocks | ManyFocusBlocks | NoExerciseBlocks | FewBreaks | MorningDayPlan | EveningDayPlan

  datatype Recommendations = Recommendations(
    optimizations: seq<Advice>,
    warnings: seq<Advice>,
    suggestions: seq<Advice>)
}
