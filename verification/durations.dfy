/**
 `calculateTotalDuration` of lib/circadian.ts: the wrap-around duration rule summed over a
 schedule. The API route's own `calculateTotalDuration` reads times differently and lives in
 the route module.
 */
module Durations {
  import opened TimeText
  import opened Types
  import opened Sorting

  /** The minutes one block occupies under the wrap-around rule. */
  function BlockMinutes(b: Block): int {
    WrapDuration(MinuteOf(b.start), MinuteOf(b.end))
  }

  /** On a clock block the duration is the wrap-around rule applied to `toMin` of both ends. */
  lemma BlockMinutesReadsToMin(b: Block)
    requires ClockBlock(b)
    ensures ToMin(b.start).Some? && ToMin(b.end).Some?
    ensures BlockMinutes(b) == WrapDuration(ToMin(b.start).value, ToMin(b.end).value)
  {
    ClockToMin(b.start);
    ClockToMin(b.end);
  }

  /** `calculateTotalDuration`: every block counts at least one minute and at most a day. */
  function TotalDuration(bs: seq<Block>): (r: int)
    ensures |bs| <= r <= MinutesPerDay * |bs|
  {
    if |bs| == 0 then 0 else BlockMinutes(bs[0]) + TotalDuration(bs[1..])
  }

  lemma {:induction false} TotalDurationIsSum(bs: seq<Block>)
    ensures TotalDuration(bs) == SumOf(bs, BlockMinutes)
  {
    if |bs| > 0 {
      TotalDurationIsSum(bs[1..]);
    }
  }

  /** The total does not depend on the order of the blocks. */
  lemma TotalDurationPermutation(xs: seq<Block>, ys: seq<Block>)
    requires multiset(xs) == multiset(ys)
    ensures TotalDuration(xs) == TotalDuration(ys)
  {
    TotalDurationIsSum(xs);
    TotalDurationIsSum(ys);
    SumPermutation(xs, ys, BlockMinutes);
  }

  lemma {:induction false} TotalDurationAppend(xs: seq<Block>, ys: seq<Block>)
    ensures TotalDuration(xs + ys) == TotalDuration(xs) + TotalDuration(ys)
  {
    TotalDurationIsSum(xs);
    TotalDurationIsSum(ys);
    TotalDurationIsSum(xs + ys);
    SumAppend(xs, ys, BlockMinutes);
  }
}
