/**
 The synthetic per-minute energy curve of lib/circadian.ts (`energyCurve`) and the slot
 averaging helper `calculateAverageEnergy`.
 */
module Energy {
  import opened Wrappers
  import opened TimeText
  import opened Types

  /** The Gaussian sum `0.5·peak1 + 0.7·peak2 + dip + 0.4` (sigma 90) at `t` minutes since
      wake. Its floating-point exponentials are not modelled: the curve takes it as a
      parameter and relies only on the clamp applied to it. */
  type RawEnergy = (int, CurveParams) -> real

  function Max(a: real, b: real): real { if a >= b then a else b }

  function Min(a: real, b: real): real { if a <= b then a else b }

  /** `Math.max(0, Math.min(1, x))`. */
  function Clamp(x: real): (r: real)
    ensures 0.0 <= r <= 1.0
    ensures 0.0 <= x <= 1.0 ==> r == x
    ensures x < 0.0 ==> r == 0.0
    ensures x > 1.0 ==> r == 1.0
  {
    Max(0.0, Min(1.0, x))
  }

  /** The asleep test of the curve: when sleep is numerically after wake the window wraps
      past midnight, otherwise it is the plain interval from sleep up to wake. */
  predicate Asleep(m: int, w: int, s: int) {
    if s > w then m >= s || m < w else m >= s && m < w
  }

  /** The asleep test is membership of the circular interval that runs forward from sleep to
      wake; equal wake and sleep leave no minute asleep. */
  lemma AsleepIsCircularWindow(m: int, w: int, s: int)
    requires 0 <= m < MinutesPerDay && 0 <= w < MinutesPerDay && 0 <= s < MinutesPerDay
    ensures Asleep(m, w, s) <==> (m - s) % MinutesPerDay < (w - s) % MinutesPerDay
  {
    if m >= s {
      assert (m - s) % MinutesPerDay == m - s;
    } else {
      assert (m - s) % MinutesPerDay == m - s + MinutesPerDay;
    }
    if w >= s {
      assert (w - s) % MinutesPerDay == w - s;
    } else {
      assert (w - s) % MinutesPerDay == w - s + MinutesPerDay;
    }
  }

  /** `(m - w + 1440) % 1440`: minutes elapsed since wake, wrapping. */
  function SinceWake(m: int, w: int): (t: int)
    requires 0 <= m < MinutesPerDay && 0 <= w < MinutesPerDay
    ensures 0 <= t < MinutesPerDay
    ensures t % MinutesPerDay == (m - w) % MinutesPerDay
  {
    JsRem(m - w + MinutesPerDay, MinutesPerDay)
  }

  function EnergyAt(m: int, w: int, s: int, t: Chronotype, raw: RawEnergy): real
    requires 0 <= m < MinutesPerDay && 0 <= w < MinutesPerDay
  {
    var e := Clamp(raw(SinceWake(m, w), CurveParamsOf(t)));
    if Asleep(m, w, s) then 0.0 else e
  }

  /** `energyCurve(wake, sleep, type)`: one entry per minute of the day, each in [0, 1],
      exactly 0 inside the asleep window and the clamped raw value everywhere else. */
  function EnergyCurve(wake: string, sleep: string, t: Chronotype, raw: RawEnergy): (r: seq<real>)
    requires IsClock(wake) && IsClock(sleep)
    ensures |r| == MinutesPerDay
    ensures forall m :: 0 <= m < |r| ==> 0.0 <= r[m] <= 1.0
    ensures forall m :: 0 <= m < |r| && Asleep(m, MinuteOf(wake), MinuteOf(sleep)) ==> r[m] == 0.0
    ensures forall m :: 0 <= m < |r| && !Asleep(m, MinuteOf(wake), MinuteOf(sleep)) ==>
              r[m] == Clamp(raw(SinceWake(m, MinuteOf(wake)), CurveParamsOf(t)))
  {
    var w := MinuteOf(wake);
    var s := MinuteOf(sleep);
    seq(MinutesPerDay, m requires 0 <= m < MinutesPerDay => EnergyAt(m, w, s, t, raw))
  }

  /** Sum of `curve[i % 1440]` for the `count` minutes `from <= i < from + count`. */
  function RangeSum(curve: seq<real>, from: nat, count: nat): real
    requires |curve| == MinutesPerDay
    decreases count
  {
    if count == 0 then 0.0 else curve[from % MinutesPerDay] + RangeSum(curve, from + 1, count - 1)
  }

  ghost predicate InUnitRange(curve: seq<real>) {
    forall i :: 0 <= i < |curve| ==> 0.0 <= curve[i] <= 1.0
  }

  lemma {:induction false} RangeSumBounds(curve: seq<real>, from: nat, count: nat)
    requires |curve| == MinutesPerDay
    ensures InUnitRange(curve) ==> 0.0 <= RangeSum(curve, from, count) <= count as real
    decreases count
  {
    if count > 0 {
      RangeSumBounds(curve, from + 1, count - 1);
    }
  }

  /** `calculateAverageEnergy(startMin, endMin, energyCurve?)`: 0.5 when no curve is given or
      the range is empty, otherwise the mean of the curve over the range; a curve inside
      [0, 1] gives a mean inside [0, 1]. */
  function AverageEnergy(startMin: int, endMin: int, curve: Option<seq<real>>): (r: real)
    requires startMin >= 0
    requires curve.Some? ==> |curve.value| == MinutesPerDay
    ensures curve.None? || endMin <= startMin ==> r == 0.5
    ensures curve.Some? && InUnitRange(curve.value) ==> 0.0 <= r <= 1.0
  {
    match curve
    case None => 0.5
    case Some(c) =>
      if endMin <= startMin then 0.5
      else
        var n := endMin - startMin;
        RangeSumBounds(c, startMin, n);
        RangeSum(c, startMin, n) / n as real
  }

  lemma {:induction false} RangeSumConstant(curve: seq<real>, from: nat, count: nat, v: real)
    requires |curve| == MinutesPerDay
    requires forall i :: 0 <= i < |curve| ==> curve[i] == v
    ensures RangeSum(curve, from, count) == count as real * v
    decreases count
  {
    if count > 0 {
      RangeSumConstant(curve, from + 1, count - 1, v);
    }
  }

  /** A flat curve averages to its level over any range. */
  lemma AverageOfFlatCurve(startMin: nat, endMin: int, curve: seq<real>, v: real)
    requires |curve| == MinutesPerDay
    requires forall i :: 0 <= i < |curve| ==> curve[i] == v
    ensures endMin > startMin ==> AverageEnergy(startMin, endMin, Some(curve)) == v
  {
    if endMin > startMin {
      var n := endMin - startMin;
      RangeSumConstant(curve, startMin, n, v);
      assert n as real != 0.0;
      assert (n as real * v) / n as real == v;
      assert AverageEnergy(startMin, endMin, Some(curve)) == (n as real * v) / n as real;
    }
  }
}
