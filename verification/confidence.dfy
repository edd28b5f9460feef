/**
 `calculateDailyConfidence` of lib/circadian.ts: the mean confidence of a schedule rounded to
 two decimals. The API route's `calculateOverallConfidence` is the same function and is not
 repeated.
 */
module Confidence {
  import opened Types
  import opened Sorting
  import opened Rounding

  /** Sum of the blocks' confidences. */
  function ConfidenceSum(bs: seq<Block>): real {
    if |bs| == 0 then 0.0 else bs[0].confidence + ConfidenceSum(bs[1..])
  }

  /** Reordering a schedule does not change its confidence. */
  lemma {:induction false} ConfidenceSumPermutation(xs: seq<Block>, ys: seq<Block>)
    requires multiset(xs) == multiset(ys)
    ensures ConfidenceSum(xs) == ConfidenceSum(ys)
    decreases |xs|
  {
    if |xs| == 0 {
      assert |ys| == |multiset(ys)| == 0;
    } else {
      var i := PermutationSplit(xs, ys);
      ConfidenceSumPermutation(xs[1..], ys[..i] + ys[i + 1..]);
      ConfidenceSumAppend(ys[..i], ys[i + 1..]);
      ConfidenceSumAppend(ys[..i] + [xs[0]], ys[i + 1..]);
      ConfidenceSumAppend(ys[..i], [xs[0]]);
    }
  }

  lemma {:induction false} ConfidenceSumAppend(a: seq<Block>, b: seq<Block>)
    ensures ConfidenceSum(a + b) == ConfidenceSum(a) + ConfidenceSum(b)
  {
    if |a| == 0 {
      assert a + b == b;
    } else {
      assert (a + b)[0] == a[0];
      assert (a + b)[1..] == a[1..] + b;
      ConfidenceSumAppend(a[1..], b);
    }
  }

  lemma {:induction false} ConfidenceSumBounds(bs: seq<Block>)
    ensures (forall b :: b in bs ==> ConfidenceInRange(b)) ==> 0.0 <= ConfidenceSum(bs) <= |bs| as real
  {
    if |bs| > 0 && forall b :: b in bs ==> ConfidenceInRange(b) {
      assert bs[0] in bs;
      assert forall b :: b in bs[1..] ==> b in bs;
      ConfidenceSumBounds(bs[1..]);
      assert |bs| as real == 1.0 + |bs[1..]| as real;
    }
  }

  /** `c` added to itself `k` times. */
  function Repeated(k: nat, c: real): real {
    if k == 0 then 0.0 else Repeated(k - 1, c) + c
  }

  lemma {:induction false} RepeatedIsProduct(k: nat, c: real)
    ensures Repeated(k, c) == k as real * c
  {
    if k > 0 {
      RepeatedIsProduct(k - 1, c);
      MulStep(k - 1, c);
    }
  }

  lemma MulStep(k: nat, c: real)
    ensures (k + 1) as real * c == k as real * c + c
  {
  }

  lemma {:induction false} ConfidenceSumConstant(bs: seq<Block>, c: real)
    requires forall b :: b in bs ==> b.confidence == c
    ensures ConfidenceSum(bs) == Repeated(|bs|, c)
  {
    if |bs| > 0 {
      assert bs[0] in bs;
      assert forall b :: b in bs[1..] ==> b in bs;
      ConfidenceSumConstant(bs[1..], c);
    }
  }

  lemma Cancel(n: real, c: real)
    requires n > 0.0
    ensures n * c / n == c
  {
  }

  /** `calculateDailyConfidence` (and the route's `calculateOverallConfidence`): 0 for an empty
      schedule, otherwise the mean confidence rounded to two decimals. */
  function DailyConfidence(bs: seq<Block>): (r: real)
    ensures |bs| == 0 ==> r == 0.0
    ensures (forall b :: b in bs ==> ConfidenceInRange(b)) ==> 0.0 <= r <= 1.0
  {
    if |bs| == 0 then 0.0
    else
      var mean := ConfidenceSum(bs) / |bs| as real;
      ConfidenceSumBounds(bs);
      MeanInUnitRange(ConfidenceSum(bs), |bs| as real);
      Round2(mean)
  }

  /** A non-empty schedule's daily confidence is within half a hundredth of its mean
      confidence. */
  lemma DailyConfidenceNearMean(bs: seq<Block>)
    requires |bs| > 0
    ensures var mean := ConfidenceSum(bs) / |bs| as real;
      mean - 0.005 < DailyConfidence(bs) <= mean + 0.005
  {
  }

  lemma MeanInUnitRange(sum: real, n: real)
    requires n > 0.0
    ensures 0.0 <= sum <= n ==> 0.0 <= sum / n <= 1.0
  {
    if 0.0 <= sum <= n {
      assert sum / n * n == sum;
    }
  }

  /** When every block has the same confidence, the daily confidence is that value rounded. */
  lemma UniformConfidence(bs: seq<Block>, c: real)
    requires |bs| > 0
    requires forall b :: b in bs ==> b.confidence == c
    ensures DailyConfidence(bs) == Round2(c)
  {
    ConfidenceSumConstant(bs, c);
    RepeatedIsProduct(|bs|, c);
    var n := |bs| as real;
    assert ConfidenceSum(bs) == n * c;
    Cancel(n, c);
    assert DailyConfidence(bs) == Round2(ConfidenceSum(bs) / n);
  }
}
