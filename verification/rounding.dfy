/** The two-decimal rounding the engine applies to its confidence figures. */
module Rounding {

  /** `Math.round(x * 100) / 100`; `Math.round` rounds halves upwards. */
  function Round2(x: real): (r: real)
    ensures x - 0.005 < r <= x + 0.005
    ensures 0.0 <= x <= 1.0 ==> 0.0 <= r <= 1.0
  {
    ((100.0 * x + 0.5).Floor as real) / 100.0
  }

  /** A rounded value is a whole number of hundredths. */
  lemma Round2HasTwoDecimals(x: real)
    ensures (100.0 * Round2(x)).Floor as real == 100.0 * Round2(x)
  {
  }

  /** Two decimals survive rounding unchanged. */
  lemma Round2Idempotent(x: real)
    ensures Round2(Round2(x)) == Round2(x)
  {
    var n := (100.0 * x + 0.5).Floor;
    assert Round2(x) == n as real / 100.0;
    assert 100.0 * Round2(x) + 0.5 == n as real + 0.5;
    assert (n as real + 0.5).Floor == n;
  }
}
