/** `Math.round((part / whole) * 100)` for the non-negative counts the
    application divides, in exact integer arithmetic (halves round up, as
    `Math.round` does for positive numbers). */
module Percent {

  function RoundedPercent(part: nat, whole: nat): (r: nat)
    requires whole > 0
    ensures 2 * whole * r <= 200 * part + whole < 2 * whole * (r + 1)
  {
    (200 * part + whole) / (2 * whole)
  }

  /** A share of a whole is between 0 and 100 percent, is 0 for nothing and
      100 for everything, and stays below 100 while something is missing
      (for wholes below 200, where a missing item is worth at least half a
      percent). */
  lemma RoundedPercentBounds(part: nat, whole: nat)
    requires whole > 0 && part <= whole
    ensures RoundedPercent(part, whole) <= 100
    ensures part == 0 ==> RoundedPercent(part, whole) == 0
    ensures part == whole ==> RoundedPercent(part, whole) == 100
    ensures part < whole && whole < 200 ==> RoundedPercent(part, whole) < 100
  {
    var r := RoundedPercent(part, whole);
    var d := 2 * whole;
    assert d * r <= 200 * part + whole < d * (r + 1);
    MulCancel(d, r, 101);
    if part == 0 {
      MulCancel(d, r, 1);
    }
    if part == whole {
      MulCancel(d, 99, r + 1);
    }
    if part < whole && whole < 200 {
      assert 200 * part + whole <= 100 * d;
      MulCancel(d, r, 100);
    }
  }

  lemma MulCancel(d: nat, a: nat, b: nat)
    requires d > 0 && d * a < d * b
    ensures a < b
  {
  }
}
