/** Facts about percentages `(part / whole) * 100` over exact rationals. */
module Fractions {

  lemma CancelFactor(a: real, b: real, k: real)
    requires k != 0.0 && a * k == b * k
    ensures a == b
  {
    assert (a - b) * k == 0.0;
  }

  /** A non-negative part of a positive whole is at least 0%; it is exactly 100% when it is the
      whole, below 100% when it is less and above 100% when it is more. */
  lemma PercentBounds(part: int, whole: int)
    requires 0 <= part && 0 < whole
    ensures 0.0 <= (part as real / whole as real) * 100.0
    ensures part <= whole ==> (part as real / whole as real) * 100.0 <= 100.0
    ensures part == whole <==> (part as real / whole as real) * 100.0 == 100.0
    ensures part < whole ==> (part as real / whole as real) * 100.0 < 100.0
  {
    var q := part as real / whole as real;
    var w := whole as real;
    assert q * w == part as real;
    if q == 1.0 {
      assert part as real == w;
    }
    if part == whole {
      CancelFactor(q, 1.0, w);
    }
  }
}
