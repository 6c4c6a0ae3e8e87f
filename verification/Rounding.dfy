/** The two rounding rules of the system: Go's `math.Round` on the server and
    JavaScript's `Math.round` on the till. Floating point is modelled by `real`. */
module Rounding {

  /** Go `math.Round`: nearest integer, halves away from zero. */
  function RoundHalfAway(x: real): int {
    if x >= 0.0 then (x + 0.5).Floor else -((0.5 - x).Floor)
  }

  /** JavaScript `Math.round`: nearest integer, halves towards positive infinity. */
  function RoundHalfUp(x: real): int {
    (x + 0.5).Floor
  }

  /** x lies exactly half way between two integers and below zero. */
  predicate NegativeTie(x: real) {
    x < 0.0 && (x - 0.5) == (x - 0.5).Floor as real
  }

  /** Both rules return a nearest integer; they are told apart only by ties. */
  lemma RoundHalfAwayCharacterised(x: real, n: int)
    ensures RoundHalfAway(x) == n <==>
            || -0.5 < x - n as real < 0.5
            || (x - n as real == -0.5 && x > 0.0)
            || (x - n as real == 0.5 && x < 0.0)
  {
    var up, down := (x + 0.5).Floor, (0.5 - x).Floor;
  }

  lemma RoundHalfUpCharacterised(x: real, n: int)
    ensures RoundHalfUp(x) == n <==> -0.5 <= x - n as real < 0.5
  {
    var up := (x + 0.5).Floor;
  }

  /** The server and the till round a number to the same integer exactly when it is
      not a negative tie. */
  lemma RoundingsAgreeIff(x: real)
    ensures RoundHalfAway(x) == RoundHalfUp(x) <==> !NegativeTie(x)
  {
    var n, k := RoundHalfUp(x), (x - 0.5).Floor;
    RoundHalfUpCharacterised(x, n);
    RoundHalfAwayCharacterised(x, n);
    if x - 0.5 == k as real {
      assert n == k + 1;
    }
    assert x - n as real == -0.5 ==> x - 0.5 == (n - 1) as real;
  }

  lemma RoundHalfAwayNear(x: real)
    ensures -0.5 <= RoundHalfAway(x) as real - x <= 0.5
    ensures x >= 0.0 ==> RoundHalfAway(x) >= 0
  {
    RoundHalfAwayCharacterised(x, RoundHalfAway(x));
  }

  lemma RoundHalfAwayMonotone(x: real, y: real)
    requires x <= y
    ensures RoundHalfAway(x) <= RoundHalfAway(y)
  {
    RoundHalfAwayCharacterised(x, RoundHalfAway(x));
    RoundHalfAwayCharacterised(y, RoundHalfAway(y));
  }

  lemma RoundHalfAwayOfInt(n: int)
    ensures RoundHalfAway(n as real) == n
  {
    RoundHalfAwayCharacterised(n as real, n);
  }

  /** A product kept under one name, so that proofs use it through the lemmas below. */
  function Scale(x: real, ratio: real): real {
    x * ratio
  }

  /** Scaling by a ratio between 0 and 1 shrinks towards zero. */
  lemma ScaleShrinks(x: real, ratio: real)
    requires 0.0 <= ratio <= 1.0
    ensures x >= 0.0 ==> 0.0 <= Scale(x, ratio) <= x
    ensures x <= 0.0 ==> x <= Scale(x, ratio) <= 0.0
  {
    var rest := 1.0 - ratio;
    assert x * ratio + x * rest == x;
    if x >= 0.0 {
      assert x * ratio >= 0.0 && x * rest >= 0.0;
    } else {
      assert (-x) * ratio >= 0.0 && (-x) * rest >= 0.0;
    }
  }

  lemma ScaleSplits(x: real, y: real, ratio: real)
    ensures Scale(x + y, ratio) == Scale(x, ratio) + Scale(y, ratio)
  {
  }

  lemma ScaleMonotone(x: real, smaller: real, larger: real)
    requires x >= 0.0 && smaller <= larger
    ensures Scale(x, smaller) <= Scale(x, larger)
  {
    assert x * (larger - smaller) >= 0.0;
  }

  lemma ScaleError(x: real, y: real, bound: real, ratio: real)
    requires -bound <= x - y <= bound && 0.0 <= ratio <= 1.0
    ensures -bound <= Scale(x, ratio) - Scale(y, ratio) <= bound
  {
    ScaleShrinks(x - y, ratio);
    assert Scale(x - y, ratio) == Scale(x, ratio) - Scale(y, ratio);
  }
}
