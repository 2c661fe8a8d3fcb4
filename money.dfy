/**
 * Money rounding of the invoice engine (`roundToTwo`, `roundToFour`).
 *
 * The source rounds by shifting the decimal exponent of the number's text
 * (`num + "e+2"`), applying `Math.round` and shifting back.  On exact decimal
 * values that is rounding to the nearest hundredth with ties going UP
 * (toward +infinity), which is what `Math.round` does; a result that is NaN
 * becomes 0 through `val || 0`.  Money is an exact `real` here, so the
 * floating-point drift the string trick works around does not arise.
 */
module Money {

  /** `Math.round`: the nearest integer, ties toward +infinity. */
  function MathRound(x: real): int
  {
    (x + 0.5).Floor
  }

  /** `roundToTwo(num)`: round to a whole number of cents. */
  function RoundToTwo(x: real): real
  {
    MathRound(x * 100.0) as real / 100.0
  }

  /** `roundToFour(num)`: round to four decimals. */
  function RoundToFour(x: real): real
  {
    MathRound(x * 10000.0) as real / 10000.0
  }

  /** A whole number of cents. */
  predicate IsCents(y: real)
  {
    (y * 100.0).Floor as real == y * 100.0
  }

  /** A whole number of ten-thousandths. */
  predicate IsFourPlaces(y: real)
  {
    (y * 10000.0).Floor as real == y * 10000.0
  }

  /**
   * `roundToTwo` gives a whole number of cents within (x - 0.005, x + 0.005]:
   * a value exactly half a cent away from two neighbours goes to the upper one.
   */
  lemma RoundToTwoBounds(x: real)
    ensures IsCents(RoundToTwo(x))
    ensures x - 0.005 < RoundToTwo(x) <= x + 0.005
  {
    var k := MathRound(x * 100.0);
    assert RoundToTwo(x) * 100.0 == k as real;
  }

  /** A whole number of cents is left as it is. */
  lemma RoundToTwoOfCents(y: real)
    requires IsCents(y)
    ensures RoundToTwo(y) == y
  {
    var k := (y * 100.0).Floor;
    assert y * 100.0 + 0.5 == k as real + 0.5;
    assert (y * 100.0 + 0.5).Floor == k;
  }

  /** Rounding twice is rounding once. */
  lemma RoundToTwoIdempotent(x: real)
    ensures RoundToTwo(RoundToTwo(x)) == RoundToTwo(x)
  {
    RoundToTwoBounds(x);
    RoundToTwoOfCents(RoundToTwo(x));
  }

  /** No whole number of cents lies closer to x than `roundToTwo(x)`. */
  lemma RoundToTwoNearest(x: real, c: real)
    requires IsCents(c)
    ensures (if c - x >= 0.0 then c - x else x - c) >=
            (if RoundToTwo(x) - x >= 0.0 then RoundToTwo(x) - x else x - RoundToTwo(x))
  {
    RoundToTwoBounds(x);
    var r := RoundToTwo(x);
    var k := MathRound(x * 100.0);
    var m := (c * 100.0).Floor;
    assert r * 100.0 == k as real;
    assert c * 100.0 == m as real;
    if m > k {
      assert c * 100.0 >= r * 100.0 + 1.0;
    } else if m < k {
      assert c * 100.0 <= r * 100.0 - 1.0;
    }
  }

  /** Ties are broken upward for negative amounts too: -0.125 becomes -0.12. */
  lemma RoundToTwoHalfUpOnNegatives()
    ensures RoundToTwo(-0.125) == -0.12
    ensures RoundToTwo(0.125) == 0.13
  {
    assert (-12.5 + 0.5).Floor == -12;
    assert (12.5 + 0.5).Floor == 13;
  }

  /** Sums and differences of whole cents are whole cents. */
  lemma CentsClosed(a: real, b: real)
    requires IsCents(a) && IsCents(b)
    ensures IsCents(a + b) && IsCents(a - b)
  {
    var i, j := (a * 100.0).Floor, (b * 100.0).Floor;
    var x, y := a * 100.0, b * 100.0;
    assert x == i as real && y == j as real;
    assert (a + b) * 100.0 == x + y == (i + j) as real;
    assert ((i + j) as real).Floor == i + j;
    assert (a - b) * 100.0 == x - y == (i - j) as real;
    assert ((i - j) as real).Floor == i - j;
  }

  /** `roundToFour` gives four places, within half a unit of the fourth place, ties up. */
  lemma RoundToFourBounds(x: real)
    ensures IsFourPlaces(RoundToFour(x))
    ensures x - 0.00005 < RoundToFour(x) <= x + 0.00005
  {
    var k := MathRound(x * 10000.0);
    assert RoundToFour(x) * 10000.0 == k as real;
  }

  /** Whole cents are whole ten-thousandths, and `roundToFour` leaves them alone. */
  lemma RoundToFourOfCents(y: real)
    requires IsCents(y)
    ensures RoundToFour(y) == y
  {
    var k := (y * 100.0).Floor;
    assert y * 10000.0 == (k * 100) as real;
    assert (y * 10000.0 + 0.5).Floor == k * 100;
  }
}
