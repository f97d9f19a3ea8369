/**
 * Python's round(x, 1), taken on the exact value: to the nearest tenth,
 * a tie going to the even neighbour.
 */
module Rounding {

  /** Nearest integer to t; a tie goes to the even neighbour. */
  function RoundHalfEven(t: real): (n: int)
    ensures t - 0.5 <= n as real <= t + 0.5
    ensures (n as real == t + 0.5 || n as real == t - 0.5) ==> n % 2 == 0
  {
    var f := t.Floor;
    var frac := t - f as real;
    if frac < 0.5 then f
    else if frac > 0.5 then f + 1
    else if f % 2 == 0 then f
    else f + 1
  }

  /**
   * round(x, 1): a multiple of a tenth at most 0.05 away from x; when x
   * lies halfway between two tenths, the one with an even last digit.
   */
  function Round1(x: real): (r: real)
    ensures x - 0.05 <= r <= x + 0.05
    ensures (r * 10.0).Floor as real == r * 10.0
    ensures (r == x + 0.05 || r == x - 0.05) ==> (r * 10.0).Floor % 2 == 0
  {
    var n := RoundHalfEven(x * 10.0);
    assert (n as real / 10.0) * 10.0 == n as real;
    assert (n as real).Floor == n;
    n as real / 10.0
  }

  lemma RoundHalfEvenMonotone(t: real, u: real)
    requires t <= u
    ensures RoundHalfEven(t) <= RoundHalfEven(u)
  {
    if t == u {
    }
  }

  /** Rounding never reverses the order of two values. */
  lemma Round1Monotone(x: real, y: real)
    requires x <= y
    ensures Round1(x) <= Round1(y)
  {
    RoundHalfEvenMonotone(x * 10.0, y * 10.0);
  }

  /** A value that already has one decimal is left as it is. */
  lemma Round1OfTenths(k: int)
    ensures Round1(k as real / 10.0) == k as real / 10.0
  {
    assert (k as real / 10.0) * 10.0 == k as real;
    assert (k as real).Floor == k;
  }

  /** Halfway values go to the neighbour with an even last digit. */
  lemma Round1Ties()
    ensures Round1(0.25) == 0.2
    ensures Round1(0.75) == 0.8
    ensures Round1(-0.25) == -0.2
  {
    assert (2.5).Floor == 2 && (7.5).Floor == 7 && (-2.5).Floor == -3;
  }
}
