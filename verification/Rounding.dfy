// Rounding of exact reals, as Python's `round` does it on a number without a
// fractional digit count: to the nearest integer, ties to the even one.
module Rounding {

  function RoundHalfEven(x: real): int {
    var low := x.Floor;
    var rest := x - low as real;
    if rest < 0.5 then low
    else if rest > 0.5 then low + 1
    else if low % 2 == 0 then low
    else low + 1
  }

  lemma RoundsToNearest(x: real)
    ensures -0.5 <= RoundHalfEven(x) as real - x <= 0.5
  {
  }

  /** No integer other than the rounded one is strictly nearer; at a tie the even one wins. */
  lemma TieGoesToEven(x: real, n: int)
    requires -0.5 <= n as real - x <= 0.5
    ensures n == RoundHalfEven(x) || (RoundHalfEven(x) % 2 == 0 && (n as real - x == 0.5 || n as real - x == -0.5))
  {
  }

  lemma TieIsEven(x: real)
    requires RoundHalfEven(x) as real - x == 0.5 || RoundHalfEven(x) as real - x == -0.5
    ensures RoundHalfEven(x) % 2 == 0
  {
    var n := RoundHalfEven(x);
    TieGoesToEven(x, if n as real - x == 0.5 then n - 1 else n + 1);
  }

  lemma RoundIsMonotone(x: real, y: real)
    requires x <= y
    ensures RoundHalfEven(x) <= RoundHalfEven(y)
  {
  }
}
