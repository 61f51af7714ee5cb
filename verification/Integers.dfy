/** Small facts of integer arithmetic. */
module Integers {
  function Min(x: int, y: int): int {
    if x <= y then x else y
  }

  function Max(x: int, y: int): int {
    if x >= y then x else y
  }

  function Total(xs: seq<int>): int {
    if xs == [] then 0 else Total(xs[..|xs| - 1]) + xs[|xs| - 1]
  }

  lemma MulOrder(x: int, y: int, d: nat)
    requires x <= y
    ensures x * d <= y * d && d * x <= d * y
  {
  }
}
