/** Decimal rounding, as `Math.round(x * scale) / scale`. */
module Rounding {
  /** Halves round up. */
  function Nearest(x: real): int {
    (x + 0.5).Floor
  }

  function Round4(x: real): real {
    Nearest(x * 10000.0) as real / 10000.0
  }

  lemma NearestIs(x: real)
    ensures Nearest(x) as real <= x + 0.5 && x - 0.5 < Nearest(x) as real
  {
  }

  lemma NearestOrder(x: real, y: real)
    requires x <= y
    ensures Nearest(x) <= Nearest(y)
  {
  }

  lemma Round4Order(x: real, y: real)
    requires x <= y
    ensures Round4(x) <= Round4(y)
  {
    NearestOrder(x * 10000.0, y * 10000.0);
  }

  lemma Round4AtMost(x: real, n: int)
    ensures Round4(x) <= n as real / 10000.0 <==> x < (n as real + 0.5) / 10000.0
  {
    var m := Nearest(x * 10000.0);
    assert m <= n <==> x * 10000.0 + 0.5 < n as real + 1.0;
    assert m as real / 10000.0 <= n as real / 10000.0 <==> m <= n;
  }

  function Round6(x: real): real {
    Nearest(x * 1000000.0) as real / 1000000.0
  }

  lemma NearestUnique(y: real, n: int)
    requires n as real - 0.5 <= y < n as real + 0.5
    ensures Nearest(y) == n
  {
  }

  lemma Round6Near(x: real)
    ensures x - 0.0000005 < Round6(x) <= x + 0.0000005
  {
    NearestIs(x * 1000000.0);
  }

  lemma Round6Order(x: real, y: real)
    requires x <= y
    ensures Round6(x) <= Round6(y)
  {
    NearestOrder(x * 1000000.0, y * 1000000.0);
  }

  lemma Round6Shift(x: real, k: int)
    ensures Round6(x + k as real) == Round6(x) + k as real
  {
    var n := Nearest(x * 1000000.0);
    NearestIs(x * 1000000.0);
    NearestUnique((x + k as real) * 1000000.0, n + k * 1000000);
  }

  lemma Round6Is(x: real, n: int, r: real)
    requires n as real - 0.5 <= x * 1000000.0 < n as real + 0.5 && r * 1000000.0 == n as real
    ensures Round6(x) == r
  {
    NearestUnique(x * 1000000.0, n);
  }
}
