/** The parts of JavaScript's number arithmetic that the calculator relies on,
    over exact reals: Math.floor is Dafny's `.Floor`, Math.round and `%` are below. */
module JsMath {

  /** Math.round: the nearest integer, a half being rounded towards +infinity. */
  function Round(x: real): (r: int)
    ensures r as real - 0.5 <= x < r as real + 0.5
  {
    (x + 0.5).Floor
  }

  /** x % n for a non-negative dividend and a positive divisor: the remainder of
      truncating division, which for x >= 0 is that of floor division. */
  function Mod(x: real, n: real): (r: real)
    requires x >= 0.0 && n > 0.0
    ensures 0.0 <= r < n
    ensures r <= x
    ensures ((x - r) / n).Floor as real == (x - r) / n
  {
    var q := (x / n).Floor;
    var f := x / n - q as real;
    ScaledFraction(f, n);
    assert x == n * q as real + n * f;
    assert (x - (x - n * q as real)) / n == q as real;
    x - n * q as real
  }

  /** A fraction in [0, 1) scaled by a positive n stays in [0, n). */
  lemma ScaledFraction(f: real, n: real)
    requires 0.0 <= f < 1.0 && n > 0.0
    ensures 0.0 <= n * f < n
  {
    MulBelow(0.0, f, n);
    MulBelow(f, 1.0, n);
  }

  lemma MulBelow(a: real, b: real, n: real)
    requires a <= b && n > 0.0
    ensures a * n <= b * n
    ensures a < b ==> a * n < b * n
  {
  }

  /** Math.round commutes with adding a whole number. */
  lemma RoundShift(k: int, x: real)
    ensures Round(k as real + x) == k + Round(x)
  {
  }

  /** Math.round never reverses an order. */
  lemma RoundMonotone(x: real, y: real)
    requires x <= y
    ensures Round(x) <= Round(y)
  {
  }
}
