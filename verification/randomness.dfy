/**
 * The random numbers the engine consumes. Every p5 `random(n)` call scales
 * one `Math.random()` result `u`, a real in [0, 1), to `u * n`; the model
 * takes those `u` as inputs instead of generating them.
 */
module Randomness {

  /** A possible `Math.random()` result. */
  predicate Unit(u: real) {
    0.0 <= u < 1.0
  }

  /**
   * `floor(random(n))` when `Math.random()` returned `u`: an index below `n`,
   * and 0 when `n` is 0.
   */
  function RandomFloor(u: real, n: nat): (k: int)
    requires Unit(u)
    ensures n > 0 ==> 0 <= k < n
    ensures n == 0 ==> k == 0
  {
    ScaledBelow(u, n);
    (u * n as real).Floor
  }

  lemma ScaledBelow(u: real, n: nat)
    requires Unit(u)
    ensures 0.0 <= u * n as real
    ensures n > 0 ==> u * n as real < n as real
  {
    if n > 0 {
      assert u * n as real < 1.0 * n as real;
    }
  }

  /** Every index below `n` is drawn by some `u`: `u = k / n` gives exactly `k`. */
  lemma RandomFloorReaches(n: nat, k: nat)
    requires k < n
    ensures Unit(k as real / n as real)
    ensures RandomFloor(k as real / n as real, n) == k
  {
    var u := k as real / n as real;
    assert u * n as real == k as real;
    assert (1.0 - u) * n as real > 0.0;
  }
}
