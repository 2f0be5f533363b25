/**
 * The one shape in which main.js uses randomness: `Math.floor(Math.random() * n)`.
 * `Math.random()` is not modelled; its result becomes a parameter `rand`
 * that obeys the only promise it makes, `0 <= rand < 1`.
 */
module Random {

  /** True of every value `Math.random()` may return. */
  predicate IsRandom(rand: real) {
    0.0 <= rand < 1.0
  }

  /** `Math.floor(rand * n)`: an index that is always in range for a non-empty list of length `n`. */
  function PickIndex(rand: real, n: nat): (i: nat)
    requires IsRandom(rand) && n > 0
    ensures i < n
  {
    ScaledBelow(rand, n);
    (rand * n as real).Floor
  }

  /** Scaling a value of `[0, 1)` by `n > 0` stays in `[0, n)`. */
  lemma ScaledBelow(rand: real, n: nat)
    requires IsRandom(rand) && n > 0
    ensures 0.0 <= rand * n as real < n as real
  {
  }
}
