/** The pseudo-random source of the generators, made an explicit input: a
    stream of the values `random.random()` returns, each in [0,1), consumed one
    per call of `random()`, `random.uniform`, `random.randint` or
    `random.choice`. */
module Draws {

  /** An endless stream of draws, each in [0,1). */
  ghost predicate IsUnitStream(draws: nat -> real)
  {
    forall k: nat :: IsUnit(draws(k))
  }

  predicate IsUnit(u: real) { 0.0 <= u < 1.0 }

  lemma ScaleBelow(w: real, u: real)
    requires 0.0 <= w && IsUnit(u)
    ensures 0.0 <= w * u <= w
    ensures 0.0 < w ==> w * u < w
  {
  }

  /** `random.uniform(a, b)` from one draw: a point of [a, b). */
  function Uniform(a: real, b: real, u: real): (x: real)
    requires a <= b && IsUnit(u)
    ensures a <= x <= b
    ensures a < b ==> x < b
  {
    var w := b - a;
    ScaleBelow(w, u);
    a + w * u
  }

  /** A draw turned into an index below `n`. */
  function Below(n: nat, u: real): (k: nat)
    requires 0 < n && IsUnit(u)
    ensures k < n
  {
    ScaleBelow(n as real, u);
    (n as real * u).Floor
  }

  /** `random.randint(a, b)` from one draw: an integer of a..b inclusive. */
  function RandInt(a: int, b: int, u: real): (k: int)
    requires a <= b && IsUnit(u)
    ensures a <= k <= b
  {
    a + Below(b - a + 1, u)
  }

  /** `random.choice(xs)` from one draw: an element of `xs`. */
  function Choice<T>(xs: seq<T>, u: real): (x: T)
    requires 0 < |xs| && IsUnit(u)
    ensures x in xs
  {
    xs[Below(|xs|, u)]
  }
}
