/**
  Python's `random.Random`, reduced to what the injector relies on: an abstract
  generator state `S` threaded through four step functions. The Mersenne Twister
  itself is not modelled; only the ranges its draws are documented to fall in.
 */
module RandomSource {

  datatype Generator<!S> = Generator(
    seed: int -> S,                        // random.Random(seed)
    random: S -> (real, S),                // rng.random()
    uniform: (S, real, real) -> (real, S), // rng.uniform(a, b)
    randInt: (S, int, int) -> (int, S))    // rng.randint(lo, hi)

  /** The documented ranges: random() in [0, 1), uniform(a, b) in [a, b], randint(lo, hi) in [lo, hi]. */
  ghost predicate Valid<S(!new)>(g: Generator<S>) {
    && (forall s :: 0.0 <= g.random(s).0 < 1.0)
    && (forall s, a: real, b: real :: a <= b ==> a <= g.uniform(s, a, b).0 <= b)
    && (forall s, lo: int, hi: int :: lo <= hi ==> lo <= g.randInt(s, lo, hi).0 <= hi)
  }
}
