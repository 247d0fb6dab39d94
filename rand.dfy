/** The deterministic linear-congruential generator (Park-Miller constants)
    that drives level sampling. Only the integer seed is modelled exactly; the
    value handed out is the exact rational `seed / MODULUS`. */
module Rand {

  const MODULUS: nat := 0x7FFF_FFFF  // 2^31 - 1
  const MULTIPLIER: nat := 16807
  const INCREMENT: nat := 0
  /** 2^64: the range of an unsigned 64-bit word. */
  const WORD: nat := 0x1_0000_0000_0000_0000

  type u64 = x: int | 0 <= x < WORD

  /** One update of the seed: a wrapping 64-bit multiplication, the (zero)
      increment, then reduction modulo 2^31 - 1. */
  function Step(seed: u64): (next: u64)
    ensures next < MODULUS
  {
    ((MULTIPLIER * seed) % WORD + INCREMENT) % MODULUS
  }

  /** The value handed out for a seed. */
  function UnitValue(seed: u64): real {
    seed as real / MODULUS as real
  }

  /** The seed after `n` calls, starting from `seed`. */
  function SeedAfter(seed: u64, n: nat): u64 {
    if n == 0 then seed else Step(SeedAfter(seed, n - 1))
  }

  /** After any call the value lies in [0, 1). */
  lemma ValueInUnitInterval(seed: u64)
    ensures 0.0 <= UnitValue(Step(seed)) < 1.0
  {
  }

  /** Once the seed is below the modulus (from the first call on), the 64-bit
      multiplication never wraps, so the update is the plain Park-Miller step. */
  lemma {:induction false} NoWrapAfterFirst(seed: u64, n: nat)
    requires n >= 1
    ensures SeedAfter(seed, n) < MODULUS
    ensures MULTIPLIER * SeedAfter(seed, n) < WORD
    ensures SeedAfter(seed, n + 1) == (MULTIPLIER * SeedAfter(seed, n)) % MODULUS
  {
  }

  /** Seed 0 is a fixed point: every later seed is 0. */
  lemma {:induction false} ZeroIsFixed(n: nat)
    ensures SeedAfter(0, n) == 0
  {
    if n > 0 {
      ZeroIsFixed(n - 1);
    }
  }

  /** The modulus itself (and 0) collapse to seed 0 on the first call. */
  lemma ModulusCollapses()
    ensures Step(MODULUS) == 0 && Step(0) == 0
  {
  }

  class LcgRng {
    var seed: u64

    /** Stores the seed unchanged. */
    constructor (seed: u64)
      ensures this.seed == seed
    {
      this.seed := seed;
    }

    /** Advances the seed once and returns `seed / MODULUS`. The new state is a
        function of the old one alone, so equal seeds give equal sequences. */
    method NextF64() returns (value: real)
      modifies this
      ensures seed == Step(old(seed))
      ensures value == UnitValue(seed) && 0.0 <= value < 1.0
    {
      seed := ((MULTIPLIER * seed) % WORD + INCREMENT) % MODULUS;
      value := seed as real / MODULUS as real;
    }
  }
}
