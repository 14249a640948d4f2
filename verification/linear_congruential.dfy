/**
 * The linear congruential generator: a 32-bit state advanced by
 * `seed := (1664525 * seed + 1013904223) mod 2^32`, each draw being the new
 * state scaled into [0, 1).
 */
module LinearCongruential {
  import opened Modular

  const MULTIPLIER: int := 1664525
  const INCREMENT: int := 1013904223
  const MODULUS: int := 0x1_0000_0000

  /** The inverse of MULTIPLIER modulo 2^32 (the multiplier is odd). */
  const INVERSE: int := 4276115653

  datatype Lcg = Lcg(seed: int)

  /** One draw: the advanced generator and the number it returns. */
  datatype Draw = Draw(next: Lcg, value: real)

  /** The generator seeded from the clock reading `now` (whole seconds). */
  function New(now: int): (g: Lcg)
    ensures 0 <= g.seed < MODULUS
    ensures (now - g.seed) % MODULUS == 0
  {
    assert now == (now / MODULUS) * MODULUS + now % MODULUS;
    ModAddMultiple(now / MODULUS, 0, MODULUS);
    Lcg(now % MODULUS)
  }

  /** `generate_number`. */
  function Generate(g: Lcg): (d: Draw)
    ensures 0 <= d.next.seed < MODULUS
    ensures (d.next.seed - (MULTIPLIER * g.seed + INCREMENT)) % MODULUS == 0
    ensures d.value == d.next.seed as real / MODULUS as real
    ensures 0.0 <= d.value < 1.0
  {
    var x := MULTIPLIER * g.seed + INCREMENT;
    var s := x % MODULUS;
    assert x == (x / MODULUS) * MODULUS + s;
    ModAddMultiple(-(x / MODULUS), 0, MODULUS);
    Draw(Lcg(s), s as real / MODULUS as real)
  }

  /** The state before a draw, recovered from the state after it. */
  function Previous(seed: int): (p: int)
    ensures 0 <= p < MODULUS
  {
    INVERSE * (seed - INCREMENT) % MODULUS
  }

  /** A draw can be undone: the recurrence is a permutation of the 2^32 states. */
  lemma PreviousUndoesGenerate(g: Lcg)
    requires 0 <= g.seed < MODULUS
    ensures Previous(Generate(g).next.seed) == g.seed
  {
    var s := g.seed;
    var x := Generate(g).next.seed;
    assert x == (MULTIPLIER * s + INCREMENT) % MODULUS;
    ModAddLeft(MULTIPLIER * s + INCREMENT, -INCREMENT, MODULUS);
    assert (x - INCREMENT) % MODULUS == MULTIPLIER * s % MODULUS;
    ModMulLeft(x - INCREMENT, INVERSE, MODULUS);
    ModMulLeft(MULTIPLIER * s, INVERSE, MODULUS);
    assert INVERSE * (x - INCREMENT) % MODULUS == MULTIPLIER * s * INVERSE % MODULUS;
    assert MULTIPLIER * s * INVERSE == (1657219 * s) * MODULUS + s;
    ModAddMultiple(1657219 * s, s, MODULUS);
  }

  /** Distinct states never advance to the same state. */
  lemma GenerateInjective(g: Lcg, h: Lcg)
    requires 0 <= g.seed < MODULUS && 0 <= h.seed < MODULUS
    ensures Generate(g).next == Generate(h).next <==> g == h
  {
    PreviousUndoesGenerate(g);
    PreviousUndoesGenerate(h);
  }

  /** The numbers `n` successive calls return. */
  function Draws(g: Lcg, n: nat): (r: seq<real>)
    ensures |r| == n
    ensures forall i :: 0 <= i < n ==> 0.0 <= r[i] < 1.0
    decreases n
  {
    if n == 0 then [] else [Generate(g).value] + Draws(Generate(g).next, n - 1)
  }
}
