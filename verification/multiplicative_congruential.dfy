/**
 * The "multiplicative" congruential generator. Despite the name it adds an
 * increment: its update is the linear congruential recurrence, but its seed
 * is the raw clock reading, not reduced modulo 2^32 until the first call.
 */
module MultiplicativeCongruential {
  import opened Modular
  import LinearCongruential

  /** The seed the constructor stores: the clock reading as it is. */
  datatype Mcg = Mcg(seed: int)

  datatype Draw = Draw(next: Mcg, value: real)

  function New(now: int): (g: Mcg)
    ensures g.seed == now
  {
    Mcg(now)
  }

  /** `generate_number`, with the constants it declares locally. */
  function Generate(g: Mcg): (d: Draw)
    ensures 0 <= d.next.seed < 0x1_0000_0000
    ensures d.value == d.next.seed as real / 0x1_0000_0000 as real
    ensures 0.0 <= d.value < 1.0
  {
    var multiplier := 1664525;
    var increment := 1013904223;
    var modulus := 0x1_0000_0000;
    var s := (multiplier * g.seed + increment) % modulus;
    Draw(Mcg(s), s as real / modulus as real)
  }

  /**
   * Whatever the seed, even an unreduced or negative one, a call gives the
   * same state and number as the linear generator seeded from it.
   */
  lemma GenerateIsLinear(g: Mcg)
    ensures Generate(g).next.seed == LinearCongruential.Generate(LinearCongruential.New(g.seed)).next.seed
    ensures Generate(g).value == LinearCongruential.Generate(LinearCongruential.New(g.seed)).value
  {
    var m := LinearCongruential.MODULUS;
    var a := LinearCongruential.MULTIPLIER;
    var c := LinearCongruential.INCREMENT;
    var r := LinearCongruential.New(g.seed).seed;
    assert r == g.seed % m;
    ModMulLeft(g.seed, a, m);
    assert a * r % m == a * g.seed % m;
    ModAddLeft(a * r, c, m);
    ModAddLeft(a * g.seed, c, m);
  }

  /** The numbers of `n` successive calls; their range follows from `SameDrawsAsLinear`. */
  function Draws(g: Mcg, n: nat): seq<real>
    decreases n
  {
    if n == 0 then [] else [Generate(g).value] + Draws(Generate(g).next, n - 1)
  }

  /**
   * Started from the same clock reading, the two generators return the same
   * numbers on every call.
   */
  lemma {:induction false} SameDrawsAsLinear(g: Mcg, n: nat)
    ensures Draws(g, n) == LinearCongruential.Draws(LinearCongruential.New(g.seed), n)
    decreases n
  {
    if n > 0 {
      GenerateIsLinear(g);
      var next := Generate(g).next;
      var lnext := LinearCongruential.Generate(LinearCongruential.New(g.seed)).next;
      SameDrawsAsLinear(next, n - 1);
      DivModUnique(next.seed, LinearCongruential.MODULUS, 0, next.seed);
      assert LinearCongruential.New(next.seed) == lnext;
    }
  }
}
