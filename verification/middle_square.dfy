/**
 * The middle-square generator: a four-digit decimal seed, squared, padded to
 * eight digits, whose middle four digits are the draw. The next seed is the
 * old one plus one, so the middle digits are never fed back.
 */
module MiddleSquare {
  import opened Modular

  const CYCLE_SIZE: nat := 10000

  /** The character of a decimal digit. */
  function DigitChar(d: nat): (c: char)
    requires d < 10
    ensures '0' <= c <= '9'
  {
    ('0' as int + d) as char
  }

  /** The value of a digit character. */
  function DigitValue(c: char): int {
    c as int - '0' as int
  }

  function Pow10(n: nat): (p: nat)
    ensures p > 0
  {
    if n == 0 then 1 else 10 * Pow10(n - 1)
  }

  /** Python's `str` of a non-negative integer: no leading zeros. */
  function Str(n: nat): (s: string)
    ensures |s| > 0
    decreases n
  {
    if n < 10 then [DigitChar(n)] else Str(n / 10) + [DigitChar(n % 10)]
  }

  /** Python's `str.zfill(width)` for a string without a sign. */
  function ZFill(s: string, width: nat): (r: string)
    ensures |r| == if |s| >= width then |s| else width
    ensures r[|r| - |s|..] == s
    ensures forall i :: 0 <= i < |r| - |s| ==> r[i] == '0'
  {
    if |s| >= width then s else seq(width - |s|, _ => '0') + s
  }

  /** Python's `int` of a string of decimal digits. */
  function Parse(s: string): int
    decreases |s|
  {
    if |s| == 0 then 0 else Parse(s[..|s| - 1]) * 10 + DigitValue(s[|s| - 1])
  }

  /** The last `w` decimal digits of `n`, most significant first. */
  function Digits(n: int, w: nat): (s: string)
    ensures |s| == w
    decreases w
  {
    if w == 0 then [] else Digits(n / 10, w - 1) + [DigitChar(n % 10)]
  }

  /** A padding zero in front of the digits of a number that fits. */
  lemma {:induction false} DigitsPad(n: nat, w: nat)
    requires n < Pow10(w)
    ensures Digits(n, w + 1) == ['0'] + Digits(n, w)
  {
    if w > 0 {
      DigitsPad(n / 10, w - 1);
      assert Digits(n, w + 1) == Digits(n / 10, w) + [DigitChar(n % 10)];
    }
  }

  function NumDigits(n: nat): (k: nat)
    ensures k >= 1
    decreases n
  {
    if n < 10 then 1 else 1 + NumDigits(n / 10)
  }

  lemma {:induction false} StrIsDigits(n: nat)
    ensures |Str(n)| == NumDigits(n)
    ensures Str(n) == Digits(n, NumDigits(n))
    ensures n < Pow10(NumDigits(n))
    decreases n
  {
    if n >= 10 {
      StrIsDigits(n / 10);
    }
  }

  lemma {:induction false} NumDigitsAtMost(n: nat, w: nat)
    requires 1 <= w && n < Pow10(w)
    ensures NumDigits(n) <= w
    decreases w
  {
    if n >= 10 {
      NumDigitsAtMost(n / 10, w - 1);
    }
  }

  /** Extra digits of a number that already fits are all padding zeros. */
  lemma {:induction false} DigitsWiden(n: nat, k: nat, w: nat)
    requires k <= w && n < Pow10(k)
    ensures Digits(n, w) == seq(w - k, _ => '0') + Digits(n, k)
    decreases w - k
  {
    if k < w {
      DigitsWiden(n, k, w - 1);
      PowMonotone(k, w - 1);
      DigitsPad(n, w - 1);
      assert Digits(n, w) == ['0'] + seq(w - 1 - k, _ => '0') + Digits(n, k);
    }
  }

  lemma {:induction false} PowMonotone(a: nat, b: nat)
    requires a <= b
    ensures Pow10(a) <= Pow10(b)
    decreases b
  {
    if a < b {
      PowMonotone(a, b - 1);
    }
  }

  /**
   * `str(n).zfill(w)` is the last `w` digits of `n` when `n` has at most `w`
   * digits.
   */
  lemma ZFillStr(n: nat, w: nat)
    requires 1 <= w && n < Pow10(w)
    ensures ZFill(Str(n), w) == Digits(n, w)
  {
    StrIsDigits(n);
    NumDigitsAtMost(n, w);
    DigitsWiden(n, NumDigits(n), w);
  }

  /** Reading back `w` digits gives the number modulo 10^w. */
  lemma {:induction false} ParseDigits(n: nat, w: nat)
    ensures Parse(Digits(n, w)) == n % Pow10(w)
    decreases w
  {
    if w > 0 {
      var s := Digits(n, w);
      assert s[..w - 1] == Digits(n / 10, w - 1);
      ParseDigits(n / 10, w - 1);
      ModTenTimes(n, Pow10(w - 1));
    }
  }

  /** The `w` digits split into the leading `w - j` and the trailing `j`. */
  lemma {:induction false} DigitsSplit(n: nat, w: nat, j: nat)
    requires j <= w
    ensures Digits(n, w) == Digits(n / Pow10(j), w - j) + Digits(n, j)
    decreases j
  {
    if j > 0 {
      var d := [DigitChar(n % 10)];
      var p := Pow10(j - 1);
      assert Pow10(j) == 10 * p;
      DigitsSplit(n / 10, w - 1, j - 1);
      DivDiv(n, 10, p);
      var q := n / 10 / p;
      assert q == n / Pow10(j);
      assert Digits(n, w) == Digits(n / 10, w - 1) + d;
      assert Digits(n, j) == Digits(n / 10, j - 1) + d;
      assert Digits(n / 10, w - 1) == Digits(q, w - j) + Digits(n / 10, j - 1);
    }
  }

  /** Characters 2 to 5 of eight digits are the hundreds of `n` onwards. */
  lemma MiddleOfEight(n: nat)
    ensures Digits(n, 8)[2..6] == Digits(n / 100, 4)
  {
    assert Pow10(2) == 100;
    assert Pow10(4) == 10000;
    DigitsSplit(n, 8, 2);
    DigitsSplit(n / 100, 6, 4);
    var high := Digits(n / 100 / 10000, 2);
    assert Digits(n, 8) == high + Digits(n / 100, 4) + Digits(n, 2);
  }

  lemma SquareFits(s: nat)
    requires s < 10000
    ensures s * s < Pow10(8)
  {
    assert Pow10(8) == 100000000;
    MulMonotone(s, 9999, s);
    MulMonotone(s, 9999, 9999);
  }

  /** The powers of ten the generator uses. */
  lemma Pow10Values()
    ensures Pow10(2) == 100 && Pow10(4) == 10000 && Pow10(8) == 100000000
  {
    assert Pow10(2) == 100;
    assert Pow10(4) == 100 * Pow10(2);
    assert Pow10(8) == 10000 * Pow10(4);
  }

  /** The square padded to eight characters, sliced `[2:6]`. */
  function Middle(seedStr: string): (m: string)
  {
    var v := Parse(seedStr);
    var magnitude := if v < 0 then -v else v;
    var square := ZFill(Str(magnitude * magnitude), 8);
    square[2..6]
  }

  /** A padded four-digit seed reads back as the seed. */
  lemma SeedStrParses(s: nat)
    requires s < CYCLE_SIZE
    ensures ZFill(Str(s), 4) == Digits(s, 4)
    ensures Parse(ZFill(Str(s), 4)) == s
  {
    Pow10Values();
    ZFillStr(s, 4);
    ParseDigits(s, 4);
    DivModUnique(s, 10000, 0, s);
  }

  /** The middle of an eight-digit padded number. */
  lemma MiddleOfSquare(n: nat)
    requires n < Pow10(8)
    ensures |ZFill(Str(n), 8)[2..6]| == 4
    ensures Parse(ZFill(Str(n), 8)[2..6]) == n / 100 % 10000
  {
    ZFillStr(n, 8);
    MiddleOfEight(n);
    ParseDigits(n / 100, 4);
    Pow10Values();
  }

  /** `Middle` squares the magnitude of whatever the string parses to. */
  lemma MiddleOf(seedStr: string, s: nat)
    requires Parse(seedStr) == s
    ensures Middle(seedStr) == ZFill(Str(s * s), 8)[2..6]
  {
  }

  /** For a seed string reading as `s` < 10000 the middle digits are `(s*s / 100) mod 10000`. */
  lemma MiddleDigits(seedStr: string, s: nat)
    requires s < CYCLE_SIZE && Parse(seedStr) == s
    ensures |Middle(seedStr)| == 4
    ensures Parse(Middle(seedStr)) == s * s / 100 % 10000
  {
    SquareFits(s);
    MiddleOf(seedStr, s);
    MiddleOfSquare(s * s);
  }

  /** The generator's state: the seed and its four-character form. */
  datatype Ms = Ms(seed: int, seedStr: string)

  /** The state every constructor and every call leaves behind. */
  predicate Valid(g: Ms) {
    0 <= g.seed < CYCLE_SIZE && g.seedStr == ZFill(Str(g.seed), 4)
  }

  datatype Draw = Draw(next: Ms, value: real)

  /** The state for seed `seed` reduced into the cycle. */
  function At(seed: int): (g: Ms)
    ensures Valid(g)
    ensures g.seed == seed % CYCLE_SIZE
  {
    Ms(seed % CYCLE_SIZE, ZFill(Str(seed % CYCLE_SIZE), 4))
  }

  /** The constructor, seeded from the clock reading `now` (whole seconds). */
  function New(now: int): (g: Ms)
    ensures Valid(g)
    ensures g.seed == now % CYCLE_SIZE
    ensures |g.seedStr| == 4 && Parse(g.seedStr) == g.seed
  {
    SeedStrParses(now % CYCLE_SIZE);
    At(now)
  }

  /** The state a call leaves behind: the seed plus one, around the cycle. */
  function Advance(g: Ms): (h: Ms)
    ensures Valid(h)
    ensures h.seed == (g.seed + 1) % CYCLE_SIZE
  {
    At(g.seed + 1)
  }

  /** The draw for a seed string: its middle digits over 10^(their count). */
  function Value(seedStr: string): real {
    var middle := Middle(seedStr);
    Parse(middle) as real / Pow10(|middle|) as real
  }

  lemma ValueOfSeed(s: nat)
    requires s < CYCLE_SIZE
    ensures Value(ZFill(Str(s), 4)) == SquareMiddle(s)
  {
    SeedStrParses(s);
    MiddleDigits(ZFill(Str(s), 4), s);
    Pow10Values();
  }

  /** The draw stated arithmetically: `(s*s / 100) mod 10000`, over 10000. */
  function SquareMiddle(s: int): (v: real)
    ensures 0.0 <= v < 1.0
  {
    (s * s / 100 % 10000) as real / 10000.0
  }

  /** `generate_number`. */
  function Generate(g: Ms): (d: Draw)
    ensures d.next == Advance(g)
    ensures Valid(g) ==> d.value == SquareMiddle(g.seed)
  {
    if Valid(g) then
      ValueOfSeed(g.seed);
      Draw(Advance(g), Value(g.seedStr))
    else
      Draw(Advance(g), Value(g.seedStr))
  }

  /** The next state depends on the seed alone, never on the middle digits. */
  lemma NextIgnoresMiddle(g: Ms, h: Ms)
    requires g.seed == h.seed
    ensures Generate(g).next == Generate(h).next
  {
  }

  /** The state after `n` calls. */
  function Iterate(g: Ms, n: nat): Ms
    decreases n
  {
    if n == 0 then g else Iterate(Advance(g), n - 1)
  }

  /** After `n` calls the seed has moved on by `n` around the cycle. */
  lemma {:induction false} IterateSeed(g: Ms, n: nat)
    requires 0 <= g.seed < CYCLE_SIZE
    ensures Iterate(g, n).seed == (g.seed + n) % CYCLE_SIZE
    decreases n
  {
    if n == 0 {
      DivModUnique(g.seed, CYCLE_SIZE, 0, g.seed);
    } else {
      var next := Advance(g);
      IterateSeed(next, n - 1);
      ModAddLeft(g.seed + 1, n - 1, CYCLE_SIZE);
    }
  }

  lemma {:induction false} IterateValid(g: Ms, n: nat)
    requires Valid(g)
    ensures Valid(Iterate(g, n))
    decreases n
  {
    if n > 0 {
      IterateValid(Advance(g), n - 1);
    }
  }

  /** A valid state is determined by its seed. */
  lemma ValidBySeed(g: Ms, h: Ms)
    requires Valid(g) && Valid(h)
    ensures g == h <==> g.seed == h.seed
  {
  }

  /** The states return to the start after CYCLE_SIZE calls. */
  lemma CycleReturns(g: Ms)
    requires Valid(g)
    ensures Iterate(g, CYCLE_SIZE) == g
  {
    var h := Iterate(g, CYCLE_SIZE);
    IterateSeed(g, CYCLE_SIZE);
    IterateValid(g, CYCLE_SIZE);
    ModAddMultiple(1, g.seed, CYCLE_SIZE);
    DivModUnique(g.seed, CYCLE_SIZE, 0, g.seed);
    assert h.seed == g.seed;
    ValidBySeed(h, g);
  }

  /** No smaller positive number of calls brings the state back. */
  lemma NoShorterCycle(g: Ms, n: nat)
    requires 0 <= g.seed < CYCLE_SIZE && 0 < n < CYCLE_SIZE
    ensures Iterate(g, n) != g
  {
    IterateSeed(g, n);
    if g.seed + n < CYCLE_SIZE {
      DivModUnique(g.seed + n, CYCLE_SIZE, 0, g.seed + n);
    } else {
      DivModUnique(g.seed + n, CYCLE_SIZE, 1, g.seed + n - CYCLE_SIZE);
    }
  }
}
