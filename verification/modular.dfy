/**
 * Integer division facts the generators need. Dafny's `/` and `%` are
 * Euclidean; for a positive divisor they agree with Python's floor division
 * and modulo, which is all the generators use.
 */
module Modular {

  /** A positive multiple of `m` is at least `m`. */
  lemma {:induction false} MulAtLeast(d: int, m: int)
    requires d >= 1 && m >= 0
    ensures d * m >= m
    decreases d
  {
    if d > 1 {
      MulAtLeast(d - 1, m);
      assert d * m == (d - 1) * m + m;
    }
  }

  /** Multiplying by a non-negative factor keeps the order. */
  lemma MulMonotone(a: int, b: int, c: int)
    requires a <= b && c >= 0
    ensures a * c <= b * c
  {
    if a < b {
      MulAtLeast(b - a, c);
      assert b * c == a * c + (b - a) * c;
    }
  }

  /** Quotient and remainder are determined by the division equation. */
  lemma DivModUnique(n: int, m: int, q: int, r: int)
    requires m > 0 && 0 <= r < m && n == q * m + r
    ensures n / m == q && n % m == r
  {
    var q0, r0 := n / m, n % m;
    assert n == q0 * m + r0;
    var d := q - q0;
    assert d * m == q * m - q0 * m;
    if d > 0 {
      MulAtLeast(d, m);
    } else if d < 0 {
      MulAtLeast(-d, m);
    }
  }

  /** Adding a multiple of the modulus does not change the remainder. */
  lemma ModAddMultiple(k: int, z: int, m: int)
    requires m > 0
    ensures (k * m + z) % m == z % m
  {
    assert z == (z / m) * m + z % m;
    assert k * m + z == (k + z / m) * m + z % m;
    DivModUnique(k * m + z, m, k + z / m, z % m);
  }

  /** Reducing an addend first does not change the remainder of a sum. */
  lemma ModAddLeft(x: int, y: int, m: int)
    requires m > 0
    ensures (x % m + y) % m == (x + y) % m
  {
    assert x == (x / m) * m + x % m;
    ModAddMultiple(x / m, x % m + y, m);
  }

  /** Reducing a factor first does not change the remainder of a product. */
  lemma ModMulLeft(x: int, y: int, m: int)
    requires m > 0
    ensures (x % m) * y % m == x * y % m
  {
    var q, r := x / m, x % m;
    assert x == q * m + r;
    assert x * y == (q * y) * m + r * y;
    ModAddMultiple(q * y, r * y, m);
  }

  /** Dividing twice is dividing by the product. */
  lemma DivDiv(n: nat, a: nat, b: nat)
    requires a > 0 && b > 0
    ensures n / a / b == n / (a * b)
  {
    var q, r1, r2 := n / a / b, n % a, (n / a) % b;
    assert n / a == q * b + r2;
    assert n == (q * b + r2) * a + r1;
    assert n == q * (a * b) + (r2 * a + r1);
    assert r2 * a <= (b - 1) * a;
    DivModUnique(n, a * b, q, r2 * a + r1);
  }

  /**
   * The remainder by `10 * p` is the remainder of the quotient by ten,
   * scaled back, plus the last decimal digit.
   */
  lemma ModTenTimes(n: nat, p: nat)
    requires p > 0
    ensures n % (10 * p) == (n / 10 % p) * 10 + n % 10
  {
    var k, r := n / 10 / p, n / 10 % p;
    assert n / 10 == k * p + r;
    assert n == (k * p + r) * 10 + n % 10;
    assert n == k * (10 * p) + (r * 10 + n % 10);
    assert r * 10 <= (p - 1) * 10;
    DivModUnique(n, 10 * p, k, r * 10 + n % 10);
  }
}
