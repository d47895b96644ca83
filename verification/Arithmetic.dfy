/** Facts about products, quotients and remainders that the solver is not asked to find twice. */
module Arithmetic {
  /** Division that truncates towards zero. */
  function Truncated(a: int, b: int): int
    requires b > 0
  {
    if a < 0 then -(-a / b) else a / b
  }

  /** The quotient has the dividend's sign, and what is left over is less than the divisor. */
  lemma TruncatedIs(a: int, b: int)
    requires b > 0
    ensures var q := Truncated(a, b);
            && (a >= 0 ==> 0 <= q && 0 <= a - q * b < b)
            && (a <= 0 ==> q <= 0 && -b < a - q * b <= 0)
  {
    if a < 0 {
      DivParts(-a, b);
      Negated(-a / b, b);
    } else {
      DivParts(a, b);
    }
  }

  lemma DivParts(n: nat, b: nat)
    requires b > 0
    ensures 0 <= n / b && 0 <= n - n / b * b < b
  {
    assert n == n / b * b + n % b;
  }

  lemma Negated(q: int, b: int)
    ensures -q * b == -(q * b)
  {
  }

  lemma Multiple(d: int, n: nat)
    ensures d >= 1 ==> d * n >= n
    ensures d <= -1 ==> d * n <= 0 - n
  {
    if d >= 1 {
      assert d * n == n + (d - 1) * n;
    } else if d <= -1 {
      assert d * n == 0 - n + (d + 1) * n;
    }
  }

  lemma MulSign(d: int, n: nat)
    ensures d <= 0 ==> d * n <= 0
  {
  }

  lemma MulAssoc(a: nat, b: nat, c: nat)
    ensures a * (b * c) == (a * b) * c
  {
  }

  lemma Quotient(n: int, q: int, r: int, m: int)
    requires m > 0 && 0 <= r < m && n == q * m + r
    ensures n / m == q
  {
    var d := n / m - q;
    assert d * m == r - n % m;
    Multiple(d, m);
  }

  lemma Remainder(n: int, q: int, r: int, m: int)
    requires m > 0 && 0 <= r < m && n == q * m + r
    ensures n / m == q && n % m == r
  {
    Quotient(n, q, r, m);
    assert n == n / m * m + n % m;
  }

  lemma MulDiv(k: nat, n: nat)
    requires n > 0
    ensures k * n / n == k
  {
    var m := k * n;
    var q, r := m / n, m % n;
    assert m == q * n + r;
    assert (k - q) * n == r;
    Multiple(k - q, n);
  }

  lemma MulMod(k: nat, n: nat)
    requires n > 0
    ensures k * n % n == 0
  {
    MulDiv(k, n);
    var m := k * n;
    assert m == m / n * n + m % n;
  }

  lemma EvenProduct(k: nat, n: nat)
    requires n % 2 == 0
    ensures k * n % 2 == 0
  {
    assert k * n == 2 * (k * (n / 2));
  }

  lemma EvenMultiple(n: nat, g: nat)
    requires g > 0 && g % 2 == 0 && n % g == 0
    ensures n % 2 == 0
  {
    var k := n / g;
    assert n == k * g;
    EvenProduct(k, g);
  }

  lemma WholeStep(len: nat, offset: nat, g: nat)
    requires g > 0 && g % 2 == 0 && len % g == 0 && offset % g == 0 && offset < len
    ensures offset + g <= len && (offset + g) % g == 0 && offset % 2 == 0
  {
    var a, b := len / g, offset / g;
    assert len == a * g && offset == b * g;
    assert (a - b) * g == len - offset;
    MulSign(a - b, g);
    Multiple(a - b, g);
    assert offset + g == (b + 1) * g;
    MulMod(b + 1, g);
    EvenProduct(b, g);
  }

  predicate IsPowerOfTwo(n: nat) {
    n == 1 || (n > 1 && n % 2 == 0 && IsPowerOfTwo(n / 2))
  }
}
