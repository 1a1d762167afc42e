/**
 * Quotients and remainders.
 */
module Arithmetic {
  lemma MulMonotone(x: int, y: int, m: nat)
    requires x <= y
    ensures x * m <= y * m
  {
  }

  lemma Distribute(q: int, n: int, r: int, m: int)
    ensures (q * n + r) * m == q * (m * n) + r * m
  {
    assert q * n * m == q * (m * n);
  }

  lemma QuotientIs(a: nat, m: nat, q: nat, r: nat)
    requires a == q * m + r && r < m
    ensures a / m == q && a % m == r
  {
    var d := a / m - q;
    assert a == (a / m) * m + a % m;
    assert d * m == r - a % m;
    if d >= 1 {
      MulMonotone(1, d, m);
    }
    if d <= -1 {
      MulMonotone(d, -1, m);
    }
  }

  /** `a` written with digits to the bases `n` and `m`. */
  lemma Decompose(a: nat, m: nat, n: nat, q: nat, r: nat, s: nat)
    requires m > 0 && n > 0 && q == a / m / n && r == a / m % n && s == a % m
    ensures a == q * (m * n) + (r * m + s) && 0 <= r * m && r * m + s < m * n
  {
    var x := a / m;
    assert x == q * n + r;
    assert a == x * m + s;
    Distribute(q, n, r, m);
    MulMonotone(0, r, m);
    MulMonotone(r, n - 1, m);
    Distribute(1, n, -1, m);
  }

  lemma Digits(a: nat, m: nat, n: nat)
    requires m > 0 && n > 0
    ensures m * n > 0 && a / (m * n) == a / m / n && a % (m * n) / m == a / m % n && a % (m * n) % m == a % m
  {
    var q, r, s := a / m / n, a / m % n, a % m;
    Decompose(a, m, n, q, r, s);
    var d := r * m + s;
    QuotientIs(a, m * n, q, d);
    QuotientIs(d, m, r, s);
  }

  /** The part of `a` below `m * b * n`, in units of `m`: its last digit to base `b`, and the others. */
  lemma MiddleDigit(a: nat, m: nat, b: nat, n: nat)
    requires m > 0 && b > 0 && n > 0
    ensures m * (b * n) > 0 && b * n > 0
    ensures a % (m * (b * n)) / m % b == a / m % b
    ensures a % (m * (b * n)) / (m * b) == a % (m * (b * n)) / m / b
  {
    Digits(a, m, b * n);
    Digits(a / m, b, n);
    Digits(a % (m * (b * n)), m, b);
  }
}
