/** The few facts about products and integer division that the geometry rests on. */
module Arith {

  lemma FactorBound(k: int, d: int)
    requires 0 < d
    ensures 1 <= k ==> d <= k * d
    ensures k <= -1 ==> k * d <= -d
  {
    if 1 <= k {
      assert k * d == (k - 1) * d + d;
    } else if k <= -1 {
      assert k * d == (k + 1) * d - d;
    }
  }

  /** Multiples of d that enclose n are in order. */
  lemma Below(a: int, b: int, d: int, n: int)
    requires 0 < d && a * d <= n < b * d + d
    ensures a <= b
  {
    assert (a - b) * d == a * d - b * d;
    FactorBound(a - b, d);
  }

  lemma Floor(n: int, d: int)
    requires 0 < d
    ensures (n / d) * d <= n < (n / d) * d + d
  {
  }

  lemma QuotientIs(n: int, d: int, q: int)
    requires 0 < d && q * d <= n < q * d + d
    ensures n / d == q
  {
    Floor(n, d);
    Below(n / d, q, d, n);
    Below(q, n / d, d, n);
  }

  lemma FloorMono(m: int, n: int, d: int)
    requires 0 < d && m <= n
    ensures m / d <= n / d
  {
    Floor(m, d);
    Floor(n, d);
    Below(m / d, n / d, d, n);
  }

  lemma Scale(a: int, b: int, c: int)
    requires a <= b && 0 <= c
    ensures a * c <= b * c
  {
  }

  /** Quotient and remainder after a step no longer than the divisor. */
  lemma StepDivide(n: int, d: int, s: int)
    requires 0 < d && 0 <= s <= d
    ensures if n % d + s >= d then (n + s) / d == n / d + 1 && (n + s) % d == n % d + s - d
            else (n + s) / d == n / d && (n + s) % d == n % d + s
  {
    var q := if n % d + s >= d then n / d + 1 else n / d;
    assert n == (n / d) * d + n % d;
    assert (n / d + 1) * d == (n / d) * d + d;
    QuotientIs(n + s, d, q);
    assert n + s == ((n + s) / d) * d + (n + s) % d;
  }
}
