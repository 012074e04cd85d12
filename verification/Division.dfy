/** Division by a segment or frame size. */
module Division {
  lemma ProductGap(a: int, b: int, d: nat)
    requires a < b
    ensures a * d + d <= b * d
  {
    assert (b - a - 1) * d >= 0;
    assert (b - a - 1) * d == b * d - a * d - d;
  }

  /** Quotient and remainder are determined by their defining equation. */
  lemma Quotient(x: nat, d: nat, q: nat, r: nat)
    requires r < d && x == q * d + r
    ensures x / d == q && x % d == r
  {
    var p := x / d;
    assert x == p * d + x % d;
    if p < q {
      ProductGap(p, q, d);
    } else if q < p {
      ProductGap(q, p, d);
    }
  }

  lemma OneLess(n: nat, d: nat)
    requires 0 < d <= n
    ensures n / d == (n - d) / d + 1 && n % d == (n - d) % d
  {
    var q := (n - d) / d;
    assert n - d == q * d + (n - d) % d;
    assert (q + 1) * d == q * d + d;
    Quotient(n, d, q + 1, (n - d) % d);
  }

  lemma Small(n: nat, d: nat)
    requires n < d
    ensures n / d == 0 && n % d == n
  {
    Quotient(n, d, 0, n);
  }
}
