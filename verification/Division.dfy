/** Quotients and remainders by a number that is not known. */
module Division {

  lemma {:induction false} AtLeast(d: nat, m: nat)
    requires d > 0
    ensures d * m >= m
  {
    if d > 1 {
      AtLeast(d - 1, m);
      assert d * m == (d - 1) * m + m;
    }
  }

  lemma NoMultipleBetween(d: int, m: int)
    requires m > 0 && -m < d * m < m
    ensures d == 0
  {
    Negate(d, m);
    if d > 0 { AtLeast(d, m); }
    if d < 0 { AtLeast(-d, m); }
  }

  lemma Negate(d: int, m: int)
    ensures -d * m == -(d * m)
  {
  }

  lemma Distribute(a: int, b: int, m: int)
    ensures (a + b) * m == a * m + b * m && (a - b) * m == a * m - b * m
  {
  }

  /** What a number is to its quotient and remainder is only one way possible. */
  lemma QuotientIs(x: int, m: int, q: int, r: int)
    requires 0 <= r < m && x == q * m + r
    ensures x / m == q && x % m == r
  {
    var p := x / m;
    assert x == p * m + x % m;
    Distribute(p, q, m);
    NoMultipleBetween(p - q, m);
  }
}
