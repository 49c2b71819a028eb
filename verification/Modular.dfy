/** Facts about remainders by a variable divisor. */
module Modular {

  lemma MulOrder(a: int, b: int, m: nat)
    requires a < b
    ensures a * m + m <= b * m
  {
    assert b * m - a * m == (b - a) * m;
    Positive(b - a, m);
  }

  lemma Positive(k: int, m: nat)
    requires k >= 1
    ensures k * m >= m
  {
    assert k * m == (k - 1) * m + m;
  }

  lemma UniqueRemainder(x: int, q: int, r: int, m: nat)
    requires m > 0 && x == q * m + r && 0 <= r < m
    ensures x % m == r
  {
    var q', r' := x / m, x % m;
    assert x == q' * m + r';
    if q < q' {
      MulOrder(q, q', m);
    } else if q' < q {
      MulOrder(q', q, m);
    }
  }

  lemma SameRemainder(x: int, t: int, m: nat)
    requires m > 0
    ensures (x + t * m) % m == x % m
  {
    var q, r := x / m, x % m;
    assert (q + t) * m == q * m + t * m;
    UniqueRemainder(x + t * m, q + t, r, m);
  }

  lemma ModAddsUp(a: int, b: int, m: nat)
    requires m > 0
    ensures (a % m + b) % m == (a + b) % m
  {
    var q := a / m;
    assert a % m + b + q * m == a + b;
    SameRemainder(a % m + b, q, m);
  }
}
