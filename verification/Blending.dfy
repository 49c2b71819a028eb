/** Points on the straight line between two values. */
module Blending {
  import opened Rotation

  /** The point a fraction f of the way from a to b. */
  function Along(f: real, a: real, b: real): real {
    a + Mul(f, b - a)
  }

  predicate Between(v: real, a: real, b: real) {
    (a <= v <= b) || (b <= v <= a)
  }

  lemma AlongIsBetween(f: real, a: real, b: real)
    requires 0.0 <= f <= 1.0
    ensures Between(Along(f, a, b), a, b)
  {
    hide Mul;
    if a <= b {
      Part(f, b - a);
    } else {
      Part(f, a - b);
      assert -(a - b) == b - a;
    }
  }

  lemma Part(f: real, w: real)
    requires 0.0 <= f <= 1.0 && w >= 0.0
    ensures 0.0 <= Mul(f, w) <= w && Mul(f, -w) == -Mul(f, w)
  {
    assert w - f * w == (1.0 - f) * w;
  }

  /** The weighted mean the line stands for. */
  lemma AlongIsMean(f: real, a: real, b: real)
    ensures Along(f, a, b) == Mul(1.0 - f, a) + Mul(f, b)
  {
  }
}
