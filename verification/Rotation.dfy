/** Turning a pair of reals by an angle given as its cosine and sine, and back. */
module Rotation {

  // The products are named so that proofs about positions need not multiply.

  function Mul(a: real, b: real): real { a * b }

  /** (u, v) turned forward by the angle with cosine c and sine s. */
  function Re(u: real, v: real, c: real, s: real): real { u * c - v * s }
  function Im(u: real, v: real, c: real, s: real): real { u * s + v * c }

  /** (u, v) turned back by that angle. */
  function BackRe(u: real, v: real, c: real, s: real): real { u * c + v * s }
  function BackIm(u: real, v: real, c: real, s: real): real { v * c - u * s }

  ghost predicate OnCircle(c: real, s: real) { c * c + s * s == 1.0 }

  lemma TurnBack(a: real, u: real, v: real, c: real, s: real)
    requires OnCircle(c, s)
    ensures BackRe(Mul(a, Re(u, v, c, s)), Mul(a, Im(u, v, c, s)), c, s) == Mul(a, u)
    ensures BackIm(Mul(a, Re(u, v, c, s)), Mul(a, Im(u, v, c, s)), c, s) == Mul(a, v)
  {
    calc {
      (a * (u * c - v * s)) * c + (a * (u * s + v * c)) * s;
      a * (u * (c * c + s * s));
      a * u;
    }
    calc {
      (a * (u * s + v * c)) * c - (a * (u * c - v * s)) * s;
      a * (v * (c * c + s * s));
      a * v;
    }
  }

  lemma TurnForward(a: real, u: real, v: real, c: real, s: real)
    requires OnCircle(c, s)
    ensures Re(Mul(a, BackRe(u, v, c, s)), Mul(a, BackIm(u, v, c, s)), c, s) == Mul(a, u)
    ensures Im(Mul(a, BackRe(u, v, c, s)), Mul(a, BackIm(u, v, c, s)), c, s) == Mul(a, v)
  {
    calc {
      (a * (u * c + v * s)) * c - (a * (v * c - u * s)) * s;
      a * (u * (c * c + s * s));
      a * u;
    }
    calc {
      (a * (u * c + v * s)) * s + (a * (v * c - u * s)) * c;
      a * (v * (c * c + s * s));
      a * v;
    }
  }

  lemma MulSums(a: real, x: real, y: real)
    ensures Mul(a, x + y) + Mul(a, x - y) == Mul(2.0 * a, x)
    ensures Mul(a, x + y) - Mul(a, x - y) == Mul(2.0 * a, y)
    ensures Mul(a, x + y) == Mul(a, x) + Mul(a, y) && Mul(a, x - y) == Mul(a, x) - Mul(a, y)
    ensures Mul(a, x) * 2.0 == Mul(2.0 * a, x) && Mul(a, x * 2.0) == Mul(2.0 * a, x)
  {
  }
}
