/** Powers of two, and lengths that split into blocks of equal size. */
module Powers {

  function Pow2(n: nat): (r: nat)
    ensures r >= 1
  {
    if n == 0 then 1 else 2 * Pow2(n - 1)
  }

  lemma {:induction false} Pow2Adds(a: nat, b: nat)
    ensures Pow2(a + b) == Pow2(a) * Pow2(b)
  {
    if a == 0 {
    } else {
      Pow2Adds(a - 1, b);
    }
  }

  lemma {:induction false} Pow2Monotone(a: nat, b: nat)
    requires a <= b
    ensures Pow2(a) <= Pow2(b)
  {
    if a < b {
      Pow2Monotone(a, b - 1);
    }
  }

  /** `len` is a whole number of blocks of `unit` elements.  Stated without `%`
      so that loops which advance by one block need no nonlinear arithmetic. */
  predicate Whole(len: nat, unit: nat)
    requires unit > 0
  {
    len == 0 || (len >= unit && Whole(len - unit, unit))
  }

  lemma {:induction false} WholeAdds(a: nat, b: nat, unit: nat)
    requires unit > 0 && Whole(a, unit) && Whole(b, unit)
    ensures Whole(a + b, unit)
  {
    if a != 0 {
      WholeAdds(a - unit, b, unit);
    }
  }

  lemma {:induction false} WholePow2(b: nat, p: nat)
    requires p <= b
    ensures Whole(Pow2(b), Pow2(p))
  {
    if p < b {
      WholePow2(b - 1, p);
      WholeAdds(Pow2(b - 1), Pow2(b - 1), Pow2(p));
    } else {
      assert Whole(0, Pow2(p));
    }
  }
}
