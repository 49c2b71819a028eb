/** The transform as a composition of passes over blocks, its round trips, and what it
    computes: the real discrete Fourier transform. */
module Transform {
  import opened Powers
  import opened Rotation
  import opened Butterfly
  import opened BitReversal

  predicate Level(m: nat, tab: seq<real>) {
    m > 0 && (m == 1 || m % 2 == 0) && |tab| >= m / 2
  }

  function JoinHalves(f: seq<real>, m: nat, tab: seq<real>): (r: seq<real>)
    requires Level(m, tab) && |f| == 2 * m
    ensures |r| == |f|
  {
    Join(f[..m], f[m..], tab)
  }

  /** One forward pass: every block of 2m values joins its two halves. */
  function Pass(s: seq<real>, m: nat, tab: seq<real>): (r: seq<real>)
    requires Level(m, tab) && Whole(|s|, 2 * m)
    ensures |r| == |s|
    decreases |s|
  {
    if s == [] then []
    else
      var n := |s| - 2 * m;
      Pass(s[..n], m, tab) + JoinHalves(s[n..], m, tab)
  }

  /** One inverse pass: every block of 2m values is taken apart. */
  function Unpass(s: seq<real>, m: nat, tab: seq<real>): (r: seq<real>)
    requires Level(m, tab) && Whole(|s|, 2 * m)
    ensures |r| == |s|
    decreases |s|
  {
    if s == [] then []
    else
      var n := |s| - 2 * m;
      Unpass(s[..n], m, tab) + Part(s[n..], m, tab)
  }

  /** A pass appends one joined block for each block appended to its input. */
  lemma PassAppends(a: seq<real>, f: seq<real>, m: nat, tab: seq<real>)
    requires Level(m, tab) && Whole(|a|, 2 * m) && |f| == 2 * m
    ensures Whole(|a + f|, 2 * m)
    ensures Pass(a + f, m, tab) == Pass(a, m, tab) + JoinHalves(f, m, tab)
  {
    hide JoinHalves;
    assert (a + f)[..|a|] == a && (a + f)[|a|..] == f;
  }

  lemma UnpassAppends(a: seq<real>, f: seq<real>, m: nat, tab: seq<real>)
    requires Level(m, tab) && Whole(|a|, 2 * m) && |f| == 2 * m
    ensures Whole(|a + f|, 2 * m)
    ensures Unpass(a + f, m, tab) == Unpass(a, m, tab) + Part(f, m, tab)
  {
    hide Part;
    assert (a + f)[..|a|] == a && (a + f)[|a|..] == f;
  }

  lemma {:induction false} PassConcat(a: seq<real>, b: seq<real>, m: nat, tab: seq<real>)
    requires Level(m, tab) && Whole(|a|, 2 * m) && Whole(|b|, 2 * m)
    ensures Whole(|a + b|, 2 * m)
    ensures Pass(a + b, m, tab) == Pass(a, m, tab) + Pass(b, m, tab)
    decreases |b|
  {
    assert m > 0;
    hide Level, JoinHalves;
    if b == [] {
      assert a + b == a;
      assert Pass(b, m, tab) == [];
    } else {
      var n := |b| - 2 * m;
      var b', f := b[..n], b[n..];
      assert b == b' + f;
      PassConcat(a, b', m, tab);
      PassConcatStep(a, b', f, m, tab);
    }
  }

  /** One more block on both sides. */
  lemma PassConcatStep(a: seq<real>, b: seq<real>, f: seq<real>, m: nat, tab: seq<real>)
    requires Level(m, tab) && m > 0 && |f| == 2 * m
    requires Whole(|a|, 2 * m) && Whole(|b|, 2 * m) && Whole(|a + b|, 2 * m)
    requires Pass(a + b, m, tab) == Pass(a, m, tab) + Pass(b, m, tab)
    ensures Whole(|b + f|, 2 * m) && Whole(|a + (b + f)|, 2 * m)
    ensures Pass(a + (b + f), m, tab) == Pass(a, m, tab) + Pass(b + f, m, tab)
  {
    hide *;
    PassAppends(a + b, f, m, tab);
    PassAppends(b, f, m, tab);
    assert a + (b + f) == (a + b) + f;
    assert Pass(a, m, tab) + (Pass(b, m, tab) + JoinHalves(f, m, tab))
        == (Pass(a, m, tab) + Pass(b, m, tab)) + JoinHalves(f, m, tab);
  }

  lemma ScaleConcat(a: real, x: seq<real>, y: seq<real>)
    ensures Scale(a, x + y) == Scale(a, x) + Scale(a, y)
  {
    hide Mul;
  }

  lemma {:induction false} UnpassOfPass(a: real, s: seq<real>, m: nat, tab: seq<real>)
    requires Level(m, tab) && Whole(|s|, 2 * m) && UnitTable(tab, m)
    ensures Unpass(Scale(a, Pass(s, m, tab)), m, tab) == Scale(2.0 * a, s)
    decreases |s|
  {
    hide JoinHalves, Part, Mul, UnitTable;
    if s != [] {
      hide Scale, Pass, Unpass;
      var n := |s| - 2 * m;
      var s', f := s[..n], s[n..];
      assert s == s' + f;
      UnpassOfPass(a, s', m, tab);
      PassAppends(s', f, m, tab);
      ScaleConcat(a, Pass(s', m, tab), JoinHalves(f, m, tab));
      UnpassAppends(Scale(a, Pass(s', m, tab)), Scale(a, JoinHalves(f, m, tab)), m, tab);
      PartUndoesJoinHalves(a, f, m, tab);
      ScaleConcat(2.0 * a, s', f);
    }
  }

  lemma PartUndoesJoinHalves(a: real, f: seq<real>, m: nat, tab: seq<real>)
    requires Level(m, tab) && |f| == 2 * m && UnitTable(tab, m)
    ensures Part(Scale(a, JoinHalves(f, m, tab)), m, tab) == Scale(2.0 * a, f)
  {
    hide Join, Part, Scale, UnitTable;
    PartUndoesJoin(a, f[..m], f[m..], tab);
    assert f[..m] + f[m..] == f;
  }

  lemma {:induction false} PassOfUnpass(a: real, s: seq<real>, m: nat, tab: seq<real>)
    requires Level(m, tab) && Whole(|s|, 2 * m) && UnitTable(tab, m)
    ensures Pass(Scale(a, Unpass(s, m, tab)), m, tab) == Scale(2.0 * a, s)
    decreases |s|
  {
    hide Join, Part, Mul, UnitTable;
    if s != [] {
      hide Scale, Pass, Unpass;
      var n := |s| - 2 * m;
      var s', f := s[..n], s[n..];
      assert s == s' + f;
      PassOfUnpass(a, s', m, tab);
      UnpassAppends(s', f, m, tab);
      ScaleConcat(a, Unpass(s', m, tab), Part(f, m, tab));
      PassAppends(Scale(a, Unpass(s', m, tab)), Scale(a, Part(f, m, tab)), m, tab);
      JoinUndoesPart(a, f, m, tab);
      ScaleConcat(2.0 * a, s', f);
    }
  }

  // ---- The whole transform -------------------------------------------------

  /** A table of coefficients for each pass; pass l joins blocks of 2^l values. */
  type Tables = seq<seq<real>>

  predicate Fits(tabs: Tables, b: nat) {
    |tabs| >= b && forall l :: 0 <= l < b ==> |tabs[l]| >= Pow2(l) / 2
  }

  ghost predicate UnitTables(tabs: Tables, b: nat) {
    Fits(tabs, b) && forall l :: 0 <= l < b ==> UnitTable(tabs[l], Pow2(l))
  }

  lemma LevelFits(tabs: Tables, b: nat, l: nat)
    requires Fits(tabs, b) && l < b
    ensures Level(Pow2(l), tabs[l]) && Whole(Pow2(b), 2 * Pow2(l))
  {
    WholePow2(b, l + 1);
  }

  /** The working buffer after the first p forward passes over x. */
  function Stage(tabs: Tables, b: nat, x: seq<real>, p: nat): (r: seq<real>)
    requires Fits(tabs, b) && |x| == Pow2(b) && p <= b
    ensures |r| == |x|
  {
    if p == 0 then Permute(x, b)
    else
      LevelFits(tabs, b, p - 1);
      Pass(Stage(tabs, b, x, p - 1), Pow2(p - 1), tabs[p - 1])
  }

  /** The working buffer after the inverse passes b-1 down to p over f. */
  function Unstage(tabs: Tables, b: nat, f: seq<real>, p: nat): (r: seq<real>)
    requires Fits(tabs, b) && |f| == Pow2(b) && p <= b
    ensures |r| == |f|
    decreases b - p
  {
    if p == b then f
    else
      LevelFits(tabs, b, p);
      Unpass(Unstage(tabs, b, f, p + 1), Pow2(p), tabs[p])
  }

  function Fft(tabs: Tables, b: nat, x: seq<real>): (f: seq<real>)
    requires Fits(tabs, b) && |x| == Pow2(b)
    ensures |f| == |x|
  {
    Stage(tabs, b, x, b)
  }

  function Ifft(tabs: Tables, b: nat, f: seq<real>): (x: seq<real>)
    requires Fits(tabs, b) && |f| == Pow2(b)
    ensures |x| == |f|
  {
    Permute(Unstage(tabs, b, f, 0), b)
  }

  /** a doubled n times. */
  function Doubled(a: real, n: nat): real {
    if n == 0 then a else 2.0 * Doubled(a, n - 1)
  }

  lemma {:induction false} DoubledIs(a: real, n: nat)
    ensures Doubled(a, n) == (Pow2(n) as real) * a
  {
    if n > 0 {
      DoubledIs(a, n - 1);
      assert Pow2(n) as real == 2.0 * (Pow2(n - 1) as real);
    }
  }

  lemma PermuteScaled(a: real, x: seq<real>, b: nat)
    requires |x| == Pow2(b)
    ensures Permute(Scale(a, Permute(x, b)), b) == Scale(a, x)
  {
    hide Mul;
    PermuteTwice(x, b);
    assert Permute(Scale(a, Permute(x, b)), b) == Scale(a, Permute(Permute(x, b), b));
  }

  /** Each inverse pass undoes the forward pass of its level, up to a factor of 2. */
  lemma {:induction false} UnstageOfStage(tabs: Tables, b: nat, a: real, x: seq<real>, p: nat)
    requires UnitTables(tabs, b) && |x| == Pow2(b) && p <= b
    ensures Unstage(tabs, b, Scale(a, Fft(tabs, b, x)), p) == Scale(Doubled(a, b - p), Stage(tabs, b, x, p))
    decreases b - p
  {
    hide Pass, Unpass, Scale, UnitTable;
    if p < b {
      UnstageOfStage(tabs, b, a, x, p + 1);
      LevelFits(tabs, b, p);
      UnpassOfPass(Doubled(a, b - p - 1), Stage(tabs, b, x, p), Pow2(p), tabs[p]);
    }
  }

  /** Each forward pass undoes the inverse pass of its level, up to a factor of 2. */
  lemma {:induction false} StageOfUnstage(tabs: Tables, b: nat, a: real, f: seq<real>, p: nat)
    requires UnitTables(tabs, b) && |f| == Pow2(b) && p <= b
    ensures Stage(tabs, b, Scale(a, Ifft(tabs, b, f)), p) == Scale(Doubled(a, p), Unstage(tabs, b, f, p))
  {
    hide Pass, Unpass, Scale, UnitTable, Permute;
    if p == 0 {
      PermuteScaled(a, Unstage(tabs, b, f, 0), b);
    } else {
      StageOfUnstage(tabs, b, a, f, p - 1);
      LevelFits(tabs, b, p - 1);
      PassOfUnpass(Doubled(a, p - 1), Unstage(tabs, b, f, p), Pow2(p - 1), tabs[p - 1]);
    }
  }

  lemma StartsPermuted(tabs: Tables, b: nat, x: seq<real>)
    requires Fits(tabs, b) && |x| == Pow2(b)
    ensures Stage(tabs, b, x, 0) == Permute(x, b)
  {
  }

  /** The inverse of the scaled transform of x is x times the scale and the length. */
  lemma InverseOfTransform(tabs: Tables, b: nat, a: real, x: seq<real>)
    requires UnitTables(tabs, b) && |x| == Pow2(b)
    ensures Ifft(tabs, b, Scale(a, Fft(tabs, b, x))) == Scale(Doubled(a, b), x)
  {
    hide Scale, Permute, Stage, Unstage, Doubled, UnitTable;
    assert Stage(tabs, b, x, 0) == Permute(x, b) by { StartsPermuted(tabs, b, x); }
    UnstageOfStage(tabs, b, a, x, 0);
    PermuteScaled(Doubled(a, b), x, b);
  }

  /** Main result: do_ifft after do_fft multiplies every sample by the length. */
  lemma ForwardAndBack(tabs: Tables, b: nat, x: seq<real>)
    requires UnitTables(tabs, b) && |x| == Pow2(b)
    ensures Ifft(tabs, b, Fft(tabs, b, x)) == Scale(Pow2(b) as real, x)
  {
    hide Fft, Ifft, UnitTable;
    assert Scale(1.0, Fft(tabs, b, x)) == Fft(tabs, b, x);
    InverseOfTransform(tabs, b, 1.0, x);
    DoubledIs(1.0, b);
  }

  /** The transform of the scaled inverse of f is f times the scale and the length. */
  lemma TransformOfInverse(tabs: Tables, b: nat, a: real, f: seq<real>)
    requires UnitTables(tabs, b) && |f| == Pow2(b)
    ensures Fft(tabs, b, Scale(a, Ifft(tabs, b, f))) == Scale(Doubled(a, b), f)
  {
    StageOfUnstage(tabs, b, a, f, b);
  }
}
