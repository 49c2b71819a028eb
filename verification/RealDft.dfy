/** The forward transform computes the real discrete Fourier transform, for every
    power-of-two length, given tables sampled from a lawful circle. */
module RealDft {
  import opened Powers
  import opened Rotation
  import opened Circle
  import opened Butterfly
  import opened BitReversal
  import opened Transform

  /** The packed real DFT of x: cosine sums for frequencies 0 to n/2, then sine sums for
      1 to n/2 - 1, where one frequency step is st grid points. */
  ghost function PackedAt(t: Turn, x: seq<real>, st: nat, k: nat): real {
    var h := |x| / 2;
    if k <= h then CosSum(t, x, 0, k * st) else SinSum(t, x, 0, (k - h) * st)
  }

  ghost function Packed(t: Turn, x: seq<real>, st: nat): (f: seq<real>)
    ensures |f| == |x|
  {
    seq(|x|, k requires 0 <= k < |x| => PackedAt(t, x, st, k))
  }

  /** tab holds the cosines, hence read backwards the sines, of the pass that makes 2m
      frequencies st grid points apart. */
  ghost predicate CosTable(t: Turn, tab: seq<real>, m: nat, st: nat) {
    && |tab| >= m / 2
    && forall i :: 0 < i < m / 2 ==> tab[i] == t.cos(i * st)
  }

  lemma TableSine(t: Turn, tab: seq<real>, m: nat, st: nat, i: nat)
    requires Lawful(t) && CosTable(t, tab, m, st) && m % 2 == 0 && 2 * m * st == t.grid && 0 < i < m / 2
    ensures tab[i] == t.cos(i * st) && tab[m / 2 - i] == t.sin(i * st)
  {
    var h := m / 2;
    assert (h - i) * st == t.grid / 4 - i * st by {
      assert 4 * h * st == t.grid;
      assert 4 * (h * st) == t.grid;
      assert (h - i) * st == h * st - i * st;
    }
    QuarterMinus(t, i * st);
  }

  lemma CosTableIsUnit(t: Turn, tab: seq<real>, m: nat, st: nat)
    requires Lawful(t) && CosTable(t, tab, m, st) && (m == 1 || m % 2 == 0) && 2 * m * st == t.grid
    ensures UnitTable(tab, m)
  {
    forall i | 0 < i < m / 2 ensures OnCircle(tab[i], tab[m / 2 - i]) {
      TableSine(t, tab, m, st, i);
      assert Unit(t, i * st);
    }
  }

  /** Grid positions of the frequencies that coefficient i of a pass contributes to. */
  lemma Steps(t: Turn, m: nat, st: nat, i: nat)
    requires 2 * m * st == t.grid && i <= m
    ensures i * (2 * st) == 2 * (i * st)
    ensures (m - i) * st == t.grid / 2 - i * st
  {
    assert 2 * (m * st) == t.grid;
    assert (m - i) * st == m * st - i * st;
  }

  /** One coefficient of the join of two packed spectra, at its four places. */
  lemma JoinPackedInner(t: Turn, x: seq<real>, tab: seq<real>, m: nat, st: nat, i: nat)
    requires Lawful(t) && |x| == 2 * m && m % 2 == 0 && 2 * m * st == t.grid
    requires CosTable(t, tab, m, st) && 0 < i < m / 2
    ensures
      var e, o := Packed(t, Evens(x), 2 * st), Packed(t, Odds(x), 2 * st);
      && JoinAt(e, o, tab, i) == PackedAt(t, x, st, i)
      && JoinAt(e, o, tab, m - i) == PackedAt(t, x, st, m - i)
      && JoinAt(e, o, tab, m + i) == PackedAt(t, x, st, m + i)
      && JoinAt(e, o, tab, 2 * m - i) == PackedAt(t, x, st, 2 * m - i)
  {
    hide CosSum, SinSum, Re, Im, JoinAt, Lawful;
    var e, o := Packed(t, Evens(x), 2 * st), Packed(t, Odds(x), 2 * st);
    JoinFour(e, o, tab, i);
    TableSine(t, tab, m, st, i);
    Steps(t, m, st, i);
    var c, s := Decimate(t, x, i * st);
  }

  /** The coefficients that are always real. */
  lemma JoinPackedOuter(t: Turn, x: seq<real>, tab: seq<real>, m: nat, st: nat)
    requires Lawful(t) && |x| == 2 * m && m > 0 && (m == 1 || m % 2 == 0) && 2 * m * st == t.grid
    requires CosTable(t, tab, m, st)
    ensures
      var e, o, h := Packed(t, Evens(x), 2 * st), Packed(t, Odds(x), 2 * st), m / 2;
      && JoinAt(e, o, tab, 0) == PackedAt(t, x, st, 0)
      && JoinAt(e, o, tab, m) == PackedAt(t, x, st, m)
      && (m > 1 ==> JoinAt(e, o, tab, h) == PackedAt(t, x, st, h))
      && (m > 1 ==> JoinAt(e, o, tab, m + h) == PackedAt(t, x, st, m + h))
  {
    hide CosSum, SinSum, Lawful;
    var e, o, h := Packed(t, Evens(x), 2 * st), Packed(t, Odds(x), 2 * st), m / 2;
    Steps(t, m, st, 0);
    Origin(t);
    var c, s := Decimate(t, x, 0);
    if m > 1 {
      Steps(t, m, st, h);
      QuarterTurn(t);
      var c', s' := Decimate(t, x, h * st);
    }
  }

  lemma QuarterTurn(t: Turn)
    requires Lawful(t)
    ensures t.cos(t.grid / 4) == 0.0 && t.sin(t.grid / 4) == 1.0
    ensures t.grid / 2 == 2 * (t.grid / 4)
  {
  }

  /** A forward pass turns the packed DFTs of the even and odd samples into that of all. */
  lemma JoinIsPacked(t: Turn, x: seq<real>, tab: seq<real>, m: nat, st: nat)
    requires Lawful(t) && |x| == 2 * m && m > 0 && (m == 1 || m % 2 == 0) && 2 * m * st == t.grid
    requires CosTable(t, tab, m, st)
    ensures Join(Packed(t, Evens(x), 2 * st), Packed(t, Odds(x), 2 * st), tab) == Packed(t, x, st)
  {
    hide JoinAt, PackedAt, Lawful;
    var e, o, h := Packed(t, Evens(x), 2 * st), Packed(t, Odds(x), 2 * st), m / 2;
    forall k | 0 <= k < 2 * m
      ensures JoinAt(e, o, tab, k) == PackedAt(t, x, st, k)
    {
      var i := if k < h then k else if k < m then m - k else if k < m + h then k - m else 2 * m - k;
      assert k == i || k == m - i || k == m + i || k == 2 * m - i;
      if 0 < i < h {
        JoinPackedInner(t, x, tab, m, st, i);
      } else {
        JoinPackedOuter(t, x, tab, m, st);
      }
    }
  }

  // ---- All passes ----------------------------------------------------------

  /** Grid points per frequency step for 2^l frequencies on a grid of 2^g points. */
  function Stride(g: nat, l: nat): nat
    requires l <= g
  {
    Pow2(g - l)
  }

  lemma StrideFits(g: nat, l: nat)
    requires l < g
    ensures Stride(g, l) == 2 * Stride(g, l + 1)
    ensures 2 * Pow2(l) * Stride(g, l + 1) == Pow2(g)
  {
    Pow2Adds(l + 1, g - (l + 1));
  }

  /** The tables of a transform of 2^b points hold the cosines of t's grid of 2^g points. */
  ghost predicate SampledFrom(tabs: Tables, b: nat, t: Turn, g: nat) {
    && b <= g && t.grid == Pow2(g) && Fits(tabs, b)
    && forall l :: 0 <= l < b ==> CosTable(t, tabs[l], Pow2(l), Stride(g, l + 1))
  }

  lemma SampledTablesAreUnit(tabs: Tables, b: nat, t: Turn, g: nat)
    requires Lawful(t) && SampledFrom(tabs, b, t, g)
    ensures UnitTables(tabs, b)
  {
    forall l | 0 <= l < b ensures UnitTable(tabs[l], Pow2(l)) {
      LevelFits(tabs, b, l);
      StrideFits(g, l);
      CosTableIsUnit(t, tabs[l], Pow2(l), Stride(g, l + 1));
    }
  }

  /** What the buffer should hold after p passes: the packed DFTs of the decimated
      subsequences of x of length 2^p, in bit-reversed order of their offsets. */
  ghost function Blocks(t: Turn, g: nat, x: seq<real>, b: nat, p: nat): (r: seq<real>)
    requires |x| == Pow2(b) && p <= b <= g
    ensures |r| == |x|
    decreases b
  {
    if b == p then Packed(t, x, Stride(g, p))
    else Blocks(t, g, Evens(x), b - 1, p) + Blocks(t, g, Odds(x), b - 1, p)
  }

  lemma BlocksSplit(t: Turn, g: nat, x: seq<real>, b: nat, p: nat)
    requires |x| == Pow2(b) && p < b <= g
    ensures Blocks(t, g, x, b, p) == Blocks(t, g, Evens(x), b - 1, p) + Blocks(t, g, Odds(x), b - 1, p)
  {
  }

  lemma PermuteSplit(x: seq<real>, b: nat)
    requires b > 0 && |x| == Pow2(b)
    ensures Permute(x, b) == Permute(Evens(x), b - 1) + Permute(Odds(x), b - 1)
  {
    var h, p, q := Pow2(b - 1), Permute(Evens(x), b - 1), Permute(Odds(x), b - 1);
    hide Pow2;
    assert |x| == 2 * h by { Doubling(b); }
    forall i | 0 <= i < |x| ensures Permute(x, b)[i] == (p + q)[i] {
      if i < h {
        assert Rev(b, i) == 2 * Rev(b - 1, i);
      } else {
        assert Rev(b, i) == 2 * Rev(b - 1, i - h) + 1;
      }
    }
  }

  lemma Doubling(b: nat)
    requires b > 0
    ensures Pow2(b) == 2 * Pow2(b - 1)
  {
  }

  /** Bit-reversed order is what repeated decimation into evens and odds leaves. */
  lemma {:induction false} PermuteIsBlocks(t: Turn, g: nat, x: seq<real>, b: nat)
    requires Lawful(t) && |x| == Pow2(b) && b <= g
    ensures Permute(x, b) == Blocks(t, g, x, b, 0)
    decreases b
  {
    if b == 0 {
      Origin(t);
      assert Packed(t, x, Stride(g, 0))[0] == x[0] by { OneTerm(t, x); }
      assert Rev(0, 0) == 0;
    } else {
      PermuteIsBlocks(t, g, Evens(x), b - 1);
      PermuteIsBlocks(t, g, Odds(x), b - 1);
      hide Permute, Blocks;
      PermuteSplit(x, b);
      BlocksSplit(t, g, x, b, 0);
    }
  }

  lemma OneTerm(t: Turn, x: seq<real>)
    requires Lawful(t) && |x| == 1
    ensures CosSum(t, x, 0, 0) == x[0]
  {
    Origin(t);
    assert CosSum(t, x[1..], 0, 0) == 0.0;
  }

  /** One pass takes the buffer from the DFTs of length 2^p to those of length 2^(p+1). */
  lemma {:induction false} PassAdvances(tabs: Tables, t: Turn, g: nat, x: seq<real>, b: nat, p: nat)
    requires Lawful(t) && SampledFrom(tabs, p + 1, t, g) && |x| == Pow2(b) && p < b <= g
    ensures Level(Pow2(p), tabs[p]) && Whole(Pow2(b), 2 * Pow2(p))
    ensures Pass(Blocks(t, g, x, b, p), Pow2(p), tabs[p]) == Blocks(t, g, x, b, p + 1)
    decreases b
  {
    hide *;
    BlocksFit(tabs, t, g, b, p);
    if b == p + 1 {
      BaseBlocks(tabs, t, g, x, b, p);
    } else {
      PassAdvances(tabs, t, g, Evens(x), b - 1, p);
      PassAdvances(tabs, t, g, Odds(x), b - 1, p);
      JoinAdvances(tabs[p], t, g, x, b, p);
    }
  }

  lemma BlocksFit(tabs: Tables, t: Turn, g: nat, b: nat, p: nat)
    requires SampledFrom(tabs, p + 1, t, g) && p < b
    ensures |tabs| > p && Level(Pow2(p), tabs[p]) && Whole(Pow2(b), 2 * Pow2(p)) && Pow2(b) == 2 * Pow2(b - 1)
    ensures p + 1 < b ==> Whole(Pow2(b - 1), 2 * Pow2(p))
  {
    LevelFits(tabs, p + 1, p);
    WholePow2(b, p + 1);
    if p + 1 < b {
      WholePow2(b - 1, p + 1);
    }
  }

  lemma JoinAdvances(tab: seq<real>, t: Turn, g: nat, x: seq<real>, b: nat, p: nat)
    requires |x| == Pow2(b) && p + 1 < b <= g && Level(Pow2(p), tab)
    requires Whole(Pow2(b), 2 * Pow2(p)) && Whole(Pow2(b - 1), 2 * Pow2(p)) && Pow2(b) == 2 * Pow2(b - 1)
    requires Pass(Blocks(t, g, Evens(x), b - 1, p), Pow2(p), tab) == Blocks(t, g, Evens(x), b - 1, p + 1)
    requires Pass(Blocks(t, g, Odds(x), b - 1, p), Pow2(p), tab) == Blocks(t, g, Odds(x), b - 1, p + 1)
    ensures Pass(Blocks(t, g, x, b, p), Pow2(p), tab) == Blocks(t, g, x, b, p + 1)
  {
    hide Pass, Level, Blocks, Evens, Odds, Pow2, Whole;
    BlocksSplit(t, g, x, b, p);
    BlocksSplit(t, g, x, b, p + 1);
    PassConcat(Blocks(t, g, Evens(x), b - 1, p), Blocks(t, g, Odds(x), b - 1, p), Pow2(p), tab);
  }

  lemma BaseBlocks(tabs: Tables, t: Turn, g: nat, x: seq<real>, b: nat, p: nat)
    requires Lawful(t) && SampledFrom(tabs, p + 1, t, g) && |x| == Pow2(b) && b == p + 1 <= g
    requires Level(Pow2(p), tabs[p]) && Whole(Pow2(b), 2 * Pow2(p))
    ensures Pass(Blocks(t, g, x, b, p), Pow2(p), tabs[p]) == Blocks(t, g, x, b, p + 1)
  {
    hide Lawful, Join, JoinAt, Packed;
    var m, st := Pow2(p), Stride(g, b);
    StrideFits(g, p);
    var e, o := Packed(t, Evens(x), 2 * st), Packed(t, Odds(x), 2 * st);
    assert Blocks(t, g, x, b, p) == e + o;
    PassOneBlock(e + o, m, tabs[p]);
    assert (e + o)[..m] == e && (e + o)[m..] == o;
    JoinIsPacked(t, x, tabs[p], m, st);
  }

  lemma PassOneBlock(f: seq<real>, m: nat, tab: seq<real>)
    requires Level(m, tab) && |f| == 2 * m && Whole(|f|, 2 * m)
    ensures Pass(f, m, tab) == Join(f[..m], f[m..], tab)
  {
    hide Join;
    assert f[..0] == [] && f[0..] == f;
    assert Pass([], m, tab) == [];
  }

  lemma {:induction false} StageIsBlocks(tabs: Tables, t: Turn, g: nat, x: seq<real>, b: nat, p: nat)
    requires Lawful(t) && SampledFrom(tabs, b, t, g) && |x| == Pow2(b) && p <= b
    ensures Stage(tabs, b, x, p) == Blocks(t, g, x, b, p)
  {
    hide Lawful, Pass, Blocks, Permute;
    if p == 0 {
      PermuteIsBlocks(t, g, x, b);
    } else {
      StageIsBlocks(tabs, t, g, x, b, p - 1);
      PassAdvances(tabs, t, g, x, b, p - 1);
    }
  }

  /** Main result: for every power-of-two length, do_fft's passes compute the DFT. */
  lemma {:induction false} FftIsDft(tabs: Tables, t: Turn, g: nat, x: seq<real>, b: nat)
    requires Lawful(t) && SampledFrom(tabs, b, t, g) && |x| == Pow2(b)
    ensures Fft(tabs, b, x) == Packed(t, x, Stride(g, b))
  {
    StageIsBlocks(tabs, t, g, x, b, b);
  }
}
