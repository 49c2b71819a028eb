/** The passes of FFTReal over arrays: joining and taking apart blocks in place of the
    sequences that specify them. */
module FftPasses {
  import opened Powers
  import opened Rotation
  import opened Butterfly
  import opened BitReversal
  import opened Transform

  // ---- One pass over arrays ------------------------------------------------

  /** The coefficient that writes place k of a block of 2m. */
  function CoefficientOf(k: nat, m: nat): (i: nat)
    requires k < 2 * m
  {
    var h := m / 2;
    if k < h then k else if k < m then m - k else if k < m + h then k - m else 2 * m - k
  }

  /** The four places coefficient i writes. */
  lemma PlacesOf(k: nat, m: nat, i: nat)
    requires m % 2 == 0 && k < 2 * m && 0 < i < m / 2
    ensures CoefficientOf(k, m) == i <==> k == i || k == m - i || k == m + i || k == 2 * m - i
  {
  }

  /** The body of the coefficient loop: the four values coefficient i contributes to. */
  method JoinCoefficient(sf: array<real>, df: array<real>, coef: nat, m: nat, table: array<real>, at: nat, i: nat)
    requires m >= 2 && m % 2 == 0 && coef + 2 * m <= sf.Length == df.Length && at + m / 2 <= table.Length
    requires df != sf && df != table && 0 < i < m / 2
    modifies df
    ensures
      var e, o, tab := sf[coef..coef + m], sf[coef + m..coef + 2 * m], table[at..at + m / 2];
      && df[coef + i] == JoinAt(e, o, tab, i) && df[coef + m - i] == JoinAt(e, o, tab, m - i)
      && df[coef + m + i] == JoinAt(e, o, tab, m + i) && df[coef + 2 * m - i] == JoinAt(e, o, tab, 2 * m - i)
    ensures forall k ::
      0 <= k < df.Length && k != coef + i && k != coef + m - i && k != coef + m + i && k != coef + 2 * m - i ==>
        df[k] == old(df[k])
  {
    hide *;
    var h := m / 2;
    ghost var e, o, tab := sf[coef..coef + m], sf[coef + m..coef + 2 * m], table[at..at + h];
    JoinFour(e, o, tab, i);
    var sf1r, sf2r, sf1i, sf2i := coef, coef + m, coef + h, coef + m + h;
    var dfr, dfi := coef, coef + m;
    var c := table[at + i];
    var s := table[at + (h - i)];
    var v := Re(sf[sf2r + i], sf[sf2i + i], c, s);
    assert v == Re(o[i], o[h + i], tab[i], tab[h - i]);
    StorePair(df, dfr + i, sf[sf1r + i] + v, dfi - i, sf[sf1r + i] - v);
    v := Im(sf[sf2r + i], sf[sf2i + i], c, s);
    assert v == Im(o[i], o[h + i], tab[i], tab[h - i]);
    StorePair(df, dfi + i, v + sf[sf1i + i], dfi + (m - i), v - sf[sf1i + i]);
  }

  /** Two of the four values that one product contributes to. */
  method StorePair(df: array<real>, p: nat, a: real, q: nat, b: real)
    requires p < df.Length && q < df.Length && p != q
    modifies df
    ensures df[p] == a && df[q] == b
    ensures forall k :: 0 <= k < df.Length && k != p && k != q ==> df[k] == old(df[k])
  {
    df[p] := a;
    df[q] := b;
  }

  /** The extreme coefficients, which are always real. */
  method JoinExtremes(sf: array<real>, df: array<real>, coef: nat, m: nat, ghost tab: seq<real>)
    requires m >= 2 && m % 2 == 0 && coef + 2 * m <= sf.Length == df.Length && |tab| >= m / 2 && df != sf
    modifies df
    ensures forall k :: 0 <= k < 2 * m && (CoefficientOf(k, m) == 0 || CoefficientOf(k, m) == m / 2) ==>
      df[coef + k] == JoinAt(sf[coef..coef + m], sf[coef + m..coef + 2 * m], tab, k)
    ensures forall k :: 0 <= k < df.Length && !(coef <= k < coef + 2 * m) ==> df[k] == old(df[k])
  {
    hide JoinAt;
    var h := m / 2;
    JoinFixed(sf[coef..coef + m], sf[coef + m..coef + 2 * m], tab);
    df[coef] := sf[coef] + sf[coef + m];
    df[coef + m] := sf[coef] - sf[coef + m];
    df[coef + h] := sf[coef + h];
    df[coef + m + h] := sf[coef + m + h];
  }

  /** Joins the two spectra of m values at coef in sf into df; the pass's cosines start
      at `at` in the table. */
  method JoinBlock(sf: array<real>, df: array<real>, coef: nat, m: nat, table: array<real>, at: nat)
    requires m >= 2 && m % 2 == 0 && coef + 2 * m <= sf.Length == df.Length && at + m / 2 <= table.Length
    requires df != sf && df != table
    modifies df
    ensures df[coef..coef + 2 * m]
         == Join(sf[coef..coef + m], sf[coef + m..coef + 2 * m], table[at..at + m / 2])
    ensures forall k :: 0 <= k < df.Length && !(coef <= k < coef + 2 * m) ==> df[k] == old(df[k])
  {
    hide JoinAt;
    var h := m / 2;
    ghost var e, o, tab := sf[coef..coef + m], sf[coef + m..coef + 2 * m], table[at..at + h];
    JoinExtremes(sf, df, coef, m, tab);
    for i := 1 to h
      invariant forall k :: 0 <= k < df.Length && !(coef <= k < coef + 2 * m) ==> df[k] == old(df[k])
      invariant forall k ::
        0 <= k < 2 * m && (CoefficientOf(k, m) < i || CoefficientOf(k, m) == h) ==>
          df[coef + k] == JoinAt(e, o, tab, k)
    {
      JoinCoefficient(sf, df, coef, m, table, at, i);
      forall k | 0 <= k < 2 * m && (CoefficientOf(k, m) < i + 1 || CoefficientOf(k, m) == h)
        ensures df[coef + k] == JoinAt(e, o, tab, k)
      {
        PlacesOf(k, m, i);
      }
    }
    assert df[coef..coef + 2 * m] == Join(e, o, tab);
  }

  /** The joined values that need no table. */
  lemma JoinFixed(e: seq<real>, o: seq<real>, tab: seq<real>)
    requires |e| == |o| >= 2 && |e| % 2 == 0 && |tab| >= |e| / 2
    ensures
      var m, h := |e|, |e| / 2;
      && JoinAt(e, o, tab, 0) == e[0] + o[0] && JoinAt(e, o, tab, m) == e[0] - o[0]
      && JoinAt(e, o, tab, h) == e[h] && JoinAt(e, o, tab, m + h) == o[h]
  {
  }

  /** The coefficient that writes place k of a block of 2m when it is taken apart. */
  function PartCoefficientOf(k: nat, m: nat): (i: nat)
    requires k < 2 * m
  {
    var h := m / 2;
    if k < h then k else if k < m then k - h else if k < m + h then k - m else k - m - h
  }

  /** The body of the inverse coefficient loop. */
  method PartCoefficient(sf: array<real>, df: array<real>, coef: nat, m: nat, table: array<real>, at: nat, i: nat)
    requires m >= 2 && m % 2 == 0 && coef + 2 * m <= sf.Length == df.Length && at + m / 2 <= table.Length
    requires df != sf && df != table && 0 < i < m / 2
    modifies df
    ensures forall k :: 0 <= k < 2 * m && PartCoefficientOf(k, m) == i ==>
      df[coef + k] == PartAt(sf[coef..coef + 2 * m], m, table[at..at + m / 2], k)
    ensures forall k :: 0 <= k < df.Length && !(coef <= k < coef + 2 * m && PartCoefficientOf(k - coef, m) == i) ==>
      df[k] == old(df[k])
  {
    hide BackRe, BackIm, PartAt;
    var h := m / 2;
    PartFour(sf[coef..coef + 2 * m], m, table[at..at + h], i);
    var sfr, sfi := coef, coef + m;
    var df1r, df2r, df1i, df2i := coef, coef + m, coef + h, coef + h + m;
    df[df1r + i] := sf[sfr + i] + sf[sfi - i];
    df[df1i + i] := sf[sfi + i] - sf[sfi + (m - i)];
    var c := table[at + i];
    var s := table[at + (h - i)];
    var vr := sf[sfr + i] - sf[sfi - i];
    var vi := sf[sfi + i] + sf[sfi + (m - i)];
    df[df2r + i] := BackRe(vr, vi, c, s);
    df[df2i + i] := BackIm(vr, vi, c, s);
  }

  method PartExtremes(sf: array<real>, df: array<real>, coef: nat, m: nat, ghost tab: seq<real>)
    requires m >= 2 && m % 2 == 0 && coef + 2 * m <= sf.Length == df.Length && |tab| >= m / 2 && df != sf
    modifies df
    ensures forall k :: 0 <= k < 2 * m && PartCoefficientOf(k, m) == 0 ==>
      df[coef + k] == PartAt(sf[coef..coef + 2 * m], m, tab, k)
    ensures forall k :: 0 <= k < df.Length && !(coef <= k < coef + 2 * m) ==> df[k] == old(df[k])
  {
    hide PartAt;
    var h := m / 2;
    PartFixed(sf[coef..coef + 2 * m], m, tab);
    df[coef] := sf[coef] + sf[coef + m];
    df[coef + m] := sf[coef] - sf[coef + m];
    df[coef + h] := sf[coef + h] * 2.0;
    df[coef + m + h] := sf[coef + m + h] * 2.0;
  }

  /** Takes the spectrum of 2m values at coef in sf apart into df. */
  method PartBlock(sf: array<real>, df: array<real>, coef: nat, m: nat, table: array<real>, at: nat)
    requires m >= 2 && m % 2 == 0 && coef + 2 * m <= sf.Length == df.Length && at + m / 2 <= table.Length
    requires df != sf && df != table
    modifies df
    ensures df[coef..coef + 2 * m] == Part(sf[coef..coef + 2 * m], m, table[at..at + m / 2])
    ensures forall k :: 0 <= k < df.Length && !(coef <= k < coef + 2 * m) ==> df[k] == old(df[k])
  {
    hide PartAt;
    var h := m / 2;
    ghost var f, tab := sf[coef..coef + 2 * m], table[at..at + h];
    PartExtremes(sf, df, coef, m, tab);
    for i := 1 to h
      invariant forall k :: 0 <= k < df.Length && !(coef <= k < coef + 2 * m) ==> df[k] == old(df[k])
      invariant forall k ::
        0 <= k < 2 * m && PartCoefficientOf(k, m) < i ==> df[coef + k] == PartAt(f, m, tab, k)
    {
      PartCoefficient(sf, df, coef, m, table, at, i);
    }
    assert df[coef..coef + 2 * m] == Part(f, m, tab);
  }

  lemma PartFixed(f: seq<real>, m: nat, tab: seq<real>)
    requires |f| == 2 * m && m >= 2 && m % 2 == 0 && |tab| >= m / 2
    ensures
      var h := m / 2;
      && PartAt(f, m, tab, 0) == f[0] + f[m] && PartAt(f, m, tab, m) == f[0] - f[m]
      && PartAt(f, m, tab, h) == f[h] * 2.0 && PartAt(f, m, tab, m + h) == f[m + h] * 2.0
  {
  }

  lemma PassOneMore(s: seq<real>, d: seq<real>, coef: nat, m: nat, tab: seq<real>)
    requires Level(m, tab) && coef + 2 * m <= |s| == |d| && Whole(coef, 2 * m)
    requires d[..coef] == Pass(s[..coef], m, tab)
    requires d[coef..coef + 2 * m] == Join(s[coef..coef + m], s[coef + m..coef + 2 * m], tab)
    ensures Whole(coef + 2 * m, 2 * m)
    ensures d[..coef + 2 * m] == Pass(s[..coef + 2 * m], m, tab)
  {
    hide Join, Pass;
    var next := coef + 2 * m;
    var f := s[coef..next];
    assert f[..m] == s[coef..coef + m] && f[m..] == s[coef + m..next];
    PassAppends(s[..coef], f, m, tab);
    assert s[..next] == s[..coef] + f && d[..next] == d[..coef] + d[coef..next];
  }

  lemma UnpassOneMore(s: seq<real>, d: seq<real>, coef: nat, m: nat, tab: seq<real>)
    requires Level(m, tab) && coef + 2 * m <= |s| == |d| && Whole(coef, 2 * m)
    requires d[..coef] == Unpass(s[..coef], m, tab)
    requires d[coef..coef + 2 * m] == Part(s[coef..coef + 2 * m], m, tab)
    ensures Whole(coef + 2 * m, 2 * m)
    ensures d[..coef + 2 * m] == Unpass(s[..coef + 2 * m], m, tab)
  {
    hide Part, Unpass;
    var next := coef + 2 * m;
    UnpassAppends(s[..coef], s[coef..next], m, tab);
    assert s[..next] == s[..coef] + s[coef..next] && d[..next] == d[..coef] + d[coef..next];
  }

  /** A general forward pass: all blocks of sf joined into df. */
  method ForwardPass(sf: array<real>, df: array<real>, m: nat, table: array<real>, at: nat)
    requires m >= 2 && m % 2 == 0 && Whole(sf.Length, 2 * m) && sf.Length == df.Length
    requires at + m / 2 <= table.Length && df != sf && df != table
    modifies df
    ensures df[..] == Pass(sf[..], m, table[at..at + m / 2])
  {
    hide Join, Pass;
    ghost var tab, s := table[at..at + m / 2], sf[..];
    var coef := 0;
    assert df[..0] == Pass(s[..0], m, tab) by { PassNothing(m, tab); }
    while coef < sf.Length
      invariant sf[..] == s && table[at..at + m / 2] == tab
      invariant coef <= sf.Length && Whole(coef, 2 * m) && Whole(sf.Length - coef, 2 * m)
      invariant df[..coef] == Pass(s[..coef], m, tab)
    {
      ghost var d := df[..coef];
      JoinBlock(sf, df, coef, m, table, at);
      assert df[..][..coef] == d && df[..][coef..coef + 2 * m] == df[coef..coef + 2 * m];
      assert s[coef..coef + m] == sf[coef..coef + m] && s[coef + m..coef + 2 * m] == sf[coef + m..coef + 2 * m];
      PassOneMore(s, df[..], coef, m, tab);
      coef := coef + 2 * m;
      assert df[..][..coef] == df[..coef];
    }
    assert s[..coef] == s && df[..coef] == df[..];
  }

  lemma PassNothing(m: nat, tab: seq<real>)
    requires Level(m, tab)
    ensures Whole(0, 2 * m) && Pass([], m, tab) == [] && Unpass([], m, tab) == []
  {
  }

  /** A general inverse pass: all blocks of sf taken apart into df. */
  method InversePass(sf: array<real>, df: array<real>, m: nat, table: array<real>, at: nat)
    requires m >= 2 && m % 2 == 0 && Whole(sf.Length, 2 * m) && sf.Length == df.Length
    requires at + m / 2 <= table.Length && df != sf && df != table
    modifies df
    ensures df[..] == Unpass(sf[..], m, table[at..at + m / 2])
  {
    hide Part, Unpass;
    ghost var tab, s := table[at..at + m / 2], sf[..];
    var coef := 0;
    assert df[..0] == Unpass(s[..0], m, tab) by { PassNothing(m, tab); }
    while coef < sf.Length
      invariant sf[..] == s && table[at..at + m / 2] == tab
      invariant coef <= sf.Length && Whole(coef, 2 * m) && Whole(sf.Length - coef, 2 * m)
      invariant df[..coef] == Unpass(s[..coef], m, tab)
    {
      ghost var d := df[..coef];
      PartBlock(sf, df, coef, m, table, at);
      assert df[..][..coef] == d && df[..][coef..coef + 2 * m] == df[coef..coef + 2 * m];
      assert s[coef..coef + 2 * m] == sf[coef..coef + 2 * m];
      UnpassOneMore(s, df[..], coef, m, tab);
      coef := coef + 2 * m;
      assert df[..][..coef] == df[..coef];
    }
    assert s[..coef] == s && df[..coef] == df[..];
  }

  // ---- The passes the source unrolls -----------------------------------------

  lemma WholeOfFours(n: nat)
    requires Whole(n, 4)
    ensures Whole(n, 2)
  {
    if n != 0 {
      WholeOfFours(n - 4);
      assert Whole(n - 2, 2);
    }
  }

  ghost predicate Pairs(t0: seq<real>, t1: seq<real>) {
    Level(1, t0) && Level(2, t1)
  }

  /** The passes over blocks of 2 and of 4 values, as one. */
  ghost function FirstTwo(p: seq<real>, t0: seq<real>, t1: seq<real>): (r: seq<real>)
    requires Pairs(t0, t1) && Whole(|p|, 4)
    ensures |r| == |p|
  {
    WholeOfFours(|p|);
    Pass(Pass(p, 1, t0), 2, t1)
  }

  /** What the first two passes make of four values. */
  ghost function FirstFour(f: seq<real>): (r: seq<real>)
    requires |f| == 4
    ensures |r| == 4
  {
    [(f[0] + f[1]) + (f[2] + f[3]), f[0] - f[1], (f[0] + f[1]) - (f[2] + f[3]), f[2] - f[3]]
  }

  ghost function TwoPairs(f: seq<real>, t0: seq<real>): (r: seq<real>)
    requires |f| == 4 && Level(1, t0)
    ensures |r| == 4
  {
    JoinHalves(f[..2], 1, t0) + JoinHalves(f[2..], 1, t0)
  }

  lemma JoinFirstFour(f: seq<real>, t0: seq<real>, t1: seq<real>)
    requires |f| == 4 && Pairs(t0, t1)
    ensures JoinHalves(TwoPairs(f, t0), 2, t1) == FirstFour(f)
  {
    var w := TwoPairs(f, t0);
    assert w[0] == f[0] + f[1] && w[1] == f[0] - f[1] && w[2] == f[2] + f[3] && w[3] == f[2] - f[3];
    var r := JoinHalves(w, 2, t1);
    assert r[0] == w[0] + w[2] && r[1] == w[1] && r[2] == w[0] - w[2] && r[3] == w[3];
  }

  lemma PairsAppend(p: seq<real>, f: seq<real>, t0: seq<real>)
    requires Level(1, t0) && Whole(|p|, 2) && |f| == 4
    ensures Whole(|p + f|, 2)
    ensures Pass(p + f, 1, t0) == Pass(p, 1, t0) + TwoPairs(f, t0)
  {
    hide Pass, JoinHalves;
    PassAppends(p, f[..2], 1, t0);
    PassAppends(p + f[..2], f[2..], 1, t0);
    assert p + f[..2] + f[2..] == p + f;
  }

  lemma FirstTwoAppends(p: seq<real>, f: seq<real>, t0: seq<real>, t1: seq<real>)
    requires Pairs(t0, t1) && Whole(|p|, 4) && |f| == 4
    ensures Whole(|p + f|, 4)
    ensures FirstTwo(p + f, t0, t1) == FirstTwo(p, t0, t1) + FirstFour(f)
  {
    hide Pass, JoinHalves, TwoPairs, FirstFour;
    WholeOfFours(|p|);
    PairsAppend(p, f, t0);
    PassAppends(Pass(p, 1, t0), TwoPairs(f, t0), 2, t1);
    JoinFirstFour(f, t0, t1);
  }

  /** First and second pass at once, from the samples in bit-reversed order. */
  method FirstTwoPasses(x: array<real>, lut: array<nat>, ghost bits: nat, df: array<real>,
                        ghost t0: seq<real>, ghost t1: seq<real>)
    requires Pairs(t0, t1) && Whole(Pow2(bits), 4) && x.Length == df.Length == lut.Length == Pow2(bits)
    requires df != x && forall k :: 0 <= k < lut.Length ==> lut[k] == Rev(bits, k)
    modifies df
    ensures df[..] == FirstTwo(Permute(x[..], bits), t0, t1)
  {
    hide FirstTwo;
    ghost var p := Permute(x[..], bits);
    var coef := 0;
    assert df[..0] == FirstTwo(p[..0], t0, t1);
    while coef < x.Length
      invariant coef <= x.Length && Whole(coef, 4) && Whole(x.Length - coef, 4)
      invariant df[..coef] == FirstTwo(p[..coef], t0, t1)
    {
      ghost var d := df[..coef];
      var rev0, rev1, rev2, rev3 := lut[coef], lut[coef + 1], lut[coef + 2], lut[coef + 3];
      df[coef + 1] := x[rev0] - x[rev1];
      df[coef + 3] := x[rev2] - x[rev3];
      var sf0 := x[rev0] + x[rev1];
      var sf2 := x[rev2] + x[rev3];
      df[coef] := sf0 + sf2;
      df[coef + 2] := sf0 - sf2;
      FirstTwoAppends(p[..coef], p[coef..coef + 4], t0, t1);
      assert p[..coef + 4] == p[..coef] + p[coef..coef + 4];
      assert df[..coef + 4] == d + FirstFour(p[coef..coef + 4]);
      coef := coef + 4;
    }
    assert p[..coef] == p && df[..coef] == df[..];
  }

  lemma JoinEight(f: seq<real>, r: real)
    requires |f| == 8
    ensures Level(4, [1.0, r])
    ensures JoinHalves(f, 4, [1.0, r])
         == [f[0] + f[4], f[1] + Mul(f[5] - f[7], r), f[2], f[1] - Mul(f[5] - f[7], r),
             f[0] - f[4], Mul(f[5] + f[7], r) + f[3], f[6], Mul(f[5] + f[7], r) - f[3]]
  {
    var e, o, tab := f[..4], f[4..], [1.0, r];
    JoinFixed(e, o, tab);
    JoinFour(e, o, tab, 1);
    assert Re(o[1], o[3], r, r) == Mul(f[5] - f[7], r) && Im(o[1], o[3], r, r) == Mul(f[5] + f[7], r);
  }

  method ThirdBlock(df: array<real>, sf: array<real>, coef: nat, r: real)
    requires df != sf && coef + 8 <= df.Length == sf.Length
    modifies sf
    ensures Level(4, [1.0, r]) && sf[coef..coef + 8] == JoinHalves(df[coef..coef + 8], 4, [1.0, r])
    ensures forall k :: 0 <= k < sf.Length && !(coef <= k < coef + 8) ==> sf[k] == old(sf[k])
  {
    hide JoinHalves, Mul;
    sf[coef] := df[coef] + df[coef + 4];
    sf[coef + 4] := df[coef] - df[coef + 4];
    sf[coef + 2] := df[coef + 2];
    sf[coef + 6] := df[coef + 6];
    var v := Mul(df[coef + 5] - df[coef + 7], r);
    sf[coef + 1] := df[coef + 1] + v;
    sf[coef + 3] := df[coef + 1] - v;
    v := Mul(df[coef + 5] + df[coef + 7], r);
    sf[coef + 5] := v + df[coef + 3];
    sf[coef + 7] := v - df[coef + 3];
    JoinEight(df[coef..coef + 8], r);
  }

  /** Third pass, whose only inner coefficient is an eighth of a turn. */
  method ThirdPass(df: array<real>, sf: array<real>, r: real)
    requires df != sf && df.Length == sf.Length && Whole(df.Length, 8)
    modifies sf
    ensures Level(4, [1.0, r]) && sf[..] == Pass(df[..], 4, [1.0, r])
  {
    hide Pass, JoinHalves;
    ghost var s, tab := df[..], [1.0, r];
    var coef := 0;
    PassNothing(4, tab);
    assert sf[..0] == [] && s[..0] == [];
    while coef < df.Length
      invariant df[..] == s && Whole(coef, 8) && coef <= df.Length && Whole(df.Length - coef, 8)
      invariant sf[..coef] == Pass(s[..coef], 4, tab)
    {
      ghost var d := sf[..coef];
      ThirdBlock(df, sf, coef, r);
      PassAppends(s[..coef], s[coef..coef + 8], 4, tab);
      assert s[..coef + 8] == s[..coef] + s[coef..coef + 8] && s[coef..coef + 8] == df[coef..coef + 8];
      assert sf[..coef + 8] == d + sf[coef..coef + 8];
      coef := coef + 8;
    }
    assert s[..coef] == s && sf[..coef] == sf[..];
  }

  lemma PartEight(f: seq<real>, r: real)
    requires |f| == 8
    ensures Level(4, [1.0, r])
    ensures Part(f, 4, [1.0, r])
         == [f[0] + f[4], f[1] + f[3], f[2] * 2.0, f[5] - f[7],
             f[0] - f[4], Mul((f[1] - f[3]) + (f[5] + f[7]), r), f[6] * 2.0, Mul((f[5] + f[7]) - (f[1] - f[3]), r)]
  {
    var tab := [1.0, r];
    PartFixed(f, 4, tab);
    PartFour(f, 4, tab, 1);
    var vr, vi := f[1] - f[3], f[5] + f[7];
    assert BackRe(vr, vi, r, r) == Mul(vr + vi, r) && BackIm(vr, vi, r, r) == Mul(vi - vr, r);
  }

  method AntepenultimateBlock(sf: array<real>, df: array<real>, coef: nat, r: real)
    requires df != sf && coef + 8 <= df.Length == sf.Length
    modifies df
    ensures Level(4, [1.0, r]) && df[coef..coef + 8] == Part(sf[coef..coef + 8], 4, [1.0, r])
    ensures forall k :: 0 <= k < df.Length && !(coef <= k < coef + 8) ==> df[k] == old(df[k])
  {
    hide Part, Mul;
    df[coef] := sf[coef] + sf[coef + 4];
    df[coef + 4] := sf[coef] - sf[coef + 4];
    df[coef + 2] := sf[coef + 2] * 2.0;
    df[coef + 6] := sf[coef + 6] * 2.0;
    df[coef + 1] := sf[coef + 1] + sf[coef + 3];
    df[coef + 3] := sf[coef + 5] - sf[coef + 7];
    var vr := sf[coef + 1] - sf[coef + 3];
    var vi := sf[coef + 5] + sf[coef + 7];
    df[coef + 5] := Mul(vr + vi, r);
    df[coef + 7] := Mul(vi - vr, r);
    PartEight(sf[coef..coef + 8], r);
  }

  /** Antepenultimate inverse pass, which undoes the third forward pass. */
  method AntepenultimatePass(sf: array<real>, df: array<real>, r: real)
    requires df != sf && df.Length == sf.Length && Whole(sf.Length, 8)
    modifies df
    ensures Level(4, [1.0, r]) && df[..] == Unpass(sf[..], 4, [1.0, r])
  {
    hide Unpass, Part;
    ghost var s, tab := sf[..], [1.0, r];
    var coef := 0;
    PassNothing(4, tab);
    assert df[..0] == [] && s[..0] == [];
    while coef < sf.Length
      invariant sf[..] == s && Whole(coef, 8) && coef <= sf.Length && Whole(sf.Length - coef, 8)
      invariant df[..coef] == Unpass(s[..coef], 4, tab)
    {
      ghost var d := df[..coef];
      AntepenultimateBlock(sf, df, coef, r);
      UnpassAppends(s[..coef], s[coef..coef + 8], 4, tab);
      assert s[..coef + 8] == s[..coef] + s[coef..coef + 8] && s[coef..coef + 8] == sf[coef..coef + 8];
      assert df[..coef + 8] == d + df[coef..coef + 8];
      coef := coef + 8;
    }
    assert s[..coef] == s && df[..coef] == df[..];
  }

  /** The last two inverse passes, as one. */
  ghost function LastTwo(s: seq<real>, t0: seq<real>, t1: seq<real>): (r: seq<real>)
    requires Pairs(t0, t1) && Whole(|s|, 4)
    ensures |r| == |s|
  {
    WholeOfFours(|s|);
    Unpass(Unpass(s, 2, t1), 1, t0)
  }

  ghost function LastFour(f: seq<real>): (r: seq<real>)
    requires |f| == 4
    ensures |r| == 4
  {
    [(f[0] + f[2]) + f[1] * 2.0, (f[0] + f[2]) - f[1] * 2.0,
     (f[0] - f[2]) + f[3] * 2.0, (f[0] - f[2]) - f[3] * 2.0]
  }

  ghost function PartPairs(f: seq<real>, t0: seq<real>): (r: seq<real>)
    requires |f| == 4 && Level(1, t0)
    ensures |r| == 4
  {
    Part(f[..2], 1, t0) + Part(f[2..], 1, t0)
  }

  lemma PartLastFour(f: seq<real>, t0: seq<real>, t1: seq<real>)
    requires |f| == 4 && Pairs(t0, t1)
    ensures PartPairs(Part(f, 2, t1), t0) == LastFour(f)
  {
    var w := Part(f, 2, t1);
    assert w[0] == f[0] + f[2] && w[1] == f[1] * 2.0 && w[2] == f[0] - f[2] && w[3] == f[3] * 2.0;
    var r := PartPairs(w, t0);
    assert r[0] == w[0] + w[1] && r[1] == w[0] - w[1] && r[2] == w[2] + w[3] && r[3] == w[2] - w[3];
  }

  lemma UnpassPairs(s: seq<real>, f: seq<real>, t0: seq<real>)
    requires Level(1, t0) && Whole(|s|, 2) && |f| == 4
    ensures Whole(|s + f|, 2)
    ensures Unpass(s + f, 1, t0) == Unpass(s, 1, t0) + PartPairs(f, t0)
  {
    hide Unpass, Part;
    UnpassAppends(s, f[..2], 1, t0);
    UnpassAppends(s + f[..2], f[2..], 1, t0);
    assert s + f[..2] + f[2..] == s + f;
  }

  lemma LastTwoAppends(s: seq<real>, f: seq<real>, t0: seq<real>, t1: seq<real>)
    requires Pairs(t0, t1) && Whole(|s|, 4) && |f| == 4
    ensures Whole(|s + f|, 4)
    ensures LastTwo(s + f, t0, t1) == LastTwo(s, t0, t1) + LastFour(f)
  {
    hide Unpass, Part, PartPairs, LastFour;
    WholeOfFours(|s|);
    UnpassAppends(s, f, 2, t1);
    UnpassPairs(Unpass(s, 2, t1), Part(f, 2, t1), t0);
    PartLastFour(f, t0, t1);
  }

  lemma RevDistinct(bits: nat)
    ensures forall j, k :: 0 <= j < Pow2(bits) && 0 <= k < Pow2(bits) && j != k ==> Rev(bits, j) != Rev(bits, k)
  {
    forall j, k | 0 <= j < Pow2(bits) && 0 <= k < Pow2(bits) && j != k
      ensures Rev(bits, j) != Rev(bits, k)
    {
      RevIsBijection(bits, j, k);
    }
  }

  /** Four values of the last passes, put back in the order of the samples. */
  method ScatterFour(sf: array<real>, coef: nat, lut: array<nat>, ghost bits: nat, x: array<real>)
    requires x != sf && x.Length == sf.Length == lut.Length == Pow2(bits) && coef + 4 <= sf.Length
    requires forall k :: 0 <= k < lut.Length ==> lut[k] == Rev(bits, k)
    modifies x
    ensures forall k :: coef <= k < coef + 4 ==> x[Rev(bits, k)] == LastFour(sf[coef..coef + 4])[k - coef]
    ensures forall k :: 0 <= k < sf.Length && !(coef <= k < coef + 4) ==> x[Rev(bits, k)] == old(x[Rev(bits, k)])
  {
    RevDistinct(bits);
    var b0 := sf[coef] + sf[coef + 2];
    var b2 := sf[coef] - sf[coef + 2];
    var b1 := sf[coef + 1] * 2.0;
    var b3 := sf[coef + 3] * 2.0;
    x[lut[coef]] := b0 + b1;
    x[lut[coef + 1]] := b0 - b1;
    x[lut[coef + 2]] := b2 + b3;
    x[lut[coef + 3]] := b2 - b3;
  }

  /** Penultimate and last inverse pass at once, into the order of the samples. */
  method LastTwoPasses(sf: array<real>, lut: array<nat>, ghost bits: nat, x: array<real>,
                       ghost t0: seq<real>, ghost t1: seq<real>)
    requires Pairs(t0, t1) && bits >= 3 && x != sf && x.Length == sf.Length == lut.Length == Pow2(bits)
    requires Whole(sf.Length, 8) && Whole(sf.Length, 4)
    requires forall k :: 0 <= k < lut.Length ==> lut[k] == Rev(bits, k)
    modifies x
    ensures x[..] == Permute(LastTwo(sf[..], t0, t1), bits)
  {
    hide LastTwo, LastFour;
    ghost var s := sf[..];
    var coef := 0;
    while coef < sf.Length
      invariant sf[..] == s && coef <= sf.Length && Whole(coef, 4) && Whole(sf.Length - coef, 8)
      invariant forall k :: 0 <= k < coef ==> x[Rev(bits, k)] == LastTwo(s[..coef], t0, t1)[k]
    {
      LastTwoAppends(s[..coef], s[coef..coef + 4], t0, t1);
      LastTwoAppends(s[..coef + 4], s[coef + 4..coef + 8], t0, t1);
      assert s[..coef + 4] == s[..coef] + s[coef..coef + 4];
      assert s[..coef + 8] == s[..coef + 4] + s[coef + 4..coef + 8];
      ScatterFour(sf, coef, lut, bits, x);
      ScatterFour(sf, coef + 4, lut, bits, x);
      coef := coef + 8;
    }
    assert s[..coef] == s;
    forall i | 0 <= i < x.Length ensures x[i] == Permute(LastTwo(s, t0, t1), bits)[i] {
      RevIsInvolution(bits, i);
      assert x[Rev(bits, Rev(bits, i))] == LastTwo(s, t0, t1)[Rev(bits, i)];
    }
  }
}
