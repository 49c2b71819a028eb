/** One pass of the split transform: two packed spectra of m values each make one of 2m,
    and the separately written inverse takes them apart again. */
module Butterfly {
  import opened Rotation

  /** Value k of the spectrum joined from e (even samples) and o (odd samples); tab[i] is
      the cosine and tab[m/2 - i] the sine of coefficient i. */
  function JoinAt(e: seq<real>, o: seq<real>, tab: seq<real>, k: nat): real
    requires |e| == |o| > 0 && (|e| == 1 || |e| % 2 == 0) && |tab| >= |e| / 2
    requires k < 2 * |e|
  {
    var m, h := |e|, |e| / 2;
    if k == 0 then e[0] + o[0]
    else if k == m then e[0] - o[0]
    else if k == h then e[h]
    else if k == m + h then o[h]
    else if k < h then e[k] + Re(o[k], o[h + k], tab[k], tab[h - k])
    else if k < m then
      var i := m - k; e[i] - Re(o[i], o[h + i], tab[i], tab[h - i])
    else if k < m + h then
      var i := k - m; Im(o[i], o[h + i], tab[i], tab[h - i]) + e[h + i]
    else
      var i := 2 * m - k; Im(o[i], o[h + i], tab[i], tab[h - i]) - e[h + i]
  }

  function Join(e: seq<real>, o: seq<real>, tab: seq<real>): (f: seq<real>)
    requires |e| == |o| > 0 && (|e| == 1 || |e| % 2 == 0) && |tab| >= |e| / 2
    ensures |f| == 2 * |e|
  {
    seq(2 * |e|, k requires 0 <= k < 2 * |e| => JoinAt(e, o, tab, k))
  }

  /** Value k of the two half spectra, one after the other, that f is taken apart into. */
  function PartAt(f: seq<real>, m: nat, tab: seq<real>, k: nat): real
    requires |f| == 2 * m && m > 0 && (m == 1 || m % 2 == 0) && |tab| >= m / 2
    requires k < 2 * m
  {
    var h := m / 2;
    if k == 0 then f[0] + f[m]
    else if k == m then f[0] - f[m]
    else if k == h then f[h] * 2.0
    else if k == m + h then f[m + h] * 2.0
    else if k < h then f[k] + f[m - k]
    else if k < m then
      var i := k - h; f[m + i] - f[2 * m - i]
    else if k < m + h then
      var i := k - m; BackRe(f[i] - f[m - i], f[m + i] + f[2 * m - i], tab[i], tab[h - i])
    else
      var i := k - m - h; BackIm(f[i] - f[m - i], f[m + i] + f[2 * m - i], tab[i], tab[h - i])
  }

  function Part(f: seq<real>, m: nat, tab: seq<real>): (p: seq<real>)
    requires |f| == 2 * m && m > 0 && (m == 1 || m % 2 == 0) && |tab| >= m / 2
    ensures |p| == 2 * m
  {
    seq(2 * m, k requires 0 <= k < 2 * m => PartAt(f, m, tab, k))
  }

  function Scale(a: real, s: seq<real>): (r: seq<real>)
    ensures |r| == |s|
  {
    seq(|s|, k requires 0 <= k < |s| => Mul(a, s[k]))
  }

  /** Cosine and sine of every inner coefficient of the pass lie on the unit circle. */
  ghost predicate UnitTable(tab: seq<real>, m: nat) {
    && |tab| >= m / 2
    && forall i :: 0 < i < m / 2 ==> OnCircle(tab[i], tab[m / 2 - i])
  }

  /** The inner coefficients of a pass and its inverse, as plain numbers: joining the complex
      numbers (e, e') and (o, o') and parting the result gives both back, times 2a. */
  lemma PartOfJoin(a: real, e: real, e': real, o: real, o': real, c: real, s: real)
    requires OnCircle(c, s)
    ensures
      var v, w := Re(o, o', c, s), Im(o, o', c, s);
      var f0, f1, f2, f3 := Mul(a, e + v), Mul(a, e - v), Mul(a, w + e'), Mul(a, w - e');
      && f0 + f1 == Mul(2.0 * a, e) && f2 - f3 == Mul(2.0 * a, e')
      && BackRe(f0 - f1, f2 + f3, c, s) == Mul(2.0 * a, o)
      && BackIm(f0 - f1, f2 + f3, c, s) == Mul(2.0 * a, o')
  {
    hide Mul, Re, Im, BackRe, BackIm, OnCircle;
    MulSums(a, e, Re(o, o', c, s));
    MulSums(a, Im(o, o', c, s), e');
    TurnBack(2.0 * a, o, o', c, s);
  }

  /** The other way round: parting four values and joining the parts. */
  lemma JoinOfPart(a: real, f0: real, f1: real, f2: real, f3: real, c: real, s: real)
    requires OnCircle(c, s)
    ensures
      var e, e' := Mul(a, f0 + f1), Mul(a, f2 - f3);
      var o, o' := Mul(a, BackRe(f0 - f1, f2 + f3, c, s)), Mul(a, BackIm(f0 - f1, f2 + f3, c, s));
      var v, w := Re(o, o', c, s), Im(o, o', c, s);
      && e + v == Mul(2.0 * a, f0) && e - v == Mul(2.0 * a, f1)
      && w + e' == Mul(2.0 * a, f2) && w - e' == Mul(2.0 * a, f3)
  {
    hide Mul, Re, Im, BackRe, BackIm, OnCircle;
    TurnForward(a, f0 - f1, f2 + f3, c, s);
    MulSums(a, f0, f1);
    MulSums(a, f2, f3);
  }

  /** The four joined values that inner coefficient i contributes to. */
  lemma JoinFour(e: seq<real>, o: seq<real>, tab: seq<real>, i: nat)
    requires |e| == |o| > 0 && |e| % 2 == 0 && |tab| >= |e| / 2 && 0 < i < |e| / 2
    ensures
      var m, h := |e|, |e| / 2;
      var v, w := Re(o[i], o[h + i], tab[i], tab[h - i]), Im(o[i], o[h + i], tab[i], tab[h - i]);
      && JoinAt(e, o, tab, i) == e[i] + v && JoinAt(e, o, tab, m - i) == e[i] - v
      && JoinAt(e, o, tab, m + i) == w + e[h + i] && JoinAt(e, o, tab, 2 * m - i) == w - e[h + i]
  {
    hide Re, Im;
  }

  lemma PartFour(f: seq<real>, m: nat, tab: seq<real>, i: nat)
    requires |f| == 2 * m && m > 0 && m % 2 == 0 && |tab| >= m / 2 && 0 < i < m / 2
    ensures
      var h := m / 2;
      var u, v := f[i] - f[m - i], f[m + i] + f[2 * m - i];
      && PartAt(f, m, tab, i) == f[i] + f[m - i] && PartAt(f, m, tab, h + i) == f[m + i] - f[2 * m - i]
      && PartAt(f, m, tab, m + i) == BackRe(u, v, tab[i], tab[h - i])
      && PartAt(f, m, tab, m + h + i) == BackIm(u, v, tab[i], tab[h - i])
  {
    hide BackRe, BackIm;
  }

  lemma PartOfJoinInner(a: real, e: seq<real>, o: seq<real>, tab: seq<real>, i: nat)
    requires |e| == |o| > 0 && |e| % 2 == 0 && UnitTable(tab, |e|) && 0 < i < |e| / 2
    ensures
      var m, h, g := |e|, |e| / 2, Scale(a, Join(e, o, tab));
      && PartAt(g, m, tab, i) == Mul(2.0 * a, e[i]) && PartAt(g, m, tab, h + i) == Mul(2.0 * a, e[h + i])
      && PartAt(g, m, tab, m + i) == Mul(2.0 * a, o[i])
      && PartAt(g, m, tab, m + h + i) == Mul(2.0 * a, o[h + i])
  {
    hide Mul, Re, Im, BackRe, BackIm, OnCircle, PartAt, JoinAt;
    var m, h, g := |e|, |e| / 2, Scale(a, Join(e, o, tab));
    JoinFour(e, o, tab, i);
    PartFour(g, m, tab, i);
    PartOfJoin(a, e[i], e[h + i], o[i], o[h + i], tab[i], tab[h - i]);
  }

  lemma PartOfJoinOuter(a: real, e: seq<real>, o: seq<real>, tab: seq<real>)
    requires |e| == |o| > 0 && (|e| == 1 || |e| % 2 == 0) && UnitTable(tab, |e|)
    ensures
      var m, h, g := |e|, |e| / 2, Scale(a, Join(e, o, tab));
      && PartAt(g, m, tab, 0) == Mul(2.0 * a, e[0]) && PartAt(g, m, tab, m) == Mul(2.0 * a, o[0])
      && PartAt(g, m, tab, h) == Mul(2.0 * a, e[h]) && PartAt(g, m, tab, m + h) == Mul(2.0 * a, o[h])
  {
    hide Mul, OnCircle;
    MulSums(a, e[0], o[0]);
    MulSums(a, e[|e| / 2], 0.0);
    MulSums(a, o[|e| / 2], 0.0);
  }

  lemma PartOfJoinAt(a: real, e: seq<real>, o: seq<real>, tab: seq<real>, k: nat)
    requires |e| == |o| > 0 && (|e| == 1 || |e| % 2 == 0) && UnitTable(tab, |e|)
    requires k < 2 * |e|
    ensures PartAt(Scale(a, Join(e, o, tab)), |e|, tab, k) == Mul(2.0 * a, (e + o)[k])
  {
    hide Mul, OnCircle, PartAt, JoinAt;
    var m, h := |e|, |e| / 2;
    var i := if k < h then k else if k < m then k - h else if k < m + h then k - m else k - m - h;
    assert k == i || k == h + i || k == m + i || k == m + h + i;
    if 0 < i < h {
      PartOfJoinInner(a, e, o, tab, i);
    } else {
      PartOfJoinOuter(a, e, o, tab);
    }
  }

  lemma JoinOfPartInner(a: real, f: seq<real>, m: nat, tab: seq<real>, i: nat)
    requires |f| == 2 * m && m > 0 && m % 2 == 0 && UnitTable(tab, m) && 0 < i < m / 2
    ensures
      var p := Scale(a, Part(f, m, tab));
      && JoinAt(p[..m], p[m..], tab, i) == Mul(2.0 * a, f[i])
      && JoinAt(p[..m], p[m..], tab, m - i) == Mul(2.0 * a, f[m - i])
      && JoinAt(p[..m], p[m..], tab, m + i) == Mul(2.0 * a, f[m + i])
      && JoinAt(p[..m], p[m..], tab, 2 * m - i) == Mul(2.0 * a, f[2 * m - i])
  {
    hide Mul, Re, Im, BackRe, BackIm, OnCircle, PartAt, JoinAt;
    var h, p := m / 2, Scale(a, Part(f, m, tab));
    JoinFour(p[..m], p[m..], tab, i);
    PartFour(f, m, tab, i);
    JoinOfPart(a, f[i], f[m - i], f[m + i], f[2 * m - i], tab[i], tab[h - i]);
  }

  lemma JoinOfPartOuter(a: real, f: seq<real>, m: nat, tab: seq<real>)
    requires |f| == 2 * m && m > 0 && (m == 1 || m % 2 == 0) && UnitTable(tab, m)
    ensures
      var h, p := m / 2, Scale(a, Part(f, m, tab));
      && JoinAt(p[..m], p[m..], tab, 0) == Mul(2.0 * a, f[0])
      && JoinAt(p[..m], p[m..], tab, m) == Mul(2.0 * a, f[m])
      && JoinAt(p[..m], p[m..], tab, h) == Mul(2.0 * a, f[h])
      && JoinAt(p[..m], p[m..], tab, m + h) == Mul(2.0 * a, f[m + h])
  {
    hide Mul, OnCircle;
    MulSums(a, f[0], f[m]);
    MulSums(a, f[m / 2], 0.0);
    MulSums(a, f[m + m / 2], 0.0);
  }

  lemma JoinOfPartAt(a: real, f: seq<real>, m: nat, tab: seq<real>, k: nat)
    requires |f| == 2 * m && m > 0 && (m == 1 || m % 2 == 0) && UnitTable(tab, m)
    requires k < 2 * m
    ensures var p := Scale(a, Part(f, m, tab)); JoinAt(p[..m], p[m..], tab, k) == Mul(2.0 * a, f[k])
  {
    hide Mul, OnCircle, PartAt, JoinAt;
    var h := m / 2;
    var i := if k < h then k else if k < m then m - k else if k < m + h then k - m else 2 * m - k;
    assert k == i || k == m - i || k == m + i || k == 2 * m - i;
    if 0 < i < h {
      JoinOfPartInner(a, f, m, tab, i);
    } else {
      JoinOfPartOuter(a, f, m, tab);
    }
  }

  /** Taking a scaled joined spectrum apart gives the two halves back, doubled. */
  lemma PartUndoesJoin(a: real, e: seq<real>, o: seq<real>, tab: seq<real>)
    requires |e| == |o| > 0 && (|e| == 1 || |e| % 2 == 0) && UnitTable(tab, |e|)
    ensures Part(Scale(a, Join(e, o, tab)), |e|, tab) == Scale(2.0 * a, e + o)
  {
    hide PartAt, JoinAt, Mul, OnCircle;
    forall k | 0 <= k < 2 * |e|
      ensures Part(Scale(a, Join(e, o, tab)), |e|, tab)[k] == Scale(2.0 * a, e + o)[k]
    {
      PartOfJoinAt(a, e, o, tab, k);
    }
  }

  /** Joining the scaled parts of a spectrum gives the spectrum back, doubled. */
  lemma JoinUndoesPart(a: real, f: seq<real>, m: nat, tab: seq<real>)
    requires |f| == 2 * m && m > 0 && (m == 1 || m % 2 == 0) && UnitTable(tab, m)
    ensures var p := Scale(a, Part(f, m, tab)); Join(p[..m], p[m..], tab) == Scale(2.0 * a, f)
  {
    hide PartAt, JoinAt, Mul, OnCircle;
    var p := Scale(a, Part(f, m, tab));
    forall k | 0 <= k < 2 * m
      ensures Join(p[..m], p[m..], tab)[k] == Scale(2.0 * a, f)[k]
    {
      JoinOfPartAt(a, f, m, tab, k);
    }
  }
}
