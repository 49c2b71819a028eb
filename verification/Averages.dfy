/** The averages that sndlib_findpeak takes beside the peaks of a channel: of the magnitudes, of the
    samples and of their squares, summed at unit scale. */
module Averages {
  import opened Limiter
  import opened Rotation

  const DENORMFACTOR := 32768.0

  datatype Sums = Sums(amp: real, dc: real, square: real)

  function Plus(u: Sums, x: real): Sums {
    var normsamp := x / DENORMFACTOR;
    Sums(u.amp + Magnitude(x) / DENORMFACTOR, u.dc + normsamp, u.square + Mul(normsamp, normsamp))
  }

  /** The sums after the samples s. */
  function Summed(u: Sums, s: seq<real>): Sums {
    if s == [] then u else Plus(Summed(u, s[..|s| - 1]), s[|s| - 1])
  }

  lemma {:induction false} SummedOverBlocks(u: Sums, s: seq<real>, t: seq<real>)
    ensures Summed(Summed(u, s), t) == Summed(u, s + t)
  {
    hide Plus;
    if t == [] {
      assert s + t == s;
    } else {
      SummedOverBlocks(u, s, t[..|t| - 1]);
      assert (s + t)[..|s + t| - 1] == s + t[..|t| - 1];
    }
  }

  function Total(s: seq<real>): real {
    if s == [] then 0.0 else Total(s[..|s| - 1]) + s[|s| - 1]
  }

  function Magnitudes(s: seq<real>): (m: seq<real>)
    ensures |m| == |s|
  {
    seq(|s|, i requires 0 <= i < |s| => Magnitude(s[i]))
  }

  function Squares(s: seq<real>): (q: seq<real>)
    ensures |q| == |s|
  {
    seq(|s|, i requires 0 <= i < |s| => Mul(s[i], s[i]))
  }

  const SILENCE := Sums(0.0, 0.0, 0.0)

  /** What the source makes of the sums at the end, where root stands for the square root. */
  function Finished(u: Sums, nframes: nat, root: real -> real): Sums
    requires nframes > 0
  {
    var n := nframes as real;
    Sums(u.amp / n * DENORMFACTOR, u.dc / n * DENORMFACTOR, root(u.square / n) * DENORMFACTOR)
  }

  /** The sums of a run, at full scale. */
  lemma {:induction false} SumsAre(s: seq<real>)
    ensures
      var u := Summed(SILENCE, s);
      && u.amp * DENORMFACTOR == Total(Magnitudes(s))
      && u.dc * DENORMFACTOR == Total(s)
      && u.square * (DENORMFACTOR * DENORMFACTOR) == Total(Squares(s))
  {
    if s != [] {
      var n := |s| - 1;
      SumsAre(s[..n]);
      assert Magnitudes(s)[..n] == Magnitudes(s[..n]) && Squares(s)[..n] == Squares(s[..n]);
      hide Total, Summed, Magnitude;
      OneMoreSample(Summed(SILENCE, s[..n]), s[n]);
      TotalOfLast(s);
      TotalOfLast(Magnitudes(s));
      TotalOfLast(Squares(s));
      SummedLast(s);
    }
  }

  lemma TotalOfLast(s: seq<real>)
    requires s != []
    ensures Total(s) == Total(s[..|s| - 1]) + s[|s| - 1]
  {
  }

  lemma SummedLast(s: seq<real>)
    requires s != []
    ensures Summed(SILENCE, s) == Plus(Summed(SILENCE, s[..|s| - 1]), s[|s| - 1])
  {
  }

  lemma OneMoreSample(u: Sums, x: real)
    ensures
      var v := Plus(u, x);
      && v.amp * DENORMFACTOR == u.amp * DENORMFACTOR + Magnitude(x)
      && v.dc * DENORMFACTOR == u.dc * DENORMFACTOR + x
      && v.square * (DENORMFACTOR * DENORMFACTOR) == u.square * (DENORMFACTOR * DENORMFACTOR) + Mul(x, x)
  {
  }

  // ---- The frames that are read.

  const BUF_FRAMES := 16384

  /** How many of the frames left in a file are read for a window of nframes: whole buffers, until
      the window is covered or the file ends. */
  function FramesRead(left: nat, nframes: nat): (r: nat)
    ensures r <= left && (left > 0 && nframes > 0 ==> r > 0)
    decreases left
  {
    if left == 0 || nframes == 0 then 0
    else
      var b := if left < BUF_FRAMES then left else BUF_FRAMES;
      b + FramesRead(left - b, if nframes > b then nframes - b else 0)
  }

  lemma OneMoreBuffer(left: nat, nframes: nat)
    requires left > 0 && nframes > 0
    ensures
      var b := if left < BUF_FRAMES then left else BUF_FRAMES;
      FramesRead(left, nframes) == b + FramesRead(left - b, if nframes > b then nframes - b else 0)
  {
  }

  lemma NoMoreFrames(left: nat, nframes: nat)
    requires left == 0 || nframes == 0
    ensures FramesRead(left, nframes) == 0
  {
  }

  lemma {:induction false} FramesReadAre(left: nat, nframes: nat)
    ensures
      var whole := (nframes + BUF_FRAMES - 1) / BUF_FRAMES * BUF_FRAMES;
      FramesRead(left, nframes) == if left < whole then left else whole
    decreases left
  {
    if left > 0 && nframes > 0 {
      var b := if left < BUF_FRAMES then left else BUF_FRAMES;
      FramesReadAre(left - b, if nframes > b then nframes - b else 0);
    }
  }

  /** The window ends where a buffer does, or not before the file. */
  predicate CoversWindow(left: nat, nframes: nat) { nframes >= left || nframes % BUF_FRAMES == 0 }

  /** And it is all there. */
  predicate FillsWindow(left: nat, nframes: nat) { nframes <= left && CoversWindow(left, nframes) }

  /** The frames read are those of the window in the file exactly when it ends where a buffer does
      or not before the file, and as many as the window has exactly when it is all there too;
      otherwise more are read than were asked for, or the file is too short. */
  lemma FramesReadExactlyWhen(left: nat, nframes: nat)
    ensures FramesRead(left, nframes) <= nframes <==> CoversWindow(left, nframes)
    ensures FramesRead(left, nframes) == nframes <==> FillsWindow(left, nframes)
    ensures nframes <= left ==> FramesRead(left, nframes) >= nframes
    ensures FramesRead(left, nframes) == (if nframes < left then nframes else left) <==> CoversWindow(left, nframes)
  {
    FramesReadAre(left, nframes);
  }

  /** The samples of a channel that are read, of those left in the file. */
  function Window(s: seq<real>, nframes: nat): (w: seq<real>) {
    s[..FramesRead(|s|, nframes)]
  }

  /** What sndlib_findpeak gives for a channel of which s is left in the file. */
  function Results(s: seq<real>, nframes: nat, root: real -> real): Sums
    requires nframes > 0
  {
    Finished(Summed(SILENCE, Window(s, nframes)), nframes, root)
  }

  function PeakFound(s: seq<real>, nframes: nat): real {
    Tracked(Peak(0.0, 0), Window(s, nframes), 0).amp
  }

  /** The peak of the samples asked for. */
  function PeakAskedFor(s: seq<real>, nframes: nat): real {
    Tracked(Peak(0.0, 0), if nframes < |s| then s[..nframes] else s, 0).amp
  }

  /** Silence up to a first sample of 1. */
  function Click(left: nat, at: nat): (s: seq<real>)
    ensures |s| == left && forall i :: 0 <= i < left ==> s[i] == if i == at then 1.0 else 0.0
  {
    seq(left, i => if i == at then 1.0 else 0.0)
  }

  /** Main result on the window: the peak found is that of the window asked for, whatever the
      samples, exactly when it ends where a buffer does or not before the file. */
  lemma PeakIsOfWindowExactlyWhen(left: nat, nframes: nat)
    ensures (forall s :: |s| == left ==> PeakFound(s, nframes) == PeakAskedFor(s, nframes)) <==>
      CoversWindow(left, nframes)
  {
    FramesReadExactlyWhen(left, nframes);
    hide Tracked, FramesRead, CoversWindow;
    if CoversWindow(left, nframes) {
      forall s: seq<real> | |s| == left ensures PeakFound(s, nframes) == PeakAskedFor(s, nframes) {
        assert nframes >= |s| ==> Window(s, nframes) == s;
      }
    } else {
      NotCovered(left, nframes);
      var s := Click(left, nframes);
      PeakIsFirstMaximum(s[..nframes], 0);
      PeakIsFirstMaximum(Window(s, nframes), 0);
      assert Window(s, nframes)[nframes] == 1.0;
      assert PeakAskedFor(s, nframes) == 0.0;
      assert PeakFound(s, nframes) >= 1.0;
    }
  }

  lemma NotCovered(left: nat, nframes: nat)
    requires !CoversWindow(left, nframes)
    ensures nframes < left
  {
  }

  /** The results are the totals of the frames read, over the number of frames asked for. */
  lemma ResultsAre(s: seq<real>, nframes: nat, root: real -> real)
    requires nframes > 0
    ensures
      var w, n, f := Window(s, nframes), nframes as real, Results(s, nframes, root);
      && f.amp == Total(Magnitudes(w)) / n && f.dc == Total(w) / n
      && f.square == root(Total(Squares(w)) / n / (DENORMFACTOR * DENORMFACTOR)) * DENORMFACTOR
  {
    var w, n := Window(s, nframes), nframes as real;
    hide Total, Summed, Magnitudes, Squares, Window;
    SumsAre(w);
    var u := Summed(SILENCE, w);
    Unscaled(u.amp, Total(Magnitudes(w)), n);
    Unscaled(u.dc, Total(w), n);
    UnscaledSquare(u.square, Total(Squares(w)), n);
  }

  /** The means of the magnitudes, of the samples and, under the root, of the squares, of the
      frames read. */
  predicate AreMeans(s: seq<real>, nframes: nat, root: real -> real)
    requires nframes > 0 && s != []
  {
    var w, f := Window(s, nframes), Results(s, nframes, root);
    var r := |w| as real;
    && f.amp == Total(Magnitudes(w)) / r && f.dc == Total(w) / r
    && f.square == root(Total(Squares(w)) / r / (DENORMFACTOR * DENORMFACTOR)) * DENORMFACTOR
  }

  /** n samples of 1. */
  function Ones(n: nat): (s: seq<real>)
    ensures |s| == n && forall i :: 0 <= i < n ==> s[i] == 1.0
  {
    seq(n, i => 1.0)
  }

  lemma {:induction false} TotalOfOnes(s: seq<real>)
    requires forall i :: 0 <= i < |s| ==> s[i] == 1.0
    ensures Total(s) == |s| as real
  {
    if s != [] {
      TotalOfOnes(s[..|s| - 1]);
    }
  }

  /** The results of a constant signal. */
  lemma ResultsOfOnes(left: nat, nframes: nat, root: real -> real)
    requires left > 0 && nframes > 0
    ensures
      var s := Ones(left);
      var r := FramesRead(left, nframes);
      var w, f := Window(s, nframes), Results(s, nframes, root);
      && f.amp == r as real / nframes as real == f.dc
      && f.square == root(f.dc / (DENORMFACTOR * DENORMFACTOR)) * DENORMFACTOR
      && Total(Magnitudes(w)) == r as real && PeakFound(s, nframes) == 1.0
  {
    var s := Ones(left);
    var w := Window(s, nframes);
    TotalOfOnes(w);
    TotalOfOnes(Magnitudes(w));
    TotalOfOnes(Squares(w));
    PeakIsFirstMaximum(w, 0);
    assert Magnitude(w[0]) == 1.0;
    hide Total, Magnitudes, Squares, Window, Results, FramesRead;
    ResultsAre(s, nframes, root);
  }

  lemma RatioIsOne(r: nat, n: nat)
    requires n > 0
    ensures r as real / n as real == 1.0 <==> r == n
    ensures r as real / n as real <= 1.0 <==> r <= n
  {
    var q := r as real / n as real;
    assert q * n as real == r as real;
  }

  /** Main result on averages: they are the means, whatever the samples, exactly when the window is
      all there and ends where a buffer or the file does; the divisor is otherwise not the number
      of frames read. */
  lemma AveragesAreMeansExactlyWhen(left: nat, nframes: nat, root: real -> real)
    requires left > 0 && nframes > 0
    ensures (forall s :: |s| == left ==> AreMeans(s, nframes, root)) <==> FillsWindow(left, nframes)
  {
    hide Total, Magnitudes, Squares, Results, Window, FramesRead, FillsWindow;
    FramesReadExactlyWhen(left, nframes);
    if FillsWindow(left, nframes) {
      forall s: seq<real> | |s| == left ensures AreMeans(s, nframes, root) {
        ResultsAre(s, nframes, root);
        WindowLength(s, nframes);
      }
    } else {
      ResultsOfOnes(left, nframes, root);
      WindowLength(Ones(left), nframes);
      OverItself(FramesRead(left, nframes));
      RatioIsOne(FramesRead(left, nframes), nframes);
      assert !AreMeans(Ones(left), nframes, root);
    }
  }

  lemma WindowLength(s: seq<real>, nframes: nat)
    ensures |Window(s, nframes)| == FramesRead(|s|, nframes)
    ensures s != [] && nframes > 0 ==> |Window(s, nframes)| > 0
  {
  }

  lemma OverItself(r: nat)
    requires r > 0
    ensures r as real / r as real == 1.0
  {
  }

  lemma Unscaled(a: real, total: real, n: real)
    requires n > 0.0 && a * DENORMFACTOR == total
    ensures a / n * DENORMFACTOR == total / n
  {
    var q := a / n;
    assert q * n == a;
    assert q * DENORMFACTOR * n == total;
  }

  lemma UnscaledSquare(a: real, total: real, n: real)
    requires n > 0.0 && a * (DENORMFACTOR * DENORMFACTOR) == total
    ensures a / n == total / n / (DENORMFACTOR * DENORMFACTOR)
  {
    var q := a / n;
    assert q * n == a;
    assert q * (DENORMFACTOR * DENORMFACTOR) * n == total;
  }

  /** A total never exceeds that of the magnitudes. */
  lemma {:induction false} TotalWithinMagnitudes(s: seq<real>)
    ensures Magnitude(Total(s)) <= Total(Magnitudes(s))
  {
    if s != [] {
      var n := |s| - 1;
      TotalWithinMagnitudes(s[..n]);
      assert Magnitudes(s)[..n] == Magnitudes(s[..n]);
    }
  }

  /** The magnitudes of n samples total at most n times the peak that is tracked beside them. */
  lemma {:induction false} TotalWithinPeak(s: seq<real>, start: int)
    ensures Total(Magnitudes(s)) <= Mul(|s| as real, Tracked(Peak(0.0, 0), s, start).amp)
  {
    if s != [] {
      var n := |s| - 1;
      TotalWithinPeak(s[..n], start);
      assert Magnitudes(s)[..n] == Magnitudes(s[..n]);
      var p, q := Tracked(Peak(0.0, 0), s[..n], start).amp, Tracked(Peak(0.0, 0), s, start).amp;
      assert p <= q && Magnitude(s[n]) <= q;
      hide Total, Tracked, Mul;
      TotalOfLast(Magnitudes(s));
      OneMoreUnderPeak(n, p, q, Total(Magnitudes(s[..n])), Magnitude(s[n]));
    } else {
      assert Mul(0.0, Tracked(Peak(0.0, 0), s, start).amp) == 0.0;
    }
  }

  /** The squared total of n samples never exceeds n times the total of their squares. */
  lemma {:induction false} TotalWithinSquares(s: seq<real>)
    ensures Mul(Total(s), Total(s)) <= Mul(|s| as real, Total(Squares(s)))
  {
    if s != [] {
      var n := |s| - 1;
      TotalWithinSquares(s[..n]);
      assert Squares(s)[..n] == Squares(s[..n]);
      assert n == 0 ==> Total(s[..n]) == 0.0 && Total(Squares(s[..n])) == 0.0;
      hide Total, Mul;
      TotalOfLast(s);
      TotalOfLast(Squares(s));
      assert Squares(s)[n] == Mul(s[n], s[n]);
      OneMoreSquare(n, Total(s[..n]), Total(Squares(s[..n])), s[n]);
    }
  }

  lemma OneMoreUnderPeak(n: nat, p: real, q: real, total: real, x: real)
    requires total <= Mul(n as real, p) && p <= q && x <= q
    ensures total + x <= Mul((n + 1) as real, q)
  {
    assert n as real * (q - p) >= 0.0;
  }

  /** The step from n to n + 1 samples of the inequality between a sum and its squares. */
  lemma OneMoreSquare(n: nat, t: real, q: real, x: real)
    requires Mul(t, t) <= Mul(n as real, q) && (n == 0 ==> t == 0.0 && q == 0.0)
    ensures Mul(t + x, t + x) <= Mul((n + 1) as real, q + Mul(x, x))
  {
    hide Mul;
    var m := n as real;
    Expanded(m, t, q, x);
    if n > 0 {
      CrossTerm(m, t, q, x);
    }
  }

  lemma Expanded(m: real, t: real, q: real, x: real)
    ensures Mul(t + x, t + x) == Mul(t, t) + 2.0 * Mul(t, x) + Mul(x, x)
    ensures Mul(m + 1.0, q + Mul(x, x)) == Mul(m, q) + Mul(m, Mul(x, x)) + q + Mul(x, x)
    ensures t == 0.0 ==> Mul(t, x) == 0.0
    ensures m == 0.0 ==> Mul(m, Mul(x, x)) == 0.0 && Mul(m, q) == 0.0
  {
  }

  lemma CrossTerm(m: real, t: real, q: real, x: real)
    requires m > 0.0 && Mul(t, t) <= Mul(m, q)
    ensures 2.0 * Mul(t, x) <= q + Mul(m, Mul(x, x))
  {
    var a, b := Mul(t, x), Mul(x, x);
    SquareOfDifference(m, t, x);
    assert m * (q + m * b - 2.0 * a) == Mul(m, q) + m * (m * b) - 2.0 * (m * a);
    Positive(m, q + m * b - 2.0 * a);
  }

  lemma SquareOfDifference(m: real, t: real, x: real)
    ensures Mul(t, t) + m * (m * Mul(x, x)) - 2.0 * (m * Mul(t, x)) >= 0.0
  {
    var d := t - m * x;
    assert d * d >= 0.0;
    assert d * d == t * t - 2.0 * (m * (t * x)) + m * (m * (x * x));
  }

  lemma Positive(m: real, y: real)
    requires m > 0.0 && m * y >= 0.0
    ensures y >= 0.0
  {
  }

  // ---- What bounds what.

  /** The law of the square root. */
  ghost predicate IsRoot(root: real -> real) {
    forall x :: x >= 0.0 ==> root(x) >= 0.0 && root(x) * root(x) == x
  }

  /** The average lies within the peak, and the offset within the root mean square. */
  predicate AreBounded(s: seq<real>, nframes: nat, root: real -> real)
    requires nframes > 0
  {
    var f := Results(s, nframes, root);
    f.amp <= PeakFound(s, nframes) && Magnitude(f.dc) <= f.square
  }

  /** The offset never exceeds the average, whatever the window. */
  lemma OffsetWithinAverage(s: seq<real>, nframes: nat, root: real -> real)
    requires nframes > 0
    ensures Magnitude(Results(s, nframes, root).dc) <= Results(s, nframes, root).amp
  {
    var w, n := Window(s, nframes), nframes as real;
    hide Total, Magnitudes, Squares, Window, Results;
    ResultsAre(s, nframes, root);
    TotalWithinMagnitudes(w);
    QuotientMagnitude(Total(w), n);
    QuotientOrder(Magnitude(Total(w)), Total(Magnitudes(w)), n);
  }

  lemma QuotientOrder(a: real, b: real, n: real)
    requires a <= b && n > 0.0
    ensures a / n <= b / n
  {
    assert b / n - a / n == (b - a) / n;
  }

  lemma QuotientMagnitude(a: real, n: real)
    requires n > 0.0
    ensures Magnitude(a / n) == Magnitude(a) / n
  {
  }

  /** Main result on bounds: the average never exceeds the peak, nor the offset the root mean
      square, whatever the samples, exactly when no more is read than was asked for. */
  lemma BoundedExactlyWhen(left: nat, nframes: nat, root: real -> real)
    requires left > 0 && nframes > 0 && IsRoot(root)
    ensures (forall s :: |s| == left ==> AreBounded(s, nframes, root)) <==> CoversWindow(left, nframes)
  {
    hide Total, Magnitudes, Squares, Results, Window, FramesRead, CoversWindow, PeakFound, IsRoot;
    FramesReadExactlyWhen(left, nframes);
    if CoversWindow(left, nframes) {
      forall s: seq<real> | |s| == left ensures AreBounded(s, nframes, root) {
        AverageWithinPeak(s, nframes, root);
        OffsetWithinRms(s, nframes, root);
      }
    } else {
      ResultsOfOnes(left, nframes, root);
      RatioIsOne(FramesRead(left, nframes), nframes);
      assert !AreBounded(Ones(left), nframes, root);
    }
  }

  lemma AverageWithinPeak(s: seq<real>, nframes: nat, root: real -> real)
    requires nframes > 0 && CoversWindow(|s|, nframes)
    ensures Results(s, nframes, root).amp <= PeakFound(s, nframes)
  {
    var w, n := Window(s, nframes), nframes as real;
    var p := PeakFound(s, nframes);
    PeakIsFirstMaximum(w, 0);
    assert p >= 0.0;
    TotalWithinPeak(w, 0);
    hide Total, Magnitudes, Squares, Window, Results, FramesRead, CoversWindow, PeakFound;
    FramesReadExactlyWhen(|s|, nframes);
    WindowLength(s, nframes);
    ResultsAre(s, nframes, root);
    MeanWithin(Total(Magnitudes(w)), |w| as real, p, n);
  }

  lemma MeanWithin(total: real, r: real, p: real, n: real)
    requires total <= Mul(r, p) && r <= n && p >= 0.0 && n > 0.0
    ensures total / n <= p
  {
    assert (n - r) * p >= 0.0;
    QuotientOrder(total, n * p, n);
    assert n * p / n == p;
  }

  lemma OffsetWithinRms(s: seq<real>, nframes: nat, root: real -> real)
    requires nframes > 0 && CoversWindow(|s|, nframes) && IsRoot(root)
    ensures Magnitude(Results(s, nframes, root).dc) <= Results(s, nframes, root).square
  {
    var w, n := Window(s, nframes), nframes as real;
    TotalWithinSquares(w);
    SquaresArePositive(w);
    hide Total, Magnitudes, Squares, Window, Results, FramesRead, CoversWindow;
    FramesReadExactlyWhen(|s|, nframes);
    WindowLength(s, nframes);
    ResultsAre(s, nframes, root);
    RootOfMean(Total(w), Total(Squares(w)), |w| as real, n, root);
  }

  lemma {:induction false} SquaresArePositive(s: seq<real>)
    ensures Total(Squares(s)) >= 0.0
  {
    if s != [] {
      var n := |s| - 1;
      SquaresArePositive(s[..n]);
      assert Squares(s)[..n] == Squares(s[..n]);
      SquareIsPositive(s[n]);
    }
  }

  lemma SquareIsPositive(x: real)
    ensures Mul(x, x) >= 0.0
  {
    assert x * x == (-x) * (-x);
  }

  /** A mean of r terms over n, squared, and the root of a mean square. */
  lemma RootOfMean(t: real, q: real, r: real, n: real, root: real -> real)
    requires IsRoot(root) && Mul(t, t) <= Mul(r, q) && 0.0 <= r <= n && n > 0.0 && q >= 0.0
    ensures Magnitude(t / n) <= root(q / n / (DENORMFACTOR * DENORMFACTOR)) * DENORMFACTOR
  {
    var m := q / n;
    var x := m / (DENORMFACTOR * DENORMFACTOR);
    QuotientOrder(0.0, q, n);
    assert m >= 0.0 && x >= 0.0;
    var y := root(x) * DENORMFACTOR;
    assert root(x) >= 0.0 && root(x) * root(x) == x;
    assert y >= 0.0;
    assert y * y == m by {
      assert y * y == root(x) * root(x) * (DENORMFACTOR * DENORMFACTOR);
    }
    MeanSquare(t, q, r, n);
    SmallerSquare(t / n, y);
  }

  lemma MeanSquare(t: real, q: real, r: real, n: real)
    requires Mul(t, t) <= Mul(r, q) && r <= n && n > 0.0 && q >= 0.0
    ensures (t / n) * (t / n) <= q / n
  {
    var d, m := t / n, q / n;
    Product(n - r, q);
    ProductParts(n, r, q);
    assert Mul(r, q) <= Mul(n, q);
    Rescaled(d, t, n);
    RescaledOnce(m, q, n);
    hide Mul;
    SmallerFactor(Mul(d, d), m, n);
    assert Mul(d, d) <= m;
    MulIs(d);
  }

  lemma MulIs(d: real)
    ensures Mul(d, d) == d * d
  {
  }

  lemma ProductParts(n: real, r: real, q: real)
    ensures Mul(n, q) - Mul(r, q) == Mul(n - r, q)
  {
  }

  lemma Rescaled(d: real, t: real, n: real)
    requires n > 0.0 && d == t / n
    ensures Mul(Mul(d, d), Mul(n, n)) == Mul(t, t) && Mul(n, n) > 0.0
  {
    assert d * n == t;
    assert (d * d) * (n * n) == (d * n) * (d * n);
    SquareAboveZero(n);
  }

  lemma SquareAboveZero(n: real)
    requires n > 0.0
    ensures Mul(n, n) > 0.0
  {
    assert Mul(0.0, n) == 0.0;
    hide Mul;
    FactorOrder(0.0, n, n);
  }

  lemma RescaledOnce(m: real, q: real, n: real)
    requires n > 0.0 && m == q / n
    ensures Mul(m, Mul(n, n)) == Mul(n, q)
  {
    assert m * n == q;
    assert m * (n * n) == n * (m * n);
  }

  lemma Product(a: real, b: real)
    requires a >= 0.0 && b >= 0.0
    ensures Mul(a, b) >= 0.0
  {
  }

  lemma SmallerFactor(a: real, b: real, n: real)
    requires Mul(n, n) > 0.0 && Mul(a, Mul(n, n)) <= Mul(b, Mul(n, n))
    ensures a <= b
  {
    if a > b {
      FactorOrder(b, a, Mul(n, n));
    }
  }

  lemma FactorOrder(a: real, b: real, k: real)
    requires a < b && k > 0.0
    ensures Mul(a, k) < Mul(b, k)
  {
    assert (b - a) * k > 0.0;
    assert (b - a) * k == b * k - a * k;
  }

  lemma SmallerSquare(d: real, y: real)
    requires y >= 0.0 && d * d <= y * y
    ensures Magnitude(d) <= y
  {
    assert Mul(d, d) <= Mul(y, y) && Mul(-d, -d) == Mul(d, d);
    hide Mul;
    if d > y {
      SquareOrder(y, d);
    } else if -d > y {
      SquareOrder(y, -d);
    }
  }

  lemma SquareOrder(y: real, m: real)
    requires 0.0 <= y < m
    ensures Mul(y, y) < Mul(m, m)
  {
    FactorOrder(y, m, m);
    Product(m - y, y);
    assert Mul(m - y, y) == Mul(y, m) - Mul(y, y);
  }

  /** For one frame of a window before two of a constant level the average and the offset come out
      at twice the peak. */
  lemma TwiceThePeak(root: real -> real)
    ensures
      var s := [100.0, 100.0];
      var f := Results(s, 1, root);
      f.amp == 200.0 && f.dc == 200.0 && PeakFound(s, 1) == 100.0
  {
    var s := [100.0, 100.0];
    assert FramesRead(2, 1) == 2;
    assert Window(s, 1) == s;
    ResultsAre(s, 1, root);
    TotalOfTwo(s);
    TotalOfTwo(Magnitudes(s));
    assert s[..1] == [100.0] && s[..0] == [] && [100.0][..0] == [];
    assert Tracked(Peak(0.0, 0), [100.0], 0).amp == 100.0;
  }

  lemma TotalOfTwo(s: seq<real>)
    requires |s| == 2
    ensures Total(s) == s[0] + s[1]
  {
    assert s[..1][..0] == [];
    assert Total(s[..1]) == s[0];
  }
}
