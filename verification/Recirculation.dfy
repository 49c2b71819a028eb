/** Delay windows and the comb and allpass recurrences over them.  A window lists the samples
    still to come out, newest first; both the C filters over a flat array and the classes over
    an Odelay refine these steps. */
module Recirculation {
  import opened Rotation

  /** A sample enters the window as the oldest one leaves. */
  function Shift(win: seq<real>, x: real): (w: seq<real>)
    requires |win| > 0
    ensures |w| == |win|
  {
    [x] + win[..|win| - 1]
  }

  lemma ShiftAt(win: seq<real>, x: real, a: nat)
    requires a < |win|
    ensures Shift(win, x)[a] == if a == 0 then x else win[a - 1]
  {
  }

  function Feed(win: seq<real>, xs: seq<real>): (w: seq<real>)
    requires |win| > 0
    ensures |w| == |win|
  {
    if xs == [] then win else Shift(Feed(win, xs[..|xs| - 1]), xs[|xs| - 1])
  }

  /** Every sample keeps its age. */
  lemma {:induction false} FeedAt(win: seq<real>, xs: seq<real>, a: nat)
    requires |win| > 0 && a < |win|
    ensures Feed(win, xs)[a] == if a < |xs| then xs[|xs| - 1 - a] else win[a - |xs|]
  {
    hide Shift;
    if xs != [] {
      ShiftAt(Feed(win, xs[..|xs| - 1]), xs[|xs| - 1], a);
      if a > 0 {
        FeedAt(win, xs[..|xs| - 1], a - 1);
      }
    }
  }

  /** Output of a delay of d samples: what entered d calls earlier. */
  function Tap(win: seq<real>, x: real, d: nat): real
    requires d < |win|
  {
    ([x] + win)[d]
  }

  /** Main result for delay lines: over any run of inputs, call n returns the input of call n-d,
      or, before there is one, the history the line held at the start. */
  lemma DelayIsExact(win: seq<real>, xs: seq<real>, n: nat, d: nat)
    requires d < |win| && n < |xs|
    ensures Tap(Feed(win, xs[..n]), xs[n], d) == if d <= n then xs[n - d] else win[d - 1 - n]
  {
    hide Feed;
    if d > 0 {
      FeedAt(win, xs[..n], d - 1);
    }
  }

  // ---- Windows kept in a circular buffer ---------------------------------------

  /** The slot, of n, that holds the sample of age a when the next one goes to slot inp. */
  function Slot(inp: nat, a: nat, n: nat): (s: nat)
    requires inp < n && a < n
    ensures s < n
  {
    if a < inp then inp - 1 - a else n + inp - 1 - a
  }

  /** All samples of the line, newest first. */
  function Aged(line: seq<real>, inp: nat): (ages: seq<real>)
    requires inp < |line|
    ensures |ages| == |line|
  {
    seq(|line|, a requires 0 <= a < |line| => line[Slot(inp, a, |line|)])
  }

  /** Storing a sample at the input slot shifts it in. */
  lemma StoreShifts(line: seq<real>, inp: nat, x: real)
    requires inp < |line|
    ensures
      var next := if inp + 1 == |line| then 0 else inp + 1;
      Aged(line[inp := x], next) == Shift(Aged(line, inp), x)
  {
  }

  /** The slot the next sample goes to holds the oldest one. */
  lemma OldestInSlot(line: seq<real>, inp: nat)
    requires inp < |line|
    ensures Aged(line, inp)[|line| - 1] == line[inp]
  {
  }

  // ---- Comb ----------------------------------------------------------------------

  /** What a comb writes: the input plus the gained oldest sample. */
  function CombWrites(win: seq<real>, g: real, x: real): real
    requires |win| > 0
  {
    x + Mul(g, win[|win| - 1])
  }

  function CombStep(win: seq<real>, g: real, x: real): (w: seq<real>)
    requires |win| > 0
    ensures |w| == |win|
  {
    Shift(win, CombWrites(win, g, x))
  }

  function CombRun(win: seq<real>, g: real, xs: seq<real>): (w: seq<real>)
    requires |win| > 0
    ensures |w| == |win|
  {
    if xs == [] then win else CombStep(CombRun(win, g, xs[..|xs| - 1]), g, xs[|xs| - 1])
  }

  /** comb's output at call n: the oldest sample before the call. */
  function CombOut(win: seq<real>, g: real, xs: seq<real>, n: nat): real
    requires |win| > 0 && n <= |xs|
  {
    CombRun(win, g, xs[..n])[|win| - 1]
  }

  /** A comb's window holds its last writes, each an input plus the gained output of that call. */
  lemma {:induction false} CombHolds(win: seq<real>, g: real, xs: seq<real>, n: nat, a: nat)
    requires |win| > 0 && a < |win| && n <= |xs|
    ensures CombRun(win, g, xs[..n])[a]
         == if a < n then xs[n - 1 - a] + Mul(g, CombOut(win, g, xs, n - 1 - a)) else win[a - n]
  {
    if n > 0 {
      assert xs[..n][..n - 1] == xs[..n - 1];
      if a > 0 {
        CombHolds(win, g, xs, n - 1, a - 1);
      }
    }
  }

  /** The comb recurrence: y[n] = x[n-N] + g y[n-N], after the N samples it started with. */
  lemma CombRecurrence(win: seq<real>, g: real, xs: seq<real>, n: nat)
    requires |win| > 0 && n <= |xs|
    ensures CombOut(win, g, xs, n)
         == if n < |win| then win[|win| - 1 - n] else xs[n - |win|] + Mul(g, CombOut(win, g, xs, n - |win|))
  {
    CombHolds(win, g, xs, n, |win| - 1);
  }

  function Pow(g: real, k: nat): real {
    if k == 0 then 1.0 else g * Pow(g, k - 1)
  }

  /** Sum over k >= 1 of g^(k-1) x[n - kN], from its k-th term on. */
  function Echoes(xs: seq<real>, g: real, len: nat, n: int, k: nat): real
    requires len > 0 && k > 0 && n <= |xs|
    decreases n - k * len
  {
    if n < k * len then 0.0
    else
      assert k * len >= len;
      Mul(Pow(g, k - 1), xs[n - k * len]) + Echoes(xs, g, len, n, k + 1)
  }

  predicate Cleared(win: seq<real>) {
    forall k :: 0 <= k < |win| ==> win[k] == 0.0
  }

  lemma {:induction false} EchoesAreOutputs(win: seq<real>, g: real, xs: seq<real>, n: nat, k: nat)
    requires |win| > 0 && Cleared(win) && n <= |xs| && k > 0 && (k - 1) * |win| <= n
    ensures Echoes(xs, g, |win|, n, k) == Mul(Pow(g, k - 1), CombOut(win, g, xs, n - (k - 1) * |win|))
    decreases n - k * |win|
  {
    hide Mul, CombOut;
    var len := |win|;
    var m := n - (k - 1) * len;
    CombRecurrence(win, g, xs, m);
    assert k * len == (k - 1) * len + len;
    if n < k * len {
      TimesZero(Pow(g, k - 1));
    } else {
      EchoesAreOutputs(win, g, xs, n, k + 1);
      assert m - len == n - k * len;
      EchoStep(Pow(g, k - 1), g, Pow(g, k), xs[m - len], CombOut(win, g, xs, m - len));
    }
  }

  lemma TimesZero(p: real)
    ensures Mul(p, 0.0) == 0.0
  {
  }

  /** An output that is an input plus an older output splits its weight between them. */
  lemma EchoStep(p: real, g: real, q: real, x: real, y: real)
    requires q == g * p
    ensures Mul(p, x + Mul(g, y)) == Mul(p, x) + Mul(q, y)
  {
  }

  /** Main result for combs: from a cleared buffer the output is the decaying sum of echoes. */
  lemma {:induction false} CombIsEchoSum(win: seq<real>, g: real, xs: seq<real>, n: nat)
    requires |win| > 0 && Cleared(win) && n <= |xs|
    ensures CombOut(win, g, xs, n) == Echoes(xs, g, |win|, n, 1)
  {
    hide Echoes, CombOut;
    EchoesAreOutputs(win, g, xs, n, 1);
    assert (1 - 1) * |win| == 0 && Pow(g, 0) == 1.0;
  }

  function Abs(x: real): real { if x < 0.0 then -x else x }

  lemma Triangle(x: real, p: real)
    ensures Abs(x + p) <= Abs(x) + Abs(p)
  {
  }

  lemma BoundStep(g: real, y: real, x: real, m: real, b: real)
    requires Abs(x) <= m && Abs(y) <= b && b == m + Mul(Abs(g), b)
    ensures Abs(x + Mul(g, y)) <= b
  {
    assert Abs(g) >= 0.0;
    hide Abs, Mul;
    AbsOfProduct(g, y);
    Triangle(x, Mul(g, y));
    MulOrder(Abs(g), Abs(y), b);
  }

  lemma AbsOfProduct(a: real, b: real)
    ensures Abs(Mul(a, b)) == Mul(Abs(a), Abs(b))
  {
    var p, q := Abs(a), Abs(b);
    MulOrder(p, 0.0, q);
    assert Mul(a, b) == Mul(p, q) || Mul(a, b) == -Mul(p, q);
  }

  lemma MulOrder(a: real, x: real, y: real)
    requires a >= 0.0 && x <= y
    ensures Mul(a, x) <= Mul(a, y)
    ensures Mul(a, 0.0) == 0.0
  {
    assert a * y - a * x == a * (y - x);
  }

  /** Stability: inputs within m give outputs within m / (1 - |g|). */
  lemma {:induction false} CombIsBounded(win: seq<real>, g: real, xs: seq<real>, n: nat, m: real)
    requires |win| > 0 && Cleared(win) && n <= |xs| && Abs(g) < 1.0 && m >= 0.0
    requires forall i :: 0 <= i < |xs| ==> Abs(xs[i]) <= m
    ensures Abs(CombOut(win, g, xs, n)) <= m / (1.0 - Abs(g))
    decreases n
  {
    var b := Bound(g, m);
    BoundIsFixed(g, m);
    hide Abs, Bound, Mul, CombOut;
    CombRecurrence(win, g, xs, n);
    if n >= |win| {
      CombIsBounded(win, g, xs, n - |win|, m);
      BoundStep(g, CombOut(win, g, xs, n - |win|), xs[n - |win|], m, b);
    } else {
      assert Abs(0.0) == 0.0 by { AbsOfZero(); }
    }
  }

  lemma AbsOfZero()
    ensures Abs(0.0) == 0.0
  {
  }

  /** The fixed point of b = m + |g| b. */
  function Bound(g: real, m: real): (b: real)
    requires Abs(g) < 1.0 && m >= 0.0
    ensures b == m / (1.0 - Abs(g))
  {
    m / (1.0 - Abs(g))
  }

  lemma BoundIsFixed(g: real, m: real)
    requires Abs(g) < 1.0 && m >= 0.0
    ensures var b := Bound(g, m); b >= 0.0 && b == m + Mul(Abs(g), b)
  {
    var h, b := 1.0 - Abs(g), Bound(g, m);
    assert h * b == m;
    QuotientSign(h, b);
  }

  lemma QuotientSign(h: real, b: real)
    requires h > 0.0 && h * b >= 0.0
    ensures b >= 0.0
  {
  }

  // ---- Allpass ---------------------------------------------------------------------

  function AllpassOut(win: seq<real>, g: real, x: real): real
    requires |win| > 0
  {
    win[|win| - 1] - Mul(g, CombWrites(win, g, x))
  }

  /** The outputs of a run of inputs. */
  function AllpassOuts(win: seq<real>, g: real, xs: seq<real>): (ys: seq<real>)
    requires |win| > 0
    ensures |ys| == |xs|
  {
    if xs == [] then []
    else
      var n := |xs| - 1;
      AllpassOuts(win, g, xs[..n]) + [AllpassOut(CombRun(win, g, xs[..n]), g, xs[n])]
  }

  lemma {:induction false} AllpassOutIs(win: seq<real>, g: real, xs: seq<real>, n: nat)
    requires |win| > 0 && n < |xs|
    ensures
      var t := CombOut(win, g, xs, n);
      AllpassOuts(win, g, xs)[n] == t - Mul(g, xs[n] + Mul(g, t))
  {
    hide CombRun, Mul;
    var m := |xs| - 1;
    if n < m {
      AllpassOutIs(win, g, xs[..m], n);
      assert xs[..m][..n] == xs[..n];
    }
  }

  /** The allpass recurrence: y[n] = x[n-N] - g x[n] + g y[n-N], after the N samples it started
      with, which come out 1 - g^2 times as large. */
  lemma AllpassRecurrence(win: seq<real>, g: real, xs: seq<real>, n: nat)
    requires |win| > 0 && n < |xs|
    ensures
      var ys := AllpassOuts(win, g, xs);
      ys[n] == if n < |win| then (1.0 - g * g) * win[|win| - 1 - n] - g * xs[n]
               else xs[n - |win|] - g * xs[n] + g * ys[n - |win|]
  {
    hide *;
    var ys := AllpassOuts(win, g, xs);
    AllpassOutIs(win, g, xs, n);
    CombRecurrence(win, g, xs, n);
    if n < |win| {
      FirstTrip(g, xs[n], win[|win| - 1 - n], ys[n]);
    } else {
      var m := n - |win|;
      AllpassOutIs(win, g, xs, m);
      LaterTrip(g, xs[n], xs[m], CombOut(win, g, xs, m), ys[m], CombOut(win, g, xs, n), ys[n]);
    }
  }

  lemma FirstTrip(g: real, x: real, t: real, y: real)
    requires y == t - Mul(g, x + Mul(g, t))
    ensures y == (1.0 - g * g) * t - g * x
  {
  }

  lemma LaterTrip(g: real, x: real, x': real, t': real, y': real, t: real, y: real)
    requires t == x' + Mul(g, t') && y' == t' - Mul(g, t) && y == t - Mul(g, x + Mul(g, t))
    ensures y == x' - g * x + g * y'
  {
    assert g * (t' - g * t) == g * t' - g * (g * t);
    assert g * (x + g * t) == g * x + g * (g * t);
  }

  function Energy(s: seq<real>): (e: real)
    ensures e >= 0.0
  {
    if s == [] then 0.0 else SquareIsPositive(s[|s| - 1]); Energy(s[..|s| - 1]) + Square(s[|s| - 1])
  }

  function Square(x: real): real { x * x }

  lemma SquareIsPositive(x: real)
    ensures Square(x) >= 0.0
  {
    MulOrder(Abs(x), 0.0, Abs(x));
  }

  lemma {:induction false} EnergyOfCons(x: real, s: seq<real>)
    ensures Energy([x] + s) == Square(x) + Energy(s)
  {
    hide Square;
    if s == [] {
      assert ([x] + s)[..0] == [];
    } else {
      EnergyOfCons(x, s[..|s| - 1]);
      assert ([x] + s)[..|s|] == [x] + s[..|s| - 1];
    }
  }

  /** One step: the window's energy grows by what it writes less what it drops. */
  lemma StepEnergy(win: seq<real>, g: real, x: real)
    requires |win| > 0
    ensures Energy(CombStep(win, g, x))
         == Energy(win) + Square(CombWrites(win, g, x)) - Square(win[|win| - 1])
  {
    hide Square, CombWrites;
    EnergyOfCons(CombWrites(win, g, x), win[..|win| - 1]);
  }

  lemma LosslessSample(t: real, g: real, x: real, w: real, y: real)
    requires w == x + Mul(g, t) && y == t - Mul(g, w)
    ensures Square(x) == Square(y) + Mul(1.0 - g * g, Square(w) - Square(t))
  {
    assert x == w - g * t;
    calc {
      x * x;
      (w - g * t) * (w - g * t);
      w * w - 2.0 * (g * (t * w)) + (g * g) * (t * t);
    }
    calc {
      y * y;
      (t - g * w) * (t - g * w);
      t * t - 2.0 * (g * (t * w)) + (g * g) * (w * w);
    }
  }

  lemma {:induction false} EnergyBalance(win: seq<real>, g: real, xs: seq<real>)
    requires |win| > 0
    ensures Energy(xs) == Energy(AllpassOuts(win, g, xs))
                          + Mul(1.0 - g * g, Energy(CombRun(win, g, xs)) - Energy(win))
  {
    if xs == [] {
      assert Mul(1.0 - g * g, 0.0) == 0.0;
    } else {
      var n := |xs| - 1;
      var w, ys := CombRun(win, g, xs[..n]), AllpassOuts(win, g, xs);
      assert ys[..n] == AllpassOuts(win, g, xs[..n]) && ys[n] == AllpassOut(w, g, xs[n]);
      assert CombRun(win, g, xs) == CombStep(w, g, xs[n]);
      assert Energy(xs) == Energy(xs[..n]) + Square(xs[n]) && Energy(ys) == Energy(ys[..n]) + Square(ys[n]);
      hide *;
      EnergyBalance(win, g, xs[..n]);
      LastSampleEnergy(w, g, xs[n]);
      Distribute(1.0 - g * g, Energy(w) - Energy(win), Energy(CombStep(w, g, xs[n])) - Energy(w));
    }
  }

  lemma LastSampleEnergy(w: seq<real>, g: real, x: real)
    requires |w| > 0
    ensures Square(x) == Square(AllpassOut(w, g, x)) + Mul(1.0 - g * g, Energy(CombStep(w, g, x)) - Energy(w))
  {
    hide Square, Energy, Mul, CombStep;
    var t, v := w[|w| - 1], CombWrites(w, g, x);
    LosslessSample(t, g, x, v, AllpassOut(w, g, x));
    StepEnergy(w, g, x);
    assert Energy(CombStep(w, g, x)) - Energy(w) == Square(v) - Square(t);
  }

  lemma Distribute(a: real, x: real, y: real)
    ensures Mul(a, x + y) == Mul(a, x) + Mul(a, y)
  {
  }

  /** Main result for allpasses, over every run and from every window: the input energy is the
      output energy plus (1 - g^2) times the energy the window gained. */
  lemma AllpassConservesEnergy(win: seq<real>, g: real, xs: seq<real>)
    requires |win| > 0
    ensures Energy(xs) == Energy(AllpassOuts(win, g, xs))
                          + (1.0 - g * g) * (Energy(CombRun(win, g, xs)) - Energy(win))
  {
    hide Energy, CombRun, AllpassOuts;
    EnergyBalance(win, g, xs);
  }

  lemma {:induction false} ClearedHasNoEnergy(win: seq<real>)
    requires Cleared(win)
    ensures Energy(win) == 0.0
  {
    if win != [] {
      ClearedHasNoEnergy(win[..|win| - 1]);
      assert Square(0.0) == 0.0;
    }
  }

  /** From a cleared buffer, output energy never exceeds input energy when |g| <= 1. */
  lemma AllpassNeverAmplifies(win: seq<real>, g: real, xs: seq<real>)
    requires |win| > 0 && Cleared(win) && Abs(g) <= 1.0
    ensures Energy(AllpassOuts(win, g, xs)) <= Energy(xs)
  {
    hide *;
    EnergyBalance(win, g, xs);
    ClearedHasNoEnergy(win);
    SquareBelowOne(g);
    MulOrder(1.0 - g * g, 0.0, Energy(CombRun(win, g, xs)));
  }

  lemma SquareBelowOne(g: real)
    requires Abs(g) <= 1.0
    ensures g * g <= 1.0
  {
    MulOrder(Abs(g), Abs(g), 1.0);
    assert Mul(Abs(g), Abs(g)) == g * g;
  }
}
