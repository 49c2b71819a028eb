/** allpole and ballpole: a recursive filter whose history is kept twice, so that its last
    outputs always lie in one contiguous window. */
module AllPole {
  import opened Rotation

  /** x plus the weighted last outputs, added in the order of the source's loop. */
  function Sum(x: real, c: seq<real>, win: seq<real>, k: nat): real
    requires k <= |c| && k <= |win|
  {
    if k == 0 then x else Sum(x, c, win, k - 1) + Mul(c[k - 1], win[k - 1])
  }

  function Output(x: real, c: seq<real>, win: seq<real>): real
    requires |c| == |win|
  {
    Sum(x, c, win, |win|)
  }

  /** The products of weights and outputs of the same place, summed from the front. */
  function Dot(c: seq<real>, win: seq<real>): real
    requires |c| == |win|
  {
    if c == [] then 0.0 else c[0] * win[0] + Dot(c[1..], win[1..])
  }

  lemma {:induction false} DotExtends(c: seq<real>, win: seq<real>, a: real, w: real)
    requires |c| == |win|
    ensures Dot(c + [a], win + [w]) == Dot(c, win) + a * w
  {
    if c == [] {
      assert c + [a] == [a] && win + [w] == [w];
    } else {
      DotExtends(c[1..], win[1..], a, w);
      assert (c + [a])[1..] == c[1..] + [a] && (win + [w])[1..] == win[1..] + [w];
    }
  }

  lemma {:induction false} SumOfPrefix(x: real, c: seq<real>, win: seq<real>, a: real, w: real, k: nat)
    requires k <= |c| == |win|
    ensures Sum(x, c + [a], win + [w], k) == Sum(x, c, win, k)
  {
    if k > 0 {
      SumOfPrefix(x, c, win, a, w, k - 1);
    }
  }

  /** One more pole, with a weight and an output of its own at the end, adds their product. */
  lemma OutputExtends(x: real, c: seq<real>, win: seq<real>, a: real, w: real)
    requires |c| == |win|
    ensures Output(x, [], []) == x
    ensures Output(x, c + [a], win + [w]) == Output(x, c, win) + a * w
  {
    var n := |win|;
    SumOfPrefix(x, c, win, a, w, n);
    assert (c + [a])[n] == a && (win + [w])[n] == w;
    assert Sum(x, c + [a], win + [w], n + 1) == Sum(x, c, win, n) + Mul(a, w);
  }

  /** The output is the input plus the weights times the outputs of the same place. */
  lemma {:induction false} OutputIsDot(x: real, c: seq<real>, win: seq<real>)
    requires |c| == |win|
    ensures Output(x, c, win) == x + Dot(c, win)
  {
    if c != [] {
      var n := |c| - 1;
      OutputIsDot(x, c[..n], win[..n]);
      OutputExtends(x, c[..n], win[..n], c[n], win[n]);
      DotExtends(c[..n], win[..n], c[n], win[n]);
      assert c[..n] + [c[n]] == c && win[..n] + [win[n]] == win;
    }
  }

  /** The window after an output: the oldest leaves, the new one is last. */
  function Slide(win: seq<real>, y: real): (w: seq<real>)
    requires |win| > 0
    ensures |w| == |win|
  {
    win[1..] + [y]
  }

  /** The outputs of a run of inputs. */
  function Outputs(win: seq<real>, c: seq<real>, xs: seq<real>): (ys: seq<real>)
    requires |c| == |win| > 0
    ensures |ys| == |xs|
  {
    if xs == [] then []
    else
      var n := |xs| - 1;
      Outputs(win, c, xs[..n]) + [Output(xs[n], c, After(win, c, xs[..n]))]
  }

  function After(win: seq<real>, c: seq<real>, xs: seq<real>): (w: seq<real>)
    requires |c| == |win| > 0
    ensures |w| == |win|
  {
    if xs == [] then win
    else
      var n := |xs| - 1;
      var w := After(win, c, xs[..n]);
      Slide(w, Output(xs[n], c, w))
  }

  /** The window is always the end of the whole history of outputs. */
  lemma {:induction false} WindowIsHistory(win: seq<real>, c: seq<real>, xs: seq<real>)
    requires |c| == |win| > 0
    ensures After(win, c, xs) == (win + Outputs(win, c, xs))[|xs|..]
  {
    if xs == [] {
      assert (win + [])[0..] == win;
    } else {
      var n := |xs| - 1;
      WindowIsHistory(win, c, xs[..n]);
      var h, h' := win + Outputs(win, c, xs[..n]), win + Outputs(win, c, xs);
      var y := Output(xs[n], c, After(win, c, xs[..n]));
      assert h' == h + [y];
      assert Slide(h[n..], y) == h'[n + 1..];
    }
  }

  lemma {:induction false} OutputAt(win: seq<real>, c: seq<real>, xs: seq<real>, i: nat)
    requires |c| == |win| > 0 && i < |xs|
    ensures Outputs(win, c, xs)[..i] == Outputs(win, c, xs[..i])
    ensures Outputs(win, c, xs)[i] == Output(xs[i], c, After(win, c, xs[..i]))
  {
    var n := |xs| - 1;
    if i < n {
      OutputAt(win, c, xs[..n], i);
      assert xs[..n][..i] == xs[..i];
    }
  }

  /** The recurrence: output i is its input plus the weighted npoles outputs before it, the oldest
      with the first weight, where the run's history continues the window it started with. */
  lemma {:induction false} AllPoleRecurrence(win: seq<real>, c: seq<real>, xs: seq<real>, i: nat)
    requires |c| == |win| > 0 && i < |xs|
    ensures
      var h := win + Outputs(win, c, xs);
      h[|win| + i] == Output(xs[i], c, h[i..i + |win|]) == xs[i] + Dot(c, h[i..i + |win|])
  {
    OutputAt(win, c, xs, i);
    WindowIsHistory(win, c, xs[..i]);
    var h, ys := win + Outputs(win, c, xs), Outputs(win, c, xs[..i]);
    assert h[..|win| + i] == win + ys;
    assert h[i..i + |win|] == (win + ys)[i..];
    OutputIsDot(xs[i], c, h[i..i + |win|]);
  }

  /** Both halves of the doubled buffer agree. */
  ghost predicate Mirrored(past: seq<real>, npoles: nat) {
    |past| == 2 * npoles && forall i :: 0 <= i < npoles ==> past[i] == past[i + npoles]
  }

  /** Writing the output at jcount in both halves and moving on slides the window by one. */
  lemma WriteSlides(past: seq<real>, npoles: nat, j: nat, y: real)
    requires j < npoles && Mirrored(past, npoles)
    ensures
      var past' := past[j := y][j + npoles := y];
      var j' := (j + 1) % npoles;
      && j' < npoles && Mirrored(past', npoles)
      && past'[j'..j' + npoles] == Slide(past[j..j + npoles], y)
  {
    var past' := past[j := y][j + npoles := y];
    var j' := if j + 1 < npoles then j + 1 else 0;
    NextIndex(j, npoles);
    var was, now := past[j..j + npoles], past'[j'..j' + npoles];
    forall k | 0 <= k < npoles ensures now[k] == Slide(was, y)[k] {
      if j + 1 < npoles {
        assert now[k] == past'[j + 1 + k];
      } else {
        assert now[k] == past'[k] == past'[k + npoles];
      }
    }
  }

  lemma NextIndex(j: nat, npoles: nat)
    requires j < npoles
    ensures (j + 1) % npoles == if j + 1 < npoles then j + 1 else 0
  {
  }

  /** allpole: one sample. */
  method Allpole(x: real, jcount: nat, npoles: nat, past: array<real>, c: seq<real>) returns (y: real, jcount': nat)
    requires jcount < npoles == |c| && Mirrored(past[..], npoles)
    modifies past
    ensures jcount' < npoles && Mirrored(past[..], npoles)
    ensures y == Output(x, c, old(past[jcount..jcount + npoles])) == x + Dot(c, old(past[jcount..jcount + npoles]))
    ensures past[jcount'..jcount' + npoles] == Slide(old(past[jcount..jcount + npoles]), y)
  {
    ghost var win, all := past[jcount..jcount + npoles], past[..];
    assert all[jcount..jcount + npoles] == win;
    y := x;
    var j := jcount;
    for nfint := 0 to npoles
      invariant j == jcount + nfint && y == Sum(x, c, win, nfint)
    {
      y := y + Mul(c[nfint], past[j]);
      j := j + 1;
    }
    OutputIsDot(x, c, win);
    past[jcount] := y;
    past[jcount + npoles] := y;
    assert past[..] == all[jcount := y][jcount + npoles := y];
    WriteSlides(all, npoles, jcount, y);
    jcount' := (jcount + 1) % npoles;
    assert past[jcount'..jcount' + npoles] == past[..][jcount'..jcount' + npoles];
  }

  /** ballpole: a block of samples, with the outputs and the final state of that many single calls. */
  method Ballpole(x: seq<real>, jcount: nat, npoles: nat, past: array<real>, c: seq<real>, out: array<real>)
    returns (jcount': nat)
    requires jcount < npoles == |c| && Mirrored(past[..], npoles) && past != out && out.Length >= |x|
    modifies past, out
    ensures jcount' < npoles && Mirrored(past[..], npoles)
    ensures out[..|x|] == Outputs(old(past[jcount..jcount + npoles]), c, x)
    ensures past[jcount'..jcount' + npoles] == After(old(past[jcount..jcount + npoles]), c, x)
  {
    ghost var win := past[jcount..jcount + npoles];
    jcount' := jcount;
    for i := 0 to |x|
      invariant jcount' < npoles && Mirrored(past[..], npoles)
      invariant past[jcount'..jcount' + npoles] == After(win, c, x[..i])
      invariant out[..i] == Outputs(win, c, x[..i])
    {
      assert x[..i + 1][..i] == x[..i];
      ghost var ys := out[..i];
      var temp;
      temp, jcount' := Allpole(x[i], jcount', npoles, past, c);
      out[i] := temp;
      assert out[..i + 1] == ys + [temp];
    }
    assert x[..|x|] == x;
  }
}
