/** Cosine and sine sampled at `grid` equal steps around the circle, known only by
    the laws the transform needs, and the real discrete Fourier sums over them. */
module Circle {
  import opened Rotation

  datatype Turn = Turn(grid: nat, cos: int -> real, sin: int -> real)

  /** (c', s') is (c, s) turned by the angle whose cosine and sine are cb and sb. */
  ghost predicate Turned(c': real, s': real, c: real, s: real, cb: real, sb: real) {
    && c' == Re(c, s, cb, sb)
    && s' == Im(c, s, cb, sb)
  }

  ghost predicate Angle(t: Turn, a: int, b: int) {
    Turned(t.cos(a + b), t.sin(a + b), t.cos(a), t.sin(a), t.cos(b), t.sin(b))
  }

  ghost predicate Unit(t: Turn, a: int) {
    OnCircle(t.cos(a), t.sin(a))
  }

  /** The angle-addition laws, the unit circle, and a quarter of the grid being a
      quarter turn. */
  ghost predicate Lawful(t: Turn) {
    && t.grid > 0 && t.grid % 8 == 0
    && (forall a, b :: Angle(t, a, b))
    && (forall a :: Unit(t, a))
    && t.cos(t.grid / 4) == 0.0 && t.sin(t.grid / 4) == 1.0
  }

  lemma Origin(t: Turn)
    requires Lawful(t)
    ensures t.cos(0) == 1.0 && t.sin(0) == 0.0
  {
    assert Angle(t, t.grid / 4, 0);
  }

  lemma Negate(t: Turn, a: int)
    requires Lawful(t)
    ensures t.cos(-a) == t.cos(a) && t.sin(-a) == -t.sin(a)
  {
    Origin(t);
    assert Angle(t, a, -a) && Unit(t, a);
    var c, s, c', s' := t.cos(a), t.sin(a), t.cos(-a), t.sin(-a);
    assert a + -a == 0;
    calc {
      c';
      c' * (c * c + s * s);
      c * (c * c' - s * s') + s * (s * c' + c * s');
      c;
    }
    calc {
      s';
      s' * (c * c + s * s);
      c * (s * c' + c * s') - s * (c * c' - s * s');
      -s;
    }
  }

  lemma QuarterMinus(t: Turn, a: int)
    requires Lawful(t)
    ensures t.cos(t.grid / 4 - a) == t.sin(a) && t.sin(t.grid / 4 - a) == t.cos(a)
  {
    Negate(t, a);
    assert Angle(t, t.grid / 4, -a);
  }

  lemma HalfMinus(t: Turn, a: int)
    requires Lawful(t)
    ensures t.cos(t.grid / 2 - a) == -t.cos(a) && t.sin(t.grid / 2 - a) == t.sin(a)
  {
    var q := t.grid / 4;
    Negate(t, a);
    QuarterMinus(t, a);
    assert t.grid / 2 - a == q + (q - a);
    assert Angle(t, q, q - a);
  }

  lemma HalfTurn(t: Turn)
    requires Lawful(t)
    ensures t.cos(t.grid / 2) == -1.0 && t.sin(t.grid / 2) == 0.0
  {
    Origin(t);
    HalfMinus(t, 0);
  }

  /** An eighth of a turn has equal legs whose squares are one half. */
  lemma Eighth(t: Turn)
    requires Lawful(t)
    ensures t.sin(t.grid / 8) == t.cos(t.grid / 8)
    ensures t.cos(t.grid / 8) * t.cos(t.grid / 8) == 0.5
  {
    QuarterMinus(t, t.grid / 8);
    assert t.grid / 4 - t.grid / 8 == t.grid / 8;
    assert Unit(t, t.grid / 8);
  }

  lemma FullTurnMinus(t: Turn, w: int)
    requires Lawful(t)
    ensures t.cos(t.grid - w) == t.cos(w) && t.sin(t.grid - w) == -t.sin(w)
  {
    var h := t.grid / 2;
    HalfTurn(t);
    HalfMinus(t, w);
    assert t.grid - w == h + (h - w);
    assert Angle(t, h, h - w);
  }

  /** Sum of x[j] * cos(a + j * w) over the samples of x. */
  ghost function CosSum(t: Turn, x: seq<real>, a: int, w: int): real {
    if x == [] then 0.0 else x[0] * t.cos(a) + CosSum(t, x[1..], a + w, w)
  }

  /** Sum of x[j] * sin(a + j * w) over the samples of x. */
  ghost function SinSum(t: Turn, x: seq<real>, a: int, w: int): real {
    if x == [] then 0.0 else x[0] * t.sin(a) + SinSum(t, x[1..], a + w, w)
  }

  /** The recursion above is the sum it says: a last sample adds the term of its index. */
  lemma {:induction false} LastTerm(t: Turn, x: seq<real>, v: real, a: int, w: int)
    ensures CosSum(t, x + [v], a, w) == CosSum(t, x, a, w) + v * t.cos(a + |x| * w)
    ensures SinSum(t, x + [v], a, w) == SinSum(t, x, a, w) + v * t.sin(a + |x| * w)
  {
    if x == [] {
      assert x + [v] == [v];
      assert CosSum(t, [v][1..], a + w, w) == 0.0 && SinSum(t, [v][1..], a + w, w) == 0.0;
    } else {
      LastTerm(t, x[1..], v, a + w, w);
      assert (x + [v])[1..] == x[1..] + [v];
      assert (a + w) + (|x| - 1) * w == a + |x| * w;
    }
  }

  /** Frequencies above the half come back mirrored. */
  lemma {:induction false} MirrorFrom(t: Turn, x: seq<real>, a: int, a': int, w: int)
    requires Lawful(t) && t.cos(a') == t.cos(a) && t.sin(a') == -t.sin(a)
    ensures CosSum(t, x, a', t.grid - w) == CosSum(t, x, a, w)
    ensures SinSum(t, x, a', t.grid - w) == -SinSum(t, x, a, w)
    decreases |x|
  {
    if x != [] {
      FullTurnMinus(t, w);
      assert Angle(t, a', t.grid - w) && Angle(t, a, w);
      MirrorFrom(t, x[1..], a + w, a' + (t.grid - w), w);
    }
  }

  lemma MirrorSums(t: Turn, x: seq<real>, w: int)
    requires Lawful(t)
    ensures CosSum(t, x, 0, t.grid - w) == CosSum(t, x, 0, w)
    ensures SinSum(t, x, 0, t.grid - w) == -SinSum(t, x, 0, w)
  {
    Origin(t);
    MirrorFrom(t, x, 0, 0, w);
  }

  /** Starting the sums b steps later turns them by b. */
  lemma {:induction false} Rotate(t: Turn, x: seq<real>, a: int, b: int, w: int)
    requires Lawful(t)
    ensures Turned(CosSum(t, x, a + b, w), SinSum(t, x, a + b, w),
                   CosSum(t, x, a, w), SinSum(t, x, a, w), t.cos(b), t.sin(b))
    decreases |x|
  {
    if x != [] {
      assert Angle(t, a, b);
      Rotate(t, x[1..], a + w, b, w);
      hide *;
      FirstTerm(t, x, a, w);
      FirstTerm(t, x, a + b, w);
      assert (a + w) + b == (a + b) + w;
      TurnTerm(x[0], t.cos(a), t.sin(a), t.cos(b), t.sin(b), t.cos(a + b), t.sin(a + b),
               CosSum(t, x[1..], a + w, w), SinSum(t, x[1..], a + w, w),
               CosSum(t, x[1..], a + w + b, w), SinSum(t, x[1..], a + w + b, w),
               CosSum(t, x, a, w), SinSum(t, x, a, w), CosSum(t, x, a + b, w), SinSum(t, x, a + b, w));
    }
  }

  ghost predicate AddsTerm(sum: real, v: real, f: real, rest: real) {
    sum == Mul(v, f) + rest
  }

  lemma FirstTerm(t: Turn, x: seq<real>, a: int, w: int)
    requires x != []
    ensures AddsTerm(CosSum(t, x, a, w), x[0], t.cos(a), CosSum(t, x[1..], a + w, w))
    ensures AddsTerm(SinSum(t, x, a, w), x[0], t.sin(a), SinSum(t, x[1..], a + w, w))
  {
  }

  lemma TurnTerm(v: real, ca: real, sa: real, cb: real, sb: real, cab: real, sab: real,
                 cr: real, sr: real, cr': real, sr': real, c: real, s: real, c': real, s': real)
    requires Turned(cab, sab, ca, sa, cb, sb) && Turned(cr', sr', cr, sr, cb, sb)
    requires AddsTerm(c, v, ca, cr) && AddsTerm(s, v, sa, sr)
    requires AddsTerm(c', v, cab, cr') && AddsTerm(s', v, sab, sr')
    ensures Turned(c', s', c, s, cb, sb)
  {
  }

  function Evens<T>(x: seq<T>): (e: seq<T>)
    ensures |e| == |x| / 2
  {
    seq(|x| / 2, i requires 0 <= i < |x| / 2 => x[2 * i])
  }

  function Odds<T>(x: seq<T>): (o: seq<T>)
    ensures |o| == |x| / 2
  {
    seq(|x| / 2, i requires 0 <= i < |x| / 2 => x[2 * i + 1])
  }

  lemma {:induction false} EvenOddSums(t: Turn, x: seq<real>, a: int, w: int)
    requires |x| % 2 == 0
    ensures CosSum(t, x, a, w) == CosSum(t, Evens(x), a, 2 * w) + CosSum(t, Odds(x), a + w, 2 * w)
    ensures SinSum(t, x, a, w) == SinSum(t, Evens(x), a, 2 * w) + SinSum(t, Odds(x), a + w, 2 * w)
    decreases |x|
  {
    if x != [] {
      var x' := x[2..];
      EvenOddSums(t, x', a + 2 * w, w);
      assert Evens(x)[1..] == Evens(x') && Odds(x)[1..] == Odds(x');
      assert x[1..][1..] == x';
      FirstTerm(t, x, a, w);
      FirstTerm(t, x[1..], a + w, w);
      FirstTerm(t, Evens(x), a, 2 * w);
      FirstTerm(t, Odds(x), a + w, 2 * w);
      hide CosSum, SinSum, Mul;
      assert (a + w) + w == a + 2 * w && (a + w) + 2 * w == (a + 2 * w) + w;
    }
  }

  /** Decimation in time: the sums over x, at w and mirrored about the quarter turn, are those
      over its even samples plus or minus those over its odd samples turned by w. */
  lemma {:induction false} Decimate(t: Turn, x: seq<real>, w: int) returns (c: real, s: real)
    requires Lawful(t) && |x| % 2 == 0
    ensures Turned(c, s, CosSum(t, Odds(x), 0, 2 * w), SinSum(t, Odds(x), 0, 2 * w), t.cos(w), t.sin(w))
    ensures CosSum(t, x, 0, w) == CosSum(t, Evens(x), 0, 2 * w) + c
    ensures SinSum(t, x, 0, w) == SinSum(t, Evens(x), 0, 2 * w) + s
    ensures CosSum(t, x, 0, t.grid / 2 - w) == CosSum(t, Evens(x), 0, 2 * w) - c
    ensures SinSum(t, x, 0, t.grid / 2 - w) == s - SinSum(t, Evens(x), 0, 2 * w)
  {
    hide CosSum, SinSum, Turned;
    var w' := t.grid / 2 - w;
    EvenOddSums(t, x, 0, w);
    Rotate(t, Odds(x), 0, w, 2 * w);
    c, s := CosSum(t, Odds(x), w, 2 * w), SinSum(t, Odds(x), w, 2 * w);
    EvenOddSums(t, x, 0, w');
    Rotate(t, Odds(x), 0, w', 2 * w');
    assert 2 * w' == t.grid - 2 * w;
    MirrorSums(t, Evens(x), 2 * w);
    MirrorSums(t, Odds(x), 2 * w);
    HalfMinus(t, w);
    MirrorTurned(c, s, CosSum(t, Odds(x), w', 2 * w'), SinSum(t, Odds(x), w', 2 * w'),
                 CosSum(t, Odds(x), 0, 2 * w), SinSum(t, Odds(x), 0, 2 * w), t.cos(w), t.sin(w));
  }

  lemma MirrorTurned(c: real, s: real, c': real, s': real, u: real, v: real, cw: real, sw: real)
    requires Turned(c, s, u, v, cw, sw) && Turned(c', s', u, -v, -cw, sw)
    ensures c' == -c && s' == s
  {
  }
}
