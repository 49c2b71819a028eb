/** Odelay, a delay line over a buffer that grows on demand, and the interpolating line, comb
    and allpass built on it. */
module Odelay {
  import opened Rotation
  import opened Recirculation
  import opened Blending

  /** Slots between output and input, going around. */
  function Lag(inp: nat, outp: int, n: nat): int {
    if outp <= inp then inp - outp else inp - outp + n
  }

  /** Reading the output slot after storing the input taps the line at the lag between them. */
  lemma StoreTaps(line: seq<real>, inp: nat, outp: nat, x: real)
    requires inp < |line| && outp < |line|
    ensures 0 <= Lag(inp, outp, |line|) < |line|
    ensures line[inp := x][outp] == Tap(Aged(line, inp), x, Lag(inp, outp, |line|))
  {
  }

  /** C's conversion of a nonnegative double to long. */
  function Truncated(lag: real): (n: nat)
    requires lag >= 0.0
    ensures n as real <= lag < n as real + 1.0
  {
    lag.Floor
  }

  /** resize's guess at the new length. */
  function NewLength(thisLength: nat, len: nat): (n: nat)
    ensures n >= 2 * len && (len > 0 ==> n > thisLength)
  {
    if thisLength < len * 2 then len * 2 else len + thisLength
  }

  class Odelay {
    var dline: array<real>
    var len: nat
    var inpoint: nat
    var outpoint: int
    var lastout: real

    ghost predicate Valid()
      reads this
    {
      len > 0 && dline.Length == len && inpoint < len && 0 <= outpoint <= len
    }

    /** The samples of the line, newest first. */
    ghost function Ages(): (ages: seq<real>)
      requires Valid()
      reads this, dline
      ensures |ages| == len
    {
      Aged(dline[..], inpoint)
    }

    /** How many calls ago the sample at the output slot will have entered when next() gets to it. */
    ghost function Delay(): (d: int)
      reads this
    {
      Lag(inpoint, outpoint, len)
    }

    constructor (defaultLength: nat)
      requires defaultLength > 0
      ensures Valid() && fresh(dline) && len == defaultLength
      ensures inpoint == len - 1 && outpoint == 0 && lastout == 0.0
      ensures Cleared(Ages())
    {
      dline := new real[defaultLength](_ => 0.0);
      len := defaultLength;
      inpoint := defaultLength - 1;
      outpoint := 0;
      lastout := 0.0;
    }

    method Clear()
      requires Valid()
      modifies this`lastout, dline
      ensures Valid() && Cleared(Ages()) && lastout == 0.0
    {
      for i := 0 to len
        invariant forall k :: 0 <= k < i ==> dline[k] == 0.0
      {
        dline[i] := 0.0;
      }
      lastout := 0.0;
    }

    method Putsamp(samp: real)
      requires Valid()
      modifies this`inpoint, dline
      ensures Valid() && Ages() == Shift(old(Ages()), samp)
    {
      StoreShifts(dline[..], inpoint, samp);
      ghost var line := dline[..];
      dline[inpoint] := samp;
      assert dline[..] == line[inpoint := samp];
      inpoint := inpoint + 1;
      if inpoint == len {
        inpoint := 0;
      }
    }

    /** next: the input enters, and the sample Delay() calls old leaves. */
    method Next(input: real) returns (out: real)
      requires Valid() && outpoint < len
      modifies this`inpoint, this`outpoint, this`lastout, dline
      ensures Valid() && outpoint < len && Delay() == old(Delay())
      ensures Ages() == Shift(old(Ages()), input)
      ensures out == lastout == Tap(old(Ages()), input, old(Delay()))
    {
      hide Aged, Shift, Tap;
      ghost var line := dline[..];
      StoreShifts(line, inpoint, input);
      StoreTaps(line, inpoint, outpoint, input);
      dline[inpoint] := input;
      assert dline[..] == line[inpoint := input];
      inpoint := inpoint + 1;
      if inpoint == len {
        inpoint := 0;
      }
      lastout := dline[outpoint];
      outpoint := outpoint + 1;
      if outpoint == len {
        outpoint := 0;
      }
      out := lastout;
    }

    /** setdelay, for a nonnegative lag. */
    method Setdelay(lag: real, reallocOk: bool)
      requires Valid() && lag >= 0.0
      modifies this`dline, this`len, this`outpoint
      ensures Valid() && outpoint < len && unchanged(this`inpoint) && unchanged(this`lastout)
      ensures dline == old(dline) || fresh(dline)
      ensures Truncated(lag) < old(len) || !reallocOk ==>
        dline == old(dline) && len == old(len) && Ages() == old(Ages())
      ensures Truncated(lag) < old(len) ==> Delay() == Truncated(lag)
      ensures Truncated(lag) >= old(len) && reallocOk ==>
        && len == NewLength(Truncated(lag + 0.5), old(len))
        && (Delay() == Truncated(lag) <==> Truncated(lag) <= old(inpoint) + old(len))
        && (Truncated(lag) <= old(inpoint) + old(len) ==> Regrown(old(Ages()), Ages(), Truncated(lag)))
    {
      hide Aged, Regrown, NewLength;
      var lagsamps := Truncated(lag);
      outpoint := inpoint - lagsamps;
      if lag >= len as real {
        Grow(lagsamps, Truncated(lag + 0.5), reallocOk);
      }
      label grown:
      if len > 0 {
        while outpoint < 0
          invariant outpoint < len
          invariant lagsamps < old(len) ==> outpoint == inpoint - lagsamps || outpoint == inpoint - lagsamps + len
          invariant lagsamps >= old(len) ==> outpoint == old@grown(outpoint) >= 0
          modifies this`outpoint
          decreases -outpoint
        {
          outpoint := outpoint + len;
        }
      }
    }

    /** The resize that setdelay triggers: the delay becomes the lag exactly when the lag reaches
        no further back than one trip around the old buffer. */
    method Grow(lagsamps: nat, thisLength: nat, reallocOk: bool)
      requires len > 0 && dline.Length == len && inpoint < len
      requires outpoint == inpoint - lagsamps && len <= lagsamps <= thisLength
      modifies this`dline, this`len, this`outpoint
      ensures Valid() && outpoint < len && unchanged(this`inpoint) && unchanged(this`lastout)
      ensures reallocOk ==>
        && fresh(dline) && len == NewLength(thisLength, old(len))
        && (Delay() == lagsamps <==> lagsamps <= old(inpoint) + old(len))
        && (lagsamps <= old(inpoint) + old(len) ==> Regrown(old(Aged(dline[..], inpoint)), Ages(), lagsamps))
      ensures !reallocOk ==> dline == old(dline) && len == old(len)
    {
      ghost var raw, line, n := outpoint, dline[..], len;
      Resize(thisLength, reallocOk);
      ghost var t: nat :| Around(raw, n, t) && outpoint == At(raw, n, t) + (len - n);
      AroundOnce(raw, n, t);
      if reallocOk && lagsamps <= inpoint + n {
        GrowthKeepsAges(line, dline[..], inpoint, lagsamps);
      }
    }

    /** resize: the buffer grows, and when the output slot is still negative the samples from
        it to the old end move to the new end.  reallocOk says whether memory was found. */
    method Resize(thisLength: nat, reallocOk: bool)
      requires len > 0 && dline.Length == len && inpoint < len && outpoint < 0
      modifies this`dline, this`len, this`outpoint
      ensures dline.Length == len && unchanged(this`inpoint) && unchanged(this`lastout)
      ensures reallocOk ==> fresh(dline) && len == NewLength(thisLength, old(len)) >= 2 * old(len)
      ensures !reallocOk ==> dline == old(dline) && len == old(len)
      ensures exists t: nat ::
        Around(old(outpoint), old(len), t) && outpoint == At(old(outpoint), old(len), t) + (len - old(len))
      ensures reallocOk ==> Moved(old(dline[..]), dline[..], outpoint - (len - old(len)))
    {
      hide NewLength;
      var oldlen := len;
      var newlen := if reallocOk then NewLength(thisLength, len) else oldlen;
      ghost var before := dline[..];
      var ptr := dline;
      if reallocOk {
        ptr := new real[newlen](k requires 0 <= k < newlen reads this, dline =>
                                  if k < dline.Length then dline[k] else 0.0);
        dline := ptr;
      }
      ghost var grown := ptr[..];
      assert grown[..oldlen] == before && forall k :: oldlen <= k < newlen ==> grown[k] == 0.0;
      ghost var t: nat := 0;
      while outpoint < 0
        invariant outpoint == At(old(outpoint), oldlen, t) && outpoint < oldlen
        invariant t == 0 || At(old(outpoint), oldlen, t - 1) < 0
        modifies this`outpoint
      {
        outpoint := outpoint + oldlen;
        t := t + 1;
      }
      assert Around(old(outpoint), oldlen, t);
      var shift := newlen - oldlen;
      if reallocOk {
        forall k | outpoint <= k < oldlen {
          ptr[k + shift] := ptr[k];
        }
        assert forall k :: 0 <= k < oldlen ==> grown[k] == grown[..oldlen][k];
        assert forall k :: 0 <= k < newlen ==>
          ptr[k] == if k < outpoint + shift then grown[k] else grown[k - shift];
      }
      outpoint := outpoint + shift;
      len := newlen;
    }

    /** getsamp, which counts the newest sample as lag 1. */
    method Getsamp(lag: real, reallocOk: bool) returns (out: real)
      requires Valid() && lag >= 0.0
      modifies this`dline, this`len, this`outpoint, this`lastout
      ensures Valid() && unchanged(this`inpoint) && out == lastout
      ensures Truncated(lag) < old(len) ==>
        && dline == old(dline) && Ages() == old(Ages())
        && out == Ages()[if Truncated(lag) == 0 then len - 1 else Truncated(lag) - 1]
      ensures old(len) <= Truncated(lag) <= old(inpoint) + old(len) && reallocOk ==>
        Regrown(old(Ages()), Ages(), Truncated(lag)) && out == Ages()[Truncated(lag) - 1]
    {
      Setdelay(lag, reallocOk);
      NextInLine(dline[..], inpoint, outpoint);
      lastout := dline[outpoint];
      outpoint := outpoint + 1;
      out := lastout;
    }
  }

  /** The output slot holds the sample one call younger than the lag. */
  lemma NextInLine(line: seq<real>, inp: nat, outp: nat)
    requires inp < |line| && outp < |line|
    ensures
      var d := Lag(inp, outp, |line|);
      0 <= d < |line| && line[outp] == Aged(line, inp)[if d == 0 then |line| - 1 else d - 1]
  {
  }

  /** The delay that growth leaves, for a lag t - 1 trips further back than the old buffer holds. */
  lemma GrownDelay(inp: nat, lag: nat, n: nat, newlen: nat, t: nat)
    requires inp < n <= lag && newlen >= 2 * n && Around(inp - lag, n, t)
    ensures Lag(inp, At(inp - lag, n, t) + (newlen - n), newlen) == lag - (t - 1) * n
  {
    AroundOnce(inp - lag, n, t);
    assert t * n == (t - 1) * n + n;
  }

  /** A lag the resize gets wrong: a line of one sample asked for a delay of two delays by one. */
  lemma LongLagMissesDelay()
    ensures NewLength(2, 1) == 3
    ensures Around(0 - 2, 1, 2) && Lag(0, At(0 - 2, 1, 2) + (NewLength(2, 1) - 1), NewLength(2, 1)) == 1
  {
    assert Around(0 - 2, 1, 2);
    GrownDelay(0, 2, 1, 3, 2);
  }

  /** Odelayi: the base line, and a fraction between two of its samples. */
  class Odelayi {
    const line: Odelay
    var frac: real

    ghost predicate Valid()
      reads this, line
    {
      line.Valid() && 0.0 <= frac < 1.0
    }

    constructor (defaultLen: nat)
      requires defaultLen > 0
      ensures Valid() && fresh(line) && fresh(line.dline) && frac == 0.0
    {
      line := new Odelay(defaultLen);
      frac := 0.0;
    }

    method Setdelay(lag: real, reallocOk: bool)
      requires Valid() && lag >= 0.0
      modifies this, line`dline, line`len, line`outpoint
      ensures Valid() && line.outpoint < line.len && frac == lag - Truncated(lag) as real
      ensures Truncated(lag) < old(line.len) ==> line.Delay() == Truncated(lag) && line.Ages() == old(line.Ages())
    {
      line.Setdelay(lag, reallocOk);
      frac := lag - Truncated(lag) as real;
    }

    /** next: for a delay of d >= 1 samples, between what entered d - 1 and d calls ago; without
        a delay, between the oldest sample of the line and the input. */
    method Next(input: real) returns (out: real)
      requires Valid() && line.outpoint < line.len
      modifies line, line.dline
      ensures Valid() && line.outpoint < line.len && line.Delay() == old(line.Delay())
      ensures line.Ages() == Shift(old(line.Ages()), input) && out == line.lastout
      ensures old(line.Delay()) >= 1 ==>
        var d := old(line.Delay());
        out == Along(frac, Tap(old(line.Ages()), input, d - 1), Tap(old(line.Ages()), input, d))
      ensures old(line.Delay()) == 0 ==> out == Along(frac, line.Ages()[line.len - 1], input)
    {
      var outSamp := line.Next(input);
      NextInLine(line.dline[..], line.inpoint, line.outpoint);
      var next := line.dline[line.outpoint];
      out := Along(frac, next, outSamp);
      line.lastout := out;
    }
  }

  /** next - frac * (next - out) is a weighted mean of the two samples, and never outside them. */
  lemma InterpolationIsConvex(next: real, out: real, frac: real)
    requires 0.0 <= frac < 1.0
    ensures Along(frac, next, out) == next - Mul(frac, next - out)
    ensures Along(frac, next, out) == Mul(1.0 - frac, next) + Mul(frac, out)
    ensures Between(Along(frac, next, out), next, out)
  {
    AlongIsMean(frac, next, out);
    AlongIsBetween(frac, next, out);
  }

  // ---- Comb and allpass over a delay line ------------------------------------------

  /** What a recirculating filter over a line has still to put out: the samples not yet out of
      the line, and the one that last came out. */
  ghost function Window(ages: seq<real>, d: nat, last: real): (win: seq<real>)
    requires d < |ages|
    ensures |win| == d + 1 && win[d] == last
  {
    ages[..d] + [last]
  }

  /** Feeding the line one sample shifts the window. */
  lemma WindowShifts(ages: seq<real>, d: nat, last: real, w: real)
    requires d < |ages|
    ensures Window(Shift(ages, w), d, Tap(ages, w, d)) == Shift(Window(ages, d, last), w)
  {
  }

  /** A loop time in samples. */
  function Delsamps(sr: real, loopTime: real): (d: real)
    requires sr >= 0.0 && loopTime > 0.0
    ensures d >= 0.0 && (sr > 0.0 ==> d / sr == loopTime)
  {
    MulOrder(loopTime, 0.0, sr);
    ProductOverFactor(loopTime, sr);
    Mul(loopTime, sr)
  }

  lemma ProductOverFactor(a: real, n: real)
    ensures n > 0.0 ==> Mul(a, n) / n == a
  {
    if n > 0.0 {
      var q := Mul(a, n) / n;
      assert q * n == a * n;
      assert (q - a) * n == 0.0;
    }
  }

  class Ocomb {
    const line: Odelay
    var gain: real
    var lastout: real

    ghost predicate Valid()
      reads this, line
    {
      line.Valid() && line.outpoint < line.len && 0 <= line.Delay() < line.len
    }

    ghost function State(): (win: seq<real>)
      requires Valid()
      reads this, line, line.dline
      ensures |win| > 0
    {
      Window(line.Ages(), line.Delay(), line.lastout)
    }

    /** A comb over a line just long enough for its loop time, where g stands for the gain that
        pow(0.001, loopTime / reverbTime) gives. */
    constructor (sr: real, loopTime: real, g: real)
      requires sr >= 0.0 && loopTime > 0.0
      ensures Valid() && fresh(line) && fresh(line.dline) && gain == g && lastout == 0.0
      ensures line.Delay() == Delsamps(sr, loopTime).Floor && Cleared(State())
    {
      var delsamps := Delsamps(sr, loopTime);
      var delay := new Odelay(1 + Truncated(delsamps + 0.5));
      delay.Setdelay(delsamps, true);
      line := delay;
      gain := g;
      lastout := 0.0;
    }

    method Next(input: real) returns (out: real)
      requires Valid()
      modifies this`lastout, line, line.dline
      ensures Valid() && line.Delay() == old(line.Delay())
      ensures State() == CombStep(old(State()), gain, input)
      ensures out == lastout == State()[line.Delay()]
    {
      hide Window, Shift, Tap, Aged, Mul;
      var tmp := input + Mul(gain, line.lastout);
      WindowShifts(line.Ages(), line.Delay(), line.lastout, tmp);
      lastout := line.Next(tmp);
      out := lastout;
    }
  }

  /** Output n of an Ocomb over a run of inputs. */
  function OcombOut(win: seq<real>, g: real, xs: seq<real>, n: nat): real
    requires |win| > 0 && n < |xs|
  {
    CombRun(win, g, xs[..n + 1])[|win| - 1]
  }

  /** With a delay of d samples, y[n] = x[n-d] + g y[n-d-1], where the start supplies what
      comes before the run. */
  lemma OcombRecurrence(win: seq<real>, d: nat, g: real, xs: seq<real>, n: nat)
    requires |win| == d + 1 && d <= n < |xs|
    ensures OcombOut(win, g, xs, n)
         == xs[n - d] + Mul(g, if n == d then win[d] else OcombOut(win, g, xs, n - d - 1))
  {
    hide CombRun;
    CombRecurrence(win, g, xs, n + 1);
    if n == d {
      CombHolds(win, g, xs, 0, d);
    } else {
      assert xs[..n - d] == xs[..(n - d - 1) + 1];
    }
  }

  class Oallpass {
    const line: Odelay
    var gain: real
    var lastout: real

    ghost predicate Valid()
      reads this, line
    {
      line.Valid() && line.outpoint < line.len && 0 <= line.Delay() < line.len
    }

    ghost function State(): (win: seq<real>)
      requires Valid()
      reads this, line, line.dline
      ensures |win| > 0
    {
      Window(line.Ages(), line.Delay(), line.lastout)
    }

    /** An allpass over a line about twice as long as its loop time. */
    constructor (sr: real, loopTime: real, g: real)
      requires sr >= 0.0 && loopTime > 0.0
      ensures Valid() && fresh(line) && fresh(line.dline) && gain == g && lastout == 0.0
      ensures line.Delay() == Delsamps(sr, loopTime).Floor && Cleared(State())
    {
      var delsamps := Delsamps(sr, loopTime);
      var delay := new Odelay(1 + Truncated(delsamps * 2.0));
      delay.Setdelay(delsamps, true);
      line := delay;
      gain := g;
      lastout := 0.0;
    }

    method Next(input: real) returns (out: real)
      requires Valid()
      modifies this`lastout, line, line.dline
      ensures Valid() && line.Delay() == old(line.Delay())
      ensures State() == CombStep(old(State()), gain, input)
      ensures out == lastout == AllpassOut(old(State()), gain, input)
    {
      hide Window, Shift, Tap, Aged, Mul;
      var temp := line.lastout;
      lastout := input + Mul(gain, temp);
      WindowShifts(line.Ages(), line.Delay(), temp, lastout);
      var ignored := line.Next(lastout);
      lastout := temp - Mul(gain, lastout);
      out := lastout;
    }
  }

  /** A location after t trips around. */
  function At(loc: int, n: nat, t: nat): int {
    loc + t * n
  }

  /** t trips are what it takes to get loc above zero. */
  ghost predicate Around(loc: int, n: nat, t: nat) {
    t > 0 && At(loc, n, t) >= 0 && At(loc, n, t - 1) < 0
  }

  /** The buffer after a move of the samples from w on to the new end. */
  ghost predicate Moved(before: seq<real>, after: seq<real>, w: int) {
    var n, shift := |before|, |after| - |before|;
    && 0 <= w <= n <= shift
    && (forall k :: 0 <= k < n ==> after[k] == before[k])
    && (forall k :: n <= k < w + shift ==> after[k] == 0.0)
    && (forall k :: w + shift <= k < |after| ==> after[k] == before[k - shift])
  }

  lemma AroundOnce(loc: int, n: nat, t: nat)
    requires n > 0 && Around(loc, n, t)
    ensures 0 <= At(loc, n, t) < n
    ensures t == 1 <==> loc + n >= 0
    ensures t == 1 ==> At(loc, n, t) == loc + n
    ensures t != 1 ==> At(loc, n, t) != loc + n
  {
    assert t * n == (t - 1) * n + n;
    if t > 1 {
      assert (t - 1) * n == (t - 2) * n + n;
      assert (t - 2) * n >= 0;
    }
  }

  /** After growth every old sample keeps its age; the ages from the old length up to the new
      lag repeat the newest samples. */
  ghost predicate Regrown(before: seq<real>, after: seq<real>, lag: nat) {
    && |before| <= lag < |after|
    && after[..|before|] == before
    && forall a :: |before| <= a < lag ==> a - |before| < |before| && after[a] == before[a - |before|]
  }

  lemma GrowthKeepsAges(before: seq<real>, after: seq<real>, inp: nat, lag: nat)
    requires inp < |before| <= lag <= inp + |before| && lag < |after|
    requires Moved(before, after, inp - lag + |before|)
    ensures Regrown(Aged(before, inp), Aged(after, inp), lag)
  {
    var n := |before|;
    hide Aged, Moved;
    forall a | 0 <= a < n ensures Aged(after, inp)[a] == Aged(before, inp)[a] {
      AgeKept(before, after, inp, lag, a);
    }
    forall a | n <= a < lag ensures Aged(after, inp)[a] == Aged(before, inp)[a - n] {
      AgeRepeated(before, after, inp, lag, a);
    }
  }

  lemma AgeKept(before: seq<real>, after: seq<real>, inp: nat, lag: nat, a: nat)
    requires inp < |before| <= lag <= inp + |before| && lag < |after| && a < |before|
    requires Moved(before, after, inp - lag + |before|)
    ensures Aged(after, inp)[a] == Aged(before, inp)[a]
  {
  }

  lemma AgeRepeated(before: seq<real>, after: seq<real>, inp: nat, lag: nat, a: nat)
    requires inp < |before| <= a < lag <= inp + |before| && lag < |after|
    requires Moved(before, after, inp - lag + |before|)
    ensures Aged(after, inp)[a] == Aged(before, inp)[a - |before|]
  {
  }
}
