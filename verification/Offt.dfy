/** Offt over FFTReal: the transform with its result interleaved and normalized in place. */
module Offt {
  import opened Powers
  import opened Rotation
  import opened Circle
  import opened Butterfly
  import opened Transform
  import opened RealDft
  import FFTReal

  /** FFTReal's order (real parts, then imaginary parts) to Offt's order
      re(0), re(n/2), re(1), im(1), re(2), im(2), ... for n == 2j: where each value comes from. */
  function PairedFrom(k: nat, j: nat): (i: nat)
    requires k < 2 * j
    ensures i < 2 * j
  {
    if k % 2 == 0 then k / 2 else j + k / 2
  }

  /** And back. */
  function SplitFrom(k: nat, j: nat): (i: nat)
    requires k < 2 * j
    ensures i < 2 * j
  {
    if k < j then 2 * k else 2 * (k - j) + 1
  }

  function Interleave(f: seq<real>): (r: seq<real>)
    requires |f| % 2 == 0
    ensures |r| == |f|
  {
    seq(|f|, k requires 0 <= k < |f| => f[PairedFrom(k, |f| / 2)])
  }

  function Deinterleave(r: seq<real>): (f: seq<real>)
    requires |r| % 2 == 0
    ensures |f| == |r|
  {
    seq(|r|, k requires 0 <= k < |r| => r[SplitFrom(k, |r| / 2)])
  }

  lemma PlacesInvert(k: nat, j: nat)
    requires k < 2 * j
    ensures PairedFrom(SplitFrom(k, j), j) == k && SplitFrom(PairedFrom(k, j), j) == k
  {
  }

  /** The two reorderings are inverse permutations of each other. */
  lemma ReordersInvert(s: seq<real>)
    requires |s| % 2 == 0
    ensures Deinterleave(Interleave(s)) == s
    ensures Interleave(Deinterleave(s)) == s
  {
    hide PairedFrom, SplitFrom;
    forall k | 0 <= k < |s|
      ensures Deinterleave(Interleave(s))[k] == s[k] && Interleave(Deinterleave(s))[k] == s[k]
    {
      PlacesInvert(k, |s| / 2);
    }
  }

  /** The pair of values that one turn of the reordering loops moves. */
  lemma PairAt(f: seq<real>, j: nat, i: nat)
    requires |f| == 2 * j && i < j
    ensures Interleave(f)[2 * i] == f[i] && Interleave(f)[2 * i + 1] == f[j + i]
    ensures Deinterleave(f)[i] == f[2 * i] && Deinterleave(f)[j + i] == f[2 * i + 1]
  {
  }

  lemma ScaledPairAt(scale: real, f: seq<real>, j: nat, i: nat)
    requires |f| == 2 * j && i < j
    ensures
      var r := Interleave(Scale(scale, f));
      r[2 * i] == Mul(scale, f[i]) && r[2 * i + 1] == Mul(scale, f[j + i])
  {
    PairAt(Scale(scale, f), j, i);
  }

  ghost function R2cOf(tabs: Tables, b: nat, x: seq<real>): (r: seq<real>)
    requires Fits(tabs, b) && |x| == Pow2(b) && b >= 1
    ensures |r| == |x|
  {
    HalfOfLength(b);
    Interleave(Scale(1.0 / |x| as real, Fft(tabs, b, x)))
  }

  ghost function C2rOf(tabs: Tables, b: nat, r: seq<real>): (x: seq<real>)
    requires Fits(tabs, b) && |r| == Pow2(b) && b >= 1
    ensures |x| == |r|
  {
    HalfOfLength(b);
    Ifft(tabs, b, Deinterleave(r))
  }

  /** Coefficient k of r2c is coefficient k of the DFT over the length, its real and imaginary
      parts side by side; that of half the sampling rate, which is real, comes second. */
  lemma R2cIsDft(tabs: Tables, t: Turn, g: nat, b: nat, x: seq<real>, k: nat)
    requires Lawful(t) && SampledFrom(tabs, b, t, g) && |x| == Pow2(b) && b >= 1 && k < |x| / 2
    ensures
      var r, n, st := R2cOf(tabs, b, x), |x| as real, Pow2(g - b);
      && r[2 * k] == CosSum(t, x, 0, k * st) / n
      && r[2 * k + 1] == (if k == 0 then CosSum(t, x, 0, |x| / 2 * st) else SinSum(t, x, 0, k * st)) / n
  {
    HalfOfLength(b);
    var r, j, n := R2cOf(tabs, b, x), |x| / 2, |x| as real;
    var f := Fft(tabs, b, x);
    assert r == Interleave(Scale(1.0 / n, f)) && |x| == 2 * j && n != 0.0 && |f| == |x| && b <= g;
    hide *;
    FftIsDft(tabs, t, g, x, b);
    PackedPair(t, g, b, x, j, k);
    ScaledPairAt(1.0 / n, f, j, k);
    ScaleIsQuotient(f[k], n);
    ScaleIsQuotient(f[j + k], n);
  }

  lemma PackedPair(t: Turn, g: nat, b: nat, x: seq<real>, j: nat, k: nat)
    requires |x| == 2 * j && k < j && b <= g
    ensures
      var f, st := Packed(t, x, Stride(g, b)), Pow2(g - b);
      && f[k] == CosSum(t, x, 0, k * st)
      && f[j + k] == if k == 0 then CosSum(t, x, 0, j * st) else SinSum(t, x, 0, k * st)
  {
    hide CosSum, SinSum, Pow2;
    assert (j + k) - j == k;
  }

  lemma ScaleIsQuotient(v: real, n: real)
    requires n != 0.0
    ensures Mul(1.0 / n, v) == v / n
  {
  }

  lemma ScaleByOne(a: real, x: seq<real>)
    requires a == 1.0
    ensures Scale(a, x) == x
  {
  }

  lemma LengthTimesScale(b: nat)
    ensures Doubled(1.0 / Pow2(b) as real, b) == 1.0
  {
    DoubledIs(1.0 / Pow2(b) as real, b);
  }

  /** Main result: r2c followed by c2r restores the samples. */
  lemma ComplexAndBack(tabs: Tables, b: nat, x: seq<real>)
    requires UnitTables(tabs, b) && b >= 1 && |x| == Pow2(b)
    ensures C2rOf(tabs, b, R2cOf(tabs, b, x)) == x
  {
    HalfOfLength(b);
    hide Interleave, Deinterleave, Scale, Fft, Ifft, Pow2;
    var a := 1.0 / Pow2(b) as real;
    ReordersInvert(Scale(a, Fft(tabs, b, x)));
    InverseOfTransform(tabs, b, a, x);
    LengthTimesScale(b);
    ScaleByOne(Doubled(a, b), x);
  }

  /** And c2r followed by r2c restores the spectrum. */
  lemma RealAndBack(tabs: Tables, b: nat, r: seq<real>)
    requires UnitTables(tabs, b) && b >= 1 && |r| == Pow2(b)
    ensures R2cOf(tabs, b, C2rOf(tabs, b, r)) == r
  {
    HalfOfLength(b);
    hide Interleave, Deinterleave, Scale, Fft, Ifft, Pow2;
    var a := 1.0 / Pow2(b) as real;
    var f := Deinterleave(r);
    TransformFirst(tabs, b, a, f);
    LengthTimesScale(b);
    ScaleByOne(Doubled(a, b), f);
    ReordersInvert(r);
  }

  /** Scaling the transform of the inverse, as r2c does after c2r. */
  lemma TransformFirst(tabs: Tables, b: nat, a: real, f: seq<real>)
    requires UnitTables(tabs, b) && |f| == Pow2(b)
    ensures Scale(a, Fft(tabs, b, Ifft(tabs, b, f))) == Scale(Doubled(a, b), f)
  {
    hide Fft, Ifft, Scale;
    var x := Ifft(tabs, b, f);
    ScaleByOne(1.0, x);
    TransformOfInverse(tabs, b, 1.0, f);
    var c := Doubled(1.0, b);
    ScaleScaled(a, c, f);
    DoubledIs(1.0, b);
    DoubledIs(a, b);
    assert a * c == Doubled(a, b);
  }

  lemma ScaleScaled(a: real, c: real, s: seq<real>)
    ensures Scale(a, Scale(c, s)) == Scale(a * c, s)
  {
    forall k | 0 <= k < |s| ensures Scale(a, Scale(c, s))[k] == Scale(a * c, s)[k] {
      assert a * (c * s[k]) == (a * c) * s[k];
    }
  }

  class Offt {
    const len: nat
    const buf: array<real>
    const tmp: array<real>
    const fftobj: FFTReal.FFTReal

    ghost predicate Valid()
      reads fftobj.bitRevLut
    {
      && fftobj.Valid() && len == fftobj.length && fftobj.nbrBits >= 1
      && buf.Length == tmp.Length == len
      && buf != tmp && buf != fftobj.buffer && tmp != fftobj.buffer
      && buf != fftobj.trigoLut && tmp != fftobj.trigoLut
    }

    constructor (bits: nat, t: Turn, g: nat)
      requires 1 <= bits <= g && g >= 3 && t.grid == Pow2(g)
      ensures Valid() && len == Pow2(bits) && fftobj.nbrBits == bits
      ensures SampledFrom(fftobj.Tabs(), bits, t, g)
      ensures fresh(buf) && fresh(tmp) && fresh(fftobj.buffer)
    {
      len := Pow2(bits);
      buf := new real[Pow2(bits)];
      tmp := new real[Pow2(bits)];
      var fft := new FFTReal.FFTReal(bits, t, g);
      fftobj := fft;
    }

    /** r2c: the transform of buf, scaled by 1/len and reordered back into buf. */
    method R2c()
      requires Valid()
      modifies buf, tmp, fftobj.buffer
      ensures Valid() && fftobj.trigoLut[..] == old(fftobj.trigoLut[..])
      ensures buf[..] == R2cOf(fftobj.Tabs(), fftobj.nbrBits, old(buf[..]))
    {
      hide Scale, Interleave, Fft;
      fftobj.DoFft(tmp, buf);
      HalfOfLength(fftobj.nbrBits);
      PackScaled(tmp, buf, 1.0 / len as real);
    }

    /** c2r: buf reordered into tmp, and its inverse transform into buf. */
    method C2r()
      requires Valid()
      modifies buf, tmp, fftobj.buffer
      ensures Valid() && fftobj.trigoLut[..] == old(fftobj.trigoLut[..])
      ensures buf[..] == C2rOf(fftobj.Tabs(), fftobj.nbrBits, old(buf[..]))
    {
      hide Deinterleave, Ifft;
      HalfOfLength(fftobj.nbrBits);
      Unpack(buf, tmp);
      fftobj.DoIfft(tmp, buf);
    }
  }

  /** One turn of r2c's loop: an imaginary part and the real part below it. */
  method PackPair(tmp: array<real>, buf: array<real>, scale: real, bp: nat, tp: nat, i: nat)
    requires tmp != buf && 1 <= bp < buf.Length && tp < tmp.Length && i < tmp.Length
    modifies buf
    ensures buf[bp] == Mul(scale, tmp[tp]) && buf[bp - 1] == Mul(scale, tmp[i])
    ensures forall k :: 0 <= k < buf.Length && k != bp && k != bp - 1 ==> buf[k] == old(buf[k])
  {
    buf[bp] := Mul(scale, tmp[tp]);
    buf[bp - 1] := Mul(scale, tmp[i]);
  }

  /** r2c's reordering: two pointers walk down from the top of buf and of the imaginary parts. */
  method PackScaled(tmp: array<real>, buf: array<real>, scale: real)
    requires tmp != buf && tmp.Length == buf.Length >= 2 && tmp.Length % 2 == 0
    modifies buf
    ensures buf[..] == Interleave(Scale(scale, tmp[..]))
  {
    var len := tmp.Length;
    var j := len / 2;
    assert len == 2 * j;
    ghost var f := tmp[..];
    ghost var r := Interleave(Scale(scale, f));
    hide *;
    ScaledPairAt(scale, f, j, 0);
    PackPair(tmp, buf, scale, 1, j, 0);
    var i := j - 1;
    var bp, tp := len - 1, j + i;
    var more := true;
    while more
      invariant -1 <= i < j && bp == 2 * i + 1 && tp == j + i && (more ==> i >= 0) && (!more ==> i <= 0)
      invariant buf[0] == r[0] && buf[1] == r[1]
      invariant forall k :: bp < k < len ==> buf[k] == r[k]
      decreases i + 1, more
    {
      ScaledPairAt(scale, f, j, i);
      PackPair(tmp, buf, scale, bp, tp, i);
      bp, tp, i := bp - 2, tp - 1, i - 1;
      more := i > 0;
    }
    assert buf[..] == r;
  }

  /** One turn of c2r's loop. */
  method UnpackPair(buf: array<real>, tmp: array<real>, bp: nat, tp: nat, i: nat)
    requires tmp != buf && 1 <= bp < buf.Length && tp < tmp.Length && i < tp
    modifies tmp
    ensures tmp[tp] == buf[bp] && tmp[i] == buf[bp - 1]
    ensures forall k :: 0 <= k < tmp.Length && k != tp && k != i ==> tmp[k] == old(tmp[k])
  {
    tmp[tp] := buf[bp];
    tmp[i] := buf[bp - 1];
  }

  /** c2r's reordering, by the same walk the other way. */
  method Unpack(buf: array<real>, tmp: array<real>)
    requires tmp != buf && tmp.Length == buf.Length >= 2 && buf.Length % 2 == 0
    modifies tmp
    ensures tmp[..] == Deinterleave(buf[..])
  {
    var len := buf.Length;
    var j := len / 2;
    assert len == 2 * j;
    ghost var r := buf[..];
    ghost var f := Deinterleave(r);
    hide Deinterleave;
    PairAt(r, j, 0);
    tmp[0] := buf[0];
    tmp[j] := buf[1];
    var i := j - 1;
    var bp, tp := len - 1, j + i;
    var more := true;
    while more
      invariant -1 <= i < j && bp == 2 * i + 1 && tp == j + i && (more ==> i >= 0) && (!more ==> i <= 0)
      invariant tmp[0] == f[0] && tmp[j] == f[j]
      invariant forall k :: i < k < j || tp < k < len ==> tmp[k] == f[k]
      decreases i + 1, more
    {
      PairAt(r, j, i);
      UnpackPair(buf, tmp, bp, tp, i);
      bp, tp, i := bp - 2, tp - 1, i - 1;
      more := i > 0;
    }
    assert forall k :: 0 <= k < len ==> tmp[k] == f[k];
    assert tmp[..] == f;
  }

  lemma HalfOfLength(b: nat)
    requires b >= 1
    ensures Pow2(b) % 2 == 0 && Pow2(b) / 2 >= 1
  {
    assert Pow2(b) == 2 * Pow2(b - 1);
  }
}
