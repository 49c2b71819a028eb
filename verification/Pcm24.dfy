/** 24-bit sample packing in AudioDeviceImpl and the unpacking in sndlib_findpeak. */
module Pcm24 {
  import opened Averages
  import opened Limiter
  import opened Rotation
  import Modular

  newtype byte = b: int | 0 <= b < 256

  datatype Endian = Big | Little

  /** The C conversion of a floating value to int. */
  function Truncated(x: real): int {
    if x >= 0.0 then x.Floor else -(-x).Floor
  }

  /** The integer that a float sample is packed as. */
  function Sample(x: real): int { Truncated(256.0 * x) }

  /** The three bytes of a sample.  The shift of a negative int keeps its sign, so it is a division
      that rounds down, and the cast to unsigned char is a remainder. */
  function High(samp: int): byte { (samp / 0x1_0000 % 256) as byte }
  function Middle(samp: int): byte { (samp / 0x100 % 256) as byte }
  function Low(samp: int): byte { (samp % 256) as byte }

  function Packed(samp: int, e: Endian): (g: seq<byte>)
    ensures |g| == 3
  {
    if e == Big then [High(samp), Middle(samp), Low(samp)] else [Low(samp), Middle(samp), High(samp)]
  }

  /** A 32-bit int's value of an unbounded one. */
  function Int32(v: int): int { (v + 0x8000_0000) % 0x1_0000_0000 - 0x8000_0000 }

  /** The top three bytes of an int as a signed number: a shift by eight bits. */
  function TopBytes(v: int): int { Int32(v) / 256 }

  /** The sample of three bytes, assembled in the high part of an int and shifted down. */
  function Unpacked(g: seq<byte>, e: Endian): int
    requires |g| == 3
  {
    var high, low := if e == Big then g[0] else g[2], if e == Big then g[2] else g[0];
    TopBytes(high as int * 0x100_0000 + g[1] as int * 0x1_0000 + low as int * 0x100)
  }

  predicate Fits24(s: int) { -0x80_0000 <= s < 0x80_0000 }

  /** The low three base-256 digits of a number make up its remainder. */
  lemma Digits(s: int)
    ensures s % 0x100_0000 == High(s) as int * 0x1_0000 + Middle(s) as int * 0x100 + Low(s) as int
  {
    var t := s / 0x100;
    assert s / 0x1_0000 == t / 0x100;
    var u := t / 0x100;
    assert s == u / 0x100 * 0x100_0000 + u % 0x100 * 0x1_0000 + t % 0x100 * 0x100 + s % 0x100;
  }

  /** Moving 24 bits to the top of an int and back extends their sign. */
  lemma SignExtended(v: int)
    requires 0 <= v < 0x100_0000
    ensures TopBytes(256 * v) == if v < 0x80_0000 then v else v - 0x100_0000
  {
    assert Int32(256 * v) == if v < 0x80_0000 then 256 * v else 256 * v - 0x1_0000_0000;
  }

  /** Three bytes are a number of 24 bits in two's complement, in either order. */
  lemma BytesInOrder(g: seq<byte>, e: Endian)
    requires |g| == 3
    ensures
      var v := if e == Big then g[0] as int * 0x1_0000 + g[1] as int * 0x100 + g[2] as int
               else g[0] as int + g[1] as int * 0x100 + g[2] as int * 0x1_0000;
      Unpacked(g, e) == if v < 0x80_0000 then v else v - 0x100_0000
  {
    hide TopBytes;
    var high, low := if e == Big then g[0] else g[2], if e == Big then g[2] else g[0];
    SignExtended(high as int * 0x1_0000 + g[1] as int * 0x100 + low as int);
  }

  /** Packing loses all but the lowest 24 bits. */
  lemma UnpackedOfPacked(s: int, e: Endian)
    ensures Unpacked(Packed(s, e), e) == (s + 0x80_0000) % 0x100_0000 - 0x80_0000
  {
    hide Unpacked, High, Middle, Low;
    Digits(s);
    BytesInOrder(Packed(s, e), e);
    TwosComplement(s);
  }

  lemma TwosComplement(s: int)
    ensures
      var v := s % 0x100_0000;
      (s + 0x80_0000) % 0x100_0000 - 0x80_0000 == if v < 0x80_0000 then v else v - 0x100_0000
  {
    var q, v := s / 0x100_0000, s % 0x100_0000;
    if v < 0x80_0000 {
      Modular.UniqueRemainder(s + 0x80_0000, q, v + 0x80_0000, 0x100_0000);
    } else {
      Modular.UniqueRemainder(s + 0x80_0000, q + 1, v - 0x80_0000, 0x100_0000);
    }
  }

  /** A sample survives packing exactly when it has 24 bits. */
  lemma SurvivesExactlyWhen(s: int, e: Endian)
    ensures Unpacked(Packed(s, e), e) == s <==> Fits24(s)
  {
    UnpackedOfPacked(s, e);
  }

  /** Main result: a float sample is recovered, up to its fraction of 1/256, exactly when it lies
      in the range of 24 bits. */
  lemma FloatSurvivesExactlyWhen(x: real, e: Endian)
    ensures Unpacked(Packed(Sample(x), e), e) == Sample(x) <==> -8388609.0 < 256.0 * x < 8388608.0
    ensures InRange(x) ==> Unpacked(Packed(Sample(x), e), e) == Sample(x)
    ensures -1.0 < Sample(x) as real - 256.0 * x < 1.0
    ensures if x >= 0.0 then 0.0 <= Sample(x) as real <= 256.0 * x else 256.0 * x <= Sample(x) as real <= 0.0
  {
    SurvivesExactlyWhen(Sample(x), e);
  }

  /** The sample with the outer bytes of s exchanged. */
  function Swapped(s: int): int { Low(s) as int * 0x1_0000 + Middle(s) as int * 0x100 + High(s) as int }

  lemma SwappedDigits(s: int)
    ensures High(Swapped(s)) == Low(s) && Middle(Swapped(s)) == Middle(s) && Low(Swapped(s)) == High(s)
  {
  }

  /** Reading with the other byte order recovers a sample exactly when its outer bytes agree. */
  lemma CrossedExactlyWhen(s: int, e: Endian)
    requires Fits24(s)
    ensures
      var other := if e == Big then Little else Big;
      Unpacked(Packed(s, other), e) == s <==> High(s) == Low(s)
  {
    hide Unpacked, High, Middle, Low;
    var t := Swapped(s);
    SwappedDigits(s);
    UnpackedOfPacked(t, e);
    assert Packed(s, if e == Big then Little else Big) == Packed(t, e);
    SameDigits(s);
    SameResidue(s, t);
  }

  /** Swapped digits are the old ones exactly when the outer two agree. */
  lemma SameDigits(s: int)
    ensures Swapped(s) % 0x100_0000 == s % 0x100_0000 <==> High(s) == Low(s)
  {
    hide High, Middle, Low;
    SwappedDigits(s);
    Digits(s);
    Digits(Swapped(s));
  }

  lemma SameResidue(s: int, t: int)
    requires Fits24(s)
    ensures (t + 0x80_0000) % 0x100_0000 - 0x80_0000 == s <==> t % 0x100_0000 == s % 0x100_0000
  {
  }

  /** The byte order that setConvertFunctions gives a 24-bit file of format e. */
  function PlayOrder(frameInterleaved: bool, e: Endian): Endian {
    if frameInterleaved then (if e == Big then Little else Big) else e
  }

  /** A file reads back as written from non-interleaved frames; from interleaved ones it does just
      for samples that read the same in both orders, so not, say, for the sample 1. */
  lemma FileReadsBack(x: real, e: Endian, frameInterleaved: bool)
    requires InRange(x)
    ensures
      var s := Sample(x);
      Unpacked(Packed(s, PlayOrder(frameInterleaved, e)), e) == s <==>
      !frameInterleaved || High(s) == Low(s)
    ensures Unpacked(Packed(Sample(1.0 / 256.0), PlayOrder(true, e)), e) != Sample(1.0 / 256.0)
  {
    hide Packed, Unpacked;
    FloatSurvivesExactlyWhen(x, e);
    SurvivesExactlyWhen(Sample(x), e);
    CrossedExactlyWhen(Sample(x), e);
    assert Sample(1.0 / 256.0) == 1;
    CrossedExactlyWhen(1, e);
  }

  /** Where a channel's sample of a frame goes, in samples. */
  function Slot(chans: nat, fr: nat, ch: nat): nat { fr * chans + ch }

  lemma SlotInside(chans: nat, frames: nat, fr: nat, ch: nat)
    requires fr < frames && ch < chans
    ensures Slot(chans, fr, ch) < frames * chans
  {
    Modular.MulOrder(fr, frames, chans);
  }

  lemma SlotsDiffer(chans: nat, fr: nat, ch: nat, fr': nat, ch': nat)
    requires ch < chans && ch' < chans && Slot(chans, fr, ch) == Slot(chans, fr', ch')
    ensures fr == fr' && ch == ch'
  {
    if fr < fr' {
      Modular.MulOrder(fr, fr', chans);
    } else if fr' < fr {
      Modular.MulOrder(fr', fr, chans);
    }
  }

  /** The bytes of the k-th sample in a buffer. */
  ghost function Group(out: array<byte>, k: nat): (g: seq<byte>)
    requires 3 * k + 3 <= out.Length
    reads out
    ensures |g| == 3
  {
    out[3 * k..3 * k + 3]
  }

  method PackSample(out: array<byte>, at: nat, ghost k: nat, x: real, e: Endian)
    requires at == 3 * k && 3 * k + 3 <= out.Length
    modifies out
    ensures Group(out, k) == Packed(Sample(x), e)
    ensures forall i: nat :: i != k && 3 * i + 3 <= out.Length ==> Group(out, i) == old(Group(out, i))
  {
    var bytes := Packed(Sample(x), e);
    hide Packed, Sample;
    out[at] := bytes[0];
    out[at + 1] := bytes[1];
    out[at + 2] := bytes[2];
  }

  /** A buffer holds the samples of so many frames. */
  ghost predicate Holds(buf: array<byte>, chans: nat, frames: nat) {
    forall fr: nat, ch: nat :: fr < frames && ch < chans ==> 3 * Slot(chans, fr, ch) + 3 <= buf.Length
  }

  lemma HoldsAll(buf: array<byte>, chans: nat, frames: nat)
    requires 3 * (frames * chans) <= buf.Length
    ensures Holds(buf, chans, frames)
  {
    forall fr: nat, ch: nat | fr < frames && ch < chans ensures 3 * Slot(chans, fr, ch) + 3 <= buf.Length {
      SlotInside(chans, frames, fr, ch);
    }
  }

  /** The samples of one channel of an interleaved buffer, as the unpacker scales them. */
  ghost function Decoded(buf: array<byte>, e: Endian, chans: nat, ch: nat, n: nat): (s: seq<real>)
    requires ch < chans && Holds(buf, chans, n)
    reads buf
    ensures |s| == n && forall fr: nat :: fr < n ==> s[fr] == Level(Group(buf, Slot(chans, fr, ch)), e)
  {
    seq(n, fr requires 0 <= fr < n reads buf => Level(Group(buf, Slot(chans, fr, ch)), e))
  }

  /** An unpacked sample at its original scale. */
  function Level(g: seq<byte>, e: Endian): real
    requires |g| == 3
  {
    Unpacked(g, e) as real / 256.0
  }

  /** _convertNFloatToIB24Bit and _convertNFloatToIL24Bit: channel buffers into interleaved bytes. */
  method ConvertNFloatToI24Bit(fin: array2<real>, out: array<byte>, frames: nat, e: Endian)
    requires frames == fin.Length1 && 3 * (frames * fin.Length0) <= out.Length
    modifies out
    ensures Holds(out, fin.Length0, frames)
    ensures forall fr: nat, ch: nat :: fr < frames && ch < fin.Length0 ==>
      Group(out, Slot(fin.Length0, fr, ch)) == Packed(Sample(fin[ch, fr]), e)
  {
    hide Packed, Sample, Slot, Group;
    var chans := fin.Length0;
    HoldsAll(out, chans, frames);
    for ch := 0 to chans
      invariant forall fr: nat, c: nat :: fr < frames && c < ch ==>
        Group(out, Slot(chans, fr, c)) == Packed(Sample(fin[c, fr]), e)
    {
      ConvertChannel(fin, out, frames, ch, e);
    }
  }

  /** One channel's turn: its bytes are 3 * chans apart. */
  method ConvertChannel(fin: array2<real>, out: array<byte>, frames: nat, ch: nat, e: Endian)
    requires frames == fin.Length1 && ch < fin.Length0
    requires Holds(out, fin.Length0, frames)
    modifies out
    ensures forall fr: nat :: fr < frames ==> Group(out, Slot(fin.Length0, fr, ch)) == Packed(Sample(fin[ch, fr]), e)
    ensures forall fr: nat, c: nat :: fr < frames && c < fin.Length0 && c != ch ==>
      Group(out, Slot(fin.Length0, fr, c)) == old(Group(out, Slot(fin.Length0, fr, c)))
  {
    hide Packed, Sample, Group, Slot;
    var chans := fin.Length0;
    var cout, incr := ch * 3, chans * 3;
    FirstSlot(chans, ch);
    forall fr: nat, c: nat, fr': nat | c < chans && Slot(chans, fr, c) == Slot(chans, fr', ch)
      ensures fr == fr' && c == ch
    {
      SlotsDiffer(chans, fr, c, fr', ch);
    }
    for fr := 0 to frames
      invariant cout == 3 * Slot(chans, fr, ch)
      invariant forall r: nat :: r < fr ==> Group(out, Slot(chans, r, ch)) == Packed(Sample(fin[ch, r]), e)
      invariant forall r: nat, c: nat :: r < frames && c < chans && c != ch ==>
        Group(out, Slot(chans, r, c)) == old(Group(out, Slot(chans, r, c)))
    {
      PackSample(out, cout, Slot(chans, fr, ch), fin[ch, fr], e);
      NextSlot(chans, fr, ch);
      cout := cout + incr;
    }
  }

  lemma FirstSlot(chans: nat, ch: nat)
    ensures Slot(chans, 0, ch) == ch
  {
  }

  lemma NextSlot(chans: nat, fr: nat, ch: nat)
    ensures Slot(chans, fr + 1, ch) == Slot(chans, fr, ch) + chans
    ensures Slot(chans, fr, ch + 1) == Slot(chans, fr, ch) + 1
    ensures Slot(chans, fr, chans) == Slot(chans, fr + 1, 0)
  {
    assert (fr + 1) * chans == fr * chans + chans;
  }

  /** _convertIToIB24Bit and _convertIToIL24Bit: interleaved samples into bytes in the same places. */
  method ConvertIToI24Bit(tin: array<real>, out: array<byte>, e: Endian)
    requires 3 * tin.Length <= out.Length
    modifies out
    ensures forall s: nat :: s < tin.Length ==> Group(out, s) == Packed(Sample(tin[s]), e)
  {
    hide Packed, Sample, Group;
    var cout := 0;
    for s := 0 to tin.Length
      invariant cout == 3 * s
      invariant forall i: nat :: i < s ==> Group(out, i) == Packed(Sample(tin[i]), e)
    {
      PackSample(out, cout, s, tin[s], e);
      cout := cout + 3;
    }
  }

  /** sndlib_findpeak's arrays, with a value for each channel. */
  class Findings {
    const peak: array<real>
    const peakloc: array<int>
    const ampavg: array<real>
    const dcavg: array<real>
    const rms: array<real>

    ghost predicate Valid(chans: nat) {
      && peak.Length == peakloc.Length == ampavg.Length == dcavg.Length == rms.Length == chans
      && peak != ampavg && peak != dcavg && peak != rms && ampavg != dcavg && ampavg != rms && dcavg != rms
    }

    ghost function PeakOf(c: nat): Peak
      requires c < peak.Length == peakloc.Length
      reads peak, peakloc
    {
      Peak(peak[c], peakloc[c])
    }

    ghost function SumsOf(c: nat): Sums
      requires c < ampavg.Length == dcavg.Length == rms.Length
      reads ampavg, dcavg, rms
    {
      Sums(ampavg[c], dcavg[c], rms[c])
    }

    /** All zero, as the source starts. */
    constructor (chans: nat)
      ensures Valid(chans)
      ensures fresh(peak) && fresh(peakloc) && fresh(ampavg) && fresh(dcavg) && fresh(rms)
      ensures forall c: nat :: c < chans ==> PeakOf(c) == Peak(0.0, 0) && SumsOf(c) == SILENCE
    {
      peak := new real[chans](_ => 0.0);
      peakloc := new int[chans](_ => 0);
      ampavg := new real[chans](_ => 0.0);
      dcavg := new real[chans](_ => 0.0);
      rms := new real[chans](_ => 0.0);
    }

    /** The look at one sample. */
    method Study(bufp: array<byte>, at: nat, ghost k: nat, e: Endian, n: nat, frame: int, ghost chans: nat)
      requires Valid(chans) && at == 3 * k && 3 * k + 3 <= bufp.Length && n < chans
      modifies peak, peakloc, ampavg, dcavg, rms
      ensures PeakOf(n) == Tracked(old(PeakOf(n)), [Level(Group(bufp, k), e)], frame)
      ensures SumsOf(n) == Plus(old(SumsOf(n)), Level(Group(bufp, k), e))
      ensures forall c: nat :: c < chans && c != n ==> PeakOf(c) == old(PeakOf(c)) && SumsOf(c) == old(SumsOf(c))
    {
      hide Unpacked;
      var samp := Unpacked([bufp[at], bufp[at + 1], bufp[at + 2]], e);
      assert [bufp[at], bufp[at + 1], bufp[at + 2]] == Group(bufp, k);
      var fsamp := samp as real / 256.0;
      var fabsamp := Magnitude(fsamp);
      ghost var seen := [Level(Group(bufp, k), e)];
      assert seen[..0] == [] && seen[0] == fsamp;
      if fabsamp > peak[n] {
        peak[n] := fabsamp;
        peakloc[n] := frame;
      }
      ampavg[n] := ampavg[n] + fabsamp / DENORMFACTOR;
      var normsamp := fsamp / DENORMFACTOR;
      dcavg[n] := dcavg[n] + normsamp;
      rms[n] := rms[n] + Mul(normsamp, normsamp);
    }

    /** One buffer of 24-bit samples: each channel's peak, its first frame, and its sums. */
    method FindPeak(bufp: array<byte>, e: Endian, chans: nat, bufframes: nat, start: int)
      requires Valid(chans) && 3 * (bufframes * chans) <= bufp.Length
      modifies peak, peakloc, ampavg, dcavg, rms
      ensures Holds(bufp, chans, bufframes)
      ensures forall c: nat :: c < chans ==>
        && PeakOf(c) == Tracked(old(PeakOf(c)), Decoded(bufp, e, chans, c, bufframes), start)
        && SumsOf(c) == Summed(old(SumsOf(c)), Decoded(bufp, e, chans, c, bufframes))
    {
      hide Unpacked, Slot, Tracked, Level, Decoded, Summed, Plus, PeakOf, SumsOf;
      HoldsAll(bufp, chans, bufframes);
      var at := 0;
      FirstSlot(chans, 0);
      NothingTracked(start);
      for i := 0 to bufframes
        invariant at == 3 * Slot(chans, i, 0)
        invariant forall c: nat :: c < chans ==>
          && PeakOf(c) == Tracked(old(PeakOf(c)), Decoded(bufp, e, chans, c, i), start)
          && SumsOf(c) == Summed(old(SumsOf(c)), Decoded(bufp, e, chans, c, i))
      {
        for n := 0 to chans
          invariant at == 3 * Slot(chans, i, n)
          invariant forall c: nat :: c < chans ==>
            && PeakOf(c) == Tracked(old(PeakOf(c)), Decoded(bufp, e, chans, c, if c < n then i + 1 else i), start)
            && SumsOf(c) == Summed(old(SumsOf(c)), Decoded(bufp, e, chans, c, if c < n then i + 1 else i))
        {
          DecodedGrows(old(PeakOf(n)), old(SumsOf(n)), bufp, e, chans, n, i, start);
          Study(bufp, at, Slot(chans, i, n), e, n, start + i, chans);
          NextSlot(chans, i, n);
          at := at + 3;
        }
        NextSlot(chans, i, 0);
      }
    }

    /** The averages scaled back at the end, where root stands for the square root. */
    method Denormalize(chans: nat, nframes: nat, root: real -> real)
      requires Valid(chans) && nframes > 0
      modifies ampavg, dcavg, rms
      ensures forall c: nat :: c < chans ==> SumsOf(c) == Finished(old(SumsOf(c)), nframes, root)
    {
      for n := 0 to chans
        invariant forall c: nat :: c < chans ==>
          SumsOf(c) == if c < n then Finished(old(SumsOf(c)), nframes, root) else old(SumsOf(c))
      {
        ampavg[n] := ampavg[n] / nframes as real * DENORMFACTOR;
        dcavg[n] := dcavg[n] / nframes as real * DENORMFACTOR;
        rms[n] := root(rms[n] / nframes as real) * DENORMFACTOR;
      }
    }

    /** All of sndlib_findpeak on a file of 24-bit samples of which `left` frames follow the first
        frame asked for: buffer after buffer is read and studied until nframes are covered or the
        file ends. */
    method Find(data: array<byte>, e: Endian, chans: nat, left: nat, nframes: nat, startframe: int, root: real -> real)
      requires Valid(chans) && chans > 0 && nframes > 0 && data.Length == 3 * (left * chans)
      modifies peak, peakloc, ampavg, dcavg, rms
      ensures Holds(data, chans, FramesRead(left, nframes))
      ensures forall c: nat :: c < chans ==>
        var s := Decoded(data, e, chans, c, FramesRead(left, nframes));
        PeakOf(c) == Tracked(Peak(0.0, 0), s, startframe) && SumsOf(c) == Finished(Summed(SILENCE, s), nframes, root)
    {
      hide Tracked, Summed, PeakOf, SumsOf, Decoded, Slot, Holds, FramesRead, Finished;
      Reset(chans);
      HoldsLess(data, chans, left);
      var frames := 0;
      NothingDecoded(data, e, chans, startframe);
      while frames < nframes
        invariant 0 <= frames <= left
        invariant frames + FramesRead(left - frames, if frames < nframes then nframes - frames else 0)
               == FramesRead(left, nframes)
        invariant forall n: nat :: n <= left ==> Holds(data, chans, n)
        invariant forall c: nat :: c < chans ==>
          && PeakOf(c) == Tracked(Peak(0.0, 0), Decoded(data, e, chans, c, frames), startframe)
          && SumsOf(c) == Summed(SILENCE, Decoded(data, e, chans, c, frames))
      {
        if frames == left {
          break;
        }
        var bufframes := if left - frames < BUF_FRAMES then left - frames else BUF_FRAMES;
        OneMoreBuffer(left - frames, nframes - frames);
        var buffer := ReadBuffer(data, frames, bufframes, left, chans);
        FindPeak(buffer, e, chans, bufframes, startframe + frames);
        forall c: nat | c < chans
          ensures Holds(buffer, chans, bufframes)
          ensures
            var s, t := Decoded(data, e, chans, c, frames), Decoded(buffer, e, chans, c, bufframes);
            var all := Decoded(data, e, chans, c, frames + bufframes);
            && Tracked(Tracked(Peak(0.0, 0), s, startframe), t, startframe + frames)
               == Tracked(Peak(0.0, 0), all, startframe)
            && Summed(Summed(SILENCE, s), t) == Summed(SILENCE, all)
        {
          BufferContinues(data, buffer, e, chans, c, frames, bufframes, startframe);
        }
        frames := frames + bufframes;
      }
      NoMoreFrames(left - frames, if frames < nframes then nframes - frames else 0);
      Denormalize(chans, nframes, root);
    }

    method Reset(chans: nat)
      requires Valid(chans)
      modifies peak, peakloc, ampavg, dcavg, rms
      ensures forall c: nat :: c < chans ==> PeakOf(c) == Peak(0.0, 0) && SumsOf(c) == SILENCE
    {
      for n := 0 to chans
        invariant forall c: nat :: c < n ==> peak[c] == 0.0 && peakloc[c] == 0
        invariant forall c: nat :: c < n ==> ampavg[c] == 0.0 && dcavg[c] == 0.0 && rms[c] == 0.0
      {
        peak[n] := 0.0;
        peakloc[n] := 0;
        ampavg[n] := 0.0;
        dcavg[n] := 0.0;
        rms[n] := 0.0;
      }
    }
  }

  /** The read of a buffer of whole frames, from frame `from` of the data on. */
  method ReadBuffer(data: array<byte>, from: nat, frames: nat, ghost left: nat, chans: nat)
    returns (buffer: array<byte>)
    requires from + frames <= left && data.Length == 3 * (left * chans)
    ensures fresh(buffer) && buffer.Length == 3 * (frames * chans)
    ensures 3 * (from * chans) + buffer.Length <= data.Length
    ensures buffer[..] == data[3 * (from * chans)..3 * (from * chans) + buffer.Length]
  {
    var start, bytes := 3 * (from * chans), 3 * (frames * chans);
    assert (from + frames) * chans == from * chans + frames * chans;
    NoOverrun(from + frames, left, chans);
    buffer := new byte[bytes](i requires 0 <= i < bytes && start + bytes <= data.Length reads data => data[start + i]);
  }

  lemma NoOverrun(a: nat, b: nat, m: nat)
    requires a <= b
    ensures a * m <= b * m
  {
    if a < b {
      Modular.MulOrder(a, b, m);
    }
  }

  lemma HoldsLess(buf: array<byte>, chans: nat, left: nat)
    requires 3 * (left * chans) <= buf.Length
    ensures forall n: nat :: n <= left ==> Holds(buf, chans, n)
  {
    HoldsAll(buf, chans, left);
  }

  lemma NothingDecoded(buf: array<byte>, e: Endian, chans: nat, start: int)
    requires Holds(buf, chans, 0)
    ensures forall c: nat :: c < chans ==>
      && Tracked(Peak(0.0, 0), Decoded(buf, e, chans, c, 0), start) == Peak(0.0, 0)
      && Summed(SILENCE, Decoded(buf, e, chans, c, 0)) == SILENCE
  {
  }

  /** A buffer read on from frame `from` continues what was decoded of the data up to there. */
  lemma BufferContinues(data: array<byte>, buffer: array<byte>, e: Endian, chans: nat, c: nat, from: nat, frames: nat,
                        start: int)
    requires c < chans && Holds(data, chans, from + frames) && buffer.Length == 3 * (frames * chans)
    requires 3 * (from * chans) + buffer.Length <= data.Length
    requires buffer[..] == data[3 * (from * chans)..3 * (from * chans) + buffer.Length]
    ensures Holds(buffer, chans, frames)
    ensures
      var s, t := Decoded(data, e, chans, c, from), Decoded(buffer, e, chans, c, frames);
      var all := Decoded(data, e, chans, c, from + frames);
      && Tracked(Tracked(Peak(0.0, 0), s, start), t, start + from) == Tracked(Peak(0.0, 0), all, start)
      && Summed(Summed(SILENCE, s), t) == Summed(SILENCE, all)
  {
    hide Level, Tracked, Summed, Slot;
    HoldsAll(buffer, chans, frames);
    var s, t := Decoded(data, e, chans, c, from), Decoded(buffer, e, chans, c, frames);
    forall fr: nat | fr < frames
      ensures Group(data, Slot(chans, from + fr, c)) == Group(buffer, Slot(chans, fr, c))
    {
      SlotContinues(chans, from, fr, c);
      SameGroup(data, buffer, from * chans, Slot(chans, fr, c));
    }
    assert Decoded(data, e, chans, c, from + frames) == s + t;
    TrackedOverBlocks(Peak(0.0, 0), s, t, start);
    SummedOverBlocks(SILENCE, s, t);
  }

  lemma SlotContinues(chans: nat, from: nat, fr: nat, c: nat)
    ensures Slot(chans, from + fr, c) == from * chans + Slot(chans, fr, c)
  {
    assert (from + fr) * chans == from * chans + fr * chans;
  }

  lemma SameGroup(data: array<byte>, buffer: array<byte>, k: nat, i: nat)
    requires 3 * i + 3 <= buffer.Length && 3 * k + buffer.Length <= data.Length
    requires buffer[..] == data[3 * k..3 * k + buffer.Length]
    ensures Group(data, k + i) == Group(buffer, i)
  {
    assert forall j :: 0 <= j < buffer.Length ==> buffer[j] == buffer[..][j] == data[3 * k + j];
  }

  /** One more frame of a channel, studied. */
  lemma DecodedGrows(p: Peak, u: Sums, buf: array<byte>, e: Endian, chans: nat, ch: nat, n: nat, start: int)
    requires ch < chans && Holds(buf, chans, n + 1)
    ensures
      var s, x := Decoded(buf, e, chans, ch, n), Level(Group(buf, Slot(chans, n, ch)), e);
      && Tracked(p, Decoded(buf, e, chans, ch, n + 1), start) == Tracked(Tracked(p, s, start), [x], start + n)
      && Summed(u, Decoded(buf, e, chans, ch, n + 1)) == Plus(Summed(u, s), x)
  {
    hide Plus, Level;
    var s, last := Decoded(buf, e, chans, ch, n), [Level(Group(buf, Slot(chans, n, ch)), e)];
    var all := Decoded(buf, e, chans, ch, n + 1);
    assert all == s + last;
    TrackedOverBlocks(p, s, last, start);
    assert all[..n] == s && all[n] == last[0];
  }

  lemma NothingTracked(start: int)
    ensures forall p :: Tracked(p, [], start) == p
    ensures forall u :: Summed(u, []) == u
  {
  }

  /** Main result on files: what the unpacker reads of a file written from limited non-interleaved
      frames is, at every frame and channel, the sample rounded toward zero to a 256th. */
  lemma ReadsWhatWasWritten(fin: array2<real>, out: array<byte>, frames: nat, e: Endian, ch: nat, fr: nat)
    requires frames == fin.Length1 && Holds(out, fin.Length0, frames)
    requires forall fr: nat, ch: nat :: fr < frames && ch < fin.Length0 ==>
      Group(out, Slot(fin.Length0, fr, ch)) == Packed(Sample(fin[ch, fr]), e)
    requires ch < fin.Length0 && fr < frames && InRange(fin[ch, fr])
    ensures
      var s := Decoded(out, e, fin.Length0, ch, frames)[fr];
      s == Truncated(256.0 * fin[ch, fr]) as real / 256.0 && -1.0 < 256.0 * (s - fin[ch, fr]) < 1.0
  {
    hide Unpacked, Packed, Slot, Truncated, Group;
    FloatSurvivesExactlyWhen(fin[ch, fr], e);
  }
}
