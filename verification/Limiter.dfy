/** AudioDeviceImpl's limiting, muting and peak tracking of outgoing frames, and the order in
    which two devices share one buffer. */
module Limiter {

  predicate InRange(x: real) { -32768.0 <= x <= 32767.0 }

  function Limited(x: real): (y: real)
    ensures InRange(y) && (InRange(x) ==> y == x)
    ensures forall z :: InRange(z) ==> Magnitude(x - y) <= Magnitude(x - z)
  {
    if x < -32768.0 then -32768.0 else if x > 32767.0 then 32767.0 else x
  }

  function Magnitude(x: real): real { if x < 0.0 then -x else x }

  /** A peak and the frame it was first seen at. */
  datatype Peak = Peak(amp: real, loc: int)

  /** The peak after the samples s, whose first is at frame start. */
  function Tracked(p: Peak, s: seq<real>, start: int): Peak {
    if s == [] then p
    else
      var n := |s| - 1;
      var q := Tracked(p, s[..n], start);
      if Magnitude(s[n]) > q.amp then Peak(Magnitude(s[n]), start + n) else q
  }

  /** Tracking block after block is tracking the whole run, when each block starts at the frame
      after the last. */
  lemma {:induction false} TrackedOverBlocks(p: Peak, s: seq<real>, t: seq<real>, start: int)
    ensures Tracked(Tracked(p, s, start), t, start + |s|) == Tracked(p, s + t, start)
  {
    if t == [] {
      assert s + t == s;
    } else {
      TrackedOverBlocks(p, s, t[..|t| - 1], start);
      assert (s + t)[..|s + t| - 1] == s + t[..|t| - 1];
    }
  }

  /** Main result on peaks: over a run from silence, the peak is the largest magnitude and its
      location the first frame that reaches it. */
  lemma {:induction false} PeakIsFirstMaximum(s: seq<real>, start: int)
    ensures
      var p := Tracked(Peak(0.0, 0), s, start);
      && p.amp >= 0.0
      && (forall i :: 0 <= i < |s| ==> Magnitude(s[i]) <= p.amp)
      && (p.amp > 0.0 ==>
            && start <= p.loc < start + |s| && Magnitude(s[p.loc - start]) == p.amp
            && forall i :: 0 <= i < p.loc - start ==> Magnitude(s[i]) < p.amp)
  {
    if s != [] {
      PeakIsFirstMaximum(s[..|s| - 1], start);
    }
  }

  /** The device's formats, as far as limiting looks at them. */
  datatype Format = Format(isFloat: bool, normalized: bool, clipped: bool)

  predicate Clips(f: Format) { !f.isFloat || f.clipped || f.normalized }

  class Device {
    const frameFormat: Format
    const deviceFormat: Format
    const checkPeaks: bool
    const muteThreshold: real
    const peaks: array<real>
    const peakLocs: array<int>

    ghost predicate Valid() {
      peaks.Length == peakLocs.Length
    }

    constructor (frameFormat: Format, deviceFormat: Format, checkPeaks: bool, muteThreshold: real, chans: nat)
      requires muteThreshold >= 0.0
      ensures Valid() && peaks.Length == chans && fresh(peaks) && fresh(peakLocs)
      ensures this.frameFormat == frameFormat && this.deviceFormat == deviceFormat
      ensures this.checkPeaks == checkPeaks && this.muteThreshold == muteThreshold
      ensures forall c :: 0 <= c < chans ==> peaks[c] == 0.0 && peakLocs[c] == 0
    {
      this.frameFormat, this.deviceFormat := frameFormat, deviceFormat;
      this.checkPeaks, this.muteThreshold := checkPeaks, muteThreshold;
      peaks := new real[chans](_ => 0.0);
      peakLocs := new int[chans](_ => 0);
    }

    /** Only a conversion from an unclipped frame to a clipping device clips. */
    predicate DoesClipping() { !Clips(frameFormat) && Clips(deviceFormat) }

    predicate Active() { DoesClipping() || muteThreshold > 0.0 }

    /** What limitFrame leaves of a sample, before muting. */
    function Kept(x: real): real { if Active() then Limited(x) else x }

    /** Limits one sample, keeping the largest excess seen. */
    method LimitSample(frame: array2<real>, c: nat, n: nat, clipmax0: real) returns (clipmax: real)
      requires c < frame.Length0 && n < frame.Length1 && clipmax0 >= 0.0
      modifies frame
      ensures forall r, k :: 0 <= r < frame.Length0 && 0 <= k < frame.Length1 ==>
        frame[r, k] == if r == c && k == n then Limited(old(frame[r, k])) else old(frame[r, k])
      ensures var x := old(frame[c, n]);
        clipmax == if !InRange(x) && Magnitude(x) > clipmax0 then Magnitude(x) else clipmax0
    {
      clipmax := clipmax0;
      var samp := frame[c, n];
      if samp < -32768.0 {
        if samp < -clipmax {
          clipmax := -samp;
        }
        frame[c, n] := -32768.0;
      } else if samp > 32767.0 {
        if samp > clipmax {
          clipmax := samp;
        }
        frame[c, n] := 32767.0;
      }
    }

    /** Raises a channel's peak to a sample that exceeds it. */
    method TrackSample(c: nat, x: real, frame: int)
      requires Valid() && c < peaks.Length
      modifies peaks, peakLocs
      ensures Peak(peaks[c], peakLocs[c]) ==
        if Magnitude(x) > old(peaks[c]) then Peak(Magnitude(x), frame) else old(Peak(peaks[c], peakLocs[c]))
      ensures forall r :: 0 <= r < peaks.Length && r != c ==>
        peaks[r] == old(peaks[r]) && peakLocs[r] == old(peakLocs[r])
    {
      var fabsamp := Magnitude(x);
      if fabsamp > peaks[c] {
        peaks[c] := fabsamp;
        peakLocs[c] := frame;
      }
    }

    /** limitFrame's pass over one channel. */
    method LimitChannel(frame: array2<real>, c: nat, frames: nat, bufStartSamp: int, clipmax0: real)
      returns (clipmax: real)
      requires Valid() && c < frame.Length0 == peaks.Length && frames <= frame.Length1 && clipmax0 >= 0.0
      modifies frame, peaks, peakLocs
      ensures forall r, k :: 0 <= r < frame.Length0 && 0 <= k < frame.Length1 ==>
        frame[r, k] == if r == c && k < frames then Kept(old(frame[r, k])) else old(frame[r, k])
      ensures clipmax >= clipmax0
      ensures Active() ==>
        forall k :: 0 <= k < frames && !InRange(old(frame[c, k])) ==> Magnitude(old(frame[c, k])) <= clipmax
      ensures clipmax == clipmax0 ||
        (Active() &&
         exists k :: 0 <= k < frames && !InRange(old(frame[c, k])) && Magnitude(old(frame[c, k])) == clipmax)
      ensures forall r :: 0 <= r < peaks.Length && r != c ==>
        peaks[r] == old(peaks[r]) && peakLocs[r] == old(peakLocs[r])
      ensures Peak(peaks[c], peakLocs[c]) ==
        if checkPeaks then Tracked(old(Peak(peaks[c], peakLocs[c])), Row(frame, c, frames), bufStartSamp)
        else old(Peak(peaks[c], peakLocs[c]))
    {
      hide Magnitude, InRange, Limited;
      clipmax := clipmax0;
      ghost var p0 := Peak(peaks[c], peakLocs[c]);
      for n := 0 to frames
        invariant forall r, k :: 0 <= r < frame.Length0 && 0 <= k < frame.Length1 ==>
          frame[r, k] == if r == c && k < n then Kept(old(frame[r, k])) else old(frame[r, k])
        invariant clipmax >= clipmax0
        invariant Active() ==>
          forall k :: 0 <= k < n && !InRange(old(frame[c, k])) ==> Magnitude(old(frame[c, k])) <= clipmax
        invariant clipmax == clipmax0 ||
          (Active() && exists k :: 0 <= k < n && !InRange(old(frame[c, k])) && Magnitude(old(frame[c, k])) == clipmax)
        invariant forall r :: 0 <= r < peaks.Length && r != c ==>
          peaks[r] == old(peaks[r]) && peakLocs[r] == old(peakLocs[r])
        invariant Peak(peaks[c], peakLocs[c]) == if checkPeaks then Tracked(p0, Row(frame, c, n), bufStartSamp) else p0
      {
        ghost var row := Row(frame, c, n);
        if Active() {
          clipmax := LimitSample(frame, c, n, clipmax);
        }
        if checkPeaks {
          TrackSample(c, frame[c, n], bufStartSamp + n);
        }
        assert Row(frame, c, n + 1)[..n] == row;
      }
    }

    /** A block is muted when muting is on and some sample out of range reaches the threshold. */
    ghost predicate Mutes(frame: array2<real>, chans: nat, frames: nat)
      requires chans <= frame.Length0 && frames <= frame.Length1
      reads frame
    {
      muteThreshold > 0.0 &&
      exists c, n :: 0 <= c < chans && 0 <= n < frames &&
        !InRange(frame[c, n]) && Magnitude(frame[c, n]) >= muteThreshold
    }

    /** The first n frames of a channel, as limitFrame keeps them. */
    ghost function KeptRow(frame: array2<real>, c: nat, n: nat): (s: seq<real>)
      requires c < frame.Length0 && n <= frame.Length1
      reads frame
      ensures |s| == n && forall k :: 0 <= k < n ==> s[k] == Kept(frame[c, k])
    {
      seq(n, k requires 0 <= k < n reads frame => Kept(frame[c, k]))
    }

    /** limitFrame.  Peaks are those of the kept samples, even of a block that is then muted. */
    method LimitFrame(frame: array2<real>, frames: nat, bufStartSamp: int)
      requires Valid() && frame.Length0 == peaks.Length && frames == frame.Length1
      modifies frame, peaks, peakLocs
      ensures forall c, n :: 0 <= c < frame.Length0 && 0 <= n < frames ==>
        frame[c, n] == if old(Mutes(frame, frame.Length0, frames)) then 0.0 else Kept(old(frame[c, n]))
      ensures checkPeaks ==> forall c :: 0 <= c < peaks.Length ==>
        Peak(peaks[c], peakLocs[c])
        == Tracked(old(Peak(peaks[c], peakLocs[c])), old(KeptRow(frame, c, frames)), bufStartSamp)
      ensures !checkPeaks ==> forall c :: 0 <= c < peaks.Length ==>
        peaks[c] == old(peaks[c]) && peakLocs[c] == old(peakLocs[c])
    {
      var clipmax := 0.0;
      for c := 0 to frame.Length0
        invariant clipmax >= 0.0
        invariant forall r, k :: 0 <= r < frame.Length0 && 0 <= k < frames ==>
          frame[r, k] == if r < c then Kept(old(frame[r, k])) else old(frame[r, k])
        invariant Active() ==> forall r, k :: 0 <= r < c && 0 <= k < frames && !InRange(old(frame[r, k])) ==>
          Magnitude(old(frame[r, k])) <= clipmax
        invariant clipmax == 0.0 ||
          exists r, k :: 0 <= r < c && 0 <= k < frames &&
            !InRange(old(frame[r, k])) && Magnitude(old(frame[r, k])) == clipmax
        invariant forall r :: 0 <= r < peaks.Length ==>
          Peak(peaks[r], peakLocs[r]) ==
            if checkPeaks && r < c
            then Tracked(old(Peak(peaks[r], peakLocs[r])), old(KeptRow(frame, r, frames)), bufStartSamp)
            else old(Peak(peaks[r], peakLocs[r]))
      {
        clipmax := LimitChannel(frame, c, frames, bufStartSamp, clipmax);
        assert Row(frame, c, frames) == old(KeptRow(frame, c, frames));
      }
      if muteThreshold > 0.0 && clipmax >= muteThreshold {
        forall c, n | 0 <= c < frame.Length0 && 0 <= n < frames {
          frame[c, n] := 0.0;
        }
      }
    }
  }

  /** The first n frames of a channel. */
  ghost function Row(frame: array2<real>, c: nat, n: nat): (s: seq<real>)
    requires c < frame.Length0 && n <= frame.Length1
    reads frame
    ensures |s| == n && forall k :: 0 <= k < n ==> s[k] == frame[c, k]
  {
    seq(n, k requires 0 <= k < n reads frame => frame[c, k])
  }

  /** A sample keeps its value exactly when it is in range, or when muting is off and no frame of
      unlimited floats goes to a device that is limited by its format, as integers are. */
  lemma KeptExactlyWhen(d: Device, x: real)
    ensures
      var unlimited := d.frameFormat.isFloat && !d.frameFormat.clipped && !d.frameFormat.normalized;
      var limits := !d.deviceFormat.isFloat || d.deviceFormat.clipped || d.deviceFormat.normalized;
      d.Kept(x) == x <==> InRange(x) || (d.muteThreshold <= 0.0 && !(unlimited && limits))
  {
  }

  /** Whatever limitFrame leaves when it clips is in range, so that a cast to short fits. */
  lemma ClippedFits(d: Device, x: real)
    requires d.DoesClipping()
    ensures InRange(d.Kept(x)) && -0x8000 <= d.Kept(x).Floor <= 0x7fff
  {
  }

  /** The contents of a shared frame buffer. */
  ghost function Contents(frame: array2<real>): (rows: seq<seq<real>>)
    reads frame
    ensures |rows| == frame.Length0
    ensures forall c :: 0 <= c < |rows| ==>
      |rows[c]| == frame.Length1 && forall n :: 0 <= n < frame.Length1 ==> rows[c][n] == frame[c, n]
  {
    seq(frame.Length0, c requires 0 <= c < frame.Length0 reads frame => Row(frame, c, frame.Length1))
  }

  /** DualOutputAudioDevice::sendFrames: both devices limit one buffer in place, the file first when
      its format needs no limiting.  Returned are the buffers each was given to convert, and firstOk
      says that the first device took all frames. */
  method DualSendFrames(hw: Device, file: Device, fileDoesLimiting: bool, frame: array2<real>,
                        hwStart: int, fileStart: int, firstOk: bool)
    returns (ghost toHw: seq<seq<real>>, ghost toFile: seq<seq<real>>, sentBoth: bool)
    requires hw.Valid() && file.Valid() && hw.peaks != file.peaks && hw.peakLocs != file.peakLocs
    requires frame.Length0 == hw.peaks.Length == file.peaks.Length
    // As create_audio_devices and create_audio_file_device open the two devices for playback.
    requires !Clips(hw.frameFormat) && hw.deviceFormat.normalized
    requires file.frameFormat.clipped && file.muteThreshold == 0.0
    modifies frame, hw.peaks, hw.peakLocs, file.peaks, file.peakLocs
    ensures sentBoth == firstOk
    ensures fileDoesLimiting && sentBoth ==>
      forall c, n :: 0 <= c < |toFile| && 0 <= n < |toFile[c]| ==> InRange(toFile[c][n])
    ensures !fileDoesLimiting ==> toFile == old(Contents(frame))
    ensures fileDoesLimiting || sentBoth ==>
      forall c, n :: 0 <= c < |toHw| && 0 <= n < |toHw[c]| ==> InRange(toHw[c][n])
    ensures fileDoesLimiting && sentBoth ==> toFile == toHw
  {
    toHw, toFile, sentBoth := [], [], firstOk;
    ghost var before := Contents(frame);
    if fileDoesLimiting {
      hw.LimitFrame(frame, frame.Length1, hwStart);
      toHw := Contents(frame);
      if firstOk {
        file.LimitFrame(frame, frame.Length1, fileStart);
        toFile := Contents(frame);
        assert forall c :: 0 <= c < |toHw| ==> toFile[c] == toHw[c];
      }
    } else {
      file.LimitFrame(frame, frame.Length1, fileStart);
      toFile := Contents(frame);
      assert forall c :: 0 <= c < |before| ==> toFile[c] == before[c];
      if firstOk {
        hw.LimitFrame(frame, frame.Length1, hwStart);
        toHw := Contents(frame);
      }
    }
  }
}
