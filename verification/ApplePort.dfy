/** AppleAudioDevice's Port: the serially ordered, non-interleaved circular buffers in one
    flat array.  Every method is proved against the ring operation that specifies it. */
module ApplePort {
  import opened PortRing

  /** Streams lie one after another: s starts at s * frames, and no two overlap. */
  lemma StreamPlace(s: nat, t: nat, count: nat, frames: nat)
    requires s < count && t < count
    ensures s * frames + frames <= count * frames
    ensures s < t ==> s * frames + frames <= t * frames
  {
    MulMonotone(s + 1, count, frames);
    if s < t {
      MulMonotone(s + 1, t, frames);
    }
  }

  lemma MulMonotone(a: nat, b: nat, c: nat)
    requires a <= b
    ensures a * c <= b * c
  {
  }

  ghost function Slice(flat: seq<real>, frames: nat, count: nat, s: nat): (b: seq<real>)
    requires |flat| == count * frames && s < count
    ensures |b| == frames
  {
    StreamPlace(s, s, count, frames);
    flat[s * frames..s * frames + frames]
  }

  ghost function Slices(flat: seq<real>, frames: nat, count: nat): (b: seq<seq<real>>)
    requires |flat| == count * frames
    ensures |b| == count
  {
    seq(count, s requires 0 <= s < count => Slice(flat, frames, count, s))
  }

  /** A change inside one stream leaves the other streams alone. */
  lemma OtherSlice(flat: seq<real>, flat': seq<real>, frames: nat, count: nat, s: nat, t: nat)
    requires |flat| == |flat'| == count * frames && s < count && t < count && s != t
    requires forall k :: 0 <= k < |flat| && !(s * frames <= k < s * frames + frames) ==> flat'[k] == flat[k]
    ensures Slice(flat', frames, count, t) == Slice(flat, frames, count, t)
  {
    StreamPlace(s, t, count, frames);
    StreamPlace(t, s, count, frames);
  }

  class Port {
    const streamCount: nat
    const audioBufFrames: nat
    const audioBuffer: array<real>
    var inLoc: nat
    var outLoc: nat
    var audioBufFilled: nat

    ghost predicate Valid()
      reads this
    {
      && streamCount > 0 && audioBufFrames > 0
      && audioBuffer.Length == streamCount * audioBufFrames
      && inLoc <= audioBufFrames && outLoc <= audioBufFrames
    }

    ghost function State(): (r: Ring)
      requires Valid()
      reads this, audioBuffer
      ensures Formed(r)
    {
      Ring(audioBufFrames, Slices(audioBuffer[..], audioBufFrames, streamCount), inLoc, outLoc, audioBufFilled)
    }

    /** The buffer set-up of doSetQueueSize: zeroed buffers, filled for recording only. */
    constructor (streams: nat, deviceFrames: nat, count: nat, recording: bool)
      requires streams > 0 && deviceFrames > 0 && count > 0
      ensures Valid() && fresh(audioBuffer)
      ensures streamCount == streams && audioBufFrames == count * deviceFrames
      ensures inLoc == outLoc == 0 && audioBufFilled == if recording then count * deviceFrames else 0
      ensures forall k :: 0 <= k < audioBuffer.Length ==> audioBuffer[k] == 0.0
    {
      streamCount, audioBufFrames := streams, count * deviceFrames;
      inLoc, outLoc := 0, 0;
      audioBufFilled := if recording then count * deviceFrames else 0;
      audioBuffer := new real[streams * (count * deviceFrames)](_ => 0.0);
      MulMonotone(1, count, deviceFrames);
    }

    lemma Located()
      requires Valid()
      ensures audioBufFrames > 0 && inLoc <= audioBufFrames && outLoc <= audioBufFrames
    {
    }

    /** One frame stored in the stream whose buffer starts at base. */
    method StoreFrame(base: nat, loc: nat, x: real)
      requires base + audioBufFrames <= audioBuffer.Length && loc < audioBufFrames
      modifies audioBuffer
      ensures audioBuffer[base..base + audioBufFrames] == old(audioBuffer[base..base + audioBufFrames])[loc := x]
      ensures forall k :: 0 <= k < audioBuffer.Length && k != base + loc ==> audioBuffer[k] == old(audioBuffer[k])
    {
      audioBuffer[base + loc] := x;
    }

    /** The frame loop of sendFrames, for the stream whose buffer starts at base. */
    method SendRange(base: nat, stream: nat, data: seq<seq<real>>, frameCount: nat) returns (loc: nat)
      requires Valid() && base + audioBufFrames <= audioBuffer.Length
      requires forall c :: 0 <= c < |data| ==> |data[c]| == frameCount
      modifies audioBuffer
      ensures loc == After(inLoc, frameCount, audioBufFrames)
      ensures audioBuffer[base..base + audioBufFrames]
           == Write(old(audioBuffer[base..base + audioBufFrames]), inLoc, Channel(data, frameCount, stream))
      ensures forall k :: 0 <= k < audioBuffer.Length && !(base <= k < base + audioBufFrames) ==>
        audioBuffer[k] == old(audioBuffer[k])
    {
      hide *;
      Located();
      var n := audioBufFrames;
      ghost var was, vals := audioBuffer[base..base + n], Channel(data, frameCount, stream);
      StartOfWalk(was, inLoc, vals, n);
      loc := inLoc;
      for i := 0 to frameCount
        invariant loc == After(inLoc, i, n) <= n
        invariant audioBuffer[base..base + n] == Write(was, inLoc, vals[..i])
        invariant forall k :: 0 <= k < audioBuffer.Length && !(base <= k < base + n) ==>
          audioBuffer[k] == old(audioBuffer[k])
      {
        AfterStep(inLoc, i, n);
        WriteOneMore(was, inLoc, vals, i);
        ChannelAt(data, frameCount, stream, i);
        if loc >= n {
          loc := loc - n;
        }
        StoreFrame(base, loc, if stream < |data| then data[stream][i] else 0.0);
        loc := loc + 1;
      }
      assert vals[..frameCount] == vals;
    }

    /** sendFrames for one stream: the others keep their frames. */
    method SendStream(stream: nat, data: seq<seq<real>>, frameCount: nat) returns (loc: nat)
      requires Valid() && stream < streamCount
      requires forall c :: 0 <= c < |data| ==> |data[c]| == frameCount
      modifies audioBuffer
      ensures loc == After(inLoc, frameCount, audioBufFrames)
      ensures Slice(audioBuffer[..], audioBufFrames, streamCount, stream)
           == Write(old(Slice(audioBuffer[..], audioBufFrames, streamCount, stream)),
                    inLoc, Channel(data, frameCount, stream))
      ensures forall t :: 0 <= t < streamCount && t != stream ==>
        Slice(audioBuffer[..], audioBufFrames, streamCount, t)
        == old(Slice(audioBuffer[..], audioBufFrames, streamCount, t))
    {
      hide Write, After;
      StreamPlace(stream, stream, streamCount, audioBufFrames);
      var base := stream * audioBufFrames;
      ghost var before := audioBuffer[..];
      assert audioBuffer[base..base + audioBufFrames] == Slice(before, audioBufFrames, streamCount, stream);
      loc := SendRange(base, stream, data, frameCount);
      assert audioBuffer[base..base + audioBufFrames] == Slice(audioBuffer[..], audioBufFrames, streamCount, stream);
      forall t | 0 <= t < streamCount && t != stream
        ensures Slice(audioBuffer[..], audioBufFrames, streamCount, t) == Slice(before, audioBufFrames, streamCount, t)
      {
        OtherSlice(before, audioBuffer[..], audioBufFrames, streamCount, stream, t);
      }
    }

    /** sendFrames: no check that the frames fit. */
    method SendFrames(data: seq<seq<real>>, frameCount: nat) returns (sent: nat)
      requires Valid() && forall c :: 0 <= c < |data| ==> |data[c]| == frameCount
      modifies this`inLoc, this`audioBufFilled, audioBuffer
      ensures Valid() && sent == frameCount
      ensures State() == Send(old(State()), data, frameCount)
    {
      ghost var before := audioBuffer[..];
      var loc := 0;
      for stream := 0 to streamCount
        invariant Valid() && inLoc == old(inLoc) && audioBufFilled == old(audioBufFilled)
        invariant stream > 0 ==> loc == After(inLoc, frameCount, audioBufFrames)
        invariant forall s :: 0 <= s < streamCount ==>
          Slice(audioBuffer[..], audioBufFrames, streamCount, s) ==
            if s < stream then Write(Slice(before, audioBufFrames, streamCount, s), inLoc, Channel(data, frameCount, s))
            else Slice(before, audioBufFrames, streamCount, s)
      {
        loc := SendStream(stream, data, frameCount);
      }
      audioBufFilled := audioBufFilled + frameCount;
      AfterIsSameSlot(inLoc, frameCount, audioBufFrames);
      inLoc := loc;
      sent := frameCount;
      assert State().streams == Send(old(State()), data, frameCount).streams;
    }

    /** The frame loop that takes frames out, for the stream whose buffer starts at base.
        getFrames and the render callback wrap alike, a location at the end going back to 0. */
    method TakeRange(base: nat, frame: array2<real>, row: nat, count: nat) returns (loc: nat)
      requires Valid() && base + audioBufFrames <= audioBuffer.Length
      requires row < frame.Length0 && count <= frame.Length1
      modifies frame
      ensures loc == After(outLoc, count, audioBufFrames)
      ensures forall k :: 0 <= k < count ==>
        frame[row, k] == Read(audioBuffer[base..base + audioBufFrames], outLoc, count)[k]
      ensures forall c, k :: 0 <= c < frame.Length0 && 0 <= k < frame.Length1 && c != row ==>
        frame[c, k] == old(frame[c, k])
    {
      var n := audioBufFrames;
      hide *;
      Located();
      ghost var buf := audioBuffer[base..base + n];
      StartOfWalk(buf, outLoc, [], n);
      loc := outLoc;
      for i := 0 to count
        invariant loc == After(outLoc, i, n) <= n
        invariant forall k :: 0 <= k < i ==> frame[row, k] == buf[Wrap(outLoc + k, n)]
        invariant forall c, k :: 0 <= c < frame.Length0 && 0 <= k < frame.Length1 && c != row ==>
          frame[c, k] == old(frame[c, k])
      {
        AfterStep(outLoc, i, n);
        if loc >= n {
          loc := loc - n;
        }
        frame[row, i] := audioBuffer[base + loc];
        loc := loc + 1;
      }
      ReadAt(buf, outLoc, count);
    }

    /** The rows c0 up to c1 of the caller's frames, taken from the first streams. */
    method TakeStreams(frame: array2<real>, count: nat, streams: nat) returns (loc: nat)
      requires Valid() && streams <= streamCount && streams <= frame.Length0 && count <= frame.Length1
      modifies frame
      ensures streams > 0 ==> loc == After(outLoc, count, audioBufFrames)
      ensures streams == 0 ==> loc == 0
      ensures forall c, k :: 0 <= c < streams && 0 <= k < count ==>
        frame[c, k] == Read(State().streams[c], outLoc, count)[k]
    {
      hide After, Read;
      loc := 0;
      for stream := 0 to streams
        invariant loc == if stream == 0 then 0 else After(outLoc, count, audioBufFrames)
        invariant forall c, k :: 0 <= c < stream && 0 <= k < count ==>
          frame[c, k] == Read(State().streams[c], outLoc, count)[k]
      {
        StreamPlace(stream, stream, streamCount, audioBufFrames);
        var base := stream * audioBufFrames;
        assert audioBuffer[base..base + audioBufFrames] == State().streams[stream];
        loc := TakeRange(base, frame, stream, count);
      }
    }

    /** getFrames: the source asserts that the frames are there. */
    method GetFrames(frame: array2<real>, inFrameCount: nat) returns (got: nat)
      requires Valid() && inFrameCount <= audioBufFilled
      requires inFrameCount <= frame.Length1
      modifies this`outLoc, this`audioBufFilled, frame
      ensures Valid() && got == inFrameCount
      ensures State() == Get(old(State()), inFrameCount, frame.Length0).1
      ensures forall c, k :: 0 <= c < frame.Length0 && 0 <= k < inFrameCount ==>
        frame[c, k] == Get(old(State()), inFrameCount, frame.Length0).0[c][k]
    {
      hide After;
      ghost var r := State();
      var inFrameChans := frame.Length0;
      var streamsToCopy := if inFrameChans < streamCount then inFrameChans else streamCount;
      var bufLoc := TakeStreams(frame, inFrameCount, streamsToCopy);
      for stream := streamsToCopy to inFrameChans
        invariant Valid() && outLoc == old(outLoc) && audioBufFilled == old(audioBufFilled)
        invariant forall c, k :: 0 <= c < stream && 0 <= k < inFrameCount ==>
          frame[c, k] == Get(r, inFrameCount, inFrameChans).0[c][k]
      {
        ghost var was := Get(r, inFrameCount, inFrameChans).0;
        assert was[stream] == Zeros(inFrameCount);
        forall k | 0 <= k < inFrameCount {
          frame[stream, k] := 0.0;
        }
        assert forall k :: 0 <= k < inFrameCount ==> frame[stream, k] == was[stream][k];
      }
      AfterIsSameSlot(outLoc, inFrameCount, audioBufFrames);
      outLoc := bufLoc;
      audioBufFilled := audioBufFilled - inFrameCount;
      got := inFrameCount;
    }

    /** The underflow branch of the render callback. */
    method Silence(framesToWrite: nat)
      requires Valid()
      modifies this`audioBufFilled, audioBuffer
      ensures Valid() && State() == Silenced(old(State()), framesToWrite)
    {
      forall k | 0 <= k < audioBuffer.Length {
        audioBuffer[k] := 0.0;
      }
      audioBufFilled := audioBufFilled + framesToWrite;
      forall s | 0 <= s < streamCount
        ensures Slice(audioBuffer[..], audioBufFrames, streamCount, s) == Zeros(audioBufFrames)
      {
        StreamPlace(s, s, streamCount, audioBufFrames);
      }
      assert State().streams == Silenced(old(State()), framesToWrite).streams;
    }

    /** The playback section of audioUnitRenderCallback, while it holds the lock. */
    method PlayFrames(dest: array2<real>, framesToWrite: nat)
      requires Valid() && dest.Length0 == streamCount && framesToWrite <= dest.Length1
      modifies this`outLoc, this`audioBufFilled, audioBuffer, dest
      ensures Valid() && State() == Play(old(State()), framesToWrite).1
      ensures forall s, k :: 0 <= s < streamCount && 0 <= k < framesToWrite ==>
        dest[s, k] == Play(old(State()), framesToWrite).0[s][k]
    {
      if audioBufFilled < framesToWrite {
        Silence(framesToWrite);
      }
      TakeAll(dest, framesToWrite);
    }

    /** The copying part of the playback section. */
    method TakeAll(dest: array2<real>, framesToWrite: nat)
      requires Valid() && dest.Length0 == streamCount && framesToWrite <= dest.Length1
      requires framesToWrite <= audioBufFilled
      modifies this`outLoc, this`audioBufFilled, dest
      ensures Valid() && State() == Get(old(State()), framesToWrite, streamCount).1
      ensures forall s, k :: 0 <= s < streamCount && 0 <= k < framesToWrite ==>
        dest[s, k] == Get(old(State()), framesToWrite, streamCount).0[s][k]
    {
      hide After, Read;
      var bufLoc := TakeStreams(dest, framesToWrite, streamCount);
      AfterIsSameSlot(outLoc, framesToWrite, audioBufFrames);
      audioBufFilled := audioBufFilled - framesToWrite;
      outLoc := bufLoc;
    }

    /** audioUnitInputCallback: the hardware fills the slices that setBufferList points at
        inLoc of each stream, then the input location moves on, wrapping at the end. */
    method RecordFrames(data: seq<seq<real>>, inNumberFrames: nat)
      requires Valid() && inLoc + inNumberFrames <= audioBufFrames
      requires |data| == streamCount && forall c :: 0 <= c < |data| ==> |data[c]| == inNumberFrames
      modifies this`inLoc, this`audioBufFilled, audioBuffer
      ensures Valid() && State() == Record(old(State()), data, inNumberFrames)
    {
      ghost var before := audioBuffer[..];
      var n := audioBufFrames;
      hide Slice;
      for stream := 0 to streamCount
        invariant Valid() && inLoc == old(inLoc) && audioBufFilled == old(audioBufFilled)
        invariant forall s :: 0 <= s < streamCount ==>
          Slice(audioBuffer[..], n, streamCount, s) ==
            if s < stream then Recorded(Slice(before, n, streamCount, s), inLoc, data[s])
            else Slice(before, n, streamCount, s)
      {
        RecordStream(stream, data[stream]);
      }
      audioBufFilled := audioBufFilled + inNumberFrames;
      WrapIsMod(inLoc + inNumberFrames, n);
      inLoc := (inLoc + inNumberFrames) % n;
      assert State().streams == Record(old(State()), data, inNumberFrames).streams;
    }

    method RecordStream(stream: nat, vals: seq<real>)
      requires Valid() && stream < streamCount && inLoc + |vals| <= audioBufFrames
      modifies audioBuffer
      ensures Slice(audioBuffer[..], audioBufFrames, streamCount, stream)
           == Recorded(old(Slice(audioBuffer[..], audioBufFrames, streamCount, stream)), inLoc, vals)
      ensures forall t :: 0 <= t < streamCount && t != stream ==>
        Slice(audioBuffer[..], audioBufFrames, streamCount, t)
        == old(Slice(audioBuffer[..], audioBufFrames, streamCount, t))
    {
      StreamPlace(stream, stream, streamCount, audioBufFrames);
      var mData := stream * audioBufFrames + inLoc;
      ghost var before := audioBuffer[..];
      forall k | 0 <= k < |vals| {
        audioBuffer[mData + k] := vals[k];
      }
      forall t | 0 <= t < streamCount && t != stream
        ensures Slice(audioBuffer[..], audioBufFrames, streamCount, t) == Slice(before, audioBufFrames, streamCount, t)
      {
        OtherSlice(before, audioBuffer[..], audioBufFrames, streamCount, stream, t);
      }
    }
  }

  ghost function Recorded(b: seq<real>, loc: nat, vals: seq<real>): (r: seq<real>)
    requires loc + |vals| <= |b|
    ensures |r| == |b|
  {
    b[..loc] + vals + b[loc + |vals|..]
  }

  lemma ChannelAt(data: seq<seq<real>>, count: nat, s: nat, i: nat)
    requires (forall c :: 0 <= c < |data| ==> |data[c]| == count) && i < count
    ensures Channel(data, count, s)[i] == if s < |data| then data[s][i] else 0.0
  {
  }

  lemma StartOfWalk(buf: seq<real>, loc: nat, vals: seq<real>, n: nat)
    requires n > 0 && |buf| > 0
    ensures After(loc, 0, n) == loc && Write(buf, loc, vals[..0]) == buf
  {
  }
}
