/** The multi-stream circular buffer of one direction of the Apple device, as a value:
    what its four operations do, and that together they are a FIFO queue per stream. */
module PortRing {
  import Modular

  /** a mod n, by subtraction, as the source wraps its buffer locations. */
  function Wrap(a: nat, n: nat): (w: nat)
    requires n > 0
    ensures w < n
  {
    if a < n then a else Wrap(a - n, n)
  }

  lemma {:induction false} WrapIsMod(a: nat, n: nat)
    requires n > 0
    ensures Wrap(a, n) == a % n
  {
    if a >= n {
      WrapIsMod(a - n, n);
      Modular.SameRemainder(a, -1, n);
      assert a + -1 * n == a - n;
    } else {
      Modular.UniqueRemainder(a, 0, a, n);
    }
  }

  lemma {:induction false} WrapAdd(a: nat, b: nat, n: nat)
    requires n > 0
    ensures Wrap(Wrap(a, n) + b, n) == Wrap(a + b, n)
  {
    if a >= n {
      WrapAdd(a - n, b, n);
      assert a - n + b == a + b - n;
    }
  }

  lemma {:induction false} WrapDistinct(a: nat, b: nat, n: nat)
    requires n > 0 && a < b < a + n
    ensures Wrap(a, n) != Wrap(b, n)
  {
    if a >= n {
      WrapDistinct(a - n, b - n, n);
    }
  }

  lemma {:induction false} WrapOnce(a: nat, n: nat)
    requires n > 0
    ensures Wrap(a + n, n) == Wrap(a, n)
  {
  }

  /** Locations that mean the same slot keep meaning the same slot. */
  lemma SameSlot(a: nat, b: nat, k: nat, n: nat)
    requires n > 0 && Wrap(a, n) == Wrap(b, n)
    ensures Wrap(a + k, n) == Wrap(b + k, n)
  {
    WrapAdd(a, k, n);
    WrapAdd(b, k, n);
  }

  /** The location after `count` frames.  The source wraps before a frame, not after it,
      so a location may rest at n itself. */
  function After(loc: nat, count: nat, n: nat): (l: nat)
    requires n > 0
  {
    if count == 0 then loc else Wrap(loc + count - 1, n) + 1
  }

  lemma AfterIsSameSlot(loc: nat, count: nat, n: nat)
    requires n > 0
    ensures Wrap(After(loc, count, n), n) == Wrap(loc + count, n)
    ensures loc <= n ==> After(loc, count, n) <= n
  {
    if count > 0 {
      WrapAdd(loc + count - 1, 1, n);
    }
  }

  /** One step of the wrapping walk. */
  lemma AfterStep(loc: nat, count: nat, n: nat)
    requires n > 0 && loc <= n
    ensures
      var l := After(loc, count, n);
      var at := if l >= n then l - n else l;
      at == Wrap(loc + count, n) && at + 1 == After(loc, count + 1, n)
  {
    AfterIsSameSlot(loc, count, n);
  }

  /** The buffer after vals are written from loc on. */
  function Write(buf: seq<real>, loc: nat, vals: seq<real>): (r: seq<real>)
    requires |buf| > 0
    ensures |r| == |buf|
  {
    if vals == [] then buf
    else
      var k := |vals| - 1;
      Write(buf, loc, vals[..k])[Wrap(loc + k, |buf|) := vals[k]]
  }

  lemma WriteOneMore(buf: seq<real>, loc: nat, vals: seq<real>, i: nat)
    requires |buf| > 0 && i < |vals|
    ensures Write(buf, loc, vals[..i + 1]) == Write(buf, loc, vals[..i])[Wrap(loc + i, |buf|) := vals[i]]
  {
    assert vals[..i + 1][..i] == vals[..i];
  }

  /** n frames read from loc on. */
  function Read(buf: seq<real>, loc: nat, n: nat): (vals: seq<real>)
    requires |buf| > 0
    ensures |vals| == n
  {
    seq(n, k requires 0 <= k < n => buf[Wrap(loc + k, |buf|)])
  }

  lemma ReadAt(buf: seq<real>, loc: nat, n: nat)
    requires |buf| > 0
    ensures forall k :: 0 <= k < n ==> Read(buf, loc, n)[k] == buf[Wrap(loc + k, |buf|)]
  {
  }

  /** Frames read from an equivalent location are the same. */
  lemma ReadSameSlot(buf: seq<real>, a: nat, b: nat, n: nat)
    requires |buf| > 0 && Wrap(a, |buf|) == Wrap(b, |buf|)
    ensures Read(buf, a, n) == Read(buf, b, n)
  {
    forall k | 0 <= k < n ensures Read(buf, a, n)[k] == Read(buf, b, n)[k] {
      SameSlot(a, b, k, |buf|);
    }
  }

  /** Writing the next frames after the `held` frames read from `out` leaves those frames
      alone and makes the new ones readable after them, while all fit. */
  lemma {:induction false} WriteExtendsRead(buf: seq<real>, out: nat, held: nat, vals: seq<real>)
    requires |buf| > 0 && held + |vals| <= |buf|
    ensures Read(Write(buf, out + held, vals), out, held + |vals|) == Read(buf, out, held) + vals
    decreases |vals|
  {
    if vals != [] {
      var k, n := |vals| - 1, |buf|;
      var w := Write(buf, out + held, vals[..k]);
      var at := out + held + k;
      WriteExtendsRead(buf, out, held, vals[..k]);
      forall i | 0 <= i < held + |vals|
        ensures Read(w[Wrap(at, n) := vals[k]], out, held + |vals|)[i] == (Read(buf, out, held) + vals)[i]
      {
        if i < held + k {
          WrapDistinct(out + i, at, n);
          assert Read(w, out, held + k)[i] == (Read(buf, out, held) + vals[..k])[i];
        } else {
          assert out + i == at;
        }
      }
    }
  }

  lemma WriteSameSlot(buf: seq<real>, a: nat, b: nat, vals: seq<real>)
    requires |buf| > 0 && Wrap(a, |buf|) == Wrap(b, |buf|)
    ensures Write(buf, a, vals) == Write(buf, b, vals)
    decreases |vals|
  {
    if vals != [] {
      var k := |vals| - 1;
      WriteSameSlot(buf, a, b, vals[..k]);
      SameSlot(a, b, k, |buf|);
    }
  }

  // ---- The ring --------------------------------------------------------------

  /** One buffer per stream, with locations and a fill count they all share. */
  datatype Ring = Ring(frames: nat, streams: seq<seq<real>>, inLoc: nat, outLoc: nat, filled: nat)

  ghost predicate Formed(r: Ring) {
    && r.frames > 0 && |r.streams| > 0
    && (forall s :: 0 <= s < |r.streams| ==> |r.streams[s]| == r.frames)
    && r.inLoc <= r.frames && r.outLoc <= r.frames
  }

  /** The fill count agrees with the locations, modulo the buffer length. */
  ghost predicate Aligned(r: Ring)
    requires Formed(r)
  {
    Wrap(r.outLoc + r.filled, r.frames) == Wrap(r.inLoc, r.frames)
  }

  /** The frames of a stream that wait to be taken out, oldest first. */
  ghost function Queue(r: Ring, s: nat): (q: seq<real>)
    requires Formed(r) && s < |r.streams|
    ensures |q| == r.filled
  {
    Read(r.streams[s], r.outLoc, r.filled)
  }

  function Zeros(n: nat): (z: seq<real>)
    ensures |z| == n && forall k :: 0 <= k < n ==> z[k] == 0.0
  {
    seq(n, k => 0.0)
  }

  /** What stream s receives from `chans` channels of count frames. */
  function Channel(data: seq<seq<real>>, count: nat, s: nat): (vals: seq<real>)
    requires forall c :: 0 <= c < |data| ==> |data[c]| == count
    ensures |vals| == count
  {
    if s < |data| then data[s] else Zeros(count)
  }

  /** Port::sendFrames. */
  ghost function Send(r: Ring, data: seq<seq<real>>, count: nat): (r': Ring)
    requires Formed(r) && forall c :: 0 <= c < |data| ==> |data[c]| == count
    ensures Formed(r')
  {
    AfterIsSameSlot(r.inLoc, count, r.frames);
    r.(streams := seq(|r.streams|, s requires 0 <= s < |r.streams| =>
                        Write(r.streams[s], r.inLoc, Channel(data, count, s))),
       inLoc := After(r.inLoc, count, r.frames),
       filled := r.filled + count)
  }

  /** Port::getFrames: the frames handed to `chans` channels, and the ring left.  Without channels
      no stream is walked, and the location becomes the walk's initial 0. */
  ghost function Get(r: Ring, count: nat, chans: nat): (p: (seq<seq<real>>, Ring))
    requires Formed(r) && count <= r.filled
    ensures Formed(p.1) && |p.0| == chans && forall c :: 0 <= c < chans ==> |p.0[c]| == count
  {
    AfterIsSameSlot(r.outLoc, count, r.frames);
    (seq(chans, c requires 0 <= c < chans =>
           if c < |r.streams| then Read(r.streams[c], r.outLoc, count) else Zeros(count)),
     r.(outLoc := if chans == 0 then 0 else After(r.outLoc, count, r.frames), filled := r.filled - count))
  }

  /** The playback half of audioUnitRenderCallback: on underflow every buffer is zeroed and
      counted as filled first; then every stream hands over count frames. */
  ghost function Play(r: Ring, count: nat): (p: (seq<seq<real>>, Ring))
    requires Formed(r)
    ensures Formed(p.1) && |p.0| == |r.streams| && forall s :: 0 <= s < |p.0| ==> |p.0[s]| == count
  {
    if r.filled < count then Get(Silenced(r, count), count, |r.streams|)
    else Get(r, count, |r.streams|)
  }

  ghost function Silenced(r: Ring, count: nat): (r': Ring)
    requires Formed(r)
    ensures Formed(r')
  {
    var silent := seq(|r.streams|, s requires 0 <= s < |r.streams| => Zeros(r.frames));
    assert forall s :: 0 <= s < |r.streams| ==> silent[s] == Zeros(r.frames);
    r.(streams := silent, filled := r.filled + count)
  }

  /** The record half of audioUnitInputCallback: the hardware writes count contiguous frames
      at inLoc of each stream. */
  ghost function Record(r: Ring, data: seq<seq<real>>, count: nat): (r': Ring)
    requires Formed(r) && r.inLoc + count <= r.frames
    requires |data| == |r.streams| && forall c :: 0 <= c < |data| ==> |data[c]| == count
    ensures Formed(r')
  {
    r.(streams := seq(|r.streams|, s requires 0 <= s < |r.streams| =>
                        r.streams[s][..r.inLoc] + data[s] + r.streams[s][r.inLoc + count..]),
       inLoc := Wrap(r.inLoc + count, r.frames),
       filled := r.filled + count)
  }

  /** What each operation does to the counts and locations. */
  lemma Counts(r: Ring, data: seq<seq<real>>, count: nat, chans: nat)
    requires Formed(r) && forall c :: 0 <= c < |data| ==> |data[c]| == count
    ensures
      var r' := Send(r, data, count);
      r'.frames == r.frames && |r'.streams| == |r.streams| && r'.filled == r.filled + count && r'.outLoc == r.outLoc
    ensures count <= r.filled ==>
      var r' := Get(r, count, chans).1;
      r'.frames == r.frames && r'.streams == r.streams && r'.filled == r.filled - count && r'.inLoc == r.inLoc
    ensures
      var r' := Play(r, count).1;
      r'.frames == r.frames && |r'.streams| == |r.streams| && r'.inLoc == r.inLoc
      && r'.filled == if r.filled < count then r.filled else r.filled - count
    ensures r.inLoc + count <= r.frames && |data| == |r.streams| ==>
      var r' := Record(r, data, count);
      r'.frames == r.frames && |r'.streams| == |r.streams| && r'.filled == r.filled + count
      && r'.outLoc == r.outLoc && r'.inLoc == Wrap(r.inLoc + count, r.frames)
  {
  }

  // ---- FIFO --------------------------------------------------------------------

  /** Without overflow, sending appends each channel's frames to its stream's queue. */
  lemma SendIsEnqueue(r: Ring, data: seq<seq<real>>, count: nat, s: nat)
    requires Formed(r) && Aligned(r) && forall c :: 0 <= c < |data| ==> |data[c]| == count
    requires r.filled + count <= r.frames && s < |r.streams|
    ensures Aligned(Send(r, data, count))
    ensures Queue(Send(r, data, count), s) == Queue(r, s) + Channel(data, count, s)
    ensures Channel(data, count, s) == if s < |data| then data[s] else seq(count, _ => 0.0)
  {
    var vals := Channel(data, count, s);
    AfterIsSameSlot(r.inLoc, count, r.frames);
    SameSlot(r.outLoc + r.filled, r.inLoc, count, r.frames);
    WriteSameSlot(r.streams[s], r.inLoc, r.outLoc + r.filled, vals);
    WriteExtendsRead(r.streams[s], r.outLoc, r.filled, vals);
    assert r.outLoc + (r.filled + count) == r.outLoc + r.filled + count;
  }

  /** Reading on from where the last read stopped. */
  lemma ReadSplits(buf: seq<real>, loc: nat, held: nat, count: nat)
    requires |buf| > 0 && count <= held
    ensures Read(buf, loc, count) == Read(buf, loc, held)[..count]
    ensures Read(buf, After(loc, count, |buf|), held - count) == Read(buf, loc, held)[count..]
  {
    AfterIsSameSlot(loc, count, |buf|);
    ReadSameSlot(buf, After(loc, count, |buf|), loc + count, held - count);
    forall k | 0 <= k < held - count
      ensures Read(buf, loc + count, held - count)[k] == Read(buf, loc, held)[count..][k]
    {
      assert loc + count + k == loc + (count + k);
    }
  }

  lemma AlignedAfter(r: Ring, count: nat)
    requires Formed(r) && Aligned(r) && count <= r.filled
    ensures Wrap(After(r.outLoc, count, r.frames) + (r.filled - count), r.frames) == Wrap(r.inLoc, r.frames)
  {
    AfterIsSameSlot(r.outLoc, count, r.frames);
    SameSlot(After(r.outLoc, count, r.frames), r.outLoc + count, r.filled - count, r.frames);
  }

  /** Getting frames takes the oldest off every queue. */
  lemma GetIsDequeue(r: Ring, count: nat, chans: nat, s: nat)
    requires Formed(r) && Aligned(r) && count <= r.filled && chans > 0 && s < |r.streams|
    ensures Aligned(Get(r, count, chans).1)
    ensures Queue(Get(r, count, chans).1, s) == Queue(r, s)[count..]
    ensures s < chans ==> Get(r, count, chans).0[s] == Queue(r, s)[..count]
    ensures forall c, k :: |r.streams| <= c < chans && 0 <= k < count ==> Get(r, count, chans).0[c][k] == 0.0
  {
    AlignedAfter(r, count);
    ReadSplits(r.streams[s], r.outLoc, r.filled, count);
    assert forall c :: |r.streams| <= c < chans ==> Get(r, count, chans).0[c] == Zeros(count);
  }

  lemma WrapKeeps(a: nat, b: nat, n: nat)
    requires n > 0
    ensures Wrap(a + b, n) == Wrap(b, n) <==> Wrap(a, n) == 0
  {
    WrapAdd(a, b, n);
    WrapAdd(b, Wrap(a, n), n);
  }

  /** A caller with no channels makes the port lose its place, unless it was about to wrap. */
  lemma NoChannelsKeepsPlaceExactlyWhen(r: Ring, count: nat)
    requires Formed(r) && Aligned(r) && count <= r.filled
    ensures Aligned(Get(r, count, 0).1) <==> Wrap(r.outLoc + count, r.frames) == 0
  {
    WrapKeeps(r.outLoc + count, r.filled - count, r.frames);
    assert r.outLoc + count + (r.filled - count) == r.outLoc + r.filled;
  }

  /** Without underflow, playback takes the oldest frames off every queue. */
  lemma PlayIsDequeue(r: Ring, count: nat, s: nat)
    requires Formed(r) && Aligned(r) && count <= r.filled && s < |r.streams|
    ensures Aligned(Play(r, count).1)
    ensures Queue(Play(r, count).1, s) == Queue(r, s)[count..]
    ensures Play(r, count).0[s] == Queue(r, s)[..count]
  {
    GetIsDequeue(r, count, |r.streams|, s);
  }

  lemma ReadZeros(n: nat, loc: nat, count: nat)
    requires n > 0
    ensures Read(Zeros(n), loc, count) == Zeros(count)
  {
    var zs, r := Zeros(n), Read(Zeros(n), loc, count);
    forall k | 0 <= k < count ensures r[k] == Zeros(count)[k] {
      assert r[k] == zs[Wrap(loc + k, n)];
    }
  }

  /** On underflow playback delivers silence, and the fill count stays what it was. */
  lemma UnderflowIsSilence(r: Ring, count: nat, s: nat)
    requires Formed(r) && r.filled < count && s < |r.streams|
    ensures Play(r, count).0[s] == Zeros(count)
    ensures Play(r, count).1.filled == r.filled
    ensures Queue(Play(r, count).1, s) == Zeros(r.filled)
  {
    assert Silenced(r, count).streams[s] == Zeros(r.frames);
    ReadZeros(r.frames, r.outLoc, count);
    ReadZeros(r.frames, After(r.outLoc, count, r.frames), r.filled);
  }

  /** A contiguous write is the wrapping write when it does not reach the end. */
  lemma {:induction false} ContiguousWrite(buf: seq<real>, loc: nat, vals: seq<real>)
    requires |buf| > 0 && loc + |vals| <= |buf|
    ensures Write(buf, loc, vals) == buf[..loc] + vals + buf[loc + |vals|..]
    decreases |vals|
  {
    if vals == [] {
      assert buf == buf[..loc] + vals + buf[loc..];
    } else {
      var k := |vals| - 1;
      ContiguousWrite(buf, loc, vals[..k]);
      assert Wrap(loc + k, |buf|) == loc + k;
      assert (buf[..loc] + vals[..k] + buf[loc + k..])[loc + k := vals[k]] == buf[..loc] + vals + buf[loc + |vals|..];
    }
  }

  /** Without overflow, recording appends the hardware's frames to every queue. */
  lemma RecordIsEnqueue(r: Ring, data: seq<seq<real>>, count: nat, s: nat)
    requires Formed(r) && Aligned(r) && r.inLoc + count <= r.frames && r.filled + count <= r.frames
    requires |data| == |r.streams| && forall c :: 0 <= c < |data| ==> |data[c]| == count
    requires s < |r.streams|
    ensures Aligned(Record(r, data, count))
    ensures Queue(Record(r, data, count), s) == Queue(r, s) + data[s]
  {
    SendIsEnqueue(r, data, count, s);
    ContiguousWrite(r.streams[s], r.inLoc, data[s]);
    AfterIsSameSlot(r.inLoc, count, r.frames);
    var r', r2 := Record(r, data, count), Send(r, data, count);
    WrapAdd(r.inLoc + count, 0, r.frames);
    assert r'.streams[s] == r2.streams[s];
  }
}
