/** The Apple device's hardware callbacks and render thread as interleaved steps over the two
    ports and the render semaphore, from the start that follows doSetQueueSize: locking on and a
    render thread.  The hardware may call in any order; where it matters that it calls the output
    callback first, the runs are those that are InTurn. */
module RenderProtocol {
  import Modular
  import opened PortRing

  /** One device buffer: a sequence of channels of `dev` frames each. */
  type Slice = seq<seq<real>>

  /** `count` device buffers of `dev` frames in each port; recording makes it full duplex. */
  datatype Config = Config(recording: bool, dev: nat, count: nat, recStreams: nat, playStreams: nat, frameChans: nat)

  ghost predicate Sound(c: Config) {
    c.dev > 0 && c.count > 0 && c.recStreams > 0 && c.playStreams > 0 && c.frameChans > 0
  }

  predicate IsSlice(d: Slice, dev: nat) {
    forall k :: 0 <= k < |d| ==> |d[k]| == dev
  }

  datatype Holder = Free | Thread | Input | Output

  /** Where the render thread is between one wait on the semaphore and the next. */
  datatype ThreadAt =
    Waiting | Woken | CopyingIn | Rendering | Rendered(slice: Slice) | CopyingOut(out: Slice) | Finished

  datatype InputAt = InputIdle | InputCopying | InputPosting
  datatype OutputAt = OutputIdle | OutputCopying | OutputPosting

  /** The device, and a history of the slices that passed through it. */
  datatype State = State(
    play: Ring, rec: Ring, playLock: Holder, recLock: Holder, tokens: nat, prerolls: nat,
    thread: ThreadAt, input: InputAt, output: OutputAt,
    rendered: seq<Slice>, delivered: seq<Slice>, recorded: seq<Slice>, pulled: seq<Slice>,
    underflowed: bool, overwrote: bool, overran: bool)

  datatype Event =
    | Preroll(data: Slice)        // doStart runs a slice itself
    | ThreadWakes                 // renderSema->wait() returns
    | ThreadLocksIn
    | ThreadGets
    | ThreadRenders(data: Slice)
    | ThreadLocksOut
    | ThreadSends(last: bool)     // and the run callback returns !last
    | InputTries
    | InputFills(data: Slice)
    | InputFails                  // AudioUnitRender reports an error
    | InputPosts
    | OutputTries
    | OutputPlays
    | OutputPosts

  ghost function EmptyRing(c: Config, streams: nat, filled: nat): (r: Ring)
    requires Sound(c)
    ensures streams > 0 ==> Formed(r)
  {
    var n := c.count * c.dev;
    assert n >= c.dev by { Times(c.count, 1, c.dev); }
    var silent := seq(streams, s requires 0 <= s < streams => Zeros(n));
    assert forall s :: 0 <= s < streams ==> silent[s] == Zeros(n);
    Ring(n, silent, 0, 0, filled)
  }

  lemma Times(a: nat, b: nat, dev: nat)
    requires a >= b
    ensures a * dev >= b * dev && (a + 1) * dev == a * dev + dev && 1 * dev == dev
    ensures dev > 0 && a > b ==> a * dev >= b * dev + dev
  {
    assert a * dev == (a - b) * dev + b * dev;
    if a > b {
      assert (a - b) * dev == (a - b - 1) * dev + dev;
    }
  }

  /** doSetQueueSize leaves the record port full of silence and one token in the semaphore;
      doStart then runs one slice fewer than the buffers hold. */
  ghost function Start(c: Config): (s: State)
    requires Sound(c)
  {
    State(EmptyRing(c, c.playStreams, 0), EmptyRing(c, c.recStreams, c.count * c.dev), Free, Free, 1, c.count - 1,
          Waiting, InputIdle, OutputIdle, [], [], [], [], false, false, false)
  }

  ghost predicate Enabled(c: Config, s: State, e: Event) {
    match e
    case Preroll(d) => s.prerolls > 0 && IsSlice(d, c.dev)
    case ThreadWakes => s.prerolls == 0 && s.thread.Waiting? && s.tokens > 0
    case ThreadLocksIn => s.thread.Woken? && c.recording && s.recLock.Free?
    case ThreadGets => s.thread.CopyingIn?
    case ThreadRenders(d) => IsSlice(d, c.dev) && (s.thread.Rendering? || (s.thread.Woken? && !c.recording))
    case ThreadLocksOut => s.thread.Rendered? && s.playLock.Free?
    case ThreadSends(_) => s.thread.CopyingOut?
    case InputTries => s.prerolls == 0 && c.recording && s.input.InputIdle?
    case InputFills(d) => s.input.InputCopying? && IsSlice(d, c.dev) && |d| == c.recStreams
    case InputFails => s.input.InputCopying?
    case InputPosts => s.input.InputPosting?
    case OutputTries => s.prerolls == 0 && s.output.OutputIdle?
    case OutputPlays => s.output.OutputCopying?
    case OutputPosts => s.output.OutputPosting?
  }

  /** The rings the steps need are well formed, and the input slice lies inside its buffer. */
  ghost predicate Ready(c: Config, s: State) {
    && Formed(s.play) && Formed(s.rec)
    && |s.rec.streams| == c.recStreams
    && s.rec.inLoc + c.dev <= s.rec.frames
    && (s.thread.Rendered? ==> IsSlice(s.thread.slice, c.dev))
    && (s.thread.CopyingOut? ==> IsSlice(s.thread.out, c.dev))
    && (s.thread.CopyingIn? ==> c.dev <= s.rec.filled)
    && (s.prerolls > 0 && c.recording ==> c.dev <= s.rec.filled)
  }

  ghost function Do(c: Config, s: State, e: Event): (s': State)
    requires Sound(c) && Ready(c, s) && Enabled(c, s, e)
  {
    match e
    case Preroll(d) =>
      var s1 := if c.recording then Pull(c, s) else s;
      Push(c, s1, d).(prerolls := s.prerolls - 1)
    case ThreadWakes =>
      s.(tokens := s.tokens - 1, thread := Woken)
    case ThreadLocksIn =>
      s.(recLock := Thread, thread := CopyingIn)
    case ThreadGets =>
      Pull(c, s).(recLock := Free, thread := Rendering)
    case ThreadRenders(d) =>
      s.(thread := Rendered(d))
    case ThreadLocksOut =>
      s.(playLock := Thread, thread := CopyingOut(s.thread.slice))
    case ThreadSends(last) =>
      Push(c, s, s.thread.out).(playLock := Free, thread := if last then Finished else Waiting)
    case InputTries =>
      if s.recLock.Free? then s.(recLock := Input, input := InputCopying) else s
    case InputFills(d) =>
      s.(rec := Record(s.rec, d, c.dev), recorded := s.recorded + [d], recLock := Free, input := InputPosting,
         overran := s.overran || s.rec.filled + c.dev > s.rec.frames)
    case InputFails =>
      s.(input := InputIdle)
    case InputPosts =>
      s.(tokens := s.tokens + 1, input := InputIdle)
    case OutputTries =>
      if s.playLock.Free? then s.(playLock := Output, output := OutputCopying) else s
    case OutputPlays =>
      var (out, play) := Play(s.play, c.dev);
      s.(play := play, delivered := s.delivered + [out], playLock := Free,
         output := if c.recording then OutputIdle else OutputPosting,
         underflowed := s.underflowed || s.play.filled < c.dev)
    case OutputPosts =>
      s.(tokens := s.tokens + 1, output := OutputIdle)
  }

  /** getFrames of one slice. */
  ghost function Pull(c: Config, s: State): (s': State)
    requires Sound(c) && Formed(s.rec) && c.dev <= s.rec.filled
  {
    var (got, rec) := Get(s.rec, c.dev, c.frameChans);
    s.(rec := rec, pulled := s.pulled + [got])
  }

  /** sendFrames of one slice. */
  ghost function Push(c: Config, s: State, d: Slice): (s': State)
    requires Formed(s.play) && IsSlice(d, c.dev)
  {
    s.(play := Send(s.play, d, c.dev), rendered := s.rendered + [d],
       overwrote := s.overwrote || s.play.filled + c.dev > s.play.frames)
  }

  // ---- Invariants ----------------------------------------------------------------

  /** Slices waiting in the play port, by the history. */
  function Queued(s: State): int { |s.rendered| - |s.delivered| }

  /** Slices waiting in the record port: it starts with `count` slices of silence. */
  function Pending(c: Config, s: State): int { c.count + |s.recorded| - |s.pulled| }

  function One(b: bool): nat { if b then 1 else 0 }

  /** A slice is under way from the semaphore to the play port. */
  predicate Busy(s: State) {
    s.thread.Woken? || s.thread.CopyingIn? || s.thread.Rendering? || s.thread.Rendered? || s.thread.CopyingOut?
  }

  /** Each lock is held by whoever is copying, and by nobody else. */
  predicate Exclusive(c: Config, s: State) {
    && (s.playLock.Thread? <==> s.thread.CopyingOut?)
    && (s.playLock.Output? <==> s.output.OutputCopying?)
    && !s.playLock.Input?
    && (s.recLock.Thread? <==> s.thread.CopyingIn?)
    && (s.input.InputCopying? ==> s.recLock.Input?)
    && !s.recLock.Output?
    && (s.prerolls > 0 ==> s.thread.Waiting? && s.input.InputIdle? && s.output.OutputIdle?)
    && (!c.recording ==> s.input.InputIdle? && s.recorded == [] && !s.thread.CopyingIn? && !s.thread.Rendering?)
    && (c.recording ==> !s.output.OutputPosting?)
  }

  /** Tokens, slices under way and posts to come account for every free slice of the play
      port; in full duplex, up to the difference between completed callbacks. */
  ghost predicate Conserved(c: Config, s: State) {
    Queued(s) + s.tokens + One(Busy(s)) + One(s.output.OutputPosting?) + One(s.input.InputPosting?) + s.prerolls
      == c.count + if c.recording then |s.recorded| - |s.delivered| else 0
  }

  /** In full duplex the record port holds one slice for each wake-up still to be served. */
  ghost predicate Covered(c: Config, s: State) {
    c.recording ==>
      Pending(c, s) == s.tokens + One(s.thread.Woken? || s.thread.CopyingIn?) + One(s.input.InputPosting?) + s.prerolls
  }

  ghost predicate PlayFormed(c: Config, r: Ring) {
    Formed(r) && r.frames == c.count * c.dev && |r.streams| == c.playStreams
  }

  /** The record port, after so many slices recorded and with so many pending. */
  ghost predicate RecFormed(c: Config, r: Ring, recorded: nat, pending: int)
    requires Sound(c)
  {
    && Formed(r) && r.frames == c.count * c.dev && |r.streams| == c.recStreams
    && r.inLoc == Wrap(recorded, c.count) * c.dev
    && pending >= 0 && r.filled == pending * c.dev
  }

  ghost predicate SlicesFormed(c: Config, s: State) {
    && (s.thread.Rendered? ==> IsSlice(s.thread.slice, c.dev))
    && (s.thread.CopyingOut? ==> IsSlice(s.thread.out, c.dev))
    && (forall k :: 0 <= k < |s.rendered| ==> IsSlice(s.rendered[k], c.dev))
    && (forall k :: 0 <= k < |s.recorded| ==> IsSlice(s.recorded[k], c.dev))
  }

  ghost predicate PortsFormed(c: Config, s: State)
    requires Sound(c)
  {
    PlayFormed(c, s.play) && RecFormed(c, s.rec, |s.recorded|, Pending(c, s)) && SlicesFormed(c, s)
  }

  /** Until the first underflow the fill count of the play port is its queued slices. */
  ghost predicate Filled(c: Config, s: State) {
    !s.underflowed ==> Queued(s) >= 0 && s.play.filled == Queued(s) * c.dev
  }

  ghost predicate Inv(c: Config, s: State) {
    Sound(c) && Exclusive(c, s) && PortsFormed(c, s) && Conserved(c, s) && Covered(c, s) && Filled(c, s)
  }

  lemma StartHolds(c: Config)
    requires Sound(c)
    ensures Inv(c, Start(c))
  {
    Times(c.count, 0, c.dev);
  }

  /** The invariant makes every step that the source can take well defined: above all, the
      assertion in getFrames never fails. */
  lemma InvIsReady(c: Config, s: State)
    requires Inv(c, s)
    ensures Ready(c, s)
  {
    var j := Wrap(|s.recorded|, c.count);
    Times(c.count, j + 1, c.dev);
    Times(j, 0, c.dev);
    if Pending(c, s) >= 1 {
      Times(Pending(c, s), 1, c.dev);
    }
  }

  lemma StepKeepsExclusive(c: Config, s: State, e: Event)
    requires Inv(c, s) && Ready(c, s) && Enabled(c, s, e)
    ensures Exclusive(c, Do(c, s, e))
  {
    hide Ready, PortsFormed, Filled, Conserved, Covered, Send, Get, Play, Record, Formed;
  }

  lemma StepKeepsConserved(c: Config, s: State, e: Event)
    requires Inv(c, s) && Ready(c, s) && Enabled(c, s, e)
    ensures Conserved(c, Do(c, s, e)) && Covered(c, Do(c, s, e))
  {
    hide Ready, PortsFormed, Filled, Send, Get, Play, Record, Formed;
  }

  /** A recorded slice moves the input location to the next slice, around the buffer. */
  lemma NextSlice(n: nat, count: nat, dev: nat)
    requires count > 0 && dev > 0
    ensures Wrap(Wrap(n, count) * dev + dev, count * dev) == Wrap(n + 1, count) * dev
  {
    var j := Wrap(n, count);
    WrapAdd(n, 1, count);
    Times(count, j, dev);
    if j + 1 < count {
      Times(count, j + 1, dev);
    }
  }

  lemma PushKeeps(c: Config, s: State, d: Slice)
    requires Sound(c) && PlayFormed(c, s.play) && Filled(c, s) && IsSlice(d, c.dev)
    ensures PlayFormed(c, Push(c, s, d).play) && Filled(c, Push(c, s, d))
  {
    hide Send;
    Counts(s.play, d, c.dev, 1);
    if !s.underflowed {
      Times(Queued(s), Queued(s), c.dev);
    }
  }

  lemma PullKeeps(c: Config, s: State)
    requires Sound(c) && RecFormed(c, s.rec, |s.recorded|, Pending(c, s)) && c.dev <= s.rec.filled
    ensures var s' := Pull(c, s); RecFormed(c, s'.rec, |s'.recorded|, Pending(c, s'))
  {
    hide Get, Wrap;
    Counts(s.rec, [], c.dev, c.frameChans);
    var p := Pending(c, s);
    assert p >= 1;
    Times(p - 1, p - 1, c.dev);
  }

  lemma FillKeeps(c: Config, r: Ring, d: Slice, recorded: nat, pending: nat)
    requires Sound(c) && RecFormed(c, r, recorded, pending)
    requires IsSlice(d, c.dev) && |d| == c.recStreams && r.inLoc + c.dev <= r.frames
    ensures RecFormed(c, Record(r, d, c.dev), recorded + 1, pending + 1)
  {
    hide Record, Wrap;
    Counts(r, d, c.dev, 1);
    NextSlice(recorded, c.count, c.dev);
    Times(pending, pending, c.dev);
  }

  lemma PlayKeeps(c: Config, s: State, e: Event)
    requires Inv(c, s) && Ready(c, s) && Enabled(c, s, e) && e.OutputPlays?
    ensures PlayFormed(c, Do(c, s, e).play) && Filled(c, Do(c, s, e))
  {
    hide Play, Wrap;
    Counts(s.play, [], c.dev, 1);
    var q := Queued(s);
    if !s.underflowed && s.play.filled >= c.dev {
      assert q >= 1;
      Times(q - 1, q - 1, c.dev);
    }
  }

  lemma StepKeepsSlices(c: Config, s: State, e: Event)
    requires Inv(c, s) && Ready(c, s) && Enabled(c, s, e)
    ensures SlicesFormed(c, Do(c, s, e))
  {
    hide Send, Get, Play, Record, Formed, PlayFormed, RecFormed, IsSlice, Exclusive, Conserved, Covered, Filled;
  }

  lemma StepKeepsPorts(c: Config, s: State, e: Event)
    requires Inv(c, s) && Ready(c, s) && Enabled(c, s, e)
    ensures PortsFormed(c, Do(c, s, e)) && Filled(c, Do(c, s, e))
  {
    StepKeepsSlices(c, s, e);
    hide Send, Get, Play, Record, PlayFormed, RecFormed, Conserved, Covered, SlicesFormed;
    match e
    case Preroll(d) =>
      if c.recording { PullKeeps(c, s); }
      PushKeeps(c, if c.recording then Pull(c, s) else s, d);
    case ThreadGets => PullKeeps(c, s);
    case ThreadSends(_) => PushKeeps(c, s, s.thread.out);
    case InputFills(d) => FillKeeps(c, s.rec, d, |s.recorded|, Pending(c, s));
    case OutputPlays => PlayKeeps(c, s, e);
    case _ =>
  }

  /** Every step keeps the invariant. */
  lemma StepKeeps(c: Config, s: State, e: Event)
    requires Inv(c, s) && Enabled(c, s, e)
    ensures Ready(c, s) && Inv(c, Do(c, s, e))
  {
    InvIsReady(c, s);
    hide Do, Enabled, Exclusive, Conserved, Covered, PortsFormed, Filled;
    StepKeepsExclusive(c, s, e);
    StepKeepsConserved(c, s, e);
    StepKeepsPorts(c, s, e);
  }

  // ---- Runs ----------------------------------------------------------------------

  /** es can happen, one after another, from s on. */
  ghost predicate Legal(c: Config, s: State, es: seq<Event>)
    requires Inv(c, s)
    decreases |es|
  {
    es != [] ==>
      && Enabled(c, s, es[0])
      && (StepKeeps(c, s, es[0]); Legal(c, Do(c, s, es[0]), es[1..]))
  }

  ghost function Run(c: Config, s: State, es: seq<Event>): (s': State)
    requires Inv(c, s) && Legal(c, s, es)
    ensures Inv(c, s')
    decreases |es|
  {
    if es == [] then s
    else
      StepKeeps(c, s, es[0]);
      Run(c, Do(c, s, es[0]), es[1..])
  }

  /** Every state of every run after doSetQueueSize. */
  ghost predicate Reached(c: Config, es: seq<Event>, s: State)
  {
    Sound(c) && (StartHolds(c); Legal(c, Start(c), es) && s == Run(c, Start(c), es))
  }

  /** The counting law, that until the first underflow the play port's fill count is the slices it
      counts, and that nobody copies while another copies the same port. */
  lemma CountsAlways(c: Config, es: seq<Event>, s: State)
    requires Reached(c, es, s)
    ensures Conserved(c, s)
    ensures !s.underflowed ==> Queued(s) >= 0 && s.play.filled == Queued(s) * c.dev
    ensures !(s.thread.CopyingOut? && s.output.OutputCopying?)
    ensures !(s.thread.CopyingIn? && s.input.InputCopying?)
  {
  }

  /** The assertion of getFrames holds whenever the render thread or the preroll gets there. */
  lemma InputAlwaysCovers(c: Config, es: seq<Event>, s: State)
    requires Reached(c, es, s)
    ensures s.thread.CopyingIn? ==> c.dev <= s.rec.filled
    ensures s.prerolls > 0 && c.recording ==> c.dev <= s.rec.filled
  {
    InvIsReady(c, s);
  }

  // ---- No overwriting --------------------------------------------------------------

  lemma RoomFor(c: Config, s: State)
    requires Inv(c, s) && !s.underflowed
    ensures s.play.filled + c.dev > s.play.frames <==> Queued(s) + 1 > c.count
  {
    var q := Queued(s);
    Times(q, 0, c.dev);
    if q + 1 > c.count {
      Times(q, c.count, c.dev);
    } else {
      Times(c.count, q + 1, c.dev);
    }
  }

  /** Exactly when a slice about to be sent overwrites undelivered audio: never in playback-only
      mode; in full duplex, when completed input callbacks are ahead of completed output callbacks
      by more than the wake-ups still to be served. */
  lemma OverwritesExactlyWhen(c: Config, s: State)
    requires Inv(c, s) && !s.underflowed && s.thread.CopyingOut?
    ensures s.play.filled + c.dev > s.play.frames <==>
      c.recording && |s.recorded| - |s.delivered| > s.tokens + One(s.input.InputPosting?)
  {
    RoomFor(c, s);
  }

  /** Exactly when a slice about to be recorded overwrites input that was never read: when the
      wake-ups still to be served number at least the buffers. */
  lemma OverrunsExactlyWhen(c: Config, s: State)
    requires Inv(c, s) && s.input.InputCopying?
    ensures s.rec.filled + c.dev > s.rec.frames <==> s.tokens + One(s.thread.Woken?) >= c.count
  {
    var q := Pending(c, s);
    assert q == s.tokens + One(s.thread.Woken?);
    Times(q, 0, c.dev);
    if q + 1 > c.count {
      Times(q, c.count, c.dev);
    } else {
      Times(c.count, q + 1, c.dev);
    }
  }

  ghost predicate Intact(c: Config, s: State) {
    !c.recording && !s.underflowed ==> !s.overwrote
  }

  lemma StepKeepsIntact(c: Config, s: State, e: Event)
    requires Inv(c, s) && Enabled(c, s, e) && Ready(c, s) && Intact(c, s)
    ensures Intact(c, Do(c, s, e))
  {
    if !c.recording && !s.underflowed && (e.Preroll? || e.ThreadSends?) {
      RoomFor(c, s);
    }
  }

  lemma {:induction false} RunKeepsIntact(c: Config, s: State, es: seq<Event>)
    requires Inv(c, s) && Legal(c, s, es) && Intact(c, s)
    ensures Intact(c, Run(c, s, es))
    decreases |es|
  {
    if es != [] {
      StepKeeps(c, s, es[0]);
      StepKeepsIntact(c, s, es[0]);
      hide Do, Inv, Intact, Enabled;
      RunKeepsIntact(c, Do(c, s, es[0]), es[1..]);
    }
  }

  /** Main result, playback only: until the first underflow sendFrames has overwritten nothing. */
  lemma NothingOverwritten(c: Config, es: seq<Event>, s: State)
    requires Reached(c, es, s) && !c.recording && !s.underflowed
    ensures !s.overwrote
  {
    StartHolds(c);
    RunKeepsIntact(c, Start(c), es);
  }

  // ---- First in, first out -----------------------------------------------------------

  /** The frames of stream k in a history of slices, in order. */
  ghost function Frames(h: seq<Slice>, k: nat, dev: nat): (f: seq<real>)
    requires forall i :: 0 <= i < |h| ==> IsSlice(h[i], dev)
  {
    if h == [] then []
    else
      assert IsSlice(h[|h| - 1], dev);
      Frames(h[..|h| - 1], k, dev) + Channel(h[|h| - 1], dev, k)
  }

  lemma FramesAppend(h: seq<Slice>, d: Slice, k: nat, dev: nat)
    requires (forall i :: 0 <= i < |h| ==> IsSlice(h[i], dev)) && IsSlice(d, dev)
    ensures Frames(h + [d], k, dev) == Frames(h, k, dev) + Channel(d, dev, k)
  {
    assert (h + [d])[..|h|] == h;
  }

  ghost predicate Slices(h: seq<Slice>, dev: nat) {
    forall i :: 0 <= i < |h| ==> IsSlice(h[i], dev)
  }

  /** On each of the first chans streams, what has come out of the ring, and then what is queued
      in it, is its initial contents and then what has gone in. */
  ghost predicate Order(dev: nat, chans: nat, first: seq<real>, r: Ring, came: seq<Slice>, went: seq<Slice>)
    requires Formed(r) && Slices(came, dev) && Slices(went, dev)
  {
    && Aligned(r)
    && forall k :: 0 <= k < |r.streams| && k < chans ==>
         Frames(came, k, dev) + Queue(r, k) == first + Frames(went, k, dev)
  }

  lemma Regroup(a: seq<real>, q: seq<real>, first: seq<real>, b: seq<real>, v: seq<real>)
    requires a + q == first + b
    ensures a + (q + v) == first + (b + v)
  {
    assert a + (q + v) == (a + q) + v;
    assert first + (b + v) == (first + b) + v;
  }

  lemma SendOrder(dev: nat, chans: nat, first: seq<real>, r: Ring, came: seq<Slice>, went: seq<Slice>, d: Slice)
    requires Formed(r) && Slices(came, dev) && Slices(went, dev) && Order(dev, chans, first, r, came, went)
    requires IsSlice(d, dev) && r.filled + dev <= r.frames
    ensures Slices(went + [d], dev) && Order(dev, chans, first, Send(r, d, dev), came, went + [d])
  {
    hide Send, Aligned, Queue, Frames;
    var r' := Send(r, d, dev);
    Counts(r, d, dev, 1);
    SendIsEnqueue(r, d, dev, 0);
    forall k | 0 <= k < |r'.streams| && k < chans
      ensures Frames(came, k, dev) + Queue(r', k) == first + Frames(went + [d], k, dev)
    {
      SendIsEnqueue(r, d, dev, k);
      FramesAppend(went, d, k, dev);
      Regroup(Frames(came, k, dev), Queue(r, k), first, Frames(went, k, dev), Channel(d, dev, k));
    }
  }

  lemma RecordOrder(dev: nat, chans: nat, first: seq<real>, r: Ring, came: seq<Slice>, went: seq<Slice>, d: Slice)
    requires Formed(r) && Slices(came, dev) && Slices(went, dev) && Order(dev, chans, first, r, came, went)
    requires IsSlice(d, dev) && |d| == |r.streams| && r.filled + dev <= r.frames && r.inLoc + dev <= r.frames
    ensures Slices(went + [d], dev) && Order(dev, chans, first, Record(r, d, dev), came, went + [d])
  {
    hide Record, Aligned, Queue, Frames;
    var r' := Record(r, d, dev);
    Counts(r, d, dev, 1);
    RecordIsEnqueue(r, d, dev, 0);
    forall k | 0 <= k < |r'.streams| && k < chans
      ensures Frames(came, k, dev) + Queue(r', k) == first + Frames(went + [d], k, dev)
    {
      RecordIsEnqueue(r, d, dev, k);
      FramesAppend(went, d, k, dev);
      Regroup(Frames(came, k, dev), Queue(r, k), first, Frames(went, k, dev), Channel(d, dev, k));
    }
  }

  lemma GetOrder(dev: nat, chans: nat, first: seq<real>, r: Ring, came: seq<Slice>, went: seq<Slice>)
    requires Formed(r) && Slices(came, dev) && Slices(went, dev) && Order(dev, chans, first, r, came, went)
    requires dev <= r.filled && chans > 0
    ensures
      var (got, r') := Get(r, dev, chans);
      Slices(came + [got], dev) && Order(dev, chans, first, r', came + [got], went)
  {
    var (got, r') := Get(r, dev, chans);
    Counts(r, [], dev, chans);
    hide Get, Aligned, Queue, Frames;
    GetIsDequeue(r, dev, chans, 0);
    assert IsSlice(got, dev);
    forall k | 0 <= k < |r'.streams| && k < chans
      ensures Frames(came + [got], k, dev) + Queue(r', k) == first + Frames(went, k, dev)
    {
      GetIsDequeue(r, dev, chans, k);
      FramesAppend(came, got, k, dev);
      RegroupOut(Frames(came, k, dev), Queue(r, k), dev, first + Frames(went, k, dev));
    }
  }

  lemma RegroupOut(a: seq<real>, q: seq<real>, n: nat, x: seq<real>)
    requires n <= |q| && a + q == x
    ensures (a + q[..n]) + q[n..] == x
  {
    assert q[..n] + q[n..] == q;
  }

  ghost predicate PlayOrder(c: Config, s: State)
    requires Formed(s.play)
  {
    && Slices(s.delivered, c.dev) && Slices(s.rendered, c.dev)
    && (!s.underflowed && !s.overwrote ==> Order(c.dev, c.playStreams, [], s.play, s.delivered, s.rendered))
  }

  ghost predicate RecOrder(c: Config, s: State)
    requires Formed(s.rec)
  {
    && Slices(s.pulled, c.dev) && Slices(s.recorded, c.dev)
    && (!s.overran ==> Order(c.dev, c.frameChans, Zeros(c.count * c.dev), s.rec, s.pulled, s.recorded))
  }

  ghost predicate InOrder(c: Config, s: State)
    requires Formed(s.play) && Formed(s.rec)
  {
    PlayOrder(c, s) && RecOrder(c, s)
  }

  lemma PushOrder(c: Config, s: State, d: Slice)
    requires Formed(s.play) && PlayOrder(c, s) && IsSlice(d, c.dev)
    ensures PlayOrder(c, Push(c, s, d))
  {
    hide Send, Order, Formed;
    if !s.underflowed && !s.overwrote && s.play.filled + c.dev <= s.play.frames {
      SendOrder(c.dev, c.playStreams, [], s.play, s.delivered, s.rendered, d);
    }
  }

  lemma PullOrder(c: Config, s: State)
    requires Sound(c) && Formed(s.rec) && RecOrder(c, s) && c.dev <= s.rec.filled
    ensures RecOrder(c, Pull(c, s))
  {
    hide Get, Order, Formed, Zeros;
    assert IsSlice(Get(s.rec, c.dev, c.frameChans).0, c.dev);
    if !s.overran {
      GetOrder(c.dev, c.frameChans, Zeros(c.count * c.dev), s.rec, s.pulled, s.recorded);
    }
  }

  lemma FillOrder(c: Config, s: State, e: Event)
    requires Inv(c, s) && Ready(c, s) && Enabled(c, s, e) && e.InputFills? && RecOrder(c, s)
    ensures RecOrder(c, Do(c, s, e))
  {
    hide Record, Order, Formed, Zeros, Inv;
    if !s.overran && s.rec.filled + c.dev <= s.rec.frames {
      RecordOrder(c.dev, c.frameChans, Zeros(c.count * c.dev), s.rec, s.pulled, s.recorded, e.data);
    }
  }

  lemma DeliverOrder(c: Config, s: State, e: Event)
    requires Inv(c, s) && Ready(c, s) && Enabled(c, s, e) && e.OutputPlays? && PlayOrder(c, s)
    ensures PlayOrder(c, Do(c, s, e))
  {
    assert |s.play.streams| == c.playStreams;
    hide Get, Order, Formed, Inv;
    assert IsSlice(Play(s.play, c.dev).0, c.dev);
    if !s.underflowed && !s.overwrote && s.play.filled >= c.dev {
      GetOrder(c.dev, c.playStreams, [], s.play, s.delivered, s.rendered);
    }
  }

  lemma StepKeepsOrder(c: Config, s: State, e: Event)
    requires Inv(c, s) && Enabled(c, s, e) && Ready(c, s) && InOrder(c, s)
    ensures InOrder(c, Do(c, s, e))
  {
    assert Sound(c);
    hide Order, Formed, Inv, Slices, Zeros;
    match e
    case Preroll(d) =>
      if c.recording { PullOrder(c, s); }
      PushOrder(c, s, d);
    case ThreadGets => PullOrder(c, s);
    case ThreadSends(_) => PushOrder(c, s, s.thread.out);
    case InputFills(d) => FillOrder(c, s, e);
    case OutputPlays => DeliverOrder(c, s, e);
    case _ =>
  }

  lemma StartInOrder(c: Config)
    requires Sound(c)
    ensures InOrder(c, Start(c))
  {
    var s, n := Start(c), c.count * c.dev;
    WrapOnce(0, n);
    forall k | 0 <= k < |s.rec.streams|
      ensures Queue(s.rec, k) == Zeros(n)
    {
      assert s.rec.streams[k] == Zeros(n);
      ReadZeros(n, 0, n);
    }
  }

  lemma {:induction false} RunKeepsOrder(c: Config, s: State, es: seq<Event>)
    requires Inv(c, s) && Legal(c, s, es) && InOrder(c, s)
    ensures InOrder(c, Run(c, s, es))
    decreases |es|
  {
    if es != [] {
      StepKeeps(c, s, es[0]);
      StepKeepsOrder(c, s, es[0]);
      hide Do, InOrder, Enabled, Exclusive, Conserved, Covered, Filled;
      RunKeepsOrder(c, Do(c, s, es[0]), es[1..]);
    }
  }

  /** What a run renders, in order: the data of its preroll and render events. */
  function RenderedBy(es: seq<Event>): (h: seq<Slice>) {
    if es == [] then [] else RenderedIn(es[0]) + RenderedBy(es[1..])
  }

  function RenderedIn(e: Event): seq<Slice> {
    match e
    case Preroll(d) => [d]
    case ThreadRenders(d) => [d]
    case _ => []
  }

  /** What the hardware records on a run, in order. */
  function RecordedBy(es: seq<Event>): (h: seq<Slice>) {
    if es == [] then [] else RecordedIn(es[0]) + RecordedBy(es[1..])
  }

  function RecordedIn(e: Event): seq<Slice> { if e.InputFills? then [e.data] else [] }

  /** The slice that is rendered but not yet sent. */
  function UnderWay(s: State): seq<Slice> {
    match s.thread
    case Rendered(d) => [d]
    case CopyingOut(d) => [d]
    case _ => []
  }

  lemma StepRenders(c: Config, s: State, e: Event)
    requires Inv(c, s) && Ready(c, s) && Enabled(c, s, e)
    ensures
      var s' := Do(c, s, e);
      && s'.rendered + UnderWay(s') == s.rendered + UnderWay(s) + RenderedBy([e])
      && s'.recorded == s.recorded + RecordedBy([e])
  {
    OneEvent(e);
    hide Ready, PortsFormed, Filled, Conserved, Covered, Send, Get, Play, Record, Formed, RenderedBy, RecordedBy;
    match e
    case Preroll(d) => assert s.rendered + [] + [d] == s.rendered + [d] + [];
    case ThreadRenders(d) => assert s.rendered + [] + [d] == s.rendered + [d];
    case _ =>
  }

  lemma OneEvent(e: Event)
    ensures RenderedBy([e]) == RenderedIn(e) && RecordedBy([e]) == RecordedIn(e)
  {
    hide RenderedIn, RecordedIn;
    assert [e][1..] == [];
  }

  lemma FirstOf(es: seq<Event>)
    requires es != []
    ensures RenderedBy(es) == RenderedBy([es[0]]) + RenderedBy(es[1..])
    ensures RecordedBy(es) == RecordedBy([es[0]]) + RecordedBy(es[1..])
  {
    hide RenderedIn, RecordedIn;
    OneEvent(es[0]);
  }

  /** The histories of a run are the data of its events. */
  lemma {:induction false} RunRenders(c: Config, s: State, es: seq<Event>)
    requires Inv(c, s) && Legal(c, s, es)
    ensures
      var s' := Run(c, s, es);
      && s'.rendered + UnderWay(s') == s.rendered + UnderWay(s) + RenderedBy(es)
      && s'.recorded == s.recorded + RecordedBy(es)
    decreases |es|
  {
    hide *;
    if es == [] {
      NoSteps(c, s, es);
      NoEvents(es);
    } else {
      RunSplits(c, s, es);
      var s' := Do(c, s, es[0]);
      StepRenders(c, s, es[0]);
      FirstOf(es);
      RunRenders(c, s', es[1..]);
      Regrouped(s.rendered + UnderWay(s), RenderedBy([es[0]]), RenderedBy(es[1..]));
      Regrouped(s.recorded, RecordedBy([es[0]]), RecordedBy(es[1..]));
    }
  }

  lemma NoEvents(es: seq<Event>)
    requires es == []
    ensures RenderedBy(es) == [] && RecordedBy(es) == []
  {
  }

  lemma Regrouped(a: seq<Slice>, b: seq<Slice>, h: seq<Slice>)
    ensures (a + b) + h == a + (b + h)
  {
  }

  /** Main result on the histories, over every run: what was sent, and then the slice under way, is
      what was rendered, in order; and what was recorded is what the hardware wrote, in order. */
  lemma HistoryIsEvents(c: Config, es: seq<Event>, s: State)
    requires Reached(c, es, s)
    ensures s.rendered + UnderWay(s) == RenderedBy(es) && s.recorded == RecordedBy(es)
    ensures Slices(RenderedBy(es), c.dev) && Slices(RecordedBy(es), c.dev) && Slices(UnderWay(s), c.dev)
  {
    StartHolds(c);
    RunRenders(c, Start(c), es);
  }

  lemma FinishedStep(c: Config, s: State, e: Event)
    requires Inv(c, s) && Ready(c, s) && Enabled(c, s, e)
    ensures Do(c, s, e).thread.Finished? <==> s.thread.Finished? || e == ThreadSends(true)
    ensures s.thread.Finished? ==> RenderedBy([e]) == []
  {
    OneEvent(e);
    hide Ready, PortsFormed, Filled, Conserved, Covered, Send, Get, Play, Record, Formed, RenderedBy, RecordedBy;
  }

  lemma {:induction false} RunFinishes(c: Config, s: State, es: seq<Event>)
    requires Inv(c, s) && Legal(c, s, es)
    ensures Run(c, s, es).thread.Finished? <==> s.thread.Finished? || ThreadSends(true) in es
    ensures s.thread.Finished? ==> RenderedBy(es) == []
    decreases |es|
  {
    hide *;
    if es == [] {
      NoSteps(c, s, es);
      NoEvents(es);
    } else {
      RunSplits(c, s, es);
      FinishedStep(c, s, es[0]);
      FirstOf(es);
      RunFinishes(c, Do(c, s, es[0]), es[1..]);
      assert ThreadSends(true) in es <==> es[0] == ThreadSends(true) || ThreadSends(true) in es[1..];
    }
  }

  lemma {:induction false} NothingAfterLast(c: Config, s: State, es: seq<Event>, i: nat)
    requires Inv(c, s) && Legal(c, s, es) && i < |es| && es[i] == ThreadSends(true)
    ensures RenderedBy(es[i + 1..]) == []
    decreases i
  {
    hide *;
    RunSplits(c, s, es);
    var s' := Do(c, s, es[0]);
    if i == 0 {
      FinishedStep(c, s, es[0]);
      RunFinishes(c, s', es[1..]);
    } else {
      NothingAfterLast(c, s', es[1..], i - 1);
      assert es[1..][i - 1 + 1..] == es[i + 1..];
    }
  }

  /** The render thread has ended exactly when its run callback asked for it, and from then on
      nothing is rendered. */
  lemma FinishedExactlyWhen(c: Config, es: seq<Event>, s: State)
    requires Reached(c, es, s)
    ensures s.thread.Finished? <==> ThreadSends(true) in es
    ensures forall i :: 0 <= i < |es| && es[i] == ThreadSends(true) ==> RenderedBy(es[i + 1..]) == []
  {
    StartHolds(c);
    RunFinishes(c, Start(c), es);
    hide Run, Legal, RenderedBy;
    forall i | 0 <= i < |es| && es[i] == ThreadSends(true) ensures RenderedBy(es[i + 1..]) == [] {
      NothingAfterLast(c, Start(c), es, i);
    }
  }

  lemma {:induction false} FramesConcat(g: seq<Slice>, h: seq<Slice>, k: nat, dev: nat)
    requires Slices(g, dev) && Slices(h, dev)
    ensures Slices(g + h, dev) && Frames(g + h, k, dev) == Frames(g, k, dev) + Frames(h, k, dev)
    decreases |h|
  {
    hide IsSlice, Channel;
    if h == [] {
      assert g + h == g;
    } else {
      hide Frames;
      var n := |h| - 1;
      FramesConcat(g, h[..n], k, dev);
      FramesAppend(g + h[..n], h[n], k, dev);
      FramesAppend(h[..n], h[n], k, dev);
      assert h == h[..n] + [h[n]] && g + h == (g + h[..n]) + [h[n]];
    }
  }

  /** Main result: until the first underflow or overwriting the hardware gets, on every stream,
      exactly the frames that the run's events rendered, in order; the rest is queued or under
      way. */
  lemma DeliversWhatWasRendered(c: Config, es: seq<Event>, s: State, k: nat)
    requires Reached(c, es, s) && !s.underflowed && !s.overwrote && k < c.playStreams
    ensures Slices(s.delivered, c.dev) && Slices(s.rendered, c.dev)
    ensures Frames(s.delivered, k, c.dev) + Queue(s.play, k) == Frames(s.rendered, k, c.dev)
    ensures Slices(RenderedBy(es), c.dev) && Slices(UnderWay(s), c.dev)
    ensures Frames(s.delivered, k, c.dev) + Queue(s.play, k) + Frames(UnderWay(s), k, c.dev)
         == Frames(RenderedBy(es), k, c.dev)
  {
    StartHolds(c);
    StartInOrder(c);
    RunKeepsOrder(c, Start(c), es);
    HistoryIsEvents(c, es, s);
    FramesConcat(s.rendered, UnderWay(s), k, c.dev);
  }

  /** In playback-only mode nothing is overwritten, so the first underflow is the only limit. */
  lemma PlaybackDeliversWhatWasRendered(c: Config, es: seq<Event>, s: State, k: nat)
    requires Reached(c, es, s) && !c.recording && !s.underflowed && k < c.playStreams
    ensures Slices(s.delivered, c.dev) && Slices(s.rendered, c.dev)
    ensures Frames(s.delivered, k, c.dev) + Queue(s.play, k) == Frames(s.rendered, k, c.dev)
    ensures Slices(RenderedBy(es), c.dev) && Slices(UnderWay(s), c.dev)
    ensures Frames(s.delivered, k, c.dev) + Queue(s.play, k) + Frames(UnderWay(s), k, c.dev)
         == Frames(RenderedBy(es), k, c.dev)
  {
    NothingOverwritten(c, es, s);
    DeliversWhatWasRendered(c, es, s, k);
  }

  /** Main result, full duplex: until recording laps the render thread, what the thread reads
      from a stream is the initial silence and then the frames the hardware recorded, in order. */
  lemma PullsWhatWasRecorded(c: Config, es: seq<Event>, s: State, k: nat)
    requires Reached(c, es, s) && !s.overran && k < c.recStreams && k < c.frameChans
    ensures Slices(s.pulled, c.dev) && Slices(s.recorded, c.dev)
    ensures Frames(s.pulled, k, c.dev) + Queue(s.rec, k) == Zeros(c.count * c.dev) + Frames(s.recorded, k, c.dev)
    ensures s.recorded == RecordedBy(es)
  {
    StartHolds(c);
    StartInOrder(c);
    RunKeepsOrder(c, Start(c), es);
    HistoryIsEvents(c, es, s);
  }

  // ---- A failed input pull -------------------------------------------------------------

  /** The input callback returned with the record lock still held. */
  predicate Leaked(c: Config, s: State) {
    c.recording && s.recLock.Input? && s.input.InputIdle? && s.prerolls == 0
  }

  /** Slices past the record port but not yet sent. */
  function PastInput(s: State): nat {
    One(s.thread.Rendering? || s.thread.Rendered? || s.thread.CopyingOut?)
  }

  lemma FailureLeaks(c: Config, s: State)
    requires Inv(c, s) && s.input.InputCopying?
    ensures Ready(c, s) && Enabled(c, s, InputFails) && Leaked(c, Do(c, s, InputFails))
  {
    InvIsReady(c, s);
  }

  /** After one failed hardware pull, however the run goes on, nothing more is recorded and at most
      the slice already past the record port is still sent: the render thread stalls. */
  lemma {:induction false} LeakStalls(c: Config, s: State, es: seq<Event>)
    requires Inv(c, s) && Legal(c, s, es) && Leaked(c, s)
    ensures
      var s' := Run(c, s, es);
      Leaked(c, s') && s'.recorded == s.recorded && |s'.rendered| + PastInput(s') == |s.rendered| + PastInput(s)
    decreases |es|
  {
    if es != [] {
      StepKeeps(c, s, es[0]);
      LeakStep(c, s, es[0]);
      hide Do, Inv, Leaked, Enabled, PastInput;
      LeakStalls(c, Do(c, s, es[0]), es[1..]);
    }
  }

  lemma LeakStep(c: Config, s: State, e: Event)
    requires Inv(c, s) && Enabled(c, s, e) && Ready(c, s) && Leaked(c, s)
    ensures
      var s' := Do(c, s, e);
      Leaked(c, s') && s'.recorded == s.recorded && |s'.rendered| + PastInput(s') == |s.rendered| + PastInput(s)
  {
  }

  /** No failed pull has happened yet: whoever holds the record lock for input is copying. */
  predicate Unleaked(s: State) { s.recLock.Input? <==> s.input.InputCopying? }

  lemma StepKeepsUnleaked(c: Config, s: State, e: Event)
    requires Inv(c, s) && Enabled(c, s, e) && Ready(c, s) && Unleaked(s) && !e.InputFails?
    ensures Unleaked(Do(c, s, e))
  {
    hide PortsFormed, Filled, Conserved, Covered, Send, Get, Play, Record, Formed;
  }

  ghost predicate SomePullFails(es: seq<Event>) {
    exists i :: 0 <= i < |es| && es[i].InputFails?
  }

  lemma {:induction false} RunLeaksExactlyWhen(c: Config, s: State, es: seq<Event>)
    requires Inv(c, s) && Legal(c, s, es) && Unleaked(s)
    ensures Leaked(c, Run(c, s, es)) <==> SomePullFails(es)
    decreases |es|
  {
    if es != [] {
      StepKeeps(c, s, es[0]);
      var s' := Do(c, s, es[0]);
      if es[0].InputFails? {
        FailureLeaks(c, s);
        LeakStalls(c, s', es[1..]);
      } else {
        StepKeepsUnleaked(c, s, es[0]);
        hide Do, Inv, Leaked, Enabled, Unleaked;
        RunLeaksExactlyWhen(c, s', es[1..]);
        assert SomePullFails(es) <==> SomePullFails(es[1..]) by { FirstEventSucceeds(es); }
      }
    }
  }

  lemma FirstEventSucceeds(es: seq<Event>)
    requires es != [] && !es[0].InputFails?
    ensures SomePullFails(es) <==> SomePullFails(es[1..])
  {
    if SomePullFails(es) {
      var i :| 0 <= i < |es| && es[i].InputFails?;
      assert es[1..][i - 1].InputFails?;
    }
    if SomePullFails(es[1..]) {
      var i :| 0 <= i < |es[1..]| && es[1..][i].InputFails?;
      assert es[i + 1].InputFails?;
    }
  }

  /** Main result on the record lock: over every run it is left held if and only if some hardware
      pull failed on the way. */
  lemma LeakedExactlyWhen(c: Config, es: seq<Event>, s: State)
    requires Reached(c, es, s)
    ensures Leaked(c, s) <==> exists i :: 0 <= i < |es| && es[i].InputFails?
  {
    StartHolds(c);
    RunLeaksExactlyWhen(c, Start(c), es);
  }

  // ---- Callbacks in turn -----------------------------------------------------------------

  /** What happened on a run: callbacks tried, and skipped because their lock was held; hardware
      pulls that failed; and playbacks that ran out of frames. */
  datatype Tally = Tally(outTries: nat, outSkips: nat, inTries: nat, inSkips: nat, inFails: nat, underflows: nat)

  function Add(t: Tally, u: Tally): Tally {
    Tally(t.outTries + u.outTries, t.outSkips + u.outSkips, t.inTries + u.inTries, t.inSkips + u.inSkips,
          t.inFails + u.inFails, t.underflows + u.underflows)
  }

  ghost function TallyOfStep(c: Config, s: State, e: Event): Tally {
    match e
    case OutputTries => Tally(1, One(!s.playLock.Free?), 0, 0, 0, 0)
    case InputTries => Tally(0, 0, 1, One(!s.recLock.Free?), 0, 0)
    case InputFails => Tally(0, 0, 0, 0, 1, 0)
    case OutputPlays => Tally(0, 0, 0, 0, 0, One(s.play.filled < c.dev))
    case _ => Tally(0, 0, 0, 0, 0, 0)
  }

  ghost function TallyOf(c: Config, s: State, es: seq<Event>): Tally
    requires Inv(c, s) && Legal(c, s, es)
    decreases |es|
  {
    if es == [] then Tally(0, 0, 0, 0, 0, 0)
    else
      StepKeeps(c, s, es[0]);
      Add(TallyOfStep(c, s, es[0]), TallyOf(c, Do(c, s, es[0]), es[1..]))
  }

  lemma NoSteps(c: Config, s: State, es: seq<Event>)
    requires Inv(c, s) && Legal(c, s, es) && es == []
    ensures Run(c, s, es) == s && TallyOf(c, s, es) == Tally(0, 0, 0, 0, 0, 0)
  {
  }

  /** A run is its first step and the run from there. */
  lemma RunSplits(c: Config, s: State, es: seq<Event>)
    requires Inv(c, s) && Legal(c, s, es) && es != []
    ensures Enabled(c, s, es[0]) && Ready(c, s)
    ensures
      var s', t, u := Do(c, s, es[0]), TallyOf(c, s, es), TallyOfStep(c, s, es[0]);
      && Inv(c, s') && Legal(c, s', es[1..]) && Run(c, s, es) == Run(c, s', es[1..])
      && t == Add(u, TallyOf(c, s', es[1..]))
      && t.underflows == u.underflows + TallyOf(c, s', es[1..]).underflows
      && t.outSkips == u.outSkips + TallyOf(c, s', es[1..]).outSkips
  {
    StepKeeps(c, s, es[0]);
  }

  /** Slices delivered or being delivered, and recorded, being recorded or lost. */
  function Taken(s: State): nat { |s.delivered| + One(s.output.OutputCopying?) }
  function Brought(s: State): nat { |s.recorded| + One(s.input.InputCopying?) }

  lemma StepBalances(c: Config, s: State, e: Event)
    requires Inv(c, s) && Ready(c, s) && Enabled(c, s, e)
    ensures
      var s', t := Do(c, s, e), TallyOfStep(c, s, e);
      && Taken(s') == Taken(s) + t.outTries - t.outSkips
      && Brought(s') + t.inFails == Brought(s) + t.inTries - t.inSkips
  {
    hide Ready, PortsFormed, Filled, Conserved, Covered, Send, Get, Play, Record, Formed;
  }

  /** Every callback tried is skipped, fails or goes through. */
  lemma {:induction false} RunBalances(c: Config, s: State, es: seq<Event>)
    requires Inv(c, s) && Legal(c, s, es)
    ensures
      var s', t := Run(c, s, es), TallyOf(c, s, es);
      && Taken(s') == Taken(s) + t.outTries - t.outSkips
      && Brought(s') + t.inFails == Brought(s) + t.inTries - t.inSkips
    decreases |es|
  {
    if es != [] {
      StepKeeps(c, s, es[0]);
      StepBalances(c, s, es[0]);
      hide Do, Inv, Enabled, Taken, Brought, TallyOfStep;
      RunBalances(c, Do(c, s, es[0]), es[1..]);
    }
  }

  /** The play port's fill count, with u underflows before: each underflow counts a slice that was
      never rendered. */
  predicate FilledBy(c: Config, s: State, u: nat) {
    s.play.filled == (Queued(s) + u) * c.dev
  }

  lemma StepFills(c: Config, s: State, e: Event, u: nat)
    requires Inv(c, s) && Ready(c, s) && Enabled(c, s, e) && FilledBy(c, s, u)
    ensures FilledBy(c, Do(c, s, e), u + TallyOfStep(c, s, e).underflows)
  {
    var q := Queued(s) + u;
    SliceMore(q, c.dev);
    if e.Preroll? {
      PushFills(s.play, e.data, c.dev);
    } else if e.ThreadSends? {
      PushFills(s.play, s.thread.out, c.dev);
    } else if e.OutputPlays? {
      PlayFills(s.play, c.dev);
    }
    hide Send, Get, Play, Record, Formed, Inv;
  }

  lemma SliceMore(q: int, dev: nat)
    ensures (q + 1) * dev == q * dev + dev && (q - 1) * dev == q * dev - dev
  {
  }

  lemma PushFills(r: Ring, d: Slice, dev: nat)
    requires Formed(r) && IsSlice(d, dev)
    ensures Send(r, d, dev).filled == r.filled + dev
  {
  }

  lemma PlayFills(r: Ring, dev: nat)
    requires Formed(r)
    ensures Play(r, dev).1.filled == if r.filled < dev then r.filled else r.filled - dev
  {
  }

  lemma {:induction false} RunFills(c: Config, s: State, es: seq<Event>, u: nat)
    requires Inv(c, s) && Legal(c, s, es) && FilledBy(c, s, u)
    ensures FilledBy(c, Run(c, s, es), u + TallyOf(c, s, es).underflows)
    decreases |es|
  {
    hide *;
    if es == [] {
      NoSteps(c, s, es);
    } else {
      RunSplits(c, s, es);
      StepFills(c, s, es[0], u);
      RunFills(c, Do(c, s, es[0]), es[1..], u + TallyOfStep(c, s, es[0]).underflows);
    }
  }

  ghost function RunTally(c: Config, es: seq<Event>): Tally
    requires Sound(c) && (StartHolds(c); Legal(c, Start(c), es))
  {
    StartHolds(c);
    TallyOf(c, Start(c), es)
  }

  /** The fill count on every run, underflows or not. */
  lemma FillAlways(c: Config, es: seq<Event>, s: State)
    requires Reached(c, es, s)
    ensures s.play.filled == (Queued(s) + RunTally(c, es).underflows) * c.dev
  {
    StartHolds(c);
    RunFills(c, Start(c), es, 0);
  }

  /** Main result on overwriting, over every run: a slice about to be sent overwrites undelivered
      audio if and only if the underflows, and in full duplex the output callbacks that were skipped
      beyond the input callbacks that were skipped, failed or are still to come, outnumber the
      wake-ups left. */
  lemma OverwritesOnRunsExactlyWhen(c: Config, es: seq<Event>, s: State)
    requires Reached(c, es, s) && s.thread.CopyingOut?
    ensures
      var t := RunTally(c, es);
      var ahead := t.outSkips - t.inSkips - t.inFails - (t.outTries - t.inTries) - One(s.input.InputCopying?);
      s.play.filled + c.dev > s.play.frames <==>
        t.underflows + (if c.recording then ahead else 0)
        > s.tokens + One(s.output.OutputPosting?) + One(s.input.InputPosting?)
  {
    StartHolds(c);
    FillAlways(c, es, s);
    RunBalances(c, Start(c), es);
    var q := Queued(s) + RunTally(c, es).underflows;
    SlicesFit(q, c.count, c.dev);
    SlicesFit(c.count, q + 1, c.dev);
    assert q + 1 > c.count <==> (q + 1) * c.dev > c.count * c.dev by { SlicesFit(q + 1, c.count, c.dev); }
    SliceMore(q, c.dev);
    hide TallyOf, Run, Legal, Start;
  }

  lemma SlicesFit(a: int, b: int, dev: nat)
    requires dev > 0
    ensures a > b <==> a * dev > b * dev
  {
    if a > b {
      Modular.MulOrder(b, a, dev);
    } else if a < b {
      Modular.MulOrder(a, b, dev);
    }
  }

  /** The order of callbacks: each input callback comes after an output callback of its own.  The
      lead is how many output callbacks are ahead. */
  predicate InTurn(es: seq<Event>, lead: nat)
    decreases |es|
  {
    es == [] ||
    if es[0].OutputTries? then InTurn(es[1..], lead + 1)
    else if es[0].InputTries? then lead > 0 && InTurn(es[1..], lead - 1)
    else InTurn(es[1..], lead)
  }

  ghost predicate OutputAhead(c: Config, s: State, lead: nat) {
    && Brought(s) + lead <= Taken(s)
    && (!s.underflowed ==> !s.overwrote)
  }

  lemma StepKeepsAhead(c: Config, s: State, e: Event, lead: nat)
    requires Inv(c, s) && Ready(c, s) && Enabled(c, s, e) && OutputAhead(c, s, lead)
    requires e.InputTries? ==> lead > 0
    requires TallyOfStep(c, s, e).outSkips == 0
    ensures OutputAhead(c, Do(c, s, e), if e.OutputTries? then lead + 1 else if e.InputTries? then lead - 1 else lead)
  {
    StepBalances(c, s, e);
    if !s.underflowed && (e.Preroll? || e.ThreadSends?) {
      RoomFor(c, s);
    }
    hide Send, Get, Play, Record, Formed, PortsFormed, Filled, Covered;
  }

  lemma {:induction false} RunKeepsAhead(c: Config, s: State, es: seq<Event>, lead: nat)
    requires Inv(c, s) && Legal(c, s, es) && OutputAhead(c, s, lead)
    requires InTurn(es, lead) && TallyOf(c, s, es).outSkips == 0
    ensures var s' := Run(c, s, es); !s'.underflowed ==> !s'.overwrote
    decreases |es|
  {
    if es != [] {
      var e := es[0];
      StepKeeps(c, s, e);
      StepKeepsAhead(c, s, e, lead);
      hide Do, Inv, Enabled, TallyOfStep;
      RunKeepsAhead(c, Do(c, s, e), es[1..],
                    if e.OutputTries? then lead + 1 else if e.InputTries? then lead - 1 else lead);
    }
  }

  /** Main result, both modes: with the output callback first and never skipped nothing is
      overwritten until the first underflow.  In full duplex too, then, overwriting takes an output
      callback that found the render thread holding the lock. */
  lemma NothingOverwrittenInTurn(c: Config, es: seq<Event>, s: State)
    requires Reached(c, es, s) && !s.underflowed && InTurn(es, 0) && RunTally(c, es).outSkips == 0
    ensures !s.overwrote
  {
    StartHolds(c);
    RunKeepsAhead(c, Start(c), es, 0);
  }

  // ---- Runs that reach the failing inputs ------------------------------------------------

  lemma {:induction false} RunAppends(c: Config, s: State, es: seq<Event>, e: Event)
    requires Inv(c, s) && Legal(c, s, es) && Enabled(c, Run(c, s, es), e)
    ensures Ready(c, Run(c, s, es)) && Legal(c, s, es + [e])
    ensures Run(c, s, es + [e]) == Do(c, Run(c, s, es), e)
    decreases |es|
  {
    if es == [] {
      StepKeeps(c, s, e);
      assert [e][1..] == [];
      assert es + [e] == [e];
    } else {
      StepKeeps(c, s, es[0]);
      var s' := Do(c, s, es[0]);
      assert (es + [e])[0] == es[0] && (es + [e])[1..] == es[1..] + [e];
      hide Do, Inv, Enabled, Ready;
      RunAppends(c, s', es[1..], e);
    }
  }

  /** A run goes on with any step that is enabled. */
  lemma Continue(c: Config, es: seq<Event>, s: State, e: Event) returns (es': seq<Event>, s': State)
    requires Reached(c, es, s) && Enabled(c, s, e)
    ensures Ready(c, s) && s' == Do(c, s, e) && es' == es + [e] && Reached(c, es', s')
  {
    StartHolds(c);
    RunAppends(c, Start(c), es, e);
    es', s' := es + [e], Do(c, s, e);
  }

  /** The lead of the output callback after a run. */
  function LeadAfter(es: seq<Event>, lead: int): int
    decreases |es|
  {
    if es == [] then lead else LeadAfter(es[1..], LeadStep(es[0], lead))
  }

  function LeadStep(e: Event, lead: int): int {
    if e.OutputTries? then lead + 1 else if e.InputTries? then lead - 1 else lead
  }

  lemma {:induction false} InTurnAppends(es: seq<Event>, lead: nat, e: Event)
    requires InTurn(es, lead) && (e.InputTries? ==> LeadAfter(es, lead) > 0)
    ensures InTurn(es + [e], lead) && LeadAfter(es + [e], lead) == LeadStep(e, LeadAfter(es, lead))
    decreases |es|
  {
    if es == [] {
      assert es + [e] == [e] && [e][1..] == [];
    } else {
      assert (es + [e])[0] == es[0] && (es + [e])[1..] == es[1..] + [e];
      InTurnAppends(es[1..], LeadStep(es[0], lead), e);
    }
  }

  /** Reached by a run whose callbacks come in turn, the output callback `lead` ahead. */
  ghost predicate InTurnTo(c: Config, es: seq<Event>, s: State, lead: nat) {
    Reached(c, es, s) && InTurn(es, 0) && LeadAfter(es, 0) == lead
  }

  lemma ContinueInTurn(c: Config, es: seq<Event>, s: State, lead: nat, e: Event)
    returns (es': seq<Event>, s': State, lead': nat)
    requires InTurnTo(c, es, s, lead) && Enabled(c, s, e) && (e.InputTries? ==> lead > 0)
    ensures Ready(c, s) && s' == Do(c, s, e) && es' == es + [e]
    ensures InTurnTo(c, es', s', lead') && lead' == LeadStep(e, lead)
  {
    hide Do, Reached, Enabled, Ready;
    es', s' := Continue(c, es, s, e);
    InTurnAppends(es, 0, e);
    lead' := LeadStep(e, lead);
  }

  /** Everybody is between two turns. */
  ghost predicate Quiet(s: State) {
    && s.thread.Waiting? && s.input.InputIdle? && s.output.OutputIdle? && s.playLock.Free? && s.recLock.Free?
    && s.prerolls == 0
  }

  /** k slices prerolled. */
  lemma {:induction false} Prerolling(c: Config, k: nat) returns (es: seq<Event>, s: State)
    requires Sound(c) && k < c.count
    ensures InTurnTo(c, es, s, 0) && Quiet(s.(prerolls := 0)) && s.prerolls == c.count - 1 - k
    ensures s.tokens == 1 && |s.rendered| == k && s.recorded == s.delivered == [] && !s.underflowed
  {
    if k == 0 {
      StartHolds(c);
      es, s := [], Start(c);
    } else {
      es, s := Prerolling(c, k - 1);
      hide InTurnTo, Inv, Send, Get, Formed;
      var lead;
      es, s, lead := ContinueInTurn(c, es, s, 0, Preroll([]));
    }
  }

  lemma Prerolled(c: Config) returns (es: seq<Event>, s: State)
    requires Sound(c)
    ensures InTurnTo(c, es, s, 0) && Quiet(s) && s.tokens == 1
    ensures |s.rendered| == c.count - 1 && s.recorded == s.delivered == [] && !s.underflowed
  {
    es, s := Prerolling(c, c.count - 1);
  }

  ghost function SilentSlice(c: Config): (d: Slice)
    ensures |d| == c.recStreams && IsSlice(d, c.dev)
  {
    seq(c.recStreams, k => Zeros(c.dev))
  }

  /** An input callback that has got the lock, after an output callback. */
  lemma CopyingInput(c: Config, es: seq<Event>, s: State, lead: nat) returns (es': seq<Event>, s': State, lead': nat)
    requires InTurnTo(c, es, s, lead) && lead > 0 && Quiet(s) && c.recording
    ensures InTurnTo(c, es', s', lead') && lead' == lead - 1 && s'.input.InputCopying?
    ensures s' == s.(recLock := Input, input := InputCopying)
  {
    hide InTurnTo, Inv, Formed;
    es', s', lead' := ContinueInTurn(c, es, s, lead, InputTries);
  }

  /** A complete turn of the input callback. */
  lemma InputTurn(c: Config, es: seq<Event>, s: State, lead: nat) returns (es': seq<Event>, s': State, lead': nat)
    requires InTurnTo(c, es, s, lead) && lead > 0 && Quiet(s) && c.recording
    ensures InTurnTo(c, es', s', lead') && lead' == lead - 1 && Quiet(s')
    ensures s'.tokens == s.tokens + 1 && |s'.recorded| == |s.recorded| + 1 && s'.rendered == s.rendered
    ensures s'.delivered == s.delivered && s'.underflowed == s.underflowed
  {
    es', s', lead' := CopyingInput(c, es, s, lead);
    hide InTurnTo, Inv, Record, Formed, SilentSlice;
    es', s', lead' := ContinueInTurn(c, es', s', lead', InputFills(SilentSlice(c)));
    es', s', lead' := ContinueInTurn(c, es', s', lead', InputPosts);
  }

  /** A complete turn of the output callback. */
  lemma OutputTurn(c: Config, es: seq<Event>, s: State, lead: nat) returns (es': seq<Event>, s': State, lead': nat)
    requires InTurnTo(c, es, s, lead) && Quiet(s)
    ensures InTurnTo(c, es', s', lead') && lead' == lead + 1 && Quiet(s')
    ensures s'.tokens == s.tokens + if c.recording then 0 else 1
    ensures s'.play.filled == if s.play.filled < c.dev then s.play.filled else s.play.filled - c.dev
    ensures s'.rendered == s.rendered && s'.recorded == s.recorded
  {
    hide InTurnTo, Inv, Play, Formed;
    es', s', lead' := ContinueInTurn(c, es, s, lead, OutputTries);
    FormedPlay(c, es', s', lead');
    Counts(s'.play, [], c.dev, 1);
    es', s', lead' := ContinueInTurn(c, es', s', lead', OutputPlays);
    if !c.recording {
      es', s', lead' := ContinueInTurn(c, es', s', lead', OutputPosts);
    }
  }

  lemma FormedPlay(c: Config, es: seq<Event>, s: State, lead: nat)
    requires InTurnTo(c, es, s, lead)
    ensures Inv(c, s) && Formed(s.play) && s.play.frames == c.count * c.dev
  {
  }

  /** The render thread's turn, up to where it starts to copy its slice out. */
  lemma ThreadTurn(c: Config, es: seq<Event>, s: State, lead: nat) returns (es': seq<Event>, s': State)
    requires InTurnTo(c, es, s, lead) && Quiet(s) && s.tokens > 0
    ensures InTurnTo(c, es', s', lead) && s'.thread.CopyingOut? && s'.playLock.Thread?
    ensures Quiet(s'.(thread := Waiting, playLock := Free)) && s'.tokens == s.tokens - 1
    ensures s'.play == s.play && s'.recorded == s.recorded && s'.rendered == s.rendered
    ensures s'.delivered == s.delivered && s'.underflowed == s.underflowed
  {
    hide InTurnTo, Inv, Get, Formed;
    var lead';
    es', s', lead' := ContinueInTurn(c, es, s, lead, ThreadWakes);
    if c.recording {
      es', s', lead' := ContinueInTurn(c, es', s', lead', ThreadLocksIn);
      es', s', lead' := ContinueInTurn(c, es', s', lead', ThreadGets);
    }
    es', s', lead' := ContinueInTurn(c, es', s', lead', ThreadRenders([]));
    es', s', lead' := ContinueInTurn(c, es', s', lead', ThreadLocksOut);
  }

  /** An output callback that finds the render thread holding the lock goes away. */
  lemma OutputSkipped(c: Config, es: seq<Event>, s: State, lead: nat) returns (es': seq<Event>, lead': nat)
    requires InTurnTo(c, es, s, lead) && s.thread.CopyingOut? && s.playLock.Thread?
    requires Quiet(s.(thread := Waiting, playLock := Free))
    ensures InTurnTo(c, es', s, lead') && lead' == lead + 1
  {
    hide InTurnTo, Inv, Formed;
    var s';
    es', s', lead' := ContinueInTurn(c, es, s, lead, OutputTries);
  }

  lemma ThreadSendsOn(c: Config, es: seq<Event>, s: State, lead: nat) returns (es': seq<Event>, s': State)
    requires InTurnTo(c, es, s, lead) && s.thread.CopyingOut? && Quiet(s.(thread := Waiting, playLock := Free))
    ensures InTurnTo(c, es', s', lead) && Quiet(s') && s'.tokens == s.tokens
    ensures s'.recorded == s.recorded && |s'.rendered| == |s.rendered| + 1
    ensures s'.delivered == s.delivered && s'.underflowed == s.underflowed
    ensures s'.play.filled == s.play.filled + c.dev
    ensures s'.overwrote == (s.overwrote || s.play.filled + c.dev > s.play.frames)
  {
    hide InTurnTo, Inv, Send, Formed;
    var lead';
    es', s', lead' := ContinueInTurn(c, es, s, lead, ThreadSends(false));
    Counts(s.play, s.thread.out, c.dev, 1);
  }

  /** In every full-duplex configuration some run with its callbacks in turn overwrites undelivered
      audio without an underflow: one output callback skipped is enough. */
  lemma DuplexOverwrites(c: Config) returns (es: seq<Event>, s: State)
    requires Sound(c) && c.recording
    ensures Reached(c, es, s) && InTurn(es, 0) && s.overwrote && !s.underflowed
  {
    es, s := Prerolled(c);
    var lead := 0;
    es, s := ThreadTurn(c, es, s, lead);
    es, lead := OutputSkipped(c, es, s, lead);
    es, s := ThreadSendsOn(c, es, s, lead);
    es, s, lead := InputTurn(c, es, s, lead);
    es, s := ThreadTurn(c, es, s, lead);
    FormedPlay(c, es, s, lead);
    OverwritesExactlyWhen(c, s);
    hide Inv;
    es, s := ThreadSendsOn(c, es, s, lead);
  }

  /** k turns of both callbacks while the render thread waits. */
  lemma {:induction false} CallbackTurns(c: Config, k: nat) returns (es: seq<Event>, s: State)
    requires Sound(c) && c.recording
    ensures InTurnTo(c, es, s, 0) && Quiet(s) && s.tokens == k + 1
  {
    if k == 0 {
      es, s := Prerolled(c);
    } else {
      var lead;
      es, s := CallbackTurns(c, k - 1);
      es, s, lead := OutputTurn(c, es, s, 0);
      es, s, lead := InputTurn(c, es, s, lead);
    }
  }

  /** And some such run records over input that was never read: a render thread that is late is
      enough. */
  lemma DuplexOverruns(c: Config) returns (es: seq<Event>, s: State)
    requires Sound(c) && c.recording
    ensures Reached(c, es, s) && InTurn(es, 0) && s.overran
  {
    var lead;
    es, s := CallbackTurns(c, c.count - 1);
    es, s, lead := OutputTurn(c, es, s, 0);
    es, s, lead := CopyingInput(c, es, s, lead);
    FormedPlay(c, es, s, lead);
    OverrunsExactlyWhen(c, s);
    hide Inv, Record, Formed, SilentSlice, Reached, InTurn, LeadAfter;
    es, s, lead := ContinueInTurn(c, es, s, lead, InputFills(SilentSlice(c)));
  }

  /** A failed pull, and with it the lock left held, is reached in every full-duplex configuration. */
  lemma DuplexLeaks(c: Config) returns (es: seq<Event>, s: State)
    requires Sound(c) && c.recording
    ensures Reached(c, es, s) && InTurn(es, 0) && Leaked(c, s)
  {
    var lead;
    es, s := Prerolled(c);
    es, s, lead := OutputTurn(c, es, s, 0);
    es, s, lead := CopyingInput(c, es, s, lead);
    FormedPlay(c, es, s, lead);
    FailureLeaks(c, s);
    hide Inv, Formed, Reached, InTurn, LeadAfter;
    es, s, lead := ContinueInTurn(c, es, s, lead, InputFails);
  }

  /** In playback-only mode, k turns of the output callback while the render thread waits: the last
      of count turns finds nothing left. */
  lemma {:induction false} PlaybackTurns(c: Config, k: nat) returns (es: seq<Event>, s: State, lead: nat)
    requires Sound(c) && !c.recording && k <= c.count
    ensures InTurnTo(c, es, s, lead) && Quiet(s) && s.tokens == k + 1
    ensures s.play.filled == (if k < c.count then c.count - 1 - k else 0) * c.dev
  {
    if k == 0 {
      es, s := Prerolled(c);
      lead := 0;
      CountsAlways(c, es, s);
    } else {
      es, s, lead := PlaybackTurns(c, k - 1);
      if k < c.count {
        Times(c.count - 1 - k, 0, c.dev);
      }
      es, s, lead := OutputTurn(c, es, s, lead);
    }
  }

  /** Then k turns of the render thread. */
  lemma {:induction false} CatchingUp(c: Config, k: nat) returns (es: seq<Event>, s: State, lead: nat)
    requires Sound(c) && !c.recording && k <= c.count
    ensures InTurnTo(c, es, s, lead) && Quiet(s) && s.tokens == c.count + 1 - k && s.play.filled == k * c.dev
  {
    if k == 0 {
      es, s, lead := PlaybackTurns(c, c.count);
    } else {
      es, s, lead := CatchingUp(c, k - 1);
      es, s := ThreadTurn(c, es, s, lead);
      es, s := ThreadSendsOn(c, es, s, lead);
      Times(k - 1, 0, c.dev);
    }
  }

  /** After one underflow the counting no longer protects playback either: in every playback-only
      configuration some run then overwrites undelivered audio. */
  lemma PlaybackOverwrites(c: Config) returns (es: seq<Event>, s: State)
    requires Sound(c) && !c.recording
    ensures Reached(c, es, s) && s.overwrote
  {
    var lead;
    es, s, lead := CatchingUp(c, c.count);
    es, s := ThreadTurn(c, es, s, lead);
    FormedPlay(c, es, s, lead);
    es, s := ThreadSendsOn(c, es, s, lead);
  }
}
