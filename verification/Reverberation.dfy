/** What the reverberator computes over runs of samples, in terms of the laws of its combs and
    allpasses. */
module Reverberation {
  import opened Rotation
  import opened Recirculation
  import opened FlatFilters

  ghost predicate SixFilters(fs: seq<Filter>) {
    |fs| == NCOMBS && forall i :: 0 <= i < NCOMBS ==> |fs[i].win| > 0
  }

  /** The filters after a run of inputs. */
  ghost function NetworkRun(fs: seq<Filter>, xs: seq<real>): (fs': seq<Filter>)
    requires SixFilters(fs)
    ensures SixFilters(fs')
  {
    if xs == [] then fs else Network(NetworkRun(fs, xs[..|xs| - 1]), xs[|xs| - 1]).1
  }

  /** The outputs of a run of inputs. */
  ghost function NetworkOuts(fs: seq<Filter>, xs: seq<real>): (ys: seq<real>)
    requires SixFilters(fs)
    ensures |ys| == |xs|
  {
    if xs == [] then []
    else
      var n := |xs| - 1;
      NetworkOuts(fs, xs[..n]) + [Network(NetworkRun(fs, xs[..n]), xs[n]).0]
  }

  /** The sum of the four combs' outputs at call n. */
  ghost function CombSum(fs: seq<Filter>, xs: seq<real>, n: nat): real
    requires SixFilters(fs) && n <= |xs|
  {
    CombOut(fs[0].win, fs[0].gain, xs, n) + CombOut(fs[1].win, fs[1].gain, xs, n)
    + CombOut(fs[2].win, fs[2].gain, xs, n) + CombOut(fs[3].win, fs[3].gain, xs, n)
  }

  ghost function Bus(fs: seq<Filter>, xs: seq<real>): (bs: seq<real>)
    requires SixFilters(fs)
    ensures |bs| == |xs| && forall n :: 0 <= n < |xs| ==> bs[n] == CombSum(fs, xs, n)
  {
    seq(|xs|, n requires 0 <= n < |xs| => CombSum(fs, xs, n))
  }

  function Quarter(s: seq<real>): (q: seq<real>)
    ensures |q| == |s| && forall n :: 0 <= n < |s| ==> q[n] == 0.25 * s[n]
  {
    seq(|s|, n requires 0 <= n < |s| => 0.25 * s[n])
  }

  /** What goes into the second allpass. */
  ghost function Middle(fs: seq<Filter>, xs: seq<real>): (ms: seq<real>)
    requires SixFilters(fs)
    ensures |ms| == |xs|
  {
    Quarter(AllpassOuts(fs[4].win, fs[4].gain, Bus(fs, xs)))
  }

  /** A comb's output depends only on the inputs before it. */
  lemma BusExtends(fs: seq<Filter>, xs: seq<real>)
    requires SixFilters(fs) && xs != []
    ensures
      var n := |xs| - 1;
      Bus(fs, xs)[..n] == Bus(fs, xs[..n]) && Bus(fs, xs)[n] == CombSum(fs, xs, n)
  {
    var n := |xs| - 1;
    forall i | 0 <= i < n ensures CombSum(fs, xs, i) == CombSum(fs, xs[..n], i) {
      assert xs[..n][..i] == xs[..i];
    }
  }

  lemma MiddleExtends(fs: seq<Filter>, xs: seq<real>)
    requires SixFilters(fs) && xs != []
    ensures
      var n := |xs| - 1;
      && Middle(fs, xs)[..n] == Middle(fs, xs[..n])
      && Middle(fs, xs)[n]
         == 0.25 * AllpassOut(CombRun(fs[4].win, fs[4].gain, Bus(fs, xs)[..n]), fs[4].gain, Bus(fs, xs)[n])
  {
    hide AllpassOut, CombRun, CombSum;
    BusExtends(fs, xs);
  }

  /** Each filter by itself after a run. */
  ghost predicate RanApart(fs: seq<Filter>, xs: seq<real>, fs': seq<Filter>)
    requires SixFilters(fs) && SixFilters(fs')
  {
    && (forall i :: 0 <= i < NCOMBS ==> fs'[i].gain == fs[i].gain)
    && (forall i :: 0 <= i < 4 ==> fs'[i].win == CombRun(fs[i].win, fs[i].gain, xs))
    && fs'[4].win == CombRun(fs[4].win, fs[4].gain, Bus(fs, xs))
    && fs'[5].win == CombRun(fs[5].win, fs[5].gain, Middle(fs, xs))
  }

  /** One sample through the network. */
  lemma NetworkStep(was: seq<Filter>, x: real)
    requires SixFilters(was)
    ensures
      var (y, now) := Network(was, x);
      var bus := was[0].win[|was[0].win| - 1] + was[1].win[|was[1].win| - 1]
                 + was[2].win[|was[2].win| - 1] + was[3].win[|was[3].win| - 1];
      var middle := 0.25 * AllpassOut(was[4].win, was[4].gain, bus);
      && SixFilters(now)
      && (forall i :: 0 <= i < NCOMBS ==> now[i].gain == was[i].gain)
      && (forall i :: 0 <= i < 4 ==> now[i].win == CombStep(was[i].win, was[i].gain, x))
      && now[4].win == CombStep(was[4].win, was[4].gain, bus)
      && now[5].win == CombStep(was[5].win, was[5].gain, middle)
      && y == AllpassOut(was[5].win, was[5].gain, middle)
  {
    hide AllpassOut, CombStep;
  }

  /** The combs' sum is that of their oldest samples. */
  lemma SumOfOldest(fs: seq<Filter>, xs: seq<real>, n: nat, was: seq<Filter>)
    requires SixFilters(fs) && SixFilters(was) && n <= |xs|
    requires forall i :: 0 <= i < 4 ==> was[i].win == CombRun(fs[i].win, fs[i].gain, xs[..n])
    ensures CombSum(fs, xs, n) == was[0].win[|was[0].win| - 1] + was[1].win[|was[1].win| - 1]
                                  + was[2].win[|was[2].win| - 1] + was[3].win[|was[3].win| - 1]
  {
    hide CombRun;
  }

  /** One sample through the network, from where its filters are. */
  lemma OneSample(fs: seq<Filter>, xs: seq<real>, was: seq<Filter>)
    requires SixFilters(fs) && SixFilters(was) && xs != [] && RanApart(fs, xs[..|xs| - 1], was)
    ensures
      var n := |xs| - 1;
      var (y, now) := Network(was, xs[n]);
      && SixFilters(now) && RanApart(fs, xs, now)
      && y == AllpassOut(CombRun(fs[5].win, fs[5].gain, Middle(fs, xs)[..n]), fs[5].gain, Middle(fs, xs)[n])
  {
    var n := |xs| - 1;
    hide AllpassOut, CombStep, CombRun, Bus, Middle, Network, CombSum;
    BusExtends(fs, xs);
    MiddleExtends(fs, xs);
    SumOfOldest(fs, xs, n, was);
    NetworkStep(was, xs[n]);
    RunExtends(fs[4].win, fs[4].gain, Bus(fs, xs));
    RunExtends(fs[5].win, fs[5].gain, Middle(fs, xs));
    forall i | 0 <= i < 4
      ensures CombRun(fs[i].win, fs[i].gain, xs) == CombStep(was[i].win, was[i].gain, xs[n])
    {
      RunExtends(fs[i].win, fs[i].gain, xs);
    }
  }

  lemma RunExtends(win: seq<real>, g: real, xs: seq<real>)
    requires |win| > 0 && xs != []
    ensures CombRun(win, g, xs) == CombStep(CombRun(win, g, xs[..|xs| - 1]), g, xs[|xs| - 1])
  {
  }

  lemma {:induction false} FiltersRunApart(fs: seq<Filter>, xs: seq<real>)
    requires SixFilters(fs)
    ensures RanApart(fs, xs, NetworkRun(fs, xs))
  {
    if xs != [] {
      FiltersRunApart(fs, xs[..|xs| - 1]);
      hide RanApart, Network;
      OneSample(fs, xs, NetworkRun(fs, xs[..|xs| - 1]));
    }
  }

  /** Main result: over every run the reverberator's outputs are those of the second allpass on a
      quarter of those of the first, on the sum of the four combs' outputs. */
  lemma {:induction false} NetworkIsAllpassesOfCombs(fs: seq<Filter>, xs: seq<real>)
    requires SixFilters(fs)
    ensures NetworkOuts(fs, xs) == AllpassOuts(fs[5].win, fs[5].gain, Middle(fs, xs))
  {
    if xs != [] {
      var n := |xs| - 1;
      NetworkIsAllpassesOfCombs(fs, xs[..n]);
      FiltersRunApart(fs, xs[..n]);
      hide Network, RanApart, AllpassOut;
      OneSample(fs, xs, NetworkRun(fs, xs[..n]));
      MiddleExtends(fs, xs);
    }
  }

  ghost predicate SilentFilters(fs: seq<Filter>) {
    SixFilters(fs) && forall i :: 0 <= i < NCOMBS ==> Cleared(fs[i].win)
  }

  /** Such are the filters that rvbset lays out. */
  lemma LaidOutIsSilent(s: seq<real>, sr: real, gains: seq<real>)
    requires |gains| == NCOMBS && Fits(sr) && LaidOut(s, sr, gains, NCOMBS)
    requires forall k :: 0 <= k < NCOMBS ==> Samples(sr, LOOP_TIMES[k]) >= 1
    ensures
      var offs := Offsets(sr, NCOMBS);
      && (forall i :: 0 <= i < NCOMBS ==> offs[i] >= 0) && Layout(s, offs) && SilentFilters(Filters(s, offs))
      && forall i :: 0 <= i < NCOMBS ==> |Filters(s, offs)[i].win| == Samples(sr, LOOP_TIMES[i])
  {
    hide Section, Cleared, Silent, Samples, WindowOf;
    RvbsetSuitsReverb(s, sr, gains);
    forall i | 0 <= i < NCOMBS
      ensures 0 <= Needs(sr, i) < |s| && SectionLength(s, Needs(sr, i)) == START + Samples(sr, LOOP_TIMES[i])
    {
      SilentLength(s, Needs(sr, i), Samples(sr, LOOP_TIMES[i]), gains[i]);
    }
  }

  /** From silence the combs' sum is the sum of four decaying echoes of the input. */
  lemma BusIsEchoes(fs: seq<Filter>, xs: seq<real>, n: nat)
    requires SilentFilters(fs) && n < |xs|
    ensures Bus(fs, xs)[n]
         == Echoes(xs, fs[0].gain, |fs[0].win|, n, 1) + Echoes(xs, fs[1].gain, |fs[1].win|, n, 1)
            + Echoes(xs, fs[2].gain, |fs[2].win|, n, 1) + Echoes(xs, fs[3].gain, |fs[3].win|, n, 1)
  {
    hide Echoes, CombOut, Cleared;
    CombIsEchoSum(fs[0].win, fs[0].gain, xs, n);
    CombIsEchoSum(fs[1].win, fs[1].gain, xs, n);
    CombIsEchoSum(fs[2].win, fs[2].gain, xs, n);
    CombIsEchoSum(fs[3].win, fs[3].gain, xs, n);
  }

  lemma {:induction false} AllpassOfSilence(win: seq<real>, g: real, xs: seq<real>)
    requires |win| > 0 && Cleared(win) && Cleared(xs)
    ensures Cleared(AllpassOuts(win, g, xs)) && Cleared(CombRun(win, g, xs))
  {
    if xs != [] {
      AllpassOfSilence(win, g, xs[..|xs| - 1]);
    }
  }

  /** From silence nothing is heard until the shortest comb has come round. */
  lemma SilentUntilFirstEcho(fs: seq<Filter>, xs: seq<real>)
    requires SilentFilters(fs) && forall i :: 0 <= i < 4 ==> |xs| <= |fs[i].win|
    ensures Cleared(NetworkOuts(fs, xs))
  {
    forall n | 0 <= n < |xs| ensures Bus(fs, xs)[n] == 0.0 {
      BusIsEchoes(fs, xs, n);
    }
    hide CombOut, AllpassOuts, CombRun, NetworkOuts;
    AllpassOfSilence(fs[4].win, fs[4].gain, Bus(fs, xs));
    AllpassOfSilence(fs[5].win, fs[5].gain, Middle(fs, xs));
    NetworkIsAllpassesOfCombs(fs, xs);
  }

  lemma {:induction false} EnergyOfQuarter(s: seq<real>)
    ensures Energy(Quarter(s)) == Energy(s) / 16.0
  {
    if s != [] {
      var n := |s| - 1;
      EnergyOfQuarter(s[..n]);
      assert Quarter(s)[..n] == Quarter(s[..n]);
      assert Square(0.25 * s[n]) == Square(s[n]) / 16.0;
    }
  }

  /** From silence, with allpass gains of at most 1, the output energy is at most a sixteenth of that
      of the combs' sum. */
  lemma EnergyIsBounded(fs: seq<Filter>, xs: seq<real>)
    requires SilentFilters(fs) && Abs(fs[4].gain) <= 1.0 && Abs(fs[5].gain) <= 1.0
    ensures Energy(NetworkOuts(fs, xs)) <= Energy(Bus(fs, xs)) / 16.0
  {
    hide Energy, AllpassOuts, Bus, NetworkOuts, Cleared, Abs;
    NetworkIsAllpassesOfCombs(fs, xs);
    AllpassNeverAmplifies(fs[4].win, fs[4].gain, Bus(fs, xs));
    AllpassNeverAmplifies(fs[5].win, fs[5].gain, Middle(fs, xs));
    EnergyOfQuarter(AllpassOuts(fs[4].win, fs[4].gain, Bus(fs, xs)));
  }
}
