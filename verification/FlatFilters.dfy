/** The C comb and allpass filters, each a section of a float array that starts with its own
    length, gain and position, and the reverberator that keeps six of them back to back. */
module FlatFilters {
  import opened Rotation
  import opened Recirculation

  const START := 3

  /** (int) of a nonnegative array value. */
  function Truncated(x: real): int { x.Floor }

  /** The length a section stores in its first value, header included. */
  function SectionLength(s: seq<real>, b: nat): int
    requires b < |s|
  {
    Truncated(s[b])
  }

  /** A section at b: it holds at least one sample and lies inside the array, and its stored
      position is a whole number from the first sample to just past the last. */
  ghost predicate Section(s: seq<real>, b: nat) {
    && b + START < |s|
    && START < SectionLength(s, b) && b + SectionLength(s, b) <= |s|
    && s[b + 2] == Truncated(s[b + 2]) as real
    && START <= Truncated(s[b + 2]) <= SectionLength(s, b)
  }

  /** The sample slot the next call uses. */
  ghost function NextSlot(s: seq<real>, b: nat): (q: nat)
    requires Section(s, b)
    ensures q < SectionLength(s, b) - START
  {
    var p := Truncated(s[b + 2]);
    if p == SectionLength(s, b) then 0 else p - START
  }

  /** The samples of a section, newest first. */
  ghost function WindowOf(s: seq<real>, b: nat): (win: seq<real>)
    requires Section(s, b)
    ensures |win| == SectionLength(s, b) - START > 0
  {
    Aged(s[b + START..b + SectionLength(s, b)], NextSlot(s, b))
  }

  /** A section is what its own stretch of the array says. */
  lemma SectionKept(s: seq<real>, s': seq<real>, b: nat)
    requires |s| == |s'| && Section(s, b)
    requires forall k :: b <= k < b + SectionLength(s, b) ==> s'[k] == s[k]
    ensures Section(s', b) && SectionLength(s', b) == SectionLength(s, b)
    ensures WindowOf(s', b) == WindowOf(s, b) && s'[b + 1] == s[b + 1]
  {
    assert s'[b] == s[b] && s'[b + 2] == s[b + 2];
    assert s'[b + START..b + SectionLength(s, b)] == s[b + START..b + SectionLength(s, b)];
  }

  /** Everything outside the section at b is as it was. */
  ghost predicate OnlySection(s: seq<real>, s': seq<real>, b: nat)
    requires b < |s|
  {
    && |s'| == |s|
    && forall k :: 0 <= k < |s| && !(b <= k < b + SectionLength(s, b)) ==> s'[k] == s[k]
  }

  /** One recirculation of the section at b, on values: position advanced, sample replaced. */
  ghost function Recirculated(s: seq<real>, b: nat, x: real): (s': seq<real>)
    requires Section(s, b)
    ensures |s'| == |s|
  {
    var q := NextSlot(s, b);
    s[b + 2 := (START + q + 1) as real][b + START + q := CombWrites(WindowOf(s, b), s[b + 1], x)]
  }

  lemma RecirculatedIsStep(s: seq<real>, b: nat, x: real)
    requires Section(s, b)
    ensures
      var s' := Recirculated(s, b, x);
      && Section(s', b) && SectionLength(s', b) == SectionLength(s, b) && s'[b] == s[b] && s'[b + 1] == s[b + 1]
      && WindowOf(s', b) == CombStep(WindowOf(s, b), s[b + 1], x)
      && OnlySection(s, s', b)
  {
    hide CombWrites;
    var s', q, n := Recirculated(s, b, x), NextSlot(s, b), SectionLength(s, b);
    var line := s[b + START..b + n];
    var w := CombWrites(WindowOf(s, b), s[b + 1], x);
    StoreShifts(line, q, w);
    assert s'[b + 2] == (START + q + 1) as real;
    assert Truncated(s'[b + 2]) == START + q + 1;
    assert s'[b + START..b + n] == line[q := w];
  }

  /** comb, and the COMB macro: the oldest sample comes out, and goes round again. */
  method Comb(a: array<real>, b: nat, samp: real) returns (val: real)
    requires Section(a[..], b)
    modifies a
    ensures a[..] == Recirculated(old(a[..]), b, samp)
    ensures val == old(WindowOf(a[..], b)[|WindowOf(a[..], b)| - 1])
  {
    ghost var s := a[..];
    ghost var q := NextSlot(s, b);
    OldestInSlot(s[b + START..b + SectionLength(s, b)], q);
    if a[b + 2] >= Truncated(a[b]) as real {
      a[b + 2] := START as real;
    }
    var ptr := b + Truncated(a[b + 2]);
    a[b + 2] := a[b + 2] + 1.0;
    val := a[ptr];
    a[ptr] := samp + Mul(a[b + 1], a[ptr]);
    assert a[..] == Recirculated(s, b, samp);
  }

  /** allpass, and the ALLPASS macro. */
  method Allpass(a: array<real>, b: nat, samp: real) returns (val: real)
    requires Section(a[..], b)
    modifies a
    ensures a[..] == Recirculated(old(a[..]), b, samp)
    ensures val == old(AllpassOut(WindowOf(a[..], b), a[b + 1], samp))
  {
    ghost var s := a[..];
    ghost var q := NextSlot(s, b);
    OldestInSlot(s[b + START..b + SectionLength(s, b)], q);
    if a[b + 2] >= Truncated(a[b]) as real {
      a[b + 2] := START as real;
    }
    var ptr := b + Truncated(a[b + 2]);
    a[b + 2] := a[b + 2] + 1.0;
    val := a[ptr];
    a[ptr] := samp + Mul(a[b + 1], a[ptr]);
    val := val - Mul(a[b + 1], a[ptr]);
    assert a[..] == Recirculated(s, b, samp);
  }

  // ---- Six sections back to back --------------------------------------------------

  const NCOMBS := 6

  /** Section i starts where section i - 1 ends. */
  ghost predicate Layout(s: seq<real>, offs: seq<nat>) {
    && |offs| == NCOMBS && offs[0] == 0
    && (forall i :: 0 <= i < NCOMBS ==> Section(s, offs[i]))
    && (forall i :: 0 < i < NCOMBS ==> offs[i] == offs[i - 1] + SectionLength(s, offs[i - 1]))
  }

  lemma {:induction false} Apart(s: seq<real>, offs: seq<nat>, j: nat, k: nat)
    requires Layout(s, offs) && j < k < NCOMBS
    ensures offs[j] + SectionLength(s, offs[j]) <= offs[k]
    decreases k
  {
    if j + 1 < k {
      Apart(s, offs, j, k - 1);
    }
  }

  ghost function GainOf(s: seq<real>, b: nat): real
    requires Section(s, b)
  {
    s[b + 1]
  }

  /** Running section i leaves the layout alone, and every other section with it. */
  lemma OthersKept(s: seq<real>, s': seq<real>, offs: seq<nat>, i: nat)
    requires Layout(s, offs) && i < NCOMBS && OnlySection(s, s', offs[i])
    requires Section(s', offs[i]) && SectionLength(s', offs[i]) == SectionLength(s, offs[i])
    ensures Layout(s', offs)
    ensures forall j :: 0 <= j < NCOMBS && j != i ==>
      WindowOf(s', offs[j]) == WindowOf(s, offs[j]) && GainOf(s', offs[j]) == GainOf(s, offs[j])
  {
    forall j | 0 <= j < NCOMBS && j != i
      ensures Section(s', offs[j]) && SectionLength(s', offs[j]) == SectionLength(s, offs[j])
      ensures WindowOf(s', offs[j]) == WindowOf(s, offs[j]) && GainOf(s', offs[j]) == GainOf(s, offs[j])
    {
      Apart(s, offs, if i < j then i else j, if i < j then j else i);
      SectionKept(s, s', offs[j]);
    }
  }

  /** Section i run once on input x: the layout and all other sections as before. */
  ghost predicate RanSection(s: seq<real>, s': seq<real>, offs: seq<nat>, i: nat, x: real)
    requires Layout(s, offs) && i < NCOMBS
  {
    && Layout(s', offs)
    && forall j :: 0 <= j < NCOMBS ==>
         && GainOf(s', offs[j]) == GainOf(s, offs[j])
         && WindowOf(s', offs[j]) ==
              if j == i then CombStep(WindowOf(s, offs[j]), GainOf(s, offs[j]), x) else WindowOf(s, offs[j])
  }

  lemma RecirculatedRan(s: seq<real>, offs: seq<nat>, i: nat, x: real)
    requires Layout(s, offs) && i < NCOMBS
    ensures RanSection(s, Recirculated(s, offs[i], x), offs, i, x)
  {
    hide Recirculated, WindowOf, CombStep;
    RecirculatedIsStep(s, offs[i], x);
    OthersKept(s, Recirculated(s, offs[i], x), offs, i);
  }

  /** The six windows of the reverberator, with the gains that go with them. */
  datatype Filter = Filter(win: seq<real>, gain: real)

  ghost function Filters(s: seq<real>, offs: seq<nat>): (fs: seq<Filter>)
    requires Layout(s, offs)
    ensures |fs| == NCOMBS && forall i :: 0 <= i < NCOMBS ==> |fs[i].win| > 0
  {
    seq(NCOMBS, i requires 0 <= i < NCOMBS => Filter(WindowOf(s, offs[i]), GainOf(s, offs[i])))
  }

  ghost function Stepped(f: Filter, x: real): (f': Filter)
    requires |f.win| > 0
    ensures |f'.win| == |f.win| && f'.gain == f.gain
  {
    f.(win := CombStep(f.win, f.gain, x))
  }

  ghost function Oldest(f: Filter): real
    requires |f.win| > 0
  {
    f.win[|f.win| - 1]
  }

  ghost function Passed(f: Filter, x: real): real
    requires |f.win| > 0
  {
    AllpassOut(f.win, f.gain, x)
  }

  lemma RanIsUpdate(s: seq<real>, s': seq<real>, offs: seq<nat>, i: nat, x: real)
    requires Layout(s, offs) && i < NCOMBS && RanSection(s, s', offs, i, x)
    ensures Filters(s', offs) == Filters(s, offs)[i := Stepped(Filters(s, offs)[i], x)]
  {
    hide WindowOf, GainOf, CombStep;
  }

  /** Reverberation as a network of six separate filters: four combs in parallel on the input,
      their sum through one allpass, and a quarter of that through another. */
  ghost function Network(fs: seq<Filter>, xin: real): (p: (real, seq<Filter>))
    requires |fs| == NCOMBS && forall i :: 0 <= i < NCOMBS ==> |fs[i].win| > 0
  {
    var bus := Oldest(fs[0]) + (Oldest(fs[1]) + Oldest(fs[2]) + Oldest(fs[3]));
    var x := Mul(0.25, Passed(fs[4], bus));
    (Passed(fs[5], x),
     [Stepped(fs[0], xin), Stepped(fs[1], xin), Stepped(fs[2], xin), Stepped(fs[3], xin),
      Stepped(fs[4], bus), Stepped(fs[5], x)])
  }

  /** One COMB of reverb's walk, and the step to the next section. */
  method CombAt(a: array<real>, apoint: nat, samp: real, ghost offs: seq<nat>, ghost i: nat)
    returns (val: real, next: nat)
    requires Layout(a[..], offs) && i + 1 < NCOMBS && apoint == offs[i]
    modifies a
    ensures Layout(a[..], offs) && next == offs[i + 1]
    ensures val == Oldest(old(Filters(a[..], offs))[i])
    ensures Filters(a[..], offs) == old(Filters(a[..], offs))[i := Stepped(old(Filters(a[..], offs))[i], samp)]
  {
    hide WindowOf, Recirculated, GainOf, CombStep;
    ghost var s := a[..];
    val := Comb(a, apoint, samp);
    RecirculatedRan(s, offs, i, samp);
    RanIsUpdate(s, a[..], offs, i, samp);
    RecirculatedIsStep(s, apoint, samp);
    next := apoint + Truncated(a[apoint]);
  }

  method AllpassAt(a: array<real>, apoint: nat, samp: real, ghost offs: seq<nat>, ghost i: nat)
    returns (val: real, next: nat)
    requires Layout(a[..], offs) && i < NCOMBS && apoint == offs[i]
    modifies a
    ensures Layout(a[..], offs) && (i + 1 < NCOMBS ==> next == offs[i + 1])
    ensures val == Passed(old(Filters(a[..], offs))[i], samp)
    ensures Filters(a[..], offs) == old(Filters(a[..], offs))[i := Stepped(old(Filters(a[..], offs))[i], samp)]
  {
    hide WindowOf, Recirculated, CombStep, AllpassOut;
    ghost var s := a[..];
    val := Allpass(a, apoint, samp);
    RecirculatedRan(s, offs, i, samp);
    RanIsUpdate(s, a[..], offs, i, samp);
    RecirculatedIsStep(s, apoint, samp);
    next := apoint + Truncated(a[apoint]);
  }

  /** reverb: on one array, exactly the network of six separate filters. */
  method Reverb(a: array<real>, xin: real, ghost offs: seq<nat>) returns (y: real)
    requires Layout(a[..], offs)
    modifies a
    ensures Layout(a[..], offs)
    ensures (y, Filters(a[..], offs)) == Network(old(Filters(a[..], offs)), xin)
  {
    hide Layout, Filters, Stepped, Oldest, Passed;
    ghost var fs := Filters(a[..], offs);
    var w, x, y0, z;
    var apoint: nat := 0;
    assert offs[0] == 0 by { FirstSection(a[..], offs); }
    w, apoint := CombAt(a, apoint, xin, offs, 0);
    x, apoint := CombAt(a, apoint, xin, offs, 1);
    y0, apoint := CombAt(a, apoint, xin, offs, 2);
    z, apoint := CombAt(a, apoint, xin, offs, 3);
    w := w + (x + y0 + z);
    x, apoint := AllpassAt(a, apoint, w, offs, 4);
    y, apoint := AllpassAt(a, apoint, Mul(0.25, x), offs, 5);
    assert Filters(a[..], offs) == Network(fs, xin).1;
  }

  lemma FirstSection(s: seq<real>, offs: seq<nat>)
    requires Layout(s, offs)
    ensures |offs| == NCOMBS && offs[0] == 0
  {
  }

  // ---- Laying the sections out --------------------------------------------------------

  /** Samples a section gets for a loop time at a sampling rate. */
  function Samples(sr: real, loopt: real): int {
    Truncated(loopt * sr + 0.5)
  }

  /** A section of n silent samples at b, about to use the first. */
  ghost predicate Silent(s: seq<real>, b: nat, n: int, gain: real) {
    && n >= 0 && b + START + n <= |s|
    && SectionLength(s, b) == START + n && s[b + 1] == gain && s[b + 2] == START as real
    && forall k :: b + START <= k < b + START + n ==> s[k] == 0.0
  }

  /** Silence is a filter's section as soon as it has a sample. */
  lemma SilentIsSection(s: seq<real>, b: nat, n: int, gain: real)
    requires Silent(s, b, n, gain) && n >= 1
    ensures Section(s, b) && Cleared(WindowOf(s, b)) && GainOf(s, b) == gain
  {
  }

  /** combset, where decay stands for pow(.001, loopt / rvt): the section at b gets its length and
      its gain, and with init 0 silence.  A loop time that rounds to no samples leaves just the
      header. */
  method Combset(sr: real, loopt: real, decay: real, init: bool, a: array<real>, b: nat)
    requires Samples(sr, loopt) >= 0 && b + START + Samples(sr, loopt) <= a.Length
    modifies a
    ensures SectionLength(a[..], b) == START + Samples(sr, loopt) && a[b + 1] == decay
    ensures OnlySection(a[..], old(a[..]), b)
    ensures !init ==> Silent(a[..], b, Samples(sr, loopt), decay)
    ensures init ==> forall k :: 0 <= k < a.Length && k != b && k != b + 1 ==> a[k] == old(a[k])
  {
    a[b] := START as real + (loopt * sr + 0.5);
    a[b + 1] := decay;
    StartPlusFloor(loopt * sr + 0.5);
    if !init {
      ghost var n := START + Samples(sr, loopt);
      for j := START to Truncated(a[b])
        invariant a[b] == START as real + (loopt * sr + 0.5) && a[b + 1] == decay
        invariant forall k :: b + START <= k < b + j ==> a[k] == 0.0
        invariant forall k :: 0 <= k < a.Length && !(b <= k < b + n) ==> a[k] == old(a[k])
      {
        a[b + j] := 0.0;
      }
      a[b + 2] := START as real;
    }
  }

  lemma StartPlusFloor(x: real)
    ensures (START as real + x).Floor == START + x.Floor
  {
  }

  const LOOP_TIMES: seq<real> := [0.0297, 0.0371, 0.0411, 0.0437, 0.005, 0.0017]
  const ALLPASS_TIMES: seq<real> := [0.096835, 0.032924]

  /** Array values the first i sections take. */
  function Needs(sr: real, i: nat): int
    requires i <= NCOMBS
  {
    if i == 0 then 0 else Needs(sr, i - 1) + START + Samples(sr, LOOP_TIMES[i - 1])
  }

  ghost function Offsets(sr: real, i: nat): (offs: seq<int>)
    requires i <= NCOMBS
    ensures |offs| == i && forall j :: 0 <= j < i ==> offs[j] == Needs(sr, j)
  {
    if i == 0 then [] else Offsets(sr, i - 1) + [Needs(sr, i - 1)]
  }

  /** No loop time is so negative that it counts less than no samples. */
  predicate Fits(sr: real) {
    forall k :: 0 <= k < NCOMBS ==> Samples(sr, LOOP_TIMES[k]) >= 0
  }

  /** The first i sections stand where they should, silent. */
  ghost predicate LaidOut(s: seq<real>, sr: real, gains: seq<real>, i: nat)
    requires i <= NCOMBS == |gains|
  {
    forall j :: 0 <= j < i ==>
      Needs(sr, j) >= 0 && Silent(s, Needs(sr, j), Samples(sr, LOOP_TIMES[j]), gains[j])
  }

  /** k holds the length or the gain of one of the first i sections. */
  ghost predicate IsHeader(sr: real, i: nat, k: int)
    requires i <= NCOMBS
  {
    exists j :: 0 <= j < i && (k == Needs(sr, j) || k == Needs(sr, j) + 1)
  }

  /** The header at b holds a length of n samples and a gain. */
  ghost predicate Tuned(s: seq<real>, b: int, n: int, gain: real) {
    0 <= b < |s| - 1 && SectionLength(s, b) == START + n && s[b + 1] == gain
  }

  /** The first i sections have new lengths and gains, and all else is as it was. */
  ghost predicate Retuned(before: seq<real>, s: seq<real>, sr: real, gains: seq<real>, i: nat)
    requires i <= NCOMBS == |gains|
  {
    && |s| == |before|
    && (forall j :: 0 <= j < i ==> Tuned(s, Needs(sr, j), Samples(sr, LOOP_TIMES[j]), gains[j]))
    && (forall k :: 0 <= k < |s| && !IsHeader(sr, i, k) ==> s[k] == before[k])
  }

  /** The gains rvbset gives: the four combs decay with the reverb time asked for, the two
      allpasses with fixed times of their own. */
  function Gains(rvt: real, decay: (real, real) -> real): (g: seq<real>)
    ensures |g| == NCOMBS
  {
    [decay(0.0297, rvt), decay(0.0371, rvt), decay(0.0411, rvt), decay(0.0437, rvt),
     decay(0.005, 0.096835), decay(0.0017, 0.032924)]
  }

  /** A section's values come after those of the sections before it. */
  lemma {:induction false} NeedsGrow(sr: real, i: nat, j: nat)
    requires i <= j <= NCOMBS && Fits(sr)
    ensures 0 <= Needs(sr, i) <= Needs(sr, j)
    ensures i < j ==> Needs(sr, i) + START + Samples(sr, LOOP_TIMES[i]) <= Needs(sr, j)
    decreases j
  {
    if i < j {
      NeedsGrow(sr, i, j - 1);
    } else if i > 0 {
      NeedsGrow(sr, i - 1, j - 1);
    }
  }

  lemma LaidOutNext(s: seq<real>, s': seq<real>, sr: real, gains: seq<real>, i: nat)
    requires i < NCOMBS == |gains| && Fits(sr) && LaidOut(s, sr, gains, i) && |s| == |s'|
    requires forall k :: 0 <= k < Needs(sr, i) && k < |s| ==> s'[k] == s[k]
    requires 0 <= Needs(sr, i) && Silent(s', Needs(sr, i), Samples(sr, LOOP_TIMES[i]), gains[i])
    ensures LaidOut(s', sr, gains, i + 1)
  {
    hide Samples, Needs, Silent;
    forall j | 0 <= j < i
      ensures Needs(sr, j) >= 0 && Silent(s', Needs(sr, j), Samples(sr, LOOP_TIMES[j]), gains[j])
    {
      NeedsGrow(sr, j, i);
      SilentEnds(s, Needs(sr, j), Samples(sr, LOOP_TIMES[j]), gains[j]);
      SilentKept(s, s', Needs(sr, j), Samples(sr, LOOP_TIMES[j]), gains[j]);
    }
  }

  lemma SilentEnds(s: seq<real>, b: nat, n: int, gain: real)
    requires Silent(s, b, n, gain)
    ensures b + START + n <= |s|
  {
  }

  lemma SilentKept(s: seq<real>, s': seq<real>, b: nat, n: int, gain: real)
    requires Silent(s, b, n, gain) && |s| == |s'| && forall k :: b <= k < b + START + n ==> s'[k] == s[k]
    ensures Silent(s', b, n, gain)
  {
    assert s'[b] == s[b] && s'[b + 1] == s[b + 1] && s'[b + 2] == s[b + 2];
  }

  lemma RetunedNext(before: seq<real>, s: seq<real>, s': seq<real>, sr: real, gains: seq<real>, i: nat)
    requires i < NCOMBS == |gains| && Fits(sr) && Retuned(before, s, sr, gains, i) && |s| == |s'|
    requires forall k :: 0 <= k < |s| && k != Needs(sr, i) && k != Needs(sr, i) + 1 ==> s'[k] == s[k]
    requires Tuned(s', Needs(sr, i), Samples(sr, LOOP_TIMES[i]), gains[i])
    ensures Retuned(before, s', sr, gains, i + 1)
  {
    hide Samples, Needs, IsHeader, Tuned;
    forall j | 0 <= j < i
      ensures Tuned(s', Needs(sr, j), Samples(sr, LOOP_TIMES[j]), gains[j])
    {
      NeedsGrow(sr, j, i);
      TunedKept(s, s', Needs(sr, j), Samples(sr, LOOP_TIMES[j]), gains[j]);
    }
    forall k | 0 <= k < |s| && !IsHeader(sr, i + 1, k) ensures s'[k] == before[k] {
      NotThisHeader(sr, i, k);
    }
  }

  lemma TunedKept(s: seq<real>, s': seq<real>, b: int, n: int, gain: real)
    requires Tuned(s, b, n, gain) && |s'| == |s|
    requires forall k :: b <= k < b + 2 && 0 <= k < |s| ==> s'[k] == s[k]
    ensures Tuned(s', b, n, gain)
  {
    assert s'[b] == s[b] && s'[b + 1] == s[b + 1];
  }

  lemma NotThisHeader(sr: real, i: nat, k: int)
    requires i < NCOMBS && !IsHeader(sr, i + 1, k)
    ensures !IsHeader(sr, i, k) && k != Needs(sr, i) && k != Needs(sr, i) + 1
  {
  }

  /** One turn of rvbset's loop. */
  method SetSection(sr: real, ghost gains: seq<real>, decay: real, init: bool, a: array<real>, apoint: nat, i: nat,
                    ghost before: seq<real>)
    returns (next: nat)
    requires i < NCOMBS == |gains| && decay == gains[i] && Fits(sr)
    requires apoint == Needs(sr, i) && Needs(sr, i + 1) <= a.Length
    requires if init then Retuned(before, a[..], sr, gains, i) else LaidOut(a[..], sr, gains, i)
    modifies a
    ensures next == Needs(sr, i + 1)
    ensures if init then Retuned(before, a[..], sr, gains, i + 1) else LaidOut(a[..], sr, gains, i + 1)
  {
    hide LaidOut, Retuned, Silent, Samples;
    ghost var s := a[..];
    NeedsGrow(sr, i, i);
    Combset(sr, LOOP_TIMES[i], decay, init, a, apoint);
    if init {
      RetunedNext(before, s, a[..], sr, gains, i);
    } else {
      LaidOutNext(s, a[..], sr, gains, i);
    }
    next := apoint + Truncated(a[apoint]);
  }

  /** rvbset.  With init 0: six silent sections, each starting where the one before it ends; else
      new lengths and gains for the six, and nothing else changed. */
  method Rvbset(sr: real, rvt: real, decay: (real, real) -> real, init: bool, a: array<real>)
    requires Fits(sr) && Needs(sr, NCOMBS) <= a.Length
    modifies a
    ensures !init ==> LaidOut(a[..], sr, Gains(rvt, decay), NCOMBS)
    ensures init ==> Retuned(old(a[..]), a[..], sr, Gains(rvt, decay), NCOMBS)
  {
    var apoint: nat := 0;
    ghost var before := a[..];
    for i := 0 to NCOMBS
      invariant apoint == Needs(sr, i)
      invariant init ==> Retuned(before, a[..], sr, Gains(rvt, decay), i)
      invariant !init ==> LaidOut(a[..], sr, Gains(rvt, decay), i)
    {
      hide LaidOut, Retuned;
      NeedsGrow(sr, i + 1, NCOMBS);
      var rvbtime := if i < NCOMBS - 2 then rvt else ALLPASS_TIMES[i - (NCOMBS - 2)];
      apoint := SetSection(sr, Gains(rvt, decay), decay(LOOP_TIMES[i], rvbtime), init, a, apoint, i, before);
    }
  }

  /** What rvbset lays out is the layout reverb walks, with every filter silent, provided that each
      loop time counts a sample. */
  lemma RvbsetSuitsReverb(s: seq<real>, sr: real, gains: seq<real>)
    requires |gains| == NCOMBS && Fits(sr) && LaidOut(s, sr, gains, NCOMBS)
    requires forall k :: 0 <= k < NCOMBS ==> Samples(sr, LOOP_TIMES[k]) >= 1
    ensures
      var offs := Offsets(sr, NCOMBS);
      && (forall i :: 0 <= i < NCOMBS ==> offs[i] >= 0)
      && Layout(s, offs)
      && forall i :: 0 <= i < NCOMBS ==> Cleared(Filters(s, offs)[i].win) && Filters(s, offs)[i].gain == gains[i]
  {
    hide Silent, Samples, Section, WindowOf, Cleared;
    forall i | 0 <= i < NCOMBS
      ensures Needs(sr, i) >= 0 && Section(s, Needs(sr, i)) && Cleared(WindowOf(s, Needs(sr, i)))
      ensures GainOf(s, Needs(sr, i)) == gains[i]
      ensures Needs(sr, i) < |s| && SectionLength(s, Needs(sr, i)) == START + Samples(sr, LOOP_TIMES[i])
    {
      SilentIsSection(s, Needs(sr, i), Samples(sr, LOOP_TIMES[i]), gains[i]);
      SilentLength(s, Needs(sr, i), Samples(sr, LOOP_TIMES[i]), gains[i]);
    }
  }

  lemma SilentLength(s: seq<real>, b: nat, n: int, gain: real)
    requires Silent(s, b, n, gain)
    ensures b < |s| && SectionLength(s, b) == START + n
  {
  }

  /** Retuning a reverberator that was laid out for the same rate changes its gains and keeps what
      is in its filters. */
  lemma RetuningKeepsSamples(before: seq<real>, s: seq<real>, sr: real, gains: seq<real>, offs: seq<nat>)
    requires |gains| == NCOMBS && Fits(sr) && Retuned(before, s, sr, gains, NCOMBS)
    requires Layout(before, offs) && forall i :: 0 <= i < NCOMBS ==> offs[i] == Needs(sr, i)
    requires forall i :: 0 <= i < NCOMBS ==> SectionLength(before, offs[i]) == START + Samples(sr, LOOP_TIMES[i])
    ensures Layout(s, offs)
    ensures forall i :: 0 <= i < NCOMBS ==> Filters(s, offs)[i] == Filter(Filters(before, offs)[i].win, gains[i])
  {
    hide WindowOf, Section, Needs, Samples, IsHeader;
    forall i | 0 <= i < NCOMBS
      ensures Section(s, offs[i]) && SectionLength(s, offs[i]) == SectionLength(before, offs[i])
      ensures WindowOf(s, offs[i]) == WindowOf(before, offs[i]) && GainOf(s, offs[i]) == gains[i]
    {
      assert Section(before, offs[i]) && Tuned(s, Needs(sr, i), Samples(sr, LOOP_TIMES[i]), gains[i]);
      assert offs[i] + SectionLength(before, offs[i]) <= |before| by { SectionFits(before, offs[i]); }
      forall k | offs[i] + 2 <= k < offs[i] + SectionLength(before, offs[i]) ensures s[k] == before[k] {
        InsideIsNoHeader(before, sr, offs, i, k);
      }
      NewHeaderKeepsWindow(before, s, offs[i]);
    }
  }

  lemma InsideIsNoHeader(s: seq<real>, sr: real, offs: seq<nat>, i: nat, k: int)
    requires Layout(s, offs) && i < NCOMBS && forall j :: 0 <= j < NCOMBS ==> offs[j] == Needs(sr, j)
    requires offs[i] + 2 <= k < offs[i] + SectionLength(s, offs[i])
    ensures !IsHeader(sr, NCOMBS, k)
  {
    hide Needs;
    forall j | 0 <= j < NCOMBS ensures k != Needs(sr, j) && k != Needs(sr, j) + 1 {
      assert offs[j] == Needs(sr, j) && Section(s, offs[j]);
      if j < i {
        Apart(s, offs, j, i);
      } else if i < j {
        Apart(s, offs, i, j);
      }
    }
  }

  lemma SectionFits(s: seq<real>, b: nat)
    requires Section(s, b)
    ensures b + SectionLength(s, b) <= |s|
  {
  }

  lemma NewHeaderKeepsWindow(s: seq<real>, s': seq<real>, b: nat)
    requires Section(s, b) && |s| == |s'| && SectionLength(s', b) == SectionLength(s, b)
    requires forall k :: b + 2 <= k < b + SectionLength(s, b) ==> s'[k] == s[k]
    ensures Section(s', b) && WindowOf(s', b) == WindowOf(s, b)
  {
    assert s'[b + 2] == s[b + 2];
    assert s'[b + START..b + SectionLength(s, b)] == s[b + START..b + SectionLength(s, b)];
  }

  /** What a value exceeds its whole part by. */
  function Frac(x: real): (f: real)
    ensures 0.0 <= f < 1.0
  {
    x - x.Floor as real
  }

  /** The parts of a sample that rounding to whole samples drops, over the first i sections. */
  function Dropped(sr: real, i: nat): (d: real)
    requires i <= NCOMBS
    ensures d >= 0.0
  {
    if i == 0 then 0.0 else Dropped(sr, i - 1) + Frac(LOOP_TIMES[i - 1] * sr + 0.5)
  }

  function TotalTime(i: nat): real
    requires i <= NCOMBS
  {
    if i == 0 then 0.0 else TotalTime(i - 1) + LOOP_TIMES[i - 1]
  }

  lemma {:induction false} NeedsAre(sr: real, i: nat)
    requires i <= NCOMBS
    ensures Needs(sr, i) as real == TotalTime(i) * sr + 3.5 * i as real - Dropped(sr, i)
  {
    if i > 0 {
      NeedsAre(sr, i - 1);
      var t := LOOP_TIMES[i - 1];
      assert (TotalTime(i - 1) + t) * sr == TotalTime(i - 1) * sr + t * sr;
    }
  }

  lemma TotalTimeIs()
    ensures TotalTime(NCOMBS) == 0.1583
  {
    assert TotalTime(1) == 0.0297;
    assert TotalTime(2) == 0.0668;
    assert TotalTime(3) == 0.1079;
    assert TotalTime(4) == 0.1516;
    assert TotalTime(5) == 0.1566;
  }

  /** The storage the six sections need is at most .1583 SR + 21 values. */
  lemma StorageNeeded(sr: real)
    ensures Needs(sr, NCOMBS) as real <= 0.1583 * sr + 21.0
  {
    NeedsAre(sr, NCOMBS);
    TotalTimeIs();
  }

  /** The source's own note, .1583 SR + 18, is enough exactly for the rates at which rounding the
      six loop times drops three samples in all. */
  lemma StorageNoteSufficesExactlyWhen(sr: real)
    ensures Needs(sr, NCOMBS) as real <= 0.1583 * sr + 18.0 <==> Dropped(sr, NCOMBS) >= 3.0
  {
    NeedsAre(sr, NCOMBS);
    TotalTimeIs();
  }

  /** So it is not at 44100. */
  lemma StorageNoteFallsShort()
    ensures Dropped(44100.0, NCOMBS) < 3.0
    ensures Needs(44100.0, NCOMBS) as real > 0.1583 * 44100.0 + 18.0
  {
    assert Dropped(44100.0, 1) == 0.27;
    assert Dropped(44100.0, 2) == 0.27 + 0.61;
    assert Dropped(44100.0, 3) == 0.88 + 0.01;
    assert Dropped(44100.0, 4) == 0.89 + 0.67;
    assert Dropped(44100.0, 5) == 1.56 + 0.0;
    StorageNoteSufficesExactlyWhen(44100.0);
  }
}
