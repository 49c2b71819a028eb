/** FFTReal: the transform with its look-up tables and its ping-pong buffers. */
module FFTReal {
  import opened Powers
  import opened Circle
  import opened Butterfly
  import opened BitReversal
  import opened Transform
  import opened RealDft
  import opened FftPasses

  /** TrigoLUT::get_ptr: where the cosines of a level start in the packed table. */
  function TrigoOffset(level: nat): (at: nat)
    requires level >= 3
  {
    Pow2Monotone(2, level - 1);
    Pow2(level - 1) - 4
  }

  /** TrigoLUT's total length. */
  function TrigoLength(nbrBits: nat): (n: nat) {
    if nbrBits > 3 then TrigoOffset(nbrBits) else 0
  }

  /** The levels tile the table: the first starts at 0, each ends where the next starts,
      and the last ends at the table's end. */
  lemma TrigoLevelsTile(nbrBits: nat, level: nat)
    requires 3 <= level < nbrBits
    ensures TrigoOffset(3) == 0
    ensures TrigoOffset(level) + Pow2(level) / 2 == TrigoOffset(level + 1) <= TrigoLength(nbrBits)
    ensures level + 1 == nbrBits ==> TrigoOffset(level + 1) == TrigoLength(nbrBits)
  {
    Pow2Monotone(level, nbrBits - 1);
  }

  /** The table of pass l, as the general passes read it.  Passes 0 and 1 need none, and pass 2
      reads sqrt(1/2) as both cosine and sine. */
  ghost function LevelTable(trigo: seq<real>, sqrt2_2: real, l: nat): (tab: seq<real>)
    requires l >= 3 ==> TrigoOffset(l) + Pow2(l) / 2 <= |trigo|
    ensures |tab| == Pow2(l) / 2
  {
    if l == 0 then []
    else if l == 1 then [1.0]
    else if l == 2 then assert Pow2(2) == 4; [1.0, sqrt2_2]
    else trigo[TrigoOffset(l)..TrigoOffset(l) + Pow2(l) / 2]
  }

  lemma LevelsInTable(nbrBits: nat, l: nat)
    requires l < nbrBits
    ensures l >= 3 ==> TrigoOffset(l) + Pow2(l) / 2 <= TrigoLength(nbrBits)
  {
    if l >= 3 {
      TrigoLevelsTile(nbrBits, l);
    }
  }

  ghost function AllTables(trigo: seq<real>, sqrt2_2: real, nbrBits: nat): (tabs: Tables)
    requires |trigo| == TrigoLength(nbrBits)
    ensures Fits(tabs, nbrBits) && |tabs| == nbrBits
    ensures forall l :: 0 <= l < nbrBits ==>
      (l >= 3 ==> TrigoOffset(l) + Pow2(l) / 2 <= |trigo|) && tabs[l] == LevelTable(trigo, sqrt2_2, l)
  {
    assert forall l :: 0 <= l < nbrBits && l >= 3 ==> TrigoOffset(l) + Pow2(l) / 2 <= |trigo| by {
      forall l | 0 <= l < nbrBits && l >= 3 ensures TrigoOffset(l) + Pow2(l) / 2 <= |trigo| {
        LevelsInTable(nbrBits, l);
      }
    }
    seq(nbrBits, l requires 0 <= l < nbrBits => LevelTable(trigo, sqrt2_2, l))
  }

  class FFTReal {
    const length: nat
    const nbrBits: nat
    const bitRevLut: array<nat>
    const trigoLut: array<real>
    const sqrt2_2: real
    const buffer: array<real>

    ghost predicate Valid()
      reads bitRevLut
    {
      && length == Pow2(nbrBits) && bitRevLut.Length == length
      && (forall k :: 0 <= k < length ==> bitRevLut[k] == Rev(nbrBits, k))
      && trigoLut.Length == TrigoLength(nbrBits)
      && (nbrBits > 2 ==> buffer.Length == length)
      && buffer != trigoLut
    }

    /** The coefficient tables of all passes. */
    ghost function Tabs(): (tabs: Tables)
      requires Valid()
      reads bitRevLut, trigoLut
      ensures Fits(tabs, nbrBits)
    {
      AllTables(trigoLut[..], sqrt2_2, nbrBits)
    }

    /** Builds the tables for 2^bits points, taking cosines from the circle t of 2^g grid points. */
    constructor (bits: nat, t: Turn, g: nat)
      requires t.grid == Pow2(g) && bits <= g && g >= 3
      ensures Valid() && nbrBits == bits
      ensures fresh(bitRevLut) && fresh(trigoLut) && fresh(buffer)
      ensures SampledFrom(Tabs(), bits, t, g)
    {
      nbrBits := bits;
      length := Pow2(bits);
      var lut := BitReversedLUT(bits);
      var trigo := TrigoLUT(bits, t, g);
      bitRevLut, trigoLut := lut, trigo;
      sqrt2_2 := t.cos(Pow2(g - 3));
      buffer := new real[if bits > 2 then Pow2(bits) else 0];
      new;
      LevelsAreSampled(trigoLut[..], sqrt2_2, bits, t, g);
    }

    /** do_fft: the transform of x into f. */
    method DoFft(f: array<real>, x: array<real>)
      requires Valid() && f.Length == x.Length == length
      requires f != x && f != buffer && x != buffer && f != trigoLut
      modifies f, buffer
      ensures Valid() && trigoLut[..] == old(trigoLut[..])
      ensures f[..] == Fft(Tabs(), nbrBits, x[..])
    {
      hide Fft, AllTables;
      if nbrBits > 2 {
        DoFftGeneral(f, x);
      } else if nbrBits == 2 {
        assert Pow2(2) == 4;
        f[1] := x[0] - x[2];
        f[3] := x[1] - x[3];
        var b0 := x[0] + x[2];
        var b2 := x[1] + x[3];
        f[0] := b0 + b2;
        f[2] := b0 - b2;
        FourPoints(Tabs(), x[..]);
      } else if nbrBits == 1 {
        assert Pow2(1) == 2;
        f[0] := x[0] + x[1];
        f[1] := x[0] - x[1];
        TwoPoints(Tabs(), x[..]);
      } else {
        assert Pow2(0) == 1;
        f[0] := x[0];
        OnePoint(Tabs(), x[..]);
      }
    }

    /** The first three passes: x through df into sf. */
    method FirstThreePasses(x: array<real>, df: array<real>, sf: array<real>)
      requires Valid() && nbrBits > 2 && x.Length == df.Length == sf.Length == length
      requires x != df && x != sf && df != sf && df != trigoLut && sf != trigoLut
      modifies df, sf
      ensures Valid() && trigoLut[..] == old(trigoLut[..])
      ensures sf[..] == Stage(Tabs(), nbrBits, x[..], 3)
    {
      hide Pass, AllTables, Stage, TrigoOffset, TrigoLength, FirstTwo, Permute;
      ghost var tabs, xs := Tabs(), x[..];
      WholePow2(nbrBits, 2);
      WholePow2(nbrBits, 3);
      TablesUnrolled(trigoLut[..], sqrt2_2, nbrBits);
      FirstTwoPasses(x, bitRevLut, nbrBits, df, tabs[0], tabs[1]);
      StageTwo(tabs, nbrBits, xs);
      ThirdPass(df, sf, sqrt2_2);
      StageStep(tabs, nbrBits, xs, 3);
    }

    lemma Shape()
      requires Valid()
      ensures length == Pow2(nbrBits) && buffer != trigoLut && (nbrBits > 2 ==> buffer.Length == length)
    {
    }

    /** The table of a general pass lies in the packed one. */
    lemma PassFits(pass: nat)
      requires Valid() && 3 <= pass < nbrBits
      ensures
        var m, at := Pow2(pass), TrigoOffset(pass);
        && length == Pow2(nbrBits) && m >= 2 && m % 2 == 0 && at + m / 2 <= trigoLut.Length
        && pass < |Tabs()| && Tabs()[pass] == trigoLut[at..at + m / 2]
    {
      hide AllTables, TrigoOffset, TrigoLength, Rev;
      TableOfLevel(trigoLut[..], sqrt2_2, nbrBits, pass);
    }

    /** A general pass: from the buffer after `pass` passes to the one after the next. */
    method NextPass(sf: array<real>, df: array<real>, pass: nat, ghost xs: seq<real>)
      requires Valid() && 3 <= pass < nbrBits && sf.Length == df.Length == |xs| == length
      requires sf != df && df != trigoLut
      requires sf[..] == Stage(Tabs(), nbrBits, xs, pass)
      modifies df
      ensures Valid() && trigoLut[..] == old(trigoLut[..])
      ensures df[..] == Stage(Tabs(), nbrBits, xs, pass + 1)
    {
      hide *;
      PassFits(pass);
      StageStep(Tabs(), nbrBits, xs, pass + 1);
      ForwardPass(sf, df, Pow2(pass), trigoLut, TrigoOffset(pass));
    }

    /** do_fft's general case: the working buffers df and sf alternate between f and the
        scratch buffer, starting with the one that makes the last pass end in f. */
    method DoFftGeneral(f: array<real>, x: array<real>)
      requires Valid() && nbrBits > 2 && f.Length == x.Length == length
      requires f != x && f != buffer && x != buffer && f != trigoLut
      modifies f, buffer
      ensures Valid() && trigoLut[..] == old(trigoLut[..])
      ensures f[..] == Fft(Tabs(), nbrBits, x[..])
    {
      hide *;
      Shape();
      ghost var trigo, tabs, xs := trigoLut[..], Tabs(), x[..];
      var df, sf := f, buffer;
      if nbrBits % 2 == 1 {
        df, sf := buffer, f;
      }
      FirstThreePasses(x, df, sf);
      var pass := 3;
      ghost var inF := sf == f;
      Parity(nbrBits, pass);
      while pass < nbrBits
        invariant Valid() && Tabs() == tabs && trigoLut[..] == trigo && x[..] == xs && 3 <= pass <= nbrBits
        invariant inF == SameParity(nbrBits, pass)
        invariant if inF then sf == f && df == buffer else sf == buffer && df == f
        invariant sf[..] == Stage(tabs, nbrBits, xs, pass)
      {
        NextPass(sf, df, pass, xs);
        Parity(nbrBits, pass);
        df, sf := sf, df;
        pass, inF := pass + 1, !inF;
      }
      Parity(nbrBits, pass);
      AllStages(tabs, nbrBits, xs);
    }

    /** do_ifft: the inverse transform of f into x.  Its const argument is never written,
        although the source casts the const away to let it play the first source buffer. */
    method DoIfft(f: array<real>, x: array<real>)
      requires Valid() && f.Length == x.Length == length
      requires f != x && f != buffer && x != buffer && x != trigoLut
      modifies x, buffer
      ensures Valid() && trigoLut[..] == old(trigoLut[..])
      ensures x[..] == Ifft(Tabs(), nbrBits, f[..])
    {
      hide Ifft, AllTables;
      if nbrBits > 2 {
        DoIfftGeneral(f, x);
      } else if nbrBits == 2 {
        assert Pow2(2) == 4;
        var b0 := f[0] + f[2];
        var b2 := f[0] - f[2];
        x[0] := b0 + f[1] * 2.0;
        x[2] := b0 - f[1] * 2.0;
        x[1] := b2 + f[3] * 2.0;
        x[3] := b2 - f[3] * 2.0;
        InverseFourPoints(Tabs(), f[..]);
      } else if nbrBits == 1 {
        assert Pow2(1) == 2;
        x[0] := f[0] + f[1];
        x[1] := f[0] - f[1];
        InverseTwoPoints(Tabs(), f[..]);
      } else {
        assert Pow2(0) == 1;
        x[0] := f[0];
        OnePoint(Tabs(), f[..]);
      }
    }

    /** A general inverse pass, undoing forward pass number `pass`. */
    method PreviousPass(sf: array<real>, df: array<real>, pass: nat, ghost fs: seq<real>)
      requires Valid() && 3 <= pass < nbrBits && sf.Length == df.Length == |fs| == length
      requires sf != df && df != trigoLut
      requires sf[..] == Unstage(Tabs(), nbrBits, fs, pass + 1)
      modifies df
      ensures Valid() && trigoLut[..] == old(trigoLut[..])
      ensures df[..] == Unstage(Tabs(), nbrBits, fs, pass)
    {
      hide *;
      PassFits(pass);
      UnstageStep(Tabs(), nbrBits, fs, pass);
      InversePass(sf, df, Pow2(pass), trigoLut, TrigoOffset(pass));
    }

    /** The last three inverse passes: sf through df into x, in the order of the samples. */
    method LastThreePasses(sf: array<real>, df: array<real>, x: array<real>, ghost fs: seq<real>)
      requires Valid() && nbrBits > 2 && sf.Length == df.Length == x.Length == |fs| == length
      requires sf != df && x != df && df != trigoLut && x != trigoLut
      requires sf[..] == Unstage(Tabs(), nbrBits, fs, 3)
      modifies df, x
      ensures Valid() && trigoLut[..] == old(trigoLut[..])
      ensures x[..] == Ifft(Tabs(), nbrBits, fs)
    {
      hide Unpass, AllTables, Unstage, TrigoOffset, TrigoLength, LastTwo, Permute;
      ghost var tabs := Tabs();
      WholePow2(nbrBits, 2);
      WholePow2(nbrBits, 3);
      TablesUnrolled(trigoLut[..], sqrt2_2, nbrBits);
      AntepenultimatePass(sf, df, sqrt2_2);
      UnstageStep(tabs, nbrBits, fs, 2);
      LastTwoPasses(df, bitRevLut, nbrBits, x, tabs[0], tabs[1]);
      UnstageTwo(tabs, nbrBits, fs);
    }

    /** do_ifft's general case: pass p writes x when p is odd and the scratch buffer when it is
        even, so the last, permuting pass reads the scratch buffer and writes x. */
    method DoIfftGeneral(f: array<real>, x: array<real>)
      requires Valid() && nbrBits > 2 && f.Length == x.Length == length
      requires f != x && f != buffer && x != buffer && x != trigoLut
      modifies x, buffer
      ensures Valid() && trigoLut[..] == old(trigoLut[..])
      ensures x[..] == Ifft(Tabs(), nbrBits, f[..])
    {
      hide *;
      Shape();
      ghost var trigo, fs := trigoLut[..], f[..];
      var sf, df, dfTemp := f, x, buffer;
      if nbrBits % 2 == 1 {
        df, dfTemp := buffer, x;
      }
      UnstageStart(Tabs(), nbrBits, fs);
      var pass := nbrBits - 1;
      while pass >= 3
        invariant Valid() && trigoLut[..] == trigo && f[..] == fs && 2 <= pass < nbrBits
        invariant df == if pass % 2 == 1 then x else buffer
        invariant pass == nbrBits - 1 ==> sf == f && dfTemp == if pass % 2 == 1 then buffer else x
        invariant pass < nbrBits - 1 ==> sf == if pass % 2 == 1 then buffer else x
        invariant sf[..] == Unstage(Tabs(), nbrBits, fs, pass + 1)
      {
        PreviousPass(sf, df, pass, fs);
        if pass < nbrBits - 1 {
          df, sf := sf, df;
        } else {
          sf := df;
          df := dfTemp;
        }
        pass := pass - 1;
      }
      LastThreePasses(sf, df, x, fs);
    }
  }

  /** TrigoLUT: level l holds cos(i * pi / 2^l) for i from 0 to 2^(l-1) - 1. */
  method TrigoLUT(nbrBits: nat, t: Turn, g: nat) returns (table: array<real>)
    requires t.grid == Pow2(g) && nbrBits <= g
    ensures fresh(table) && table.Length == TrigoLength(nbrBits)
    ensures nbrBits > 3 ==> LevelsSampled(table[..], t, g, nbrBits)
  {
    hide LevelsSampled, TrigoOffset, TrigoLength, Pow2;
    table := new real[TrigoLength(nbrBits)];
    if nbrBits > 3 {
      NoLevels(table[..], t, g);
      for level := 3 to nbrBits
        invariant LevelsSampled(table[..], t, g, level)
      {
        TrigoLevelsTile(nbrBits, level);
        ghost var before := table[..];
        FillLevel(table, TrigoOffset(level), t, g, level);
        OneMoreLevel(before, table[..], t, g, level);
      }
    }
  }

  /** The inner loop of TrigoLUT. */
  method FillLevel(table: array<real>, levelPtr: nat, t: Turn, g: nat, level: nat)
    requires 3 <= level < g && levelPtr == TrigoOffset(level) && levelPtr + Pow2(level) / 2 <= table.Length
    modifies table
    ensures LevelSampled(table[..], t, g, level)
    ensures table[..levelPtr] == old(table[..levelPtr])
  {
    var levelLen := Pow2(level - 1);
    var step := Stride(g, level + 1);
    hide Cosine;
    for i := 0 to levelLen
      invariant table[..levelPtr] == old(table[..levelPtr])
      invariant forall k :: levelPtr <= k < levelPtr + i ==> table[k] == Cosine(t, k - levelPtr, step)
    {
      table[levelPtr + i] := Cosine(t, i, step);
    }
  }

  /** cos (i * mul), on the grid. */
  function Cosine(t: Turn, i: nat, step: nat): real {
    t.cos(i * step)
  }

  ghost predicate LevelSampled(table: seq<real>, t: Turn, g: nat, l: nat)
    requires 3 <= l < g
  {
    var at := TrigoOffset(l);
    && at + Pow2(l) / 2 <= |table|
    && forall k :: at <= k < at + Pow2(l) / 2 ==> table[k] == Cosine(t, k - at, Stride(g, l + 1))
  }

  ghost predicate LevelsSampled(table: seq<real>, t: Turn, g: nat, levels: nat)
    requires 3 <= levels <= g
  {
    && TrigoOffset(levels) <= |table|
    && forall l :: 3 <= l < levels ==>
         TrigoOffset(l) + Pow2(l) / 2 <= TrigoOffset(levels) && LevelSampled(table, t, g, l)
  }

  lemma NoLevels(table: seq<real>, t: Turn, g: nat)
    requires g >= 3
    ensures LevelsSampled(table, t, g, 3)
  {
    assert Pow2(2) == 4;
  }

  lemma OneMoreLevel(before: seq<real>, after: seq<real>, t: Turn, g: nat, level: nat)
    requires 3 <= level < g && |before| == |after|
    requires LevelsSampled(before, t, g, level) && LevelSampled(after, t, g, level)
    requires before[..TrigoOffset(level)] == after[..TrigoOffset(level)]
    ensures LevelsSampled(after, t, g, level + 1)
  {
    hide Cosine, TrigoOffset, TrigoLength, Pow2, LevelSampled;
    TrigoLevelsTile(level + 1, level);
    forall l | 3 <= l < level + 1
      ensures TrigoOffset(l) + Pow2(l) / 2 <= TrigoOffset(level + 1) && LevelSampled(after, t, g, l)
    {
      if l < level {
        LevelKept(before, after, t, g, l, TrigoOffset(level));
      }
    }
    assert TrigoOffset(level) + Pow2(level) / 2 <= |after| by { SampledFits(after, t, g, level); }
  }

  lemma SampledFits(table: seq<real>, t: Turn, g: nat, l: nat)
    requires 3 <= l < g && LevelSampled(table, t, g, l)
    ensures TrigoOffset(l) + Pow2(l) / 2 <= |table|
  {
  }

  lemma LevelKept(before: seq<real>, after: seq<real>, t: Turn, g: nat, l: nat, n: nat)
    requires 3 <= l < g && LevelSampled(before, t, g, l)
    requires TrigoOffset(l) + Pow2(l) / 2 <= n <= |before| == |after| && before[..n] == after[..n]
    ensures LevelSampled(after, t, g, l)
  {
    hide Cosine, TrigoOffset, Pow2;
    assert forall k :: 0 <= k < n ==> before[k] == before[..n][k] && after[k] == after[..n][k];
  }

  lemma LevelIsCosTable(table: seq<real>, r: real, t: Turn, g: nat, l: nat)
    requires 3 <= l < g && LevelSampled(table, t, g, l)
    ensures TrigoOffset(l) + Pow2(l) / 2 <= |table|
    ensures CosTable(t, LevelTable(table, r, l), Pow2(l), Stride(g, l + 1))
  {
    hide TrigoOffset;
    var at, step := TrigoOffset(l), Stride(g, l + 1);
    var tab := LevelTable(table, r, l);
    forall i | 0 < i < Pow2(l) / 2 ensures tab[i] == t.cos(i * step) {
      assert tab[i] == table[at + i] == Cosine(t, at + i - at, step);
      assert at + i - at == i;
    }
  }

  lemma LevelsAreSampled(table: seq<real>, sqrt2_2: real, nbrBits: nat, t: Turn, g: nat)
    requires t.grid == Pow2(g) && nbrBits <= g && g >= 3
    requires |table| == TrigoLength(nbrBits) && sqrt2_2 == t.cos(Pow2(g - 3))
    requires nbrBits > 3 ==> LevelsSampled(table, t, g, nbrBits)
    ensures SampledFrom(AllTables(table, sqrt2_2, nbrBits), nbrBits, t, g)
  {
    hide CosTable, LevelSampled, TrigoLength, TrigoOffset, LevelTable;
    var tabs := AllTables(table, sqrt2_2, nbrBits);
    forall l | 0 <= l < nbrBits ensures CosTable(t, tabs[l], Pow2(l), Stride(g, l + 1)) {
      if l < 3 {
        FirstLevelsSampled(table, sqrt2_2, t, g, l);
      } else {
        LevelIsCosTable(table, sqrt2_2, t, g, l);
      }
    }
  }

  lemma FirstLevelsSampled(table: seq<real>, sqrt2_2: real, t: Turn, g: nat, l: nat)
    requires g >= 3 && sqrt2_2 == t.cos(Pow2(g - 3)) && l < 3
    ensures CosTable(t, LevelTable(table, sqrt2_2, l), Pow2(l), Stride(g, l + 1))
  {
    if l == 2 {
      assert Pow2(2) == 4;
      assert 1 * Stride(g, 3) == Pow2(g - 3);
    } else {
      assert Pow2(0) == 1 && Pow2(1) == 2;
    }
  }

  lemma TablesUnrolled(trigo: seq<real>, sqrt2_2: real, nbrBits: nat)
    requires |trigo| == TrigoLength(nbrBits) && nbrBits > 2
    ensures
      var tabs := AllTables(trigo, sqrt2_2, nbrBits);
      && Pairs(tabs[0], tabs[1]) && tabs[2] == [1.0, sqrt2_2]
  {
    assert Pow2(1) == 2;
  }

  lemma TableOfLevel(trigo: seq<real>, sqrt2_2: real, nbrBits: nat, l: nat)
    requires |trigo| == TrigoLength(nbrBits) && 3 <= l < nbrBits
    ensures TrigoOffset(l) + Pow2(l) / 2 <= |trigo|
    ensures AllTables(trigo, sqrt2_2, nbrBits)[l] == trigo[TrigoOffset(l)..TrigoOffset(l) + Pow2(l) / 2]
    ensures Pow2(l) >= 2 && Pow2(l) % 2 == 0
  {
    hide TrigoOffset, TrigoLength;
    assert Pow2(l) == 2 * Pow2(l - 1);
    LevelsInTable(nbrBits, l);
    var tabs := AllTables(trigo, sqrt2_2, nbrBits);
    assert tabs[l] == LevelTable(trigo, sqrt2_2, l);
  }

  lemma StageStep(tabs: Tables, b: nat, x: seq<real>, p: nat)
    requires Fits(tabs, b) && |x| == Pow2(b) && 0 < p <= b
    ensures Level(Pow2(p - 1), tabs[p - 1]) && Whole(Pow2(b), 2 * Pow2(p - 1))
    ensures Stage(tabs, b, x, p) == Pass(Stage(tabs, b, x, p - 1), Pow2(p - 1), tabs[p - 1])
  {
    LevelFits(tabs, b, p - 1);
  }

  predicate SameParity(a: nat, b: nat) { a % 2 == b % 2 }

  lemma Parity(a: nat, b: nat)
    ensures SameParity(a, b + 1) == !SameParity(a, b) && SameParity(a, a)
    ensures SameParity(a, 3) == (a % 2 == 1)
  {
  }

  lemma AllStages(tabs: Tables, b: nat, x: seq<real>)
    requires Fits(tabs, b) && |x| == Pow2(b)
    ensures Fft(tabs, b, x) == Stage(tabs, b, x, b)
  {
  }

  lemma StageTwo(tabs: Tables, b: nat, x: seq<real>)
    requires Fits(tabs, b) && |x| == Pow2(b) && b >= 2 && Pairs(tabs[0], tabs[1]) && Whole(Pow2(b), 4)
    ensures Stage(tabs, b, x, 2) == FirstTwo(Permute(x, b), tabs[0], tabs[1])
  {
    hide Pass;
    StageStep(tabs, b, x, 1);
    StageStep(tabs, b, x, 2);
  }

  lemma FourPoints(tabs: Tables, x: seq<real>)
    requires Fits(tabs, 2) && |x| == Pow2(2)
    ensures |x| == 4
    ensures Fft(tabs, 2, x) == [(x[0] + x[2]) + (x[1] + x[3]), x[0] - x[2], (x[0] + x[2]) - (x[1] + x[3]), x[1] - x[3]]
  {
    hide Stage, Pass;
    LevelFits(tabs, 2, 0);
    LevelFits(tabs, 2, 1);
    StageTwo(tabs, 2, x);
    assert Permute(x, 2) == [x[0], x[2], x[1], x[3]];
    FirstTwoAppends([], [x[0], x[2], x[1], x[3]], tabs[0], tabs[1]);
    assert [] + [x[0], x[2], x[1], x[3]] == [x[0], x[2], x[1], x[3]];
  }

  lemma TwoPoints(tabs: Tables, x: seq<real>)
    requires Fits(tabs, 1) && |x| == Pow2(1)
    ensures |x| == 2
    ensures Fft(tabs, 1, x) == [x[0] + x[1], x[0] - x[1]]
  {
    StageStep(tabs, 1, x, 1);
    assert Permute(x, 1) == x;
    PassOneBlock(x, 1, tabs[0]);
    var f := Join(x[..1], x[1..], tabs[0]);
    assert f[0] == x[0] + x[1] && f[1] == x[0] - x[1];
  }

  lemma OnePoint(tabs: Tables, x: seq<real>)
    requires Fits(tabs, 0) && |x| == Pow2(0)
    ensures |x| == 1 && Fft(tabs, 0, x) == x && Ifft(tabs, 0, x) == x
  {
    assert Permute(x, 0) == x;
  }

  lemma UnstageStart(tabs: Tables, b: nat, f: seq<real>)
    requires Fits(tabs, b) && |f| == Pow2(b)
    ensures Unstage(tabs, b, f, b) == f
  {
  }

  lemma UnstageStep(tabs: Tables, b: nat, f: seq<real>, p: nat)
    requires Fits(tabs, b) && |f| == Pow2(b) && p < b
    ensures Level(Pow2(p), tabs[p]) && Whole(Pow2(b), 2 * Pow2(p))
    ensures Unstage(tabs, b, f, p) == Unpass(Unstage(tabs, b, f, p + 1), Pow2(p), tabs[p])
  {
    LevelFits(tabs, b, p);
  }

  lemma UnstageTwo(tabs: Tables, b: nat, f: seq<real>)
    requires Fits(tabs, b) && |f| == Pow2(b) && b >= 2 && Pairs(tabs[0], tabs[1]) && Whole(Pow2(b), 4)
    ensures Unstage(tabs, b, f, 0) == LastTwo(Unstage(tabs, b, f, 2), tabs[0], tabs[1])
  {
    hide Unpass;
    UnstageStep(tabs, b, f, 1);
    UnstageStep(tabs, b, f, 0);
  }

  lemma InverseFourPoints(tabs: Tables, f: seq<real>)
    requires Fits(tabs, 2) && |f| == Pow2(2)
    ensures |f| == 4
    ensures Ifft(tabs, 2, f) == [(f[0] + f[2]) + f[1] * 2.0, (f[0] - f[2]) + f[3] * 2.0,
                                 (f[0] + f[2]) - f[1] * 2.0, (f[0] - f[2]) - f[3] * 2.0]
  {
    LevelFits(tabs, 2, 0);
    LevelFits(tabs, 2, 1);
    UnstageTwo(tabs, 2, f);
    LastTwoAppends([], f, tabs[0], tabs[1]);
    assert [] + f == f;
    var s := LastFour(f);
    assert Permute(s, 2) == [s[0], s[2], s[1], s[3]];
  }

  lemma InverseTwoPoints(tabs: Tables, f: seq<real>)
    requires Fits(tabs, 1) && |f| == Pow2(1)
    ensures |f| == 2
    ensures Ifft(tabs, 1, f) == [f[0] + f[1], f[0] - f[1]]
  {
    hide Permute, Part;
    UnstageStep(tabs, 1, f, 0);
    UnpassAppends([], f, 1, tabs[0]);
    PassNothing(1, tabs[0]);
    var p := Part(f, 1, tabs[0]);
    assert [] + f == f && [] + p == p;
    hide *;
    PermuteTwo(p);
    PartTwo(f, tabs[0]);
  }

  lemma PartTwo(f: seq<real>, t0: seq<real>)
    requires |f| == 2 && Level(1, t0)
    ensures Part(f, 1, t0) == [f[0] + f[1], f[0] - f[1]]
  {
  }

  lemma PermuteTwo(p: seq<real>)
    requires |p| == Pow2(1)
    ensures Permute(p, 1) == p
  {
  }
}
