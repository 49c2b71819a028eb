/** Ooscili: table look-up with a 16.16 fixed-point phase in a 32-bit integer. */
module Ooscili {
  import opened Blending
  import opened Modular

  newtype int32 = x: int | -0x8000_0000 <= x < 0x8000_0000

  const FRAC_SHIFT: int32 := 65536

  /** A phase brought into one period. */
  function Wrapped(phase: int, period: int): int
    requires period > 0
  {
    phase % period
  }

  /** The phase after n calls from phase0 with increment si, for a table of `period` phase units. */
  function PhaseAfter(phase0: int, si: int, period: int, n: nat): (p: int)
    requires period > 0
  {
    if n == 0 then phase0 else Wrapped(PhaseAfter(phase0, si, period, n - 1) + si, period)
  }

  /** phase0 plus n increments. */
  function Total(phase0: int, si: int, n: nat): int {
    if n == 0 then phase0 else Total(phase0, si, n - 1) + si
  }

  lemma {:induction false} TotalIs(phase0: int, si: int, n: nat)
    ensures Total(phase0, si, n) == phase0 + n * si
  {
    if n > 0 {
      TotalIs(phase0, si, n - 1);
      assert (n - 1) * si + si == n * si;
    }
  }

  lemma {:induction false} PhaseFollowsTotal(phase0: int, si: int, period: int, n: nat)
    requires period > 0 && 0 <= phase0 < period
    ensures PhaseAfter(phase0, si, period, n) == Wrapped(Total(phase0, si, n), period)
  {
    hide Wrapped;
    if n == 0 {
      WrappedInside(phase0, period);
    } else {
      PhaseFollowsTotal(phase0, si, period, n - 1);
      WrappedAddsUp(Total(phase0, si, n - 1), si, period);
    }
  }

  lemma WrappedInside(phase: int, period: int)
    requires 0 <= phase < period
    ensures Wrapped(phase, period) == phase
  {
    UniqueRemainder(phase, 0, phase, period);
  }

  lemma WrappedAddsUp(a: int, b: int, period: int)
    requires period > 0
    ensures Wrapped(Wrapped(a, period) + b, period) == Wrapped(a + b, period)
  {
    ModAddsUp(a, b, period);
  }

  /** Main result: after n calls the phase is the starting phase plus n increments, modulo the
      table's period, however often it wrapped on the way and in whichever direction. */
  lemma {:induction false} PhaseIsExact(phase0: int, si: int, period: int, n: nat)
    requires period > 0 && 0 <= phase0 < period
    ensures PhaseAfter(phase0, si, period, n) == (phase0 + n * si) % period
  {
    hide Total, PhaseAfter;
    PhaseFollowsTotal(phase0, si, period, n);
    TotalIs(phase0, si, n);
  }

  class Ooscili {
    const table: array<real>
    const length: int32
    var si: int32
    var phase: int32

    /** The table fits 16 bits of whole phase, and one increment past its period fits 32. */
    ghost predicate Valid()
      reads this
    {
      && 0 < length < 32768 && table.Length == length as int
      && 0 <= phase as int < length as int * 65536
      && -0x7fff_ffff <= length as int * 65536 + (if si < 0 then -(si as int) else si as int) <= 0x7fff_ffff
    }

    /** next.  That it verifies over 32-bit integers says that nothing overflows. */
    method Next() returns (output: real)
      requires Valid()
      modifies this`phase
      ensures Valid()
      ensures phase as int == PhaseAfter(old(phase as int), si as int, length as int * 65536, 1)
      ensures
        var i := old(phase as int) / 65536;
        var k := if i + 1 == table.Length then 0 else i + 1;
        i < table.Length && output == Blend(table[i], table[k], old(phase as int) % 65536)
    {
      var i := phase / FRAC_SHIFT;
      var k := i + 1;
      if k >= length {
        k := 0;
      }
      var frac := phase % FRAC_SHIFT;
      output := Blend(table[i as int], table[k as int], frac as int);
      phase := phase + si;
      var fplen := length * FRAC_SHIFT;
      ghost var total, t: int := phase as int, 0;
      while phase >= fplen
        invariant phase as int + t * fplen as int == total && phase as int >= -0x7fff_ffff
        invariant si >= 0 ==> phase >= 0
      {
        TripMore(phase as int, fplen as int, t);
        phase := phase - fplen;
        t := t + 1;
      }
      while phase < 0
        invariant phase as int + t * fplen as int == total && phase < fplen
        decreases -(phase as int)
      {
        TripMore(phase as int + fplen as int, fplen as int, t - 1);
        phase := phase + fplen;
        t := t - 1;
      }
      UniqueRemainder(total, t, phase as int, fplen as int);
    }
  }

  lemma TripMore(x: int, m: int, t: int)
    ensures x + t * m == (x - m) + (t + 1) * m
  {
  }

  /** a + ((b - a) * frac) / 65536. */
  function Blend(a: real, b: real, frac: int): real {
    Along(frac as real / 65536.0, a, b)
  }

  /** From the first value on, the output rises by equal parts of the way to the second. */
  lemma BlendIsLinear(a: real, b: real, frac: int)
    requires 0 <= frac < 65536
    ensures Blend(a, b, 0) == a && Blend(a, b, 65536) == b
    ensures Blend(a, b, frac + 1) - Blend(a, b, frac) == (b - a) / 65536.0
  {
    var f, step := frac as real / 65536.0, 1.0 / 65536.0;
    assert (frac + 1) as real / 65536.0 == f + step;
    assert (f + step) * (b - a) == f * (b - a) + step * (b - a);
  }

  /** The output lies between the two table values it reads. */
  lemma BlendIsBetween(a: real, b: real, frac: int)
    requires 0 <= frac < 65536
    ensures Between(Blend(a, b, frac), a, b)
  {
    AlongIsBetween(frac as real / 65536.0, a, b);
  }
}
