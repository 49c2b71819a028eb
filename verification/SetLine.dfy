/** setline: breakpoints (time, amplitude, time, amplitude, ...) drawn into an array as
    straight segments. */
module SetLine {
  import opened Blending

  /** C's conversion of a double to int, toward zero. */
  function Truncated(x: real): int {
    if x >= 0.0 then x.Floor else -((-x).Floor)
  }

  /** A breakpoint list: even in length, with a first and a last time that differ. */
  predicate Points(p: seq<real>) {
    |p| >= 2 && |p| % 2 == 0 && p[0] != p[|p| - 2]
  }

  /** Times never go back. */
  predicate Ordered(p: seq<real>)
    requires Points(p)
  {
    forall j :: 0 <= j < |p| - 2 && j % 2 == 0 ==> p[j] <= p[j + 2]
  }

  function Increment(p: seq<real>, length: nat): (inc: real)
    requires Points(p) && length > 0
    ensures p[0] < p[|p| - 2] ==> inc > 0.0
    ensures p[0] > p[|p| - 2] ==> inc < 0.0
  {
    QuotientSign(p[|p| - 2] - p[0], length as real);
    (p[|p| - 2] - p[0]) / length as real
  }

  lemma QuotientSign(a: real, n: real)
    requires n > 0.0 && a != 0.0
    ensures a > 0.0 ==> a / n > 0.0
    ensures a < 0.0 ==> a / n < 0.0
  {
  }

  /** The slot a time falls on. */
  function SlotOf(time: real, inc: real): int
    requires inc != 0.0
  {
    Truncated(time / inc + 0.5)
  }

  /** The slots the segment from point j counts, at least one. */
  function SpanOf(p: seq<real>, inc: real, j: nat): int
    requires inc != 0.0 && j + 2 < |p|
  {
    var points := Truncated((p[j + 2] - p[j]) / inc + 0.5);
    if points <= 0 then 1 else points
  }

  /** The slots of the first and the last time. */
  function FirstSlot(p: seq<real>, length: nat): int
    requires Points(p) && length > 0
  {
    SlotOf(p[0], Increment(p, length))
  }

  function LastSlot(p: seq<real>, length: nat): int
    requires Points(p) && length > 0
  {
    SlotOf(p[|p| - 2], Increment(p, length))
  }

  function ValueAt(p: seq<real>, inc: real, j: nat, k: int): real
    requires inc > 0.0 && j + 3 < |p|
  {
    Along((k - SlotOf(p[j], inc)) as real / SpanOf(p, inc, j) as real, p[j + 1], p[j + 3])
  }

  /** Slot k holds the value of a segment that covers it, and the value lies between that
      segment's two amplitudes. */
  ghost predicate Drawn(p: seq<real>, inc: real, k: int, v: real)
    requires inc > 0.0
  {
    exists j: nat :: Covers(p, inc, j, k) && v == ValueAt(p, inc, j, k) && Between(v, p[j + 1], p[j + 3])
  }

  predicate Covers(p: seq<real>, inc: real, j: nat, k: int)
    requires inc > 0.0
  {
    j % 2 == 0 && j + 3 < |p| && p[j] < p[j + 2] && SlotOf(p[j], inc) <= k < SlotOf(p[j + 2], inc)
  }

  lemma Quotients(a: real, b: real, inc: real)
    requires inc > 0.0 && a <= b
    ensures a / inc <= b / inc && (b - a) / inc == b / inc - a / inc
  {
    assert (b - a) / inc >= 0.0;
    assert (b - a) / inc == b / inc - a / inc;
  }

  /** Rounding makes a segment at most one slot longer than its span, also when it starts so
      little before the first slot that truncation brings it there. */
  lemma RoundingSpan(a: real, b: real)
    requires a <= b && Truncated(a + 0.5) >= 0
    ensures Truncated(b + 0.5) - Truncated(a + 0.5) <= Truncated(b - a + 0.5) + 1
    ensures Truncated(a + 0.5) <= Truncated(b + 0.5)
  {
  }

  lemma SegmentFits(p: seq<real>, inc: real, j: nat)
    requires inc > 0.0 && j + 2 < |p| && SlotOf(p[j], inc) >= 0 && p[j] <= p[j + 2]
    ensures SlotOf(p[j], inc) <= SlotOf(p[j + 2], inc) <= SlotOf(p[j], inc) + SpanOf(p, inc, j) + 1
  {
    Quotients(p[j], p[j + 2], inc);
    RoundingSpan(p[j] / inc, p[j + 2] / inc);
  }

  lemma Fraction(n: real, d: real)
    requires 0.0 <= n <= d && d > 0.0
    ensures 0.0 <= n / d <= 1.0
  {
  }

  lemma SlotDrawn(p: seq<real>, inc: real, j: nat, k: int)
    requires inc > 0.0 && Covers(p, inc, j, k) && SlotOf(p[j], inc) >= 0
    ensures Drawn(p, inc, k, ValueAt(p, inc, j, k))
  {
    SegmentFits(p, inc, j);
    var num, den := (k - SlotOf(p[j], inc)) as real, SpanOf(p, inc, j) as real;
    Fraction(num, den);
    hide Along;
    AlongIsBetween(num / den, p[j + 1], p[j + 3]);
  }

  /** Where the last time falls: just past the array when the first is 0, and at least on its last
      slot when the first falls in the array. */
  lemma EndSlots(p: seq<real>, length: nat)
    requires Points(p) && length > 0
    ensures (p[|p| - 2] - p[0]) / Increment(p, length) == length as real
    ensures p[0] == 0.0 ==> FirstSlot(p, length) == 0 && LastSlot(p, length) == length
    ensures p[0] < p[|p| - 2] && FirstSlot(p, length) >= 0 ==> LastSlot(p, length) >= length - 1
    ensures p[0] < p[|p| - 2] && FirstSlot(p, length) >= 0 ==>
      (LastSlot(p, length) >= length <==> p[0] / Increment(p, length) >= -0.5)
  {
    var inc, t, n := Increment(p, length), p[|p| - 2] - p[0], length as real;
    QuotientOfQuotient(t, n);
    Difference(p[0], p[|p| - 2], inc);
    assert p[0] == 0.0 ==> p[0] / inc == 0.0;
  }

  lemma Difference(a: real, b: real, inc: real)
    requires inc != 0.0
    ensures (b - a) / inc == b / inc - a / inc
  {
  }

  lemma QuotientOfQuotient(t: real, n: real)
    requires t != 0.0 && n > 0.0
    ensures t / n != 0.0 && t / (t / n) == n
  {
    var q := t / n;
    assert q * n == t;
    assert q != 0.0;
    assert n == t / q;
  }

  lemma {:induction false} TimesClimb(p: seq<real>, i: nat, j: nat)
    requires Points(p) && Ordered(p) && i % 2 == 0 && j % 2 == 0 && i <= j <= |p| - 2
    ensures p[i] <= p[j]
    decreases j - i
  {
    if i < j {
      TimesClimb(p, i, j - 2);
      assert p[j - 2] <= p[j - 2 + 2];
    }
  }

  /** How a turn of setline's loop ends; it strays when it is about to write outside the array. */
  datatype Outcome = Continue | Full | Confused | Strayed

  predicate OnSlot(k: int, length: nat) { 0 <= k <= length }

  /** setline's segment loop draws segment j and leaves the other slots alone; it reports
      whether it ran into the end of the array, or strays, if it has anything to write, when it
      starts neither in the array nor at its end.  When times count backwards it draws nothing. */
  method DrawSegment(p: seq<real>, inc: real, j: nat, points: int, length: nat, slots: array<real>)
    returns (k: int, outcome: Outcome)
    requires inc != 0.0 && j % 2 == 0 && j + 3 < |p| && p[j] < p[j + 2]
    requires points == SpanOf(p, inc, j) && length == slots.Length
    modifies slots
    ensures !outcome.Confused? && (inc < 0.0 ==> outcome.Continue?)
    ensures inc < 0.0 || !OnSlot(SlotOf(p[j], inc), length) ==> slots[..] == old(slots[..])
    ensures inc > 0.0 && !OnSlot(SlotOf(p[j], inc), length) ==>
      outcome == if SlotOf(p[j], inc) < SlotOf(p[j + 2], inc) then Strayed else Continue
    ensures inc > 0.0 && OnSlot(SlotOf(p[j], inc), length) ==>
      && !outcome.Strayed?
      && (outcome.Full? ==> k == length < SlotOf(p[j + 2], inc))
      && (outcome.Continue? ==> k == SlotOf(p[j + 2], inc) <= length)
      && forall m :: SlotOf(p[j], inc) <= m < k ==> 0 <= m < length && Drawn(p, inc, m, slots[m])
    ensures forall m :: 0 <= m < length && !(SlotOf(p[j], inc) <= m < k) ==> slots[m] == old(slots[m])
  {
    if inc < 0.0 {
      Backwards(p, inc, j);
    }
    var i := Truncated(p[j] / inc + 0.5);
    var i2 := Truncated(p[j + 2] / inc + 0.5);
    k := i;
    outcome := Continue;
    ghost var onSlot := OnSlot(i, length);
    while k < i2
      invariant inc < 0.0 || !onSlot ==> k == i && slots[..] == old(slots[..])
      invariant inc > 0.0 && onSlot ==> i <= k <= length && (i <= i2 ==> k <= i2)
      invariant inc > 0.0 && onSlot ==> forall m :: i <= m < k ==> 0 <= m < length && Drawn(p, inc, m, slots[m])
      invariant forall m :: 0 <= m < length && !(i <= m < k) ==> slots[m] == old(slots[m])
    {
      if k == length {
        return k, Full;
      }
      if k < 0 || k > length {
        return k, Strayed;
      }
      hide Drawn, Along;
      SlotDrawn(p, inc, j, k);
      slots[k] := Along((k - i) as real / points as real, p[j + 1], p[j + 3]);
      k := k + 1;
    }
    if inc > 0.0 {
      SlotsClimb(p, inc, j, j + 2);
    }
  }

  lemma SlotsClimb(p: seq<real>, inc: real, i: nat, j: nat)
    requires inc > 0.0 && i < |p| && j < |p| && p[i] <= p[j]
    ensures SlotOf(p[i], inc) <= SlotOf(p[j], inc)
  {
    Quotients(p[i], p[j], inc);
    TruncatedClimbs(p[i] / inc + 0.5, p[j] / inc + 0.5);
  }

  /** With a negative increment later times have earlier slots. */
  lemma Backwards(p: seq<real>, inc: real, j: nat)
    requires inc < 0.0 && j + 2 < |p| && p[j] < p[j + 2]
    ensures SlotOf(p[j + 2], inc) <= SlotOf(p[j], inc) && SpanOf(p, inc, j) == 1
  {
    Difference(p[j], p[j + 2], inc);
    NegativeQuotient(p[j + 2] - p[j], inc);
    TruncatedClimbs(p[j + 2] / inc + 0.5, p[j] / inc + 0.5);
  }

  lemma NegativeQuotient(a: real, n: real)
    requires a > 0.0 && n < 0.0
    ensures a / n < 0.0
  {
  }

  lemma TruncatedClimbs(x: real, y: real)
    requires x <= y
    ensures Truncated(x) <= Truncated(y)
  {
  }

  /** Slots from `first` up to `to` hold segments' values, and the others what they held before. */
  ghost predicate SoFar(p: seq<real>, inc: real, first: int, to: int, before: seq<real>, now: seq<real>)
    requires inc > 0.0
  {
    && |now| == |before|
    && forall m :: 0 <= m < |now| ==> if first <= m < to then Drawn(p, inc, m, now[m]) else now[m] == before[m]
  }

  lemma DrawnFurther(p: seq<real>, inc: real, first: int, from: int, to: int,
                     before: seq<real>, was: seq<real>, now: seq<real>)
    requires inc > 0.0 && first <= from && SoFar(p, inc, first, from, before, was) && |now| == |was|
    requires forall m :: 0 <= m < |now| ==> if from <= m < to then Drawn(p, inc, m, now[m]) else now[m] == was[m]
    ensures from <= to ==> SoFar(p, inc, first, to, before, now)
  {
    hide Drawn;
  }

  /** One turn of setline's loop over the segments.  When the first time falls on a slot, the slots
      from there to that of p[j] are drawn; else nothing has been written. */
  method NextSegment(p: seq<real>, inc: real, j: nat, k: int, length: nat, slots: array<real>, ghost before: seq<real>)
    returns (k': int, outcome: Outcome)
    requires Points(p) && length > 0 && inc == Increment(p, length) && length == slots.Length
    requires j % 2 == 0 && j + 3 < |p|
    requires inc > 0.0 && OnSlot(FirstSlot(p, length), length) ==>
      && FirstSlot(p, length) <= SlotOf(p[j], inc) <= length
      && SoFar(p, inc, FirstSlot(p, length), SlotOf(p[j], inc), before, slots[..])
    requires inc > 0.0 && !OnSlot(FirstSlot(p, length), length) ==> SlotOf(p[j], inc) == FirstSlot(p, length)
    modifies slots
    ensures inc < 0.0 ==> !outcome.Full? && !outcome.Strayed?
    ensures inc < 0.0 || !OnSlot(FirstSlot(p, length), length) ==> slots[..] == old(slots[..])
    ensures outcome.Confused? ==> !Ordered(p) && slots[..] == old(slots[..])
    ensures outcome.Continue? ==> p[j] <= p[j + 2]
    ensures inc > 0.0 && !OnSlot(FirstSlot(p, length), length) ==>
      !outcome.Full? && (outcome.Continue? ==> SlotOf(p[j + 2], inc) == FirstSlot(p, length))
    ensures inc > 0.0 && OnSlot(FirstSlot(p, length), length) ==>
      && !outcome.Strayed?
      && (outcome.Full? ==>
            && SlotOf(p[j + 2], inc) > length
            && SoFar(p, inc, FirstSlot(p, length), length, before, slots[..]))
      && (outcome.Continue? ==>
            && SlotOf(p[j], inc) <= SlotOf(p[j + 2], inc) <= length
            && k' == (if p[j] == p[j + 2] then k else SlotOf(p[j + 2], inc))
            && SoFar(p, inc, FirstSlot(p, length), SlotOf(p[j + 2], inc), before, slots[..]))
  {
    if inc > 0.0 && p[j] <= p[j + 2] {
      SlotsClimb(p, inc, j, j + 2);
    }
    hide Drawn, SlotOf, Increment, FirstSlot, SoFar;
    k' := k;
    outcome := Continue;
    var points := Truncated((p[j + 2] - p[j]) / inc + 0.5);
    if p[j + 2] != p[j] {
      if points <= 0 {
        points := 1;
      }
      if p[j + 2] < p[j] || points > length {
        if p[j + 2] >= p[j] {
          LongSegment(p, length, j);
        }
        return k, Confused;
      }
      ghost var was, first := slots[..], FirstSlot(p, length);
      k', outcome := DrawSegment(p, inc, j, points, length, slots);
      if inc > 0.0 && OnSlot(first, length) {
        DrawnFurther(p, inc, first, SlotOf(p[j], inc), k', before, was, slots[..]);
      }
    }
  }

  /** The first time falls on a slot, or just past the last one, and the last time not on the first
      slot. */
  predicate InArray(p: seq<real>, length: nat)
    requires Points(p) && length > 0
  {
    OnSlot(FirstSlot(p, length), length) && LastSlot(p, length) >= 1
  }

  /** The last time falls on another slot than a first one outside the array. */
  lemma LastMoves(p: seq<real>, length: nat)
    requires Points(p) && length > 0 && p[0] < p[|p| - 2] && !OnSlot(FirstSlot(p, length), length)
    ensures LastSlot(p, length) != FirstSlot(p, length)
  {
    var inc := Increment(p, length);
    EndSlots(p, length);
    Difference(p[0], p[|p| - 2], inc);
    var x := p[0] / inc + 0.5;
    assert p[|p| - 2] / inc + 0.5 == x + length as real;
  }

  /** Slot m holds a segment's value, or the last time does not reach it and it repeats the slot
      before it. */
  ghost predicate LeftAt(p: seq<real>, length: nat, slots: seq<real>, m: nat)
    requires Points(p) && length > 0 && p[0] < p[|p| - 2] && m < |slots|
  {
    || Drawn(p, Increment(p, length), m, slots[m])
    || (m > 0 && m >= LastSlot(p, length) && slots[m] == slots[m - 1])
  }

  /** What setline leaves of an ordered list: each slot from the first time's on holds the value of
      a segment that covers it, between that segment's amplitudes, and a slot that the last time
      does not reach repeats the one before it. */
  ghost predicate Rasterised(p: seq<real>, length: nat, slots: seq<real>)
    requires Points(p) && length > 0 && p[0] < p[|p| - 2] && |slots| == length
  {
    forall m :: 0 <= m < length && FirstSlot(p, length) <= m ==> LeftAt(p, length, slots, m)
  }

  /** setline.  Ordered times are always drawn, and the slots before the first time's stay; so all
      of the array is drawn exactly when the first time falls on slot 0.  An error means an odd
      number of arguments or a time that goes back, as some time must when the last comes before
      the first: then nothing is written.  Ordered times make it stray exactly when they are not in
      the array. */
  method Setline(p: seq<real>, length: nat, slots: array<real>) returns (status: int, strayed: bool)
    requires length > 0 && length == slots.Length
    requires |p| % 2 == 0 ==> Points(p)
    modifies slots
    ensures strayed ==> |p| % 2 == 0 && p[0] < p[|p| - 2] && !InArray(p, length)
    ensures |p| % 2 == 0 && p[0] < p[|p| - 2] && Ordered(p) ==> (strayed <==> !InArray(p, length))
    ensures strayed || |p| % 2 != 0 || p[0] > p[|p| - 2] ==> slots[..] == old(slots[..])
    ensures !strayed ==> status == 0 || status == -1
    ensures !strayed && status == -1 ==> |p| % 2 != 0 || !Ordered(p)
    ensures !strayed && status == 0 ==>
      && |p| % 2 == 0 && p[0] < p[|p| - 2]
      && OnSlot(FirstSlot(p, length), length) && Rasterised(p, length, slots[..])
    ensures |p| % 2 == 0 && p[0] < p[|p| - 2] ==>
      forall m :: 0 <= m < FirstSlot(p, length) && m < length ==> slots[m] == old(slots[m])
  {
    if |p| % 2 != 0 {
      return -1, false;
    }
    var k, outcome := DrawSegments(p, Increment(p, length), length, slots);
    EndSlots(p, length);
    hide Drawn, SlotOf, Increment, FirstSlot, LastSlot;
    if outcome.Confused? {
      return -1, false;
    } else if outcome.Full? {
      return 0, false;
    } else if outcome.Strayed? {
      return 0, true;
    }
    ghost var inc, drawn := Increment(p, length), slots[..];
    strayed := FillRest(k, length, slots);
    status := 0;
    assert strayed ==> slots[..] == drawn;
  }

  /** setline's loop over all segments. */
  method DrawSegments(p: seq<real>, increm: real, length: nat, slots: array<real>) returns (k: int, outcome: Outcome)
    requires Points(p) && length > 0 && increm == Increment(p, length) && length == slots.Length
    modifies slots
    ensures outcome.Confused? ==> !Ordered(p)
    ensures increm < 0.0 ==> outcome.Confused?
    ensures increm < 0.0 || !OnSlot(FirstSlot(p, length), length) ==> slots[..] == old(slots[..])
    ensures increm > 0.0 && !OnSlot(FirstSlot(p, length), length) ==> outcome.Confused? || outcome.Strayed?
    ensures increm > 0.0 && OnSlot(FirstSlot(p, length), length) ==>
      && !outcome.Strayed?
      && (outcome.Confused? ==>
            exists to :: SoFar(p, increm, FirstSlot(p, length), to, old(slots[..]), slots[..]))
      && (outcome.Full? ==>
            && (Ordered(p) ==> LastSlot(p, length) >= 1)
            && SoFar(p, increm, FirstSlot(p, length), length, old(slots[..]), slots[..]))
      && (outcome.Continue? ==>
            && 0 <= k == LastSlot(p, length) <= length
            && SoFar(p, increm, FirstSlot(p, length), k, old(slots[..]), slots[..]))
  {
    hide Drawn, SlotOf, Increment, FirstSlot, LastSlot, SoFar, Ordered;
    ghost var first, before := FirstSlot(p, length), slots[..];
    ghost var onSlot := OnSlot(first, length);
    Ends(p, length);
    if increm > 0.0 && !onSlot {
      LastMoves(p, length);
    }
    if increm > 0.0 {
      NothingDrawn(p, increm, first, before);
    }
    k := 0;
    outcome := Continue;
    var j := 0;
    while j < |p| - 2
      invariant 0 <= j <= |p| - 2 && j % 2 == 0 && p[0] <= p[j] && outcome.Continue?
      invariant increm < 0.0 || !onSlot ==> slots[..] == before
      invariant increm > 0.0 && !onSlot ==> SlotOf(p[j], increm) == first
      invariant increm > 0.0 && onSlot ==> 0 <= first <= SlotOf(p[j], increm) <= length
      invariant increm > 0.0 && onSlot ==> k == SlotOf(p[j], increm) || (p[j] == p[0] && k == 0)
      invariant increm > 0.0 && onSlot ==> SoFar(p, increm, first, SlotOf(p[j], increm), before, slots[..])
    {
      k, outcome := NextSegment(p, increm, j, k, length, slots, before);
      if !outcome.Continue? {
        if increm > 0.0 {
          LaterSlots(p, increm, j + 2);
        }
        return;
      }
      j := j + 2;
    }
  }

  lemma Ends(p: seq<real>, length: nat)
    requires Points(p) && length > 0
    ensures
      var inc := Increment(p, length);
      && FirstSlot(p, length) == SlotOf(p[0], inc) && LastSlot(p, length) == SlotOf(p[|p| - 2], inc)
      && (inc > 0.0 <==> p[0] < p[|p| - 2])
  {
  }

  lemma NothingDrawn(p: seq<real>, inc: real, first: int, before: seq<real>)
    requires inc > 0.0
    ensures SoFar(p, inc, first, first, before, before)
  {
  }

  /** In order, no later time falls on an earlier slot. */
  lemma LaterSlots(p: seq<real>, inc: real, j: nat)
    requires Points(p) && inc > 0.0 && j % 2 == 0 && j <= |p| - 2
    ensures Ordered(p) ==> SlotOf(p[j], inc) <= SlotOf(p[|p| - 2], inc)
  {
    if Ordered(p) {
      TimesClimb(p, j, |p| - 2);
      SlotsClimb(p, inc, j, |p| - 2);
    }
  }

  /** setline's closing loop: slots from k on repeat the one before them, and there has to be one. */
  method FillRest(k: int, length: nat, slots: array<real>) returns (strayed: bool)
    requires 0 <= k && 0 < length == slots.Length
    modifies slots
    ensures strayed == (k == 0)
    ensures strayed ==> slots[..] == old(slots[..])
    ensures forall m :: 0 <= m < length && m < k ==> slots[m] == old(slots[m])
    ensures !strayed ==> forall m :: k <= m < length ==> slots[m] == slots[m - 1]
  {
    strayed := false;
    var i := k;
    while i < length
      invariant k <= i && (k == 0 ==> i == 0 && slots[..] == old(slots[..]))
      invariant forall m :: 0 <= m < length && m < k ==> slots[m] == old(slots[m])
      invariant k > 0 ==> forall m :: k <= m < i && m < length ==> slots[m] == slots[m - 1]
    {
      if i == 0 {
        return true;
      }
      slots[i] := slots[i - 1];
      i := i + 1;
    }
  }

  /** A segment that counts more slots than there are reaches past the last time, so a later
      time goes back. */
  lemma LongSegment(p: seq<real>, length: nat, j: nat)
    requires Points(p) && length > 0 && j % 2 == 0 && j + 2 < |p| && p[j] <= p[j + 2]
    requires SpanOf(p, Increment(p, length), j) > length
    ensures !Ordered(p)
  {
    if Ordered(p) {
      var inc := Increment(p, length);
      TimesClimb(p, j + 2, |p| - 2);
      TimesClimb(p, 0, j);
      Quotients(p[j + 2] - p[j], p[|p| - 2] - p[0], inc);
      EndSlots(p, length);
      assert false;
    }
  }

  // ---- The shape of what is drawn -------------------------------------------------------

  /** A segment starts at its first amplitude and rises by the same amount from slot to slot. */
  lemma ValuesAreLinear(p: seq<real>, inc: real, j: nat, k: int)
    requires inc > 0.0 && j + 3 < |p|
    ensures ValueAt(p, inc, j, SlotOf(p[j], inc)) == p[j + 1]
    ensures ValueAt(p, inc, j, k + 1) - ValueAt(p, inc, j, k) == (p[j + 3] - p[j + 1]) / SpanOf(p, inc, j) as real
  {
    var i, n, d := SlotOf(p[j], inc), SpanOf(p, inc, j) as real, p[j + 3] - p[j + 1];
    hide SlotOf, SpanOf;
    assert SpanOf(p, inc, j) >= 1 by { SpanIsPositive(p, inc, j); }
    assert 0.0 / n * d == 0.0;
    OneMoreStep((k - i) as real, n, d);
  }

  lemma SpanIsPositive(p: seq<real>, inc: real, j: nat)
    requires inc != 0.0 && j + 2 < |p|
    ensures SpanOf(p, inc, j) >= 1
  {
  }

  lemma OneMoreStep(m: real, n: real, d: real)
    requires n > 0.0
    ensures (m + 1.0) / n * d - m / n * d == d / n
  {
    assert (m + 1.0) / n == m / n + 1.0 / n;
    assert 1.0 / n * d == d / n;
  }

  /** In order, a slot is covered by one segment only. */
  lemma CoveredOnce(p: seq<real>, inc: real, j: nat, j': nat, k: int)
    requires Points(p) && Ordered(p) && inc > 0.0 && Covers(p, inc, j, k) && Covers(p, inc, j', k)
    ensures j == j'
  {
    hide SlotOf, Ordered, Points;
    if j < j' {
      TimesClimb(p, j + 2, j');
      SlotsClimb(p, inc, j + 2, j');
    } else if j' < j {
      TimesClimb(p, j' + 2, j);
      SlotsClimb(p, inc, j' + 2, j);
    }
  }

  lemma CoveredBeforeLast(p: seq<real>, length: nat, j: nat, k: int)
    requires Points(p) && Ordered(p) && length > 0 && p[0] < p[|p| - 2] && Covers(p, Increment(p, length), j, k)
    ensures FirstSlot(p, length) <= k < LastSlot(p, length)
  {
    var inc := Increment(p, length);
    Ends(p, length);
    hide SlotOf, Increment, FirstSlot, LastSlot, Ordered;
    TimesClimb(p, 0, j);
    SlotsClimb(p, inc, 0, j);
    TimesClimb(p, j + 2, |p| - 2);
    SlotsClimb(p, inc, j + 2, |p| - 2);
  }

  lemma DrawnThere(p: seq<real>, length: nat, slots: seq<real>, k: nat)
    requires Points(p) && length > 0 && p[0] < p[|p| - 2] && k < |slots| == length
    requires Rasterised(p, length, slots) && FirstSlot(p, length) <= k < LastSlot(p, length)
    ensures Drawn(p, Increment(p, length), k, slots[k])
  {
    assert LeftAt(p, length, slots, k);
  }

  /** A slot that a segment covers holds that segment's value. */
  lemma SlotHolds(p: seq<real>, length: nat, slots: seq<real>, j: nat, k: int)
    requires Points(p) && Ordered(p) && length > 0 && p[0] < p[|p| - 2] && |slots| == length
    requires Rasterised(p, length, slots) && 0 <= k < length && Covers(p, Increment(p, length), j, k)
    ensures slots[k] == ValueAt(p, Increment(p, length), j, k)
  {
    var inc := Increment(p, length);
    CoveredBeforeLast(p, length, j, k);
    DrawnThere(p, length, slots, k);
    var j': nat :| Covers(p, inc, j', k) && slots[k] == ValueAt(p, inc, j', k);
    CoveredOnce(p, inc, j, j', k);
  }

  /** Main result on the shape, of the array that setline leaves of ordered times: a segment's first
      slot holds its first amplitude, and from there to its last slot, as far as the array goes,
      neighbours differ by the difference of its amplitudes over its rounded length in slots. */
  lemma SegmentsAreLines(p: seq<real>, length: nat, slots: seq<real>, j: nat, k: int)
    requires Points(p) && Ordered(p) && length > 0 && p[0] < p[|p| - 2] && |slots| == length
    requires Rasterised(p, length, slots) && 0 <= k < length && Covers(p, Increment(p, length), j, k)
    ensures
      var inc := (p[|p| - 2] - p[0]) / length as real;
      var points := Truncated((p[j + 2] - p[j]) / inc + 0.5);
      && (k == Truncated(p[j] / inc + 0.5) ==> slots[k] == p[j + 1])
      && (k + 1 < length && Covers(p, inc, j, k + 1) ==>
            slots[k + 1] - slots[k] == (p[j + 3] - p[j + 1]) / (if points >= 1 then points as real else 1.0))
  {
    var inc := Increment(p, length);
    SlotHolds(p, length, slots, j, k);
    ValuesAreLinear(p, inc, j, k);
    if k + 1 < length && Covers(p, inc, j, k + 1) {
      SlotHolds(p, length, slots, j, k + 1);
    }
  }

  /** A single segment from time 0 is an exact ramp. */
  lemma ExactRamp(p: seq<real>, length: nat, slots: seq<real>, k: nat)
    requires |p| == 4 && p[0] == 0.0 < p[2] && length > 0 && |slots| == length
    requires Rasterised(p, length, slots) && k < length
    ensures slots[k] == p[1] + k as real / length as real * (p[3] - p[1])
  {
    var inc := Increment(p, length);
    EndSlots(p, length);
    Ends(p, length);
    assert Ordered(p);
    SlotHolds(p, length, slots, 0, k);
    assert SpanOf(p, inc, 0) == length;
  }
}
