/** The bit-reversal permutation: the table FFTReal builds with a reversed-carry
    counter, and the swaps utils/fft.c makes with a differently written one. */
module BitReversal {
  import opened Powers

  /** Reverses the low `bits` binary digits of `i`. */
  function Rev(bits: nat, i: nat): (r: nat)
    requires i < Pow2(bits)
    ensures r < Pow2(bits)
  {
    if bits == 0 then 0
    else if i < Pow2(bits - 1) then 2 * Rev(bits - 1, i)
    else 2 * Rev(bits - 1, i - Pow2(bits - 1)) + 1
  }

  /** Binary digit `k` of `i`. */
  function Bit(i: nat, k: nat): (d: nat)
    ensures d < 2
  {
    if k == 0 then i % 2 else Bit(i / 2, k - 1)
  }

  lemma {:induction false} BitOfSum(i: nat, bits: nat, k: nat)
    requires i < Pow2(bits) && k <= bits
    ensures Bit(i + Pow2(bits), k) == if k == bits then 1 else Bit(i, k)
  {
    if k > 0 {
      assert (i + Pow2(bits)) / 2 == i / 2 + Pow2(bits - 1);
      BitOfSum(i / 2, bits - 1, k - 1);
    } else if bits == 0 {
      assert i == 0;
    }
  }

  lemma {:induction false} BitsAboveAreZero(i: nat, k: nat)
    requires i < Pow2(k)
    ensures Bit(i, k) == 0
  {
    if k > 0 {
      BitsAboveAreZero(i / 2, k - 1);
    }
  }

  /** Digit k of the reversal is digit bits-1-k of the argument. */
  lemma {:induction false} RevReversesDigits(bits: nat, i: nat, k: nat)
    requires i < Pow2(bits) && k < bits
    ensures Bit(Rev(bits, i), k) == Bit(i, bits - 1 - k)
  {
    var half := Pow2(bits - 1);
    var low := if i < half then i else i - half;
    assert Rev(bits, i) / 2 == Rev(bits - 1, low);
    if i < half {
      BitsAboveAreZero(i, bits - 1);
    } else {
      BitOfSum(low, bits - 1, bits - 1 - k);
    }
    if k > 0 {
      RevReversesDigits(bits - 1, low, k - 1);
    }
  }

  /** The same reversal, peeling the lowest digit of the argument instead. */
  lemma {:induction false} RevByLowDigit(bits: nat, i: nat)
    requires bits > 0 && i < Pow2(bits)
    ensures Rev(bits, i) == Rev(bits - 1, i / 2) + (if i % 2 == 1 then Pow2(bits - 1) else 0)
  {
    var half := Pow2(bits - 1);
    if bits > 1 {
      if i < half {
        RevByLowDigit(bits - 1, i);
      } else {
        RevByLowDigit(bits - 1, i - half);
        assert (i - half) / 2 == i / 2 - Pow2(bits - 2);
        assert (i - half) % 2 == i % 2;
      }
    } else {
      assert Rev(0, 0) == 0;
    }
  }

  lemma {:induction false} RevIsInvolution(bits: nat, i: nat)
    requires i < Pow2(bits)
    ensures Rev(bits, Rev(bits, i)) == i
  {
    if bits > 0 {
      var half := Pow2(bits - 1);
      var low := if i < half then i else i - half;
      var r := Rev(bits, i);
      RevByLowDigit(bits, r);
      RevIsInvolution(bits - 1, low);
    }
  }

  /** An involution, hence a bijection on [0, 2^bits). */
  lemma {:induction false} RevIsBijection(bits: nat, i: nat, j: nat)
    requires i < Pow2(bits) && j < Pow2(bits)
    ensures Rev(bits, i) == Rev(bits, j) <==> i == j
    ensures exists k :: 0 <= k < Pow2(bits) && Rev(bits, k) == j
  {
    RevIsInvolution(bits, i);
    RevIsInvolution(bits, j);
    var k := Rev(bits, j);
    assert 0 <= k < Pow2(bits) && Rev(bits, k) == j;
  }

  /** The samples in bit-reversed order. */
  function Permute<T>(x: seq<T>, bits: nat): (y: seq<T>)
    requires |x| == Pow2(bits)
    ensures |y| == |x|
  {
    seq(|x|, i requires 0 <= i < |x| => x[Rev(bits, i)])
  }

  lemma PermuteTwice<T>(x: seq<T>, bits: nat)
    requires |x| == Pow2(bits)
    ensures Permute(Permute(x, bits), bits) == x
  {
    forall i | 0 <= i < |x|
      ensures Permute(Permute(x, bits), bits)[i] == x[i]
    {
      RevIsInvolution(bits, i);
    }
  }

  /** `v & bit` for a single bit, and `v ^= bit` for a single bit. */
  predicate HasBit(v: nat, bit: nat)
    requires bit > 0
  {
    (v / bit) % 2 == 1
  }

  function Toggle(v: nat, bit: nat): (r: nat)
    requires bit > 0
  {
    if HasBit(v, bit) then HasBitAtLeast(v, bit); v - bit else v + bit
  }

  lemma HasBitAtLeast(v: nat, bit: nat)
    requires bit > 0 && HasBit(v, bit)
    ensures v >= bit
  {
    if v < bit {
      assert false;
    }
  }

  lemma TopBit(q: nat, bit: nat)
    requires q < bit
    ensures !HasBit(q, bit) && HasBit(q + bit, bit)
    ensures Toggle(q, bit) == q + bit && Toggle(q + bit, bit) == q
  {
    QuotientIs(q, bit, 0);
    QuotientIs(q + bit, bit, 1);
  }

  lemma QuotientIs(v: nat, bit: nat, k: nat)
    requires bit > 0 && k * bit <= v < (k + 1) * bit
    ensures v / bit == k
  {
    var q := v / bit;
    MulOrder(q, k + 1, bit);
    MulOrder(k, q + 1, bit);
  }

  lemma MulOrder(a: nat, b: nat, unit: nat)
    requires a * unit < b * unit
    ensures a < b
  {
    if b <= a {
      assert false;
    }
  }

  /** One table entry follows from the last: the top digit of the reversal is
      the low digit of the index. */
  lemma TopDigit(c: nat, i: nat)
    requires c > 0 && i < Pow2(c)
    ensures HasBit(Rev(c, i), Pow2(c - 1)) <==> i % 2 == 1
    ensures Toggle(Rev(c, i), Pow2(c - 1))
         == Rev(c - 1, i / 2) + (if i % 2 == 1 then 0 else Pow2(c - 1))
    ensures i % 2 == 0 ==> i + 1 < Pow2(c) && Toggle(Rev(c, i), Pow2(c - 1)) == Rev(c, i + 1)
  {
    var q := Rev(c - 1, i / 2);
    var bit := Pow2(c - 1);
    RevByLowDigit(c, i);
    TopBit(q, bit);
    if i % 2 == 0 {
      NextOfEven(c, i);
    }
  }

  lemma NextOfEven(c: nat, i: nat)
    requires c > 0 && i < Pow2(c) && i % 2 == 0
    ensures i + 1 < Pow2(c) && Rev(c, i + 1) == Rev(c - 1, i / 2) + Pow2(c - 1)
  {
    RevByLowDigit(c, i + 1);
  }

  /** FFTReal::BitReversedLUT: each entry is the last one plus one, counted with
      the carry running from the top digit down. */
  method BitReversedLUT(nbrBits: nat) returns (lut: array<nat>)
    ensures fresh(lut) && lut.Length == Pow2(nbrBits)
    ensures forall k :: 0 <= k < lut.Length ==> lut[k] == Rev(nbrBits, k)
  {
    var length := Pow2(nbrBits);
    lut := new nat[length];
    var brIndex: nat := 0;
    lut[0] := 0;
    assert Rev(nbrBits, 0) == 0 by { RevZero(nbrBits); }
    for cnt := 1 to length
      invariant brIndex == Rev(nbrBits, cnt - 1)
      invariant forall k :: 0 <= k < cnt ==> lut[k] == Rev(nbrBits, k)
    {
      brIndex := ReversedIncrement(nbrBits, cnt - 1, brIndex);
      lut[cnt] := brIndex;
    }
  }

  lemma {:induction false} RevZero(bits: nat)
    ensures Rev(bits, 0) == 0
  {
    if bits > 0 {
      RevZero(bits - 1);
    }
  }

  /** The inner while loop of the table: `++br_index (bit reversed)`. */
  method ReversedIncrement(nbrBits: nat, i: nat, v: nat) returns (brIndex: nat)
    requires i + 1 < Pow2(nbrBits) && v == Rev(nbrBits, i)
    ensures brIndex == Rev(nbrBits, i + 1)
  {
    brIndex := v;
    var bit := Pow2(nbrBits) / 2;
    ghost var c: nat, j: nat := nbrBits, i;
    TopDigit(c, j);
    assert HasBit(Toggle(brIndex, bit), bit) <==> j % 2 == 0 by { TopDigitToggled(c, j); }
    brIndex := Toggle(brIndex, bit);
    while !HasBit(brIndex, bit)
      invariant c > 0 && j + 1 < Pow2(c) && bit == Pow2(c - 1)
      invariant brIndex == Toggle(Rev(c, j), bit)
      invariant Rev(c, j + 1) == Rev(nbrBits, i + 1)
      invariant HasBit(brIndex, bit) <==> j % 2 == 0
      decreases c
    {
      TopDigit(c, j);
      RevByLowDigit(c, j + 1);
      assert (j + 1) / 2 == j / 2 + 1;
      bit := bit / 2;
      c, j := c - 1, j / 2;
      assert c > 0;
      assert bit == Pow2(c - 1);
      assert brIndex == Rev(c, j);
      TopDigitToggled(c, j);
      brIndex := Toggle(brIndex, bit);
    }
    TopDigit(c, j);
  }

  lemma TopDigitToggled(c: nat, i: nat)
    requires c > 0 && i < Pow2(c)
    ensures HasBit(Toggle(Rev(c, i), Pow2(c - 1)), Pow2(c - 1)) <==> i % 2 == 0
  {
    TopDigit(c, i);
    TopBit(Rev(c - 1, i / 2), Pow2(c - 1));
  }

  // ---- utils/fft.c -------------------------------------------------------

  /** What fft.c's inner loop keeps while it carries: j is the reversal of the low c
      digits t still to be counted up, and counting them up completes i + 1. */
  ghost predicate Carrying(bits: nat, i: nat, c: nat, t: nat, j: nat, k: nat)
  {
    && c > 0 && k == Pow2(c - 1)
    && t < Pow2(c) && j == Rev(c, t)
    && (j >= k <==> t % 2 == 1)
    && (i + 1 < Pow2(bits) ==> t + 1 < Pow2(c) && Rev(c, t + 1) == Rev(bits, i + 1))
  }

  lemma CarryStart(bits: nat, i: nat)
    requires bits > 0 && i < Pow2(bits)
    ensures Carrying(bits, i, bits, i, Rev(bits, i), Pow2(bits) / 2)
  {
    RevByLowDigit(bits, i);
  }

  lemma CarryOn(bits: nat, i: nat, c: nat, t: nat, j: nat, k: nat)
    requires i < Pow2(bits) && Carrying(bits, i, c, t, j, k) && j >= k && c > 1
    ensures Carrying(bits, i, c - 1, t / 2, j - k, (k + 1) / 2)
  {
    hide Rev, Pow2;
    var u := t / 2;
    CarryFollows(bits, i, c, u);
    CarryLeft(c, u);
  }

  /** What is left of the reversed count, and its highest digit. */
  lemma CarryLeft(c: nat, u: nat)
    requires c > 1 && 2 * u + 1 < Pow2(c)
    ensures u < Pow2(c - 1) == 2 * Pow2(c - 2) && Rev(c, 2 * u + 1) == Rev(c - 1, u) + Pow2(c - 1)
    ensures Rev(c - 1, u) >= Pow2(c - 2) <==> u % 2 == 1
  {
    RevByLowDigit(c, 2 * u + 1);
    RevByLowDigit(c - 1, u);
  }

  /** The carry out of a one continues as the next count over one digit fewer. */
  lemma CarryFollows(bits: nat, i: nat, c: nat, u: nat)
    requires i < Pow2(bits) && c > 1 && 2 * u + 1 < Pow2(c)
    requires i + 1 < Pow2(bits) ==> 2 * u + 2 < Pow2(c) && Rev(c, 2 * u + 2) == Rev(bits, i + 1)
    ensures i + 1 < Pow2(bits) ==> u + 1 < Pow2(c - 1) && Rev(c - 1, u + 1) == Rev(bits, i + 1)
  {
    if i + 1 < Pow2(bits) {
      RevByLowDigit(c, 2 * u + 2);
    }
  }

  lemma CarryEnd(bits: nat, i: nat, c: nat, t: nat, j: nat, k: nat)
    requires Carrying(bits, i, c, t, j, k) && j < k && i + 1 < Pow2(bits)
    ensures j + k == Rev(bits, i + 1)
  {
    hide Rev, Pow2;
    var u := t / 2;
    assert t == 2 * u;
    LastDigits(c, u);
  }

  /** The reversals of an even number and of the odd one after it. */
  lemma LastDigits(c: nat, u: nat)
    requires c > 0 && 2 * u + 1 < Pow2(c)
    ensures u < Pow2(c - 1) && Rev(c, 2 * u) == Rev(c - 1, u) && Rev(c, 2 * u + 1) == Rev(c - 1, u) + Pow2(c - 1)
  {
    RevByLowDigit(c, 2 * u);
    RevByLowDigit(c, 2 * u + 1);
  }

  /** One count of fft.c's index j, by the loop that clears digits from the top. */
  method NextReversed(n: nat, ghost bits: nat, ghost i: nat, v: nat) returns (j: nat)
    requires bits > 0 && n == Pow2(bits) && i < n && v == Rev(bits, i)
    ensures i + 1 < n ==> j == Rev(bits, i + 1)
  {
    j := v;
    var k: nat := n / 2;
    ghost var c: nat, t: nat := bits, i;
    CarryStart(bits, i);
    while j >= k
      invariant c > 0
      invariant Carrying(bits, i, c, t, j, k) || (c == 1 && i + 1 == n && j == 0 && k == 1)
      decreases c, j
    {
      if c > 1 {
        CarryOn(bits, i, c, t, j, k);
        c, t := c - 1, t / 2;
      }
      j := j - k;
      k := (k + 1) / 2;
    }
    if i + 1 < n {
      CarryEnd(bits, i, c, t, j, k);
    }
    j := j + k;
  }

  /** j and k after so many rounds of fft.c's inner loop. */
  function CarryRounds(j: nat, k: nat, rounds: nat): (nat, nat) {
    if rounds == 0 then (j, k)
    else
      var (j', k') := CarryRounds(j, k, rounds - 1);
      if j' >= k' then (j' - k', (k' + 1) / 2) else (j', k')
  }

  /** For n == 1 the loop starts from j == 0 and k == n/2 == 0, and after any number of rounds its
      guard j >= k still holds: it never ends. */
  lemma {:induction false} CounterStuckForOnePoint(rounds: nat)
    ensures var (j, k) := CarryRounds(0, 1 / 2, rounds); j >= k && (j, k) == (0, 0)
  {
    if rounds > 0 {
      CounterStuckForOnePoint(rounds - 1);
    }
  }

  /** fft.c's reordering: swapping s[i] with s[j] whenever i < j, in place, leaves
      the same bit-reversed order that FFTReal's table describes. */
  method BitReverseInPlace<T>(s: array<T>, ghost bits: nat)
    requires bits > 0 && s.Length == Pow2(bits)
    modifies s
    ensures s[..] == Permute(old(s[..]), bits)
  {
    var n := s.Length;
    var j := 0;
    RevZero(bits);
    for i := 0 to n
      invariant i < n ==> j == Rev(bits, i)
      invariant forall k :: 0 <= k < n ==>
        s[k] == if k < i || Rev(bits, k) < i then old(s[..])[Rev(bits, k)] else old(s[..])[k]
    {
      forall k | 0 <= k < n ensures Rev(bits, Rev(bits, k)) == k { RevIsInvolution(bits, k); }
      if i < j {
        s[i], s[j] := s[j], s[i];
      }
      j := NextReversed(n, bits, i, j);
    }
    assert s[..] == Permute(old(s[..]), bits);
  }
}
