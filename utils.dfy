// Numeric utilities (src/utils.rs): the power-of-two test, the p-bit index
// reversal and the bit-reversal copy that reorders a signal for the fast
// transform. Machine integers are modelled as `nat`; the one place where
// a u32 shift can drop a bit (`rev << 1` in reverse_bits) is modelled
// explicitly.

module Utils {
  import opened Types

  const U32_LIMIT: nat := 0x1_0000_0000

  type u32 = x: int | 0 <= x < 0x1_0000_0000

  /** 2^p. */
  function Pow2(p: nat): (r: nat)
    ensures r >= 1
  {
    if p == 0 then 1 else 2 * Pow2(p - 1)
  }

  /** `usize::trailing_zeros` on a 64-bit target (64 for zero). */
  function TrailingZeros(n: nat): nat
    decreases n
  {
    if n == 0 then 64
    else if n % 2 == 1 then 0
    else 1 + TrailingZeros(n / 2)
  }

  /** Bitwise `a & b` on naturals, one bit at a time from the least significant. */
  function BitAnd(a: nat, b: nat): nat
    decreases a
  {
    if a == 0 || b == 0 then 0
    else 2 * BitAnd(a / 2, b / 2) + (if a % 2 == 1 && b % 2 == 1 then 1 else 0)
  }

  /** `is_pow_of_two`: n != 0 && n & (n - 1) == 0. */
  predicate IsPowOfTwo(n: nat)
  {
    n != 0 && BitAnd(n, n - 1) == 0
  }

  /** `x >> k`. */
  function Shr(x: nat, k: nat): nat
  {
    if k == 0 then x else Shr(x / 2, k - 1)
  }

  /**
   * The `bits`-bit reversal of x: bit j of x (for j < bits) lands on bit
   * bits - 1 - j of the result, higher bits of x are dropped.
   */
  function Reverse(x: nat, bits: nat): (r: nat)
    ensures r < Pow2(bits)
  {
    if bits == 0 then 0
    else (if x % 2 == 1 then Pow2(bits - 1) else 0) + Reverse(x / 2, bits - 1)
  }

  // ---------------------------------------------------------------------
  // Arithmetic facts about powers of two
  // ---------------------------------------------------------------------

  lemma {:induction false} Pow2Add(a: nat, b: nat)
    ensures Pow2(a + b) == Pow2(a) * Pow2(b)
  {
    if a > 0 {
      Pow2Add(a - 1, b);
      assert Pow2(a + b) == 2 * Pow2(a - 1 + b);
    }
  }

  /** For p >= 1, 2^p is even and halves to 2^(p - 1). */
  lemma Pow2Half(p: nat)
    requires p >= 1
    ensures Pow2(p) >= 2 && Pow2(p) % 2 == 0 && Pow2(p) / 2 == Pow2(p - 1)
  {
  }

  lemma {:induction false} Pow2StrictlyIncreasing(a: nat, b: nat)
    requires a < b
    ensures Pow2(a) < Pow2(b)
  {
    if a + 1 < b {
      Pow2StrictlyIncreasing(a, b - 1);
    }
  }

  lemma Pow2Monotone(a: nat, b: nat)
    ensures a <= b <==> Pow2(a) <= Pow2(b)
  {
    if a < b {
      Pow2StrictlyIncreasing(a, b);
    } else if b < a {
      Pow2StrictlyIncreasing(b, a);
    }
  }

  lemma {:induction false} TrailingZerosOfPow2(p: nat)
    ensures TrailingZeros(Pow2(p)) == p
  {
    if p > 0 {
      TrailingZerosOfPow2(p - 1);
      assert Pow2(p) / 2 == Pow2(p - 1);
    }
  }

  /** 2^trailing_zeros(n) divides n, so it is at most n. */
  lemma {:induction false} Pow2TrailingZerosAtMost(n: nat)
    requires n > 0
    ensures Pow2(TrailingZeros(n)) <= n
  {
    if n % 2 == 0 {
      Pow2TrailingZerosAtMost(n / 2);
    }
  }

  lemma {:induction false} BitAndSelf(a: nat)
    ensures BitAnd(a, a) == a
  {
    if a > 0 {
      BitAndSelf(a / 2);
    }
  }

  /** For odd n > 1, n & (n - 1) = n - 1 is not zero and trailing_zeros(n) = 0. */
  lemma OddNotPowOfTwo(n: nat)
    requires n > 1 && n % 2 == 1
    ensures !IsPowOfTwo(n) && Pow2(TrailingZeros(n)) == 1
  {
    BitAndSelf(n / 2);
    assert BitAnd(n, n - 1) == 2 * BitAnd(n / 2, n / 2);
  }

  /** For even n > 0 the test and 2^trailing_zeros both go through n / 2. */
  lemma EvenPowOfTwo(n: nat)
    requires n > 0 && n % 2 == 0
    ensures IsPowOfTwo(n) <==> IsPowOfTwo(n / 2)
    ensures Pow2(TrailingZeros(n)) == 2 * Pow2(TrailingZeros(n / 2))
  {
    assert (n - 1) / 2 == n / 2 - 1;
    assert BitAnd(n, n - 1) == 2 * BitAnd(n / 2, n / 2 - 1);
  }

  /** The power-of-two test holds exactly of the numbers 2^trailing_zeros(n). */
  lemma {:induction false} IsPowOfTwoIffPow2(n: nat)
    ensures IsPowOfTwo(n) <==> n > 0 && n == Pow2(TrailingZeros(n))
  {
    if n == 0 || n == 1 {
    } else if n % 2 == 1 {
      OddNotPowOfTwo(n);
    } else {
      IsPowOfTwoIffPow2(n / 2);
      EvenPowOfTwo(n);
    }
  }

  lemma IsPowOfTwoOfPow2(p: nat)
    ensures IsPowOfTwo(Pow2(p))
  {
    TrailingZerosOfPow2(p);
    IsPowOfTwoIffPow2(Pow2(p));
  }

  /** The power-of-two test holds iff n = 2^p for some p >= 0; it is false for 0. */
  lemma IsPowOfTwoIffExists(n: nat)
    ensures IsPowOfTwo(n) <==> exists p: nat :: n == Pow2(p)
    ensures !IsPowOfTwo(0)
  {
    IsPowOfTwoIffPow2(n);
    if exists p: nat :: n == Pow2(p) {
      var p: nat :| n == Pow2(p);
      IsPowOfTwoOfPow2(p);
    }
  }

  lemma IsPowOfTwoExamples()
    ensures IsPowOfTwo(1) && IsPowOfTwo(2) && IsPowOfTwo(4)
    ensures !IsPowOfTwo(0) && !IsPowOfTwo(3) && !IsPowOfTwo(6)
  {
    IsPowOfTwoOfPow2(1);
    IsPowOfTwoOfPow2(2);
    OddNotPowOfTwo(3);
    EvenPowOfTwo(6);
  }

  // ---------------------------------------------------------------------
  // Facts about the bit reversal
  // ---------------------------------------------------------------------

  lemma {:induction false} ShrStep(x: nat, i: nat)
    ensures Shr(x, i + 1) == Shr(x, i) / 2
  {
    if i > 0 {
      ShrStep(x / 2, i - 1);
    }
  }

  /** Appending one more low bit of x (bit i) to an i-bit reversal. */
  lemma {:induction false} ReverseStep(x: nat, i: nat)
    ensures Reverse(x, i + 1) == 2 * Reverse(x, i) + Shr(x, i) % 2
  {
    if i > 0 {
      ReverseStep(x / 2, i - 1);
      assert i - 1 + 1 == i;
      assert Pow2(i) == 2 * Pow2(i - 1);
      assert Shr(x, i) == Shr(x / 2, i - 1);
    }
  }

  /** Adding a multiple of 2^bits to x does not change its `bits`-bit reversal. */
  lemma {:induction false} ReverseIgnoresHighBits(x: nat, c: nat, bits: nat)
    ensures Reverse(x + c * Pow2(bits), bits) == Reverse(x, bits)
  {
    if bits > 0 {
      var k := c * Pow2(bits - 1);
      assert c * Pow2(bits) == 2 * k;
      assert (x + 2 * k) % 2 == x % 2;
      assert (x + 2 * k) / 2 == x / 2 + k;
      ReverseIgnoresHighBits(x / 2, c, bits - 1);
    }
  }

  lemma DivMod(x: nat, d: nat)
    requires d > 0
    ensures x == x % d + (x / d) * d && 0 <= x % d < d && x / d >= 0
  {
  }

  /** `reverse_bits(x, bits)` depends only on the low `bits` bits of x. */
  lemma ReverseLowBits(x: nat, bits: nat)
    ensures Reverse(x, bits) == Reverse(x % Pow2(bits), bits)
  {
    var d := Pow2(bits);
    DivMod(x, d);
    var q: nat, r: nat := x / d, x % d;
    var y := r + q * d;
    assert y == x;
    ReverseIgnoresHighBits(r, q, bits);
    assert Reverse(y, bits) == Reverse(r, bits);
  }

  /** Shifting a value below 2^(b+1) right by b leaves its top bit. */
  lemma {:induction false} ShrTopBit(r: nat, b: nat, top: bool)
    requires r < Pow2(b)
    ensures Shr((if top then Pow2(b) else 0) + r, b) == (if top then 1 else 0)
  {
    if b > 0 {
      var v := (if top then Pow2(b) else 0) + r;
      assert v / 2 == (if top then Pow2(b - 1) else 0) + r / 2;
      ShrTopBit(r / 2, b - 1, top);
    }
  }

  /** Reversing x twice peels off its low bit: the rest is x / 2 reversed twice on one bit less. */
  lemma ReverseTwiceStep(x: nat, bits: nat)
    requires bits > 0
    ensures Reverse(Reverse(x, bits), bits) == 2 * Reverse(Reverse(x / 2, bits - 1), bits - 1) + x % 2
  {
    var b := bits - 1;
    var top := x % 2 == 1;
    var r := Reverse(x / 2, b);
    var y := Reverse(x, bits);
    assert y == (if top then Pow2(b) else 0) + r;
    ReverseStep(y, b);
    assert b + 1 == bits;
    ShrTopBit(r, b, top);
    ReverseIgnoresTopBit(r, b, top);
    assert Shr(y, b) % 2 == x % 2;
  }

  /** Setting bit b of x does not change its b-bit reversal. */
  lemma ReverseIgnoresTopBit(x: nat, b: nat, top: bool)
    ensures Reverse((if top then Pow2(b) else 0) + x, b) == Reverse(x, b)
  {
    if top {
      ReverseIgnoresHighBits(x, 1, b);
    } else {
      ReverseIgnoresHighBits(x, 0, b);
    }
  }

  /** Reversing twice gives back every value that fits in `bits` bits. */
  lemma {:induction false} ReverseInvolution(x: nat, bits: nat)
    requires x < Pow2(bits)
    ensures Reverse(Reverse(x, bits), bits) == x
  {
    if bits > 0 {
      ReverseInvolution(x / 2, bits - 1);
      ReverseTwiceStep(x, bits);
    }
  }

  /** The reversal is injective on [0, 2^bits): distinct values have distinct reversals. */
  lemma ReverseInjective(x: nat, y: nat, bits: nat)
    requires x < Pow2(bits) && y < Pow2(bits)
    requires x != y
    ensures Reverse(x, bits) != Reverse(y, bits)
  {
    ReverseInvolution(x, bits);
    ReverseInvolution(y, bits);
  }

  // ---------------------------------------------------------------------
  // u32 arithmetic used by reverse_bits
  // ---------------------------------------------------------------------

  lemma {:induction false} MulAtLeast(d: nat, k: int)
    requires k >= 1
    ensures d * k >= d
  {
    if k > 1 {
      MulAtLeast(d, k - 1);
      assert d * k == d * (k - 1) + d;
    }
  }

  lemma ModUnique(x: int, d: int, q: int, r: int)
    requires d > 0 && 0 <= r < d && x == d * q + r
    ensures x % d == r && x / d == q
  {
    var q', r' := x / d, x % d;
    assert x == d * q' + r';
    assert d * (q' - q) == r - r' by {
      assert d * (q' - q) == d * q' - d * q;
    }
    if q < q' {
      MulAtLeast(d, q' - q);
    } else if q' < q {
      MulAtLeast(d, q - q');
    }
  }

  lemma Pow2Of16()
    ensures Pow2(16) == 0x1_0000
  {
    assert Pow2(4) == 16;
    Pow2Add(4, 4);
    Pow2Add(8, 8);
  }

  lemma Pow2Of32()
    ensures Pow2(32) == U32_LIMIT
  {
    Pow2Of16();
    Pow2Add(16, 16);
  }

  /** `(rev << 1) | bit` on u32 equals (2 * rev + bit) mod 2^32, whatever rev overflowed to. */
  lemma ShiftInBit(big: nat, bit: nat)
    requires bit < 2
    ensures ((big % U32_LIMIT) * 2) % U32_LIMIT + bit == (2 * big + bit) % U32_LIMIT
  {
    var M := U32_LIMIT;
    var s, q := big % M, big / M;
    if 2 * s < M {
      ModUnique(2 * s, M, 0, 2 * s);
      ModUnique(2 * big + bit, M, 2 * q, 2 * s + bit);
    } else {
      ModUnique(2 * s, M, 1, 2 * s - M);
      ModUnique(2 * big + bit, M, 2 * q + 1, 2 * s - M + bit);
    }
  }

  /**
   * `reverse_bits`: shifts the low `bits` bits of x, least significant first,
   * into `rev` from the right. `rev` is a u32, so for bits > 32 the bits
   * shifted out of its top are lost.
   */
  method ReverseBits(x: u32, bits: u32) returns (rev: u32)
    ensures rev == Reverse(x, bits) % U32_LIMIT
    ensures bits <= 32 ==> rev == Reverse(x, bits)
  {
    rev := 0;
    var y: u32 := x;
    var i := 0;
    while i < bits
      invariant 0 <= i <= bits
      invariant y == Shr(x, i)
      invariant rev == Reverse(x, i) % U32_LIMIT
    {
      ReverseStep(x, i);
      ShiftInBit(Reverse(x, i), y % 2);
      ShrStep(x, i);
      rev := (rev * 2) % U32_LIMIT + y % 2;
      y := y / 2;
      i := i + 1;
    }
    if bits <= 32 {
      Pow2Monotone(bits, 32);
      Pow2Of32();
      ModUnique(Reverse(x, bits), U32_LIMIT, 0, Reverse(x, bits));
    }
  }

  /** Reversing the bits of zero gives zero. */
  lemma {:induction false} ReverseOfZero(bits: nat)
    ensures Reverse(0, bits) == 0
  {
    if bits > 0 {
      ReverseOfZero(bits - 1);
    }
  }

  /**
   * Above 32 bits the u32 wrap of `rev << 1` loses the top of the reversal:
   * over 33 bits, 1 and 0 have distinct reversals, but `reverse_bits`
   * returns 0 for both, so it is neither injective nor an involution there.
   */
  lemma ReverseBitsWrapsAbove32()
    ensures Reverse(1, 33) != Reverse(0, 33)
    ensures Reverse(1, 33) % U32_LIMIT == 0 && Reverse(0, 33) % U32_LIMIT == 0
  {
    ReverseOfZero(32);
    Pow2Of32();
    assert Reverse(1, 33) == Pow2(32) + Reverse(0, 32);
  }

  // ---------------------------------------------------------------------
  // The bit-reversal copy
  // ---------------------------------------------------------------------

  /**
   * What `bit_reverse_copy` produces for a power-of-two length n = 2^p:
   * slot j holds the input element at the p-bit reversal of j.
   */
  function BitReversed(a: seq<Complex>): (r: seq<Complex>)
    requires IsPowOfTwo(|a|)
    ensures |r| == |a|
  {
    IsPowOfTwoIffPow2(|a|);
    var p := TrailingZeros(|a|);
    seq(|a|, j requires 0 <= j < |a| => a[Reverse(j, p)])
  }

  /** Element i of the input lands on slot reverse_bits(i, p) of the output. */
  lemma BitReversedPlaces(a: seq<Complex>, i: nat)
    requires IsPowOfTwo(|a|) && i < |a|
    ensures Reverse(i, TrailingZeros(|a|)) < |a|
    ensures BitReversed(a)[Reverse(i, TrailingZeros(|a|))] == a[i]
  {
    IsPowOfTwoIffPow2(|a|);
    ReverseInvolution(i, TrailingZeros(|a|));
  }

  /**
   * For n = 2^p the index map is a bijection of [0, n) onto itself (it is its
   * own inverse), so every slot is written exactly once.
   */
  lemma BitReversalIsPermutation(n: nat, j: nat)
    requires IsPowOfTwo(n) && j < n
    ensures Reverse(j, TrailingZeros(n)) < n
    ensures Reverse(Reverse(j, TrailingZeros(n)), TrailingZeros(n)) == j
    ensures forall i: nat :: i < n && i != j ==> Reverse(i, TrailingZeros(n)) != Reverse(j, TrailingZeros(n))
  {
    IsPowOfTwoIffPow2(n);
    var p := TrailingZeros(n);
    ReverseInvolution(j, p);
    forall i: nat | i < n && i != j
      ensures Reverse(i, p) != Reverse(j, p)
    {
      ReverseInjective(i, j, p);
    }
  }

  /** Applying the bit-reversal copy twice gives back the input. */
  lemma BitReversedInvolution(a: seq<Complex>)
    requires IsPowOfTwo(|a|)
    ensures BitReversed(BitReversed(a)) == a
  {
    IsPowOfTwoIffPow2(|a|);
    var p := TrailingZeros(|a|);
    forall j | 0 <= j < |a|
      ensures BitReversed(BitReversed(a))[j] == a[j]
    {
      ReverseInvolution(j, p);
    }
  }

  /** A sequence that holds a[i] at slot reverse(i) for every i is BitReversed(a). */
  lemma BitReversedFromPlaces(a: seq<Complex>, out: seq<Complex>)
    requires IsPowOfTwo(|a|) && |out| == |a|
    requires forall i :: 0 <= i < |a| ==> Reverse(i, TrailingZeros(|a|)) < |out| && out[Reverse(i, TrailingZeros(|a|))] == a[i]
    ensures out == BitReversed(a)
  {
    IsPowOfTwoIffPow2(|a|);
    var p := TrailingZeros(|a|);
    forall j | 0 <= j < |a|
      ensures out[j] == BitReversed(a)[j]
    {
      ReverseInvolution(j, p);
    }
  }

  lemma BitReversedExamples(x: Complex, a: Complex, b: Complex, c: Complex, d: Complex)
    ensures IsPowOfTwo(1) && BitReversed([x]) == [x]
    ensures IsPowOfTwo(4) && BitReversed([a, b, c, d]) == [a, c, b, d]
  {
    IsPowOfTwoExamples();
    var s := [a, b, c, d];
    assert TrailingZeros(4) == 2;
    assert Reverse(1, 2) == 2 && Reverse(2, 2) == 1 && Reverse(3, 2) == 3;
    assert BitReversed(s)[1] == c && BitReversed(s)[2] == b;
  }

  /**
   * `bit_reverse_copy`: output[reverse_bits(i, tz(n))] := a[i] for i in 0..n.
   * Every write is in bounds for every n (rev < 2^tz(n) <= n). For a power of
   * two the result is BitReversed(a); otherwise the slots from 2^tz(n) on are
   * never written and keep their zero.
   */
  method BitReverseCopy(a: seq<Complex>) returns (output: array<Complex>)
    requires |a| <= U32_LIMIT
    ensures fresh(output) && output.Length == |a|
    ensures IsPowOfTwo(|a|) ==> output[..] == BitReversed(a)
    ensures forall j :: |a| > 0 && Pow2(TrailingZeros(|a|)) <= j < |a| ==> output[j] == Zero()
  {
    var n := |a|;
    output := new Complex[n](_ => Zero());
    var bits := TrailingZeros(n);
    ghost var written := if n > 0 then Pow2(bits) else 0;
    if n > 0 {
      Pow2TrailingZerosAtMost(n);
      Pow2Monotone(bits, 32);
      Pow2Of32();
    }
    IsPowOfTwoIffPow2(n);
    ghost var pow := IsPowOfTwo(n);
    assert pow ==> written == n;
    var i := 0;
    while i < n
      invariant i <= n
      invariant forall j :: written <= j < n ==> output[j] == Zero()
      invariant pow ==> forall i' :: 0 <= i' < i ==> output[Reverse(i', bits)] == a[i']
    {
      var rev := ReverseBits(i, bits);
      assert rev == Reverse(i, bits) < written;
      output[rev] := a[i];
      if pow {
        forall i' | 0 <= i' <= i
          ensures output[Reverse(i', bits)] == a[i']
        {
          if i' < i {
            ReverseInjective(i', i, bits);
          }
        }
      }
      i := i + 1;
    }
    if pow {
      forall i' | 0 <= i' < n
        ensures Reverse(i', bits) < n && output[..][Reverse(i', bits)] == a[i']
      {
      }
      BitReversedFromPlaces(a, output[..]);
    }
  }
}
