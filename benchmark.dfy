// The benchmark driver (src/benchmark.rs): the xorshift64 generator that
// makes its random inputs, and the sweep over the sizes 2^min_pow ..
// 2^max_pow that feeds both transforms. Timing, `black_box` and the
// averaging of the measured times are clock I/O and are not modelled; the
// u64 -> f64 conversion of a 53-bit draw is a parameter `unit`.

module Benchmark {
  import opened Types
  import opened Utils
  import opened Fourier

  // ---------------------------------------------------------------------
  // The xorshift64 step
  // ---------------------------------------------------------------------

  /** `x ^ (x << k)` on a u64: bits shifted past bit 63 are dropped. */
  function XorShl(x: bv64, k: bv64): bv64
    requires k < 64
  {
    x ^ (x << k)
  }

  /** `x ^ (x >> k)` on a u64: zeros are shifted in from the top. */
  function XorShr(x: bv64, k: bv64): bv64
    requires k < 64
  {
    x ^ (x >> k)
  }

  /** One generator step: x ^= x << 13; x ^= x >> 7; x ^= x << 17. */
  function Step(x: bv64): bv64
  {
    XorShl(XorShr(XorShl(x, 13), 7), 17)
  }

  lemma XorShlZeroIffZero(x: bv64, k: bv64)
    requires 0 < k < 64
    ensures XorShl(x, k) == 0 <==> x == 0
  {
  }

  lemma XorShrZeroIffZero(x: bv64, k: bv64)
    requires 0 < k < 64
    ensures XorShr(x, k) == 0 <==> x == 0
  {
  }

  /** A step maps zero to zero and every other state to a non-zero state. */
  lemma StepZeroIffZero(x: bv64)
    ensures Step(x) == 0 <==> x == 0
  {
    XorShlZeroIffZero(x, 13);
    XorShrZeroIffZero(XorShl(x, 13), 7);
    XorShlZeroIffZero(XorShr(XorShl(x, 13), 7), 17);
  }

  /** The first outputs of the generator seeded with 1, and the stuck state 0. */
  lemma StepExamples()
    ensures Step(1) == 0x4082_2041
    ensures Step(0x4082_2041) == 0x1000_4106_0C01_1441
    ensures Step(0) == 0
  {
  }

  /** The state after k steps from s. */
  function Advance(s: bv64, k: nat): bv64
  {
    if k == 0 then s else Step(Advance(s, k - 1))
  }

  /** A generator never reaches the state 0 unless it starts there. */
  lemma {:induction false} AdvanceZeroIffZero(s: bv64, k: nat)
    ensures Advance(s, k) == 0 <==> s == 0
  {
    if k > 0 {
      AdvanceZeroIffZero(s, k - 1);
      StepZeroIffZero(Advance(s, k - 1));
    }
  }

  /** Stepping i times and then j times is stepping i + j times. */
  lemma {:induction false} AdvanceAdd(s: bv64, i: nat, j: nat)
    ensures Advance(Advance(s, i), j) == Advance(s, i + j)
  {
    if j > 0 {
      AdvanceAdd(s, i, j - 1);
      assert i + j - 1 == i + (j - 1);
    }
  }

  /** `seed.max(1)`: the state a new generator starts from. */
  function SeedState(seed: bv64): (s: bv64)
    ensures s != 0
    ensures seed != 0 ==> s == seed
    ensures seed == 0 ==> s == 1
  {
    if seed < 1 then 1 else seed
  }

  /** The 53 high bits of a u64, `x >> 11`: the mantissa next_f64 scales into [0, 1). */
  function High53(x: bv64): bv64
  {
    x >> 11
  }

  /** The shift keeps the top 53 bits, so the draw is below 2^53, and drops only the low 11. */
  lemma High53Bounds(x: bv64)
    ensures High53(x) < 0x20_0000_0000_0000
    ensures (High53(x) << 11) | (x & 0x7FF) == x
  {
  }

  /** The u64 -> f64 conversion of a 53-bit draw, `(u as f64) * 2^-53`. */
  type UnitConversion = bv64 -> real

  /** `next_f64_range(lo, hi)` applied to the state x the draw produced. */
  function Range(lo: real, hi: real, unit: UnitConversion, x: bv64): real
  {
    lo + (hi - lo) * unit(High53(x))
  }

  // ---------------------------------------------------------------------
  // The generator object
  // ---------------------------------------------------------------------

  class XorShift64 {
    var state: bv64

    /** Every generator state is non-zero: `new` rules 0 out and a step keeps it out. */
    ghost predicate Valid()
      reads this
    {
      state != 0
    }

    /** `XorShift64::new(seed)`. */
    constructor (seed: bv64)
      ensures state == SeedState(seed)
      ensures Valid()
    {
      state := SeedState(seed);
    }

    /** `next_u64`: one step, stored and returned. */
    method NextU64() returns (x: bv64)
      requires Valid()
      modifies this
      ensures x == Step(old(state)) && state == x
      ensures Valid()
    {
      x := state;
      x := XorShl(x, 13);
      x := XorShr(x, 7);
      x := XorShl(x, 17);
      state := x;
      StepZeroIffZero(old(state));
    }

    /** `next_f64` up to the float conversion: the 53 high bits of the next output. */
    method NextF64Bits() returns (u: bv64)
      requires Valid()
      modifies this
      ensures state == Step(old(state)) && u == High53(state)
      ensures u < 0x20_0000_0000_0000
      ensures Valid()
    {
      var x := NextU64();
      u := x >> 11;
      High53Bounds(x);
    }

    /** `next_f64_range(lo, hi)`: lo + (hi - lo) * next_f64(). */
    method NextF64Range(lo: real, hi: real, unit: UnitConversion) returns (r: real)
      requires Valid()
      modifies this
      ensures state == Step(old(state)) && r == Range(lo, hi, unit, state)
      ensures Valid()
    {
      var u := NextF64Bits();
      r := lo + (hi - lo) * unit(u);
    }
  }

  /**
   * Two generators built from the same seed are separate objects that
   * produce the same outputs: output i of each is Advance(seed.max(1), i + 1).
   */
  method SameSeedSameOutputs(seed: bv64, k: nat) returns (xs: seq<bv64>, ys: seq<bv64>)
    ensures |xs| == k && xs == ys
    ensures forall i :: 0 <= i < k ==> xs[i] == Advance(SeedState(seed), i + 1)
  {
    var g := new XorShift64(seed);
    var h := new XorShift64(seed);
    xs, ys := [], [];
    for i := 0 to k
      invariant g.Valid() && h.Valid() && g != h
      invariant g.state == h.state == Advance(SeedState(seed), i)
      invariant |xs| == i && xs == ys
      invariant forall i' :: 0 <= i' < i ==> xs[i'] == Advance(SeedState(seed), i' + 1)
    {
      var x := g.NextU64();
      var y := h.NextU64();
      xs, ys := xs + [x], ys + [y];
    }
  }

  // ---------------------------------------------------------------------
  // Random inputs
  // ---------------------------------------------------------------------

  /** One random part, `next_f64_range(-1.0, 1.0)`, drawn as the state x. */
  function Sample(unit: UnitConversion, x: bv64): real
  {
    Range(-1.0, 1.0, unit, x)
  }

  /** The conversion maps every 53-bit draw into [0, 1), as `u * 2^-53` does. */
  ghost predicate UnitInRange(unit: UnitConversion)
  {
    forall u: bv64 :: u < 0x20_0000_0000_0000 ==> 0.0 <= unit(u) < 1.0
  }

  /** With such a conversion a sample lies in [-1, 1). */
  lemma SampleInRange(unit: UnitConversion, x: bv64)
    requires UnitInRange(unit)
    ensures -1.0 <= Sample(unit, x) < 1.0
  {
    High53Bounds(x);
  }

  /**
   * The vector random_complex_vec(n) builds from the state s: element i
   * takes its real part from draw 2i + 1 and its imaginary part from draw
   * 2i + 2.
   */
  function RandomVec(s: bv64, n: nat, unit: UnitConversion): (v: seq<Complex>)
    ensures |v| == n
  {
    if n == 0 then []
    else RandomVec(s, n - 1, unit) + [New(Sample(unit, Advance(s, 2 * n - 1)), Sample(unit, Advance(s, 2 * n)))]
  }

  /** Element i of the vector uses exactly draws 2i + 1 and 2i + 2. */
  lemma {:induction false} RandomVecAt(s: bv64, n: nat, unit: UnitConversion, i: nat)
    requires i < n
    ensures RandomVec(s, n, unit)[i] == New(Sample(unit, Advance(s, 2 * i + 1)), Sample(unit, Advance(s, 2 * i + 2)))
  {
    if i < n - 1 {
      RandomVecAt(s, n - 1, unit, i);
    } else {
      assert 2 * n - 1 == 2 * i + 1 && 2 * n == 2 * i + 2;
    }
  }

  /** A longer vector from the same state starts with the shorter one. */
  lemma {:induction false} RandomVecPrefix(s: bv64, m: nat, n: nat, unit: UnitConversion)
    requires m <= n
    ensures RandomVec(s, n, unit)[..m] == RandomVec(s, m, unit)
  {
    if m < n {
      RandomVecPrefix(s, m, n - 1, unit);
      assert RandomVec(s, n, unit)[..n - 1] == RandomVec(s, n - 1, unit);
    }
  }

  /** With such a conversion every element of the vector lies in [-1, 1) x [-1, 1). */
  lemma RandomVecInRange(s: bv64, n: nat, unit: UnitConversion)
    requires UnitInRange(unit)
    ensures forall i :: 0 <= i < n ==>
      -1.0 <= RandomVec(s, n, unit)[i].re < 1.0 && -1.0 <= RandomVec(s, n, unit)[i].im < 1.0
  {
    forall i | 0 <= i < n
      ensures -1.0 <= RandomVec(s, n, unit)[i].re < 1.0 && -1.0 <= RandomVec(s, n, unit)[i].im < 1.0
    {
      RandomVecAt(s, n, unit, i);
      SampleInRange(unit, Advance(s, 2 * i + 1));
      SampleInRange(unit, Advance(s, 2 * i + 2));
    }
  }

  /** Element i, drawn by the two calls after 2i draws, extends the vector of i elements. */
  lemma RandomVecNext(s: bv64, i: nat, i': nat, unit: UnitConversion, v: seq<Complex>, x: bv64, y: bv64, re: real, im: real)
    requires i' == i + 1
    requires v == RandomVec(s, i, unit)
    requires x == Step(Advance(s, 2 * i)) && y == Step(x)
    requires re == Sample(unit, x) && im == Sample(unit, y)
    ensures v + [New(re, im)] == RandomVec(s, i', unit)
    ensures y == Advance(s, 2 * i')
  {
    assert 2 * i' - 1 == 2 * i + 1 && 2 * i' == 2 * i + 2;
  }

  /**
   * `random_complex_vec(n, rng)`: n elements, each from two draws of
   * `next_f64_range(-1.0, 1.0)`, re first; the generator advances exactly
   * 2n steps.
   */
  method RandomComplexVec(n: nat, rng: XorShift64, unit: UnitConversion) returns (v: seq<Complex>)
    requires rng.Valid()
    modifies rng
    ensures rng.Valid()
    ensures v == RandomVec(old(rng.state), n, unit)
    ensures rng.state == Advance(old(rng.state), 2 * n)
  {
    ghost var s := rng.state;
    v := [];
    for i := 0 to n
      invariant rng.Valid()
      invariant v == RandomVec(s, i, unit)
      invariant rng.state == Advance(s, 2 * i)
    {
      var re := rng.NextF64Range(-1.0, 1.0, unit);
      ghost var x := rng.state;
      var im := rng.NextF64Range(-1.0, 1.0, unit);
      RandomVecNext(s, i, i + 1, unit, v, x, rng.state, re, im);
      v := v + [New(re, im)];
    }
  }

  // ---------------------------------------------------------------------
  // The size sweep
  // ---------------------------------------------------------------------

  /** The sizes a sweep from 2^minPow to 2^maxPow visits, in order. */
  ghost predicate IsSweep(sizes: seq<nat>, minPow: nat, maxPow: nat)
  {
    |sizes| == (if minPow <= maxPow then maxPow - minPow + 1 else 0) &&
    forall i :: 0 <= i < |sizes| ==> sizes[i] == Pow2(minPow + i)
  }

  /** The sizes of a sweep strictly increase: each is twice the one before. */
  lemma SweepStrictlyIncreasing(sizes: seq<nat>, minPow: nat, maxPow: nat)
    requires IsSweep(sizes, minPow, maxPow)
    ensures forall i, j :: 0 <= i < j < |sizes| ==> sizes[i] < sizes[j]
    ensures forall i :: 0 < i < |sizes| ==> sizes[i] == 2 * sizes[i - 1]
  {
    forall i, j | 0 <= i < j < |sizes|
      ensures sizes[i] < sizes[j]
    {
      Pow2StrictlyIncreasing(minPow + i, minPow + j);
    }
    forall i | 0 < i < |sizes|
      ensures sizes[i] == 2 * sizes[i - 1]
    {
      assert minPow + i - 1 == minPow + (i - 1);
    }
  }

  /**
   * Every size of a sweep up to 2^32 is a power of two that fits the u32
   * indices of bit_reverse_copy: the fft assertion never fires on it.
   */
  lemma SweepFeedsFft(sizes: seq<nat>, minPow: nat, maxPow: nat)
    requires maxPow <= 32 && IsSweep(sizes, minPow, maxPow)
    ensures forall i :: 0 <= i < |sizes| ==> IsPowOfTwo(sizes[i]) && sizes[i] <= U32_LIMIT
  {
    forall i | 0 <= i < |sizes|
      ensures IsPowOfTwo(sizes[i]) && sizes[i] <= U32_LIMIT
    {
      IsPowOfTwoOfPow2(minPow + i);
      Pow2Monotone(minPow + i, 32);
      Pow2Of32();
    }
  }

  /**
   * `benchmark_dft_fft` without the clock: for p in min_pow..=max_pow it
   * runs `trials` rounds of dft and fft on a fresh random input of 2^p
   * elements, all drawn from one generator seeded with `seed`, and records
   * the size 2^p. `ffts[i][t]` is what the fft call of round t at size
   * sizes[i] returned: every one of them returns normally, with sizes[i]
   * values.
   */
  method BenchmarkDftFft(minPow: nat, maxPow: nat, trials: nat, seed: bv64, tw: Twiddle, unit: UnitConversion)
    returns (sizes: seq<nat>, ghost ffts: seq<seq<Outcome<seq<Complex>>>>)
    requires maxPow <= 32
    ensures IsSweep(sizes, minPow, maxPow)
    ensures |ffts| == |sizes|
    ensures forall i :: 0 <= i < |ffts| ==> |ffts[i]| == trials
    ensures forall i, t :: 0 <= i < |ffts| && 0 <= t < |ffts[i]| ==>
              ffts[i][t].Ok? && |ffts[i][t].value| == sizes[i]
  {
    var rng := new XorShift64(seed);
    sizes := [];
    ffts := [];
    var p := minPow;
    while p <= maxPow
      invariant minPow <= p && (p <= maxPow + 1 || p == minPow)
      invariant |sizes| == p - minPow && |ffts| == |sizes|
      invariant forall i :: 0 <= i < |sizes| ==> sizes[i] == Pow2(minPow + i)
      invariant rng.Valid()
      invariant forall i :: 0 <= i < |ffts| ==> |ffts[i]| == trials
      invariant forall i, t :: 0 <= i < |ffts| && 0 <= t < |ffts[i]| ==>
                  ffts[i][t].Ok? && |ffts[i][t].value| == sizes[i]
      decreases maxPow + 1 - p
    {
      var n := Pow2(p);
      IsPowOfTwoOfPow2(p);
      Pow2Monotone(p, 32);
      Pow2Of32();
      ghost var round: seq<Outcome<seq<Complex>>> := [];
      for t := 0 to trials
        invariant rng.Valid()
        invariant |round| == t
        invariant forall t' :: 0 <= t' < t ==> round[t'].Ok? && |round[t'].value| == n
      {
        var input := RandomComplexVec(n, rng, unit);
        var outDft := Dft(input, tw);
        ghost var stages;
        var outFft;
        outFft, stages := Fft(input, tw);
        round := round + [outFft];
      }
      sizes := sizes + [n];
      ffts := ffts + [round];
      p := p + 1;
    }
  }
}
