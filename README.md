# Fourier.rs in Dafny

A verified model of the numeric core of Fourier.rs, a small Rust crate. The crate computes discrete Fourier transforms of complex signals in two ways:

- `dft` is the direct O(n^2) transform.
- `fft` is an iterative radix-2 Cooley-Tukey transform. It asserts a power-of-two length, reorders the input with a bit-reversal copy, and then runs the stages m = 2, 4, ..., n of in-place butterflies.

A benchmark driver feeds both transforms random inputs. The inputs come from an xorshift64 generator, over the sizes 2^min_pow .. 2^max_pow.

The model has four modules, one per source file:

- `Types` (`types.dfy`) is the `Complex` value type. Components are `real`, an idealisation of `f64`.
- `Utils` (`utils.dfy`) holds the power-of-two test, the p-bit index reversal and the bit-reversal copy.
  - Machine integers are `nat`.
  - The u32 wrap-around of `rev << 1` in `reverse_bits` is modelled exactly.
- `Fourier` (`fourier.dfy`) holds both transforms.
  - `twiddle` (cos and sin of -2*pi*k/m) is a parameter `tw` of both transforms, so every result holds for every twiddle function.
  - `fft`'s `assert!` is modelled as an `Outcome` that is either `Ok(value)` or `Panic(message)`.
- `Benchmark` (`benchmark.dfy`) holds the generator, the random vector builder and the size sweep.
  - The generator is a class with a `bv64` state.
  - The u64 -> f64 conversion of a 53-bit draw is a parameter `unit`.

The FFT starts each block's running rotation factor at (1, 1) (`src/fourier.rs:32`), not at the identity (1, 0). The model follows the code:

- `FftSpec` states stage by stage what the code computes.
- The in-place method is proved equal to it.
- `FftIsNotDft` shows that the result differs from the DFT for every two-element signal whose second element is not zero, once twiddle(0, 2) = 1.

## Model

| member | source | states |
|---|---|---|
| Types.New | src/types.rs:8-10 | `Complex::new(re, im)`: the complex value with real part re and imaginary part im |
| Types.Sub | src/types.rs:16-21 | `sub`: the componentwise difference (re - re', im - im') |
| Types.Add | src/types.rs:23-28 | `add`: the componentwise sum (re + re', im + im') |
| Types.Mult | src/types.rs:30-35 | `mult`: the complex product (re re' - im im', re im' + im re') |
| Types.Scale | src/types.rs:37-42 | `scale`: both parts multiplied by the real scalar |
| Types.Conj | src/types.rs:44-49 | `conj`: the real part kept, the imaginary part negated |
| Types.NewStoresComponents | src/types.rs:8-10 | `new(re, im)` stores both components unchanged |
| Types.AddComponentwise | src/types.rs:23-28 | `add` is the componentwise sum, is commutative and has zero as identity |
| Types.AddAssociative | src/types.rs:23-28 | addition over the reals is associative |
| Types.AddInterchange | src/types.rs:23-28 | (a + b) + (c + d) = (a + c) + (b + d), used to split the DFT sum of a sum of signals |
| Types.AddCancel | src/types.rs:23-28 | adding x0 is injective: x0 + y = x0 + x1 exactly when y = x1 |
| Types.SubUndoesAdd | src/types.rs:16-28 | `sub` is the componentwise difference, and `sub(add(a, b), b) == a` |
| Types.MultByOne | src/types.rs:30-35 | multiplying by (1, 0) on either side leaves c unchanged |
| Types.MultByOneOneIsNotIdentity | src/types.rs:30-35 | (1, 1) * c = (re - im, re + im), and (1, 1) * (1, 0) is not (1, 0) |
| Types.MultOneOneFixesOnlyZero | src/types.rs:30-35 | `(1, 1) * c == c` exactly when c is zero |
| Types.FactorOneOneChangesSum | src/types.rs:23-35 | x0 + (1, 1) * x1 differs from x0 + x1 whenever x1 is not zero |
| Types.MultCommutative | src/types.rs:30-35 | `mult` is commutative |
| Types.MultAssociative | src/types.rs:30-35 | `mult` is associative over the reals, so the running factor has a closed form |
| Types.MultDistributesOverAdd | src/types.rs:23-35 | (a + b) * w = a * w + b * w |
| Types.MultZero | src/types.rs:30-35 | zero times anything is zero |
| Types.ScaleComponentwise | src/types.rs:37-42 | `scale(c, s)` multiplies both parts by s; `scale(c, 1)` is c and `scale(c, 0)` is zero |
| Types.ScaleAddOne | src/types.rs:23-42 | s copies of c plus one more copy of c is s + 1 copies |
| Types.ConjInvolution | src/types.rs:44-49 | `conj` negates only the imaginary part, and `conj(conj(c)) == c` |
| Utils.IsPowOfTwo | src/utils.rs:10-12 | `is_pow_of_two(n)`: n is not zero and n AND (n - 1), computed bit by bit, is zero |
| Utils.TrailingZeros | src/utils.rs:29 | `n.trailing_zeros()`: the number of low zero bits of n, 64 for n = 0 as for a 64-bit usize |
| Utils.IsPowOfTwoIffPow2 | src/utils.rs:10-12 | `n != 0 && n & (n - 1) == 0` holds exactly when n = 2^tz(n), tz being the trailing-zero count |
| Utils.IsPowOfTwoIffExists | src/utils.rs:10-12 | `is_pow_of_two(n)` holds iff n = 2^p for some p, and it is false for 0 |
| Utils.IsPowOfTwoOfPow2 | src/utils.rs:10-12 | every 2^p passes the test |
| Utils.OddNotPowOfTwo | src/utils.rs:10-12 | an odd n > 1 fails the test |
| Utils.EvenPowOfTwo | src/utils.rs:10-12 | an even n passes the test exactly when n / 2 does |
| Utils.IsPowOfTwoExamples | src/utils.rs:10-12 | 1, 2 and 4 pass; 0, 3 and 6 fail |
| Utils.TrailingZerosOfPow2 | src/utils.rs:29 | for n = 2^p, `n.trailing_zeros()` is p |
| Utils.Pow2TrailingZerosAtMost | src/utils.rs:29 | 2^tz(n) <= n for n > 0 |
| Utils.Reverse | src/utils.rs:14-23 | the reversal of the low `bits` bits of x is below 2^bits |
| Utils.ShrStep | src/utils.rs:19 | shifting right once more halves the remaining value |
| Utils.ReverseStep | src/utils.rs:17-20 | one more loop step shifts rev left and brings in the next low bit of x |
| Utils.ShiftInBit | src/utils.rs:18 | `(rev << 1)` OR-ed with the next bit, on a wrapped u32, equals (2 * rev + bit) mod 2^32 |
| Utils.ReverseBits | src/utils.rs:14-23 | the loop returns the bit reversal mod 2^32, which is the bit reversal itself when bits <= 32 |
| Utils.ReverseLowBits | src/utils.rs:14-23 | `reverse_bits(x, bits)` depends only on the low `bits` bits of x |
| Utils.ReverseIgnoresHighBits | src/utils.rs:14-23 | adding a multiple of 2^bits to x does not change its reversal |
| Utils.ReverseTwiceStep | src/utils.rs:14-23 | reversing twice over bits splits into the lowest bit and reversing twice over bits - 1 |
| Utils.ReverseIgnoresTopBit | src/utils.rs:14-23 | setting bit b of x does not change the reversal of its low b bits |
| Utils.ShrTopBit | src/utils.rs:14-23 | shifting right by b leaves only the bit above the low b bits |
| Utils.ReverseInvolution | src/utils.rs:14-23 | the b-bit reversal `Reverse` is its own inverse on [0, 2^b); `reverse_bits` equals it for b <= 32, so there `reverse_bits(reverse_bits(x, b), b) == x` |
| Utils.ReverseInjective | src/utils.rs:14-23 | the b-bit reversal `Reverse` is injective on [0, 2^b); `reverse_bits` equals it for b <= 32 |
| Utils.ReverseOfZero | src/utils.rs:14-23 | the reversal of 0 is 0 for any number of bits |
| Utils.ReverseBitsWrapsAbove32 | src/utils.rs:14-23 | over 33 bits, 1 and 0 have distinct reversals, but both are 0 mod 2^32, which is what the u32 `rev` of `reverse_bits` keeps |
| Utils.BitReversed | src/utils.rs:25-37 | the bit-reversed order of a power-of-two signal has the signal's length |
| Utils.BitReversedPlaces | src/utils.rs:29-34 | for n = 2^p, `output[reverse_bits(i, p)] == a[i]` for every i < n |
| Utils.BitReversalIsPermutation | src/utils.rs:25-37 | index reversal maps [0, n) into itself, is its own inverse and is injective, so every slot is written exactly once |
| Utils.BitReversedInvolution | src/utils.rs:25-37 | bit-reverse copying twice gives back the input |
| Utils.BitReversedFromPlaces | src/utils.rs:31-34 | a sequence with a[i] at slot reverse(i) for every i is the bit-reversed order |
| Utils.BitReversedExamples | src/utils.rs:25-37 | [x] is unchanged; [A, B, C, D] becomes [A, C, B, D] |
| Utils.BitReverseCopy | src/utils.rs:25-37 | a fresh output of the input's length; for a power-of-two length it is the bit-reversed order; otherwise every slot from 2^tz(n) on keeps the zero fill |
| Fourier.DftSum | src/fourier.rs:8-15 | the inner dft loop's `sum` after t steps: the left-to-right fold, from zero, of signal[t'] * twiddle(k * t', n) for t' < t |
| Fourier.Dft | src/fourier.rs:4-18 | out has the signal's length; out[k] is the left-to-right fold, from zero, of signal[t] * twiddle(k * t, n) |
| Fourier.DftSumAtZeroStep | src/fourier.rs:9-12 | one more step of the k = 0 sum over a constant signal adds one more copy of c * twiddle(0, n) |
| Fourier.DftLinear | src/fourier.rs:8-15 | the DFT sum of a sum of two signals is the sum of their DFT sums |
| Fourier.DftOfImpulse | src/fourier.rs:8-15 | every output of the DFT of the unit impulse is twiddle(0, n) |
| Fourier.DftOfConstantAtZero | src/fourier.rs:8-15 | out[0] of a constant signal c is t copies of c * twiddle(0, n) after t steps |
| Fourier.FactorClosedForm | src/fourier.rs:29-39 | in butterfly j the running factor w is (1, 1) * wm^j, with wm = twiddle(1, m) |
| Fourier.FactorsAt | src/fourier.rs:32-39 | butterfly j of a block uses the factor after j updates `w = w.mult(&wm)` |
| Fourier.BlockOutAt | src/fourier.rs:33-40 | after a block, slot j holds b[j] + w_j * b[j + h] and slot j + h holds b[j] - w_j * b[j + h] |
| Fourier.ButterflyAtSlots | src/fourier.rs:34-37 | a butterfly writes u + t to slot k+j and u - t to slot k+j+m/2, with t = w * old a[k+j+m/2] and u = old a[k+j]; every other slot is unchanged |
| Fourier.Butterfly | src/fourier.rs:34-37 | the in-place butterfly leaves exactly what the butterfly specification states |
| Fourier.BlockStep | src/fourier.rs:33-40 | butterfly j finishes slots k+j and k+j+h with their final block values and touches nothing else |
| Fourier.BlockDoneStart | src/fourier.rs:33 | before the first butterfly nothing of the block is done |
| Fourier.BlockDoneAll | src/fourier.rs:33-40 | after all h butterflies the block holds its final contents and the rest of the array is unchanged |
| Fourier.BlockOutFactorAt | src/fourier.rs:32-40 | the final block's slots j and j + h, with w_j = (1, 1)-started running factor |
| Fourier.BlockRunNext | src/fourier.rs:33-39 | butterfly j with w = w_j extends the run by one, and `w = w.mult(&wm)` gives w_(j+1) |
| Fourier.BlockRunDone | src/fourier.rs:33-40 | after j butterflies exactly the pairs i < j are final and every other slot is unchanged |
| Fourier.BlockRunDoneStep | src/fourier.rs:33-40 | one more butterfly of the run finishes one more pair |
| Fourier.BlockRunAll | src/fourier.rs:33-40 | the h butterflies of a block turn it into its final contents and leave the rest alone |
| Fourier.ButterflyBlock | src/fourier.rs:32-40 | the j loop replaces the block at k by its final contents and changes no other slot |
| Fourier.TiledAdd | src/fourier.rs:31 | whole numbers of blocks add up |
| Fourier.Pow2Tiled | src/fourier.rs:28-31 | n = 2^p splits into whole blocks of m = 2^s for every s <= p |
| Fourier.TiledBlockFits | src/fourier.rs:31 | a block that starts below n ends at or before n |
| Fourier.Splice | src/fourier.rs:31-41 | proof step of the `step_by(m)` loop: cutting the array at the block boundaries gives back the finished prefix, the next block and the untouched rest |
| Fourier.SpliceBlock | src/fourier.rs:31-41 | proof step of the `step_by(m)` loop: doing the block at k after a finished prefix of k slots puts its result right after that prefix |
| Fourier.StageOutSnoc | src/fourier.rs:31-41 | one stage over k + m slots is the stage over k slots followed by the block at k |
| Fourier.StageStep | src/fourier.rs:31-41 | proof step of the `step_by(m)` loop: after the block at k the first k + m slots hold the stage result and the rest is untouched |
| Fourier.StageDoneAt | src/fourier.rs:31-41 | proof step of the `step_by(m)` loop: its invariant, restated at an equal block start (keeps the solver on one term) |
| Fourier.StageStepTo | src/fourier.rs:31-41 | proof step of the `step_by(m)` loop: after the block at k, the first k + m slots hold the stage result and the rest is untouched, with k + m named as the loop's next k |
| Fourier.ButterflyStage | src/fourier.rs:31-41 | the `step_by(m)` loop turns the array into one full stage of blocks with factors (1, 1) * wm^j |
| Fourier.StagesStep | src/fourier.rs:28-43 | running stage s and then stages s + 1..p is running stages s..p |
| Fourier.FftStages | src/fourier.rs:26-43 | the while loop visits exactly m = 2, 4, ..., n (log2 n stages) and leaves the result of all stages |
| Fourier.ButterflyIndicesInBounds | src/fourier.rs:31-37 | every index k+j and k+j+m/2 a stage touches is below n, and the two differ |
| Fourier.Fft | src/fourier.rs:20-46 | aborts with its message exactly when the length is not a power of two; otherwise it returns n values after log2 n stages, equal to the stage-by-stage specification |
| Fourier.FftSpec | src/fourier.rs:20-46 | what fft returns for a power-of-two length: the bit-reversed signal, then the stages m = 2, 4, ..., n of blocks with factors (1, 1) * twiddle(1, m)^j; the result has the signal's length |
| Fourier.FftOfOne | src/fourier.rs:20-46 | for n = 1 no butterfly runs and the input is returned |
| Fourier.StageOutOfTwo | src/fourier.rs:33-37 | the one stage of a two-element signal is one butterfly |
| Fourier.FftOfTwo | src/fourier.rs:20-46 | fft([x0, x1]) = [x0 + (1, 1) * x1, x0 - (1, 1) * x1] for every twiddle |
| Fourier.DftOfTwoAtZero | src/fourier.rs:8-15 | out[0] of the DFT of a two-element signal, written out |
| Fourier.FftIsNotDft | src/fourier.rs:4-46 | with twiddle(0, 2) = 1, fft and dft of [x0, x1] differ at slot 0 whenever x1 is not zero |
| Benchmark.Step | src/benchmark.rs:15-22 | the new state of `next_u64`: x ^= x << 13, x ^= x >> 7, x ^= x << 17 on a u64, bits shifted out dropped |
| Benchmark.XorShlZeroIffZero | src/benchmark.rs:17-19 | `x ^= x << k` (0 < k < 64) gives zero exactly when x is zero |
| Benchmark.XorShrZeroIffZero | src/benchmark.rs:18 | `x ^= x >> k` (0 < k < 64) gives zero exactly when x is zero |
| Benchmark.StepZeroIffZero | src/benchmark.rs:15-22 | one xorshift step gives zero exactly when the state was zero |
| Benchmark.StepExamples | src/benchmark.rs:15-22 | from state 1 the outputs are 0x40822041 and then 0x100041060C011441; state 0 is stuck |
| Benchmark.AdvanceZeroIffZero | src/benchmark.rs:15-22 | after any number of steps the state is zero exactly when it started at zero |
| Benchmark.AdvanceAdd | src/benchmark.rs:15-22 | i steps followed by j steps is i + j steps |
| Benchmark.SeedState | src/benchmark.rs:11-13 | `seed.max(1)` is never zero, is the seed when the seed is not zero, and is 1 for seed 0 |
| Benchmark.XorShift64.constructor | src/benchmark.rs:11-13 | a new generator starts at `seed.max(1)`, a non-zero state |
| Benchmark.XorShift64.NextU64 | src/benchmark.rs:15-22 | one 64-bit xorshift step is stored in `state` and returned, and the state stays non-zero |
| Benchmark.High53 | src/benchmark.rs:26 | `next_u64() >> 11`: the 53 high bits of the output |
| Benchmark.High53Bounds | src/benchmark.rs:26 | `x >> 11` is below 2^53 and drops only the low 11 bits of x |
| Benchmark.XorShift64.NextF64Bits | src/benchmark.rs:24-28 | `next_f64` takes the 53 high bits of the next output, which are below 2^53 |
| Benchmark.XorShift64.NextF64Range | src/benchmark.rs:30-32 | `next_f64_range(lo, hi)` is lo + (hi - lo) * next_f64(), and it advances the generator once |
| Benchmark.SameSeedSameOutputs | src/benchmark.rs:11-22 | two generators built from the same seed produce the same outputs; output i is the (i + 1)-th step from `seed.max(1)` |
| Benchmark.RandomVec | src/benchmark.rs:35-43 | the random vector of n elements has length n |
| Benchmark.SampleInRange | src/benchmark.rs:30-32 | when the conversion maps every 53-bit draw into [0, 1), `next_f64_range(-1.0, 1.0)` lies in [-1, 1) |
| Benchmark.RandomVecInRange | src/benchmark.rs:35-43 | with such a conversion both parts of every element of the random vector lie in [-1, 1) |
| Benchmark.RandomVecAt | src/benchmark.rs:37-41 | element i takes re from draw 2i + 1 and im from draw 2i + 2 |
| Benchmark.RandomVecPrefix | src/benchmark.rs:35-43 | a longer vector from the same state starts with the shorter one |
| Benchmark.RandomVecNext | src/benchmark.rs:37-41 | two more draws append one element and leave the generator 2(i + 1) steps on |
| Benchmark.RandomComplexVec | src/benchmark.rs:35-43 | returns exactly n elements and advances the generator exactly 2n steps |
| Benchmark.SweepStrictlyIncreasing | src/benchmark.rs:58-59 | the swept sizes strictly increase, each twice the one before |
| Benchmark.SweepFeedsFft | src/benchmark.rs:58-76 | every swept size up to 2^32 is a power of two, so the fft assertion never fires |
| Benchmark.BenchmarkDftFft | src/benchmark.rs:49-89 | returns max_pow - min_pow + 1 sizes (none when min_pow > max_pow), entry i being 2^(min_pow + i); the ghost record `ffts` holds one row per size with `trials` entries, one per fft call, and entry t of row i is a normal return of sizes[i] values, so no call aborts |

## Left out

- `twiddle` and `cis` (cos and sin) are transcendental. They are a function parameter of both transforms.
- `Complex::norm` (square root) and `factorial` are not part of the model. Neither is called by the modelled code.
- IEEE-754 rounding, NaN and infinity are not modelled: every component is a `real`. Any numeric agreement between `fft` and `dft` is also left out. With the (1, 1) start it does not hold anyway.
- Timing, `Instant`, `black_box`, the millisecond averaging and the division by `trials` are not modelled. These are clock I/O and floats, so `BenchmarkDftFft` returns the sizes and a ghost record of the fft results only.
- The u64 -> f64 conversion in `next_f64` is a parameter `unit`. Only the integer shift `>> 11` is modelled.
- CSV printing (`print_benchmark_csv`) and `main` are I/O and wiring. They are not part of the model.
- Fourier.Dft: `k * t` is computed in unbounded integers. The `usize` overflow of that product for huge n is not modelled.
- Utils.BitReverseCopy: requires n <= 2^32, the range where `i as u32` does not truncate.
- Utils.ReverseBits: is an involution and injective only for bits <= 32. For bits > 32 the u32 `rev` drops the high bits of the reversal (Utils.ReverseBitsWrapsAbove32), so Utils.ReverseInvolution and Utils.ReverseInjective hold for `Reverse` but not for `reverse_bits`. `bit_reverse_copy` reaches that range only for lengths above 2^32, which its requires excludes.
- Fourier.Fft: also requires n <= 2^32 when n is a power of two, because it then calls `bit_reverse_copy`, whose `i as u32` cast is exact only up to 2^32; every other length takes the panic path at any size.
- Fourier.Fft: the stage count `stages` is a ghost out-parameter. The source does not return it.
- Benchmark.BenchmarkDftFft: requires max_pow <= 32. Above that, `1usize << p` and the u32 index cast leave the modelled range.
- Utils.IsPowOfTwo: `n & (n - 1)` is computed by a recursive bitwise AND on `nat`. The 64-bit width of `usize` is not modelled.
- Utils.IsPowOfTwoExamples: covers only small inputs (0 to 6). Larger examples follow from Utils.IsPowOfTwoIffExists.
- Fourier.FftIsNotDft: states only one direction. It shows the outputs differ when x1 is not zero; the case x1 = 0, where they agree, is not stated.
- Types.FactorOneOneChangesSum: one direction only, for the same reason.
- Fourier.FftStages, Fourier.ButterflyStage, Fourier.ButterflyBlock and Fourier.Butterfly are separate methods. In the source these are the nested `while`/`for` loops inside the single function `fft`. The split keeps each proof small and changes no step of the algorithm.
- Benchmark.XorShift64.NextF64Range: the arithmetic lo + (hi - lo) * u is exact real arithmetic, not floating point.
- The shifts of `next_u64` are proved to keep the state non-zero. That the step is a bijection on 64-bit states is not proved.
