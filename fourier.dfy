// The two transforms (src/fourier.rs): the direct O(n^2) DFT and the
// iterative radix-2 Cooley-Tukey FFT, as the source writes them.
//
// `twiddle` (cos/sin of -2*pi*k/m) is transcendental; it is a parameter
// `tw` of both transforms, so everything proved here holds for every
// twiddle function. The FFT starts each block's running factor at (1, 1)
// (src/fourier.rs:32), not at the identity (1, 0); the specification below
// is what the code computes, and it is not the DFT.

module Fourier {
  import opened Types
  import opened Utils

  /** The twiddle-factor function twiddle(k, m). */
  type Twiddle = (nat, nat) -> Complex

  /** A call that either returns a value or aborts through `assert!`. */
  datatype Outcome<T> = Ok(value: T) | Panic(message: string)

  const NOT_POW_OF_TWO: string := "FFT length must be a power of two!"

  // ---------------------------------------------------------------------
  // Direct transform
  // ---------------------------------------------------------------------

  /**
   * The running sum of the inner dft loop after t steps: the left-to-right
   * fold, from zero, of signal[t'] * twiddle(k * t', n) for t' < t.
   */
  function DftSum(signal: seq<Complex>, k: nat, t: nat, tw: Twiddle): Complex
    requires t <= |signal|
  {
    if t == 0 then Zero()
    else Add(DftSum(signal, k, t - 1, tw), Mult(signal[t - 1], tw(k * (t - 1), |signal|)))
  }

  /**
   * `dft`: out[k] is the sum over t of signal[t] * twiddle(k * t, n), added
   * left to right from zero; the output has the input's length. The signal
   * is a shared borrow in the source, so it is a value here.
   */
  method Dft(signal: seq<Complex>, tw: Twiddle) returns (out: seq<Complex>)
    ensures |out| == |signal|
    ensures forall k :: 0 <= k < |out| ==> out[k] == DftSum(signal, k, |signal|, tw)
  {
    var n := |signal|;
    var buf := new Complex[n](_ => Zero());
    for k := 0 to n
      invariant forall k' :: 0 <= k' < k ==> buf[k'] == DftSum(signal, k', n, tw)
    {
      var sum := Zero();
      for t := 0 to n
        invariant sum == DftSum(signal, k, t, tw)
      {
        var w := tw(k * t, n);
        sum := Add(sum, Mult(signal[t], w));
      }
      buf[k] := sum;
    }
    out := buf[..];
  }

  /** The elementwise sum of two signals of the same length. */
  function AddSignals(a: seq<Complex>, b: seq<Complex>): (r: seq<Complex>)
    requires |a| == |b|
    ensures |r| == |a| && forall i :: 0 <= i < |r| ==> r[i] == Add(a[i], b[i])
  {
    seq(|a|, i requires 0 <= i < |a| => Add(a[i], b[i]))
  }

  /** Over exact arithmetic the direct transform is linear. */
  lemma {:induction false} DftLinear(a: seq<Complex>, b: seq<Complex>, k: nat, t: nat, tw: Twiddle)
    requires |a| == |b| && t <= |a|
    ensures DftSum(AddSignals(a, b), k, t, tw) == Add(DftSum(a, k, t, tw), DftSum(b, k, t, tw))
  {
    if t > 0 {
      var ab := AddSignals(a, b);
      var w := tw(k * (t - 1), |a|);
      var da, db := DftSum(a, k, t - 1, tw), DftSum(b, k, t - 1, tw);
      var ta, tb := Mult(a[t - 1], w), Mult(b[t - 1], w);
      DftLinear(a, b, k, t - 1, tw);
      assert DftSum(ab, k, t - 1, tw) == Add(da, db);
      MultDistributesOverAdd(a[t - 1], b[t - 1], w);
      assert Mult(ab[t - 1], w) == Add(ta, tb);
      AddInterchange(da, db, ta, tb);
    }
  }

  /** The impulse [1, 0, ..., 0]. */
  function Impulse(n: nat): (r: seq<Complex>)
    requires n > 0
    ensures |r| == n && r[0] == One() && forall i :: 0 < i < n ==> r[i] == Zero()
  {
    [One()] + seq(n - 1, _ => Zero())
  }

  /** Every bin of the transform of an impulse is the zero-angle kernel twiddle(0, n). */
  lemma {:induction false} DftOfImpulse(n: nat, k: nat, t: nat, tw: Twiddle)
    requires 0 < t <= n
    ensures DftSum(Impulse(n), k, t, tw) == tw(0, n)
  {
    if t > 1 {
      DftOfImpulse(n, k, t - 1, tw);
      MultZero(tw(k * (t - 1), n));
    }
  }

  /** Bin 0 of a constant signal c sums t copies of c * twiddle(0, n). */
  lemma {:induction false} DftOfConstantAtZero(signal: seq<Complex>, c: Complex, t: nat, tw: Twiddle)
    requires t <= |signal|
    requires forall i :: 0 <= i < |signal| ==> signal[i] == c
    ensures DftSum(signal, 0, t, tw) == Scale(Mult(c, tw(0, |signal|)), t as real)
  {
    if t > 0 {
      DftOfConstantAtZero(signal, c, t - 1, tw);
      DftSumAtZeroStep(signal, c, t, tw);
    }
  }

  /** One more term c * twiddle(0, n) of the bin-0 sum of a constant signal. */
  lemma DftSumAtZeroStep(signal: seq<Complex>, c: Complex, t: nat, tw: Twiddle)
    requires 0 < t <= |signal| && signal[t - 1] == c
    requires DftSum(signal, 0, t - 1, tw) == Scale(Mult(c, tw(0, |signal|)), (t - 1) as real)
    ensures DftSum(signal, 0, t, tw) == Scale(Mult(c, tw(0, |signal|)), t as real)
  {
    var z := Mult(c, tw(0, |signal|));
    assert 0 * (t - 1) == 0;
    ScaleAddOne(z, (t - 1) as real);
  }

  // ---------------------------------------------------------------------
  // Fast transform: what one butterfly, one block and one stage compute
  // ---------------------------------------------------------------------

  /**
   * The running factor w of butterfly j of a block, as the code computes
   * it: (1, 1) before the first butterfly, then `w = w.mult(&wm)`.
   */
  function Factor(wm: Complex, j: nat): Complex
  {
    if j == 0 then New(1.0, 1.0) else Mult(Factor(wm, j - 1), wm)
  }

  /** wm^j, by repeated multiplication on the right. */
  function Power(z: Complex, j: nat): Complex
  {
    if j == 0 then One() else Mult(Power(z, j - 1), z)
  }

  /**
   * Closed form of the running factor: w_j = (1, 1) * wm^j. The start value
   * (1, 1) is not the identity, so w_j is not wm^j.
   */
  lemma {:induction false} FactorClosedForm(wm: Complex, j: nat)
    ensures Factor(wm, j) == Mult(New(1.0, 1.0), Power(wm, j))
  {
    var c := New(1.0, 1.0);
    if j == 0 {
      assert Power(wm, 0) == One();
      MultByOne(c);
    } else {
      FactorClosedForm(wm, j - 1);
      assert Power(wm, j) == Mult(Power(wm, j - 1), wm);
      MultAssociative(c, Power(wm, j - 1), wm);
    }
  }

  /**
   * The factors w_0, ..., w_{h-1} that the h butterflies of one block use,
   * in order.
   */
  function Factors(wm: Complex, h: nat): (r: seq<Complex>)
    ensures |r| == h
  {
    if h == 0 then [] else Factors(wm, h - 1) + [Factor(wm, h - 1)]
  }

  /** Butterfly j of a block uses the running factor after j steps. */
  lemma {:induction false} FactorsAt(wm: Complex, h: nat, j: nat)
    requires j < h
    ensures Factors(wm, h)[j] == Factor(wm, j)
  {
    if j < h - 1 {
      FactorsAt(wm, h - 1, j);
    }
  }

  /**
   * One block b of m = 2h elements after its h butterflies with factors
   * ws: slot j < h holds b[j] + ws[j] * b[j + h], slot j + h holds
   * b[j] - ws[j] * b[j + h].
   */
  function BlockOut(b: seq<Complex>, ws: seq<Complex>): (r: seq<Complex>)
    requires |b| == 2 * |ws|
    ensures |r| == |b|
  {
    var h := |ws|;
    seq(|b|, i requires 0 <= i < |b| =>
      if i < h then Add(b[i], Mult(ws[i], b[i + h]))
      else Sub(b[i - h], Mult(ws[i - h], b[i])))
  }

  /** Butterfly j of a block writes slot j and slot j + h. */
  lemma BlockOutAt(b: seq<Complex>, ws: seq<Complex>, j: nat)
    requires |b| == 2 * |ws| && j < |ws|
    ensures BlockOut(b, ws)[j] == Add(b[j], Mult(ws[j], b[j + |ws|]))
    ensures BlockOut(b, ws)[j + |ws|] == Sub(b[j], Mult(ws[j], b[j + |ws|]))
  {
  }

  /** n is a whole number of blocks of m > 0 elements. */
  ghost predicate Tiled(n: nat, m: nat)
  {
    n == 0 || (0 < m <= n && Tiled(n - m, m))
  }

  /** Two tilings by the same block size add up to a tiling. */
  lemma {:induction false} TiledAdd(x: nat, y: nat, m: nat)
    requires Tiled(x, m) && Tiled(y, m)
    ensures Tiled(x + y, m)
  {
    if y > 0 {
      TiledAdd(x, y - m, m);
    }
  }

  /** 2^s blocks tile 2^p for every s <= p. */
  lemma {:induction false} Pow2Tiled(s: nat, p: nat)
    requires s <= p
    ensures Tiled(Pow2(p), Pow2(s))
  {
    if s == p {
      assert Tiled(Pow2(p) - Pow2(s), Pow2(s));
    } else {
      Pow2Tiled(s, p - 1);
      TiledAdd(Pow2(p - 1), Pow2(p - 1), Pow2(s));
    }
  }

  /** In a tiling of n, a block that starts at a tile boundary below n ends at or below n. */
  lemma {:induction false} TiledBlockFits(k: nat, n: nat, m: nat)
    requires Tiled(k, m) && Tiled(n, m) && k < n
    ensures k + m <= n
  {
    if k > 0 {
      TiledBlockFits(k - m, n - m, m);
    }
  }

  /**
   * One stage: every block of m = 2 |ws| elements replaced by its
   * butterflies with factors ws, blocks in order.
   */
  function StageOut(a: seq<Complex>, ws: seq<Complex>): (r: seq<Complex>)
    requires |ws| > 0 && Tiled(|a|, 2 * |ws|)
    ensures |r| == |a|
    decreases |a|
  {
    if |a| == 0 then []
    else
      var m := 2 * |ws|;
      StageOut(a[..|a| - m], ws) + BlockOut(a[|a| - m..], ws)
  }

  /** Stages s, s + 1, ..., p, stage s working on blocks of 2^s with wm = twiddle(1, 2^s). */
  function Stages(a: seq<Complex>, s: nat, p: nat, tw: Twiddle): (r: seq<Complex>)
    requires 1 <= s && |a| == Pow2(p)
    ensures |r| == |a|
    decreases p + 1 - s
  {
    if s > p then a
    else
      Pow2Tiled(s, p);
      var m := Pow2(s);
      Stages(StageOut(a, Factors(tw(1, m), Pow2(s - 1))), s + 1, p, tw)
  }

  /** What `fft` returns for a power-of-two length: bit-reverse, then stages 1..log2 n. */
  function FftSpec(signal: seq<Complex>, tw: Twiddle): (r: seq<Complex>)
    requires IsPowOfTwo(|signal|)
    ensures |r| == |signal|
  {
    IsPowOfTwoIffPow2(|signal|);
    Stages(BitReversed(signal), 1, TrailingZeros(|signal|), tw)
  }

  // ---------------------------------------------------------------------
  // Fast transform: the in-place code
  // ---------------------------------------------------------------------

  /**
   * What one butterfly on slots x < y with factor w leaves: x holds
   * s[x] + w * s[y], y holds s[x] - w * s[y], every other slot is unchanged.
   */
  function ButterflyAt(s: seq<Complex>, x: nat, y: nat, w: Complex): (r: seq<Complex>)
    requires x < y < |s|
    ensures |r| == |s|
  {
    s[x := Add(s[x], Mult(w, s[y]))][y := Sub(s[x], Mult(w, s[y]))]
  }

  /** A butterfly writes slots x and y, from the old values of both, and no other slot. */
  lemma ButterflyAtSlots(s: seq<Complex>, x: nat, y: nat, w: Complex)
    requires x < y < |s|
    ensures ButterflyAt(s, x, y, w)[x] == Add(s[x], Mult(w, s[y]))
    ensures ButterflyAt(s, x, y, w)[y] == Sub(s[x], Mult(w, s[y]))
    ensures forall i :: 0 <= i < |s| && i != x && i != y ==> ButterflyAt(s, x, y, w)[i] == s[i]
  {
  }

  /** One butterfly: t = w * a[y], u = a[x]; a[x] := u + t; a[y] := u - t. */
  method Butterfly(a: array<Complex>, x: nat, y: nat, w: Complex)
    requires x < y < a.Length
    modifies a
    ensures a[..] == ButterflyAt(old(a[..]), x, y, w)
  {
    var t := Mult(w, a[y]);
    var u := a[x];
    a[x] := Add(u, t);
    a[y] := Sub(u, t);
  }

  /**
   * `cur` is the block of 2h slots at k of `a0` after its first j
   * butterflies, `out` being the block's final contents: slots k + i and
   * k + h + i (i < j) hold their final value, every other slot is unchanged.
   */
  ghost predicate BlockDone(cur: seq<Complex>, a0: seq<Complex>, k: nat, h: nat, j: nat, out: seq<Complex>)
  {
    j <= h && k + 2 * h <= |a0| && |out| == 2 * h && |cur| == |a0| &&
    forall i :: 0 <= i < |cur| ==>
      cur[i] == (if k <= i < k + j || k + h <= i < k + h + j then out[i - k] else a0[i])
  }

  /**
   * Butterfly j of the block at k, with factor w, finishes slots k + j and
   * k + j + h: its results are the block's final contents there.
   */
  lemma BlockStep(cur: seq<Complex>, next: seq<Complex>, a0: seq<Complex>, k: nat, h: nat, j: nat, out: seq<Complex>, w: Complex)
    requires j < h && k + 2 * h <= |a0| && |out| == 2 * h
    requires out[j] == Add(a0[k + j], Mult(w, a0[k + j + h]))
    requires out[j + h] == Sub(a0[k + j], Mult(w, a0[k + j + h]))
    requires BlockDone(cur, a0, k, h, j, out)
    requires next == ButterflyAt(cur, k + j, k + j + h, w)
    ensures BlockDone(next, a0, k, h, j + 1, out)
  {
    assert cur[k + j] == a0[k + j] && cur[k + j + h] == a0[k + j + h];
  }

  /** Before the first butterfly nothing is done and nothing has changed. */
  lemma BlockDoneStart(a0: seq<Complex>, k: nat, h: nat, out: seq<Complex>)
    requires k + 2 * h <= |a0| && |out| == 2 * h
    ensures BlockDone(a0, a0, k, h, 0, out)
  {
  }

  /** After all h butterflies the block of m = 2h slots holds its final contents. */
  lemma BlockDoneAll(cur: seq<Complex>, a0: seq<Complex>, k: nat, m: nat, h: nat, out: seq<Complex>)
    requires m == 2 * h && k + m <= |a0| && |out| == m
    requires BlockDone(cur, a0, k, h, h, out)
    ensures cur == a0[..k] + out + a0[k + m..]
  {
    var expected := a0[..k] + out + a0[k + m..];
    assert |expected| == |cur|;
    forall i | 0 <= i < |cur|
      ensures cur[i] == expected[i]
    {
    }
  }

  /** Slots j and j + h of the finished block at k, in terms of the block's input and w_j. */
  lemma BlockOutFactorAt(a0: seq<Complex>, k: nat, m: nat, h: nat, wm: Complex, j: nat)
    requires m == 2 * h && k + m <= |a0| && j < h
    ensures BlockOut(a0[k..k + m], Factors(wm, h))[j] == Add(a0[k + j], Mult(Factor(wm, j), a0[k + j + h]))
    ensures BlockOut(a0[k..k + m], Factors(wm, h))[j + h] == Sub(a0[k + j], Mult(Factor(wm, j), a0[k + j + h]))
  {
    FactorsAt(wm, h, j);
    BlockOutAt(a0[k..k + m], Factors(wm, h), j);
  }

  /**
   * The sequence after the first j butterflies of the block of 2h slots at
   * k, butterfly i using the running factor w_i = Factor(wm, i).
   */
  ghost function BlockRun(a0: seq<Complex>, k: nat, h: nat, wm: Complex, j: nat): (r: seq<Complex>)
    requires j <= h && k + 2 * h <= |a0|
    ensures |r| == |a0|
    decreases j
  {
    if j == 0 then a0
    else ButterflyAt(BlockRun(a0, k, h, wm, j - 1), k + (j - 1), k + (j - 1) + h, Factor(wm, j - 1))
  }

  /**
   * Butterfly j with the running factor w = w_j extends the run by one;
   * the code then advances j to j' = j + 1 and w to w' = w * wm = w_j'.
   */
  lemma BlockRunNext(cur: seq<Complex>, next: seq<Complex>, a0: seq<Complex>, k: nat, h: nat, wm: Complex,
                     j: nat, j': nat, w: Complex, w': Complex)
    requires j < h && k + 2 * h <= |a0| && w == Factor(wm, j)
    requires cur == BlockRun(a0, k, h, wm, j)
    requires next == ButterflyAt(cur, k + j, k + j + h, w)
    requires j' == j + 1 && w' == Mult(w, wm)
    ensures next == BlockRun(a0, k, h, wm, j') && w' == Factor(wm, j')
  {
    assert j' - 1 == j;
  }

  /** After j butterflies the run has finished exactly slots k + i and k + h + i, i < j. */
  lemma {:induction false} BlockRunDone(a0: seq<Complex>, k: nat, m: nat, h: nat, wm: Complex, j: nat)
    requires m == 2 * h && k + m <= |a0| && j <= h
    ensures BlockDone(BlockRun(a0, k, h, wm, j), a0, k, h, j, BlockOut(a0[k..k + m], Factors(wm, h)))
  {
    if j == 0 {
      BlockDoneStart(a0, k, h, BlockOut(a0[k..k + m], Factors(wm, h)));
    } else {
      BlockRunDone(a0, k, m, h, wm, j - 1);
      BlockRunDoneStep(a0, k, m, h, wm, j - 1, j);
    }
  }

  /** One more butterfly of the run finishes one more pair of slots. */
  lemma BlockRunDoneStep(a0: seq<Complex>, k: nat, m: nat, h: nat, wm: Complex, i: nat, j: nat)
    requires m == 2 * h && k + m <= |a0| && j == i + 1 && j <= h
    requires BlockDone(BlockRun(a0, k, h, wm, i), a0, k, h, i, BlockOut(a0[k..k + m], Factors(wm, h)))
    ensures BlockDone(BlockRun(a0, k, h, wm, j), a0, k, h, j, BlockOut(a0[k..k + m], Factors(wm, h)))
  {
    var out := BlockOut(a0[k..k + m], Factors(wm, h));
    assert j - 1 == i;
    BlockOutFactorAt(a0, k, m, h, wm, i);
    BlockStep(BlockRun(a0, k, h, wm, i), BlockRun(a0, k, h, wm, j), a0, k, h, i, out, Factor(wm, i));
  }

  /** The full run of h butterflies turns the block into BlockOut and leaves the rest alone. */
  lemma BlockRunAll(a0: seq<Complex>, k: nat, m: nat, h: nat, wm: Complex)
    requires m == 2 * h && k + m <= |a0|
    ensures BlockRun(a0, k, h, wm, h) == a0[..k] + BlockOut(a0[k..k + m], Factors(wm, h)) + a0[k + m..]
  {
    BlockRunDone(a0, k, m, h, wm, h);
    BlockDoneAll(BlockRun(a0, k, h, wm, h), a0, k, m, h, BlockOut(a0[k..k + m], Factors(wm, h)));
  }

  /**
   * The `for j in 0..(m / 2)` loop over the block that starts at k, with
   * the running factor w starting at (1, 1).
   */
  method ButterflyBlock(a: array<Complex>, k: nat, m: nat, wm: Complex)
    requires m % 2 == 0 && k + m <= a.Length
    modifies a
    ensures a[..] == old(a[..])[..k] + BlockOut(old(a[..])[k..k + m], Factors(wm, m / 2)) + old(a[..])[k + m..]
  {
    ghost var a0 := a[..];
    var h := m / 2;
    assert m == 2 * h;
    var w := New(1.0, 1.0);
    var j := 0;
    while j < h
      invariant j <= h
      invariant w == Factor(wm, j)
      invariant a[..] == BlockRun(a0, k, h, wm, j)
    {
      ghost var cur := a[..];
      Butterfly(a, k + j, k + j + h, w);
      ghost var j0, w0 := j, w;
      w := Mult(w, wm);
      j := j + 1;
      BlockRunNext(cur, a[..], a0, k, h, wm, j0, j, w0, w);
    }
    BlockRunAll(a0, k, m, h, wm);
  }

  /** Cutting `done + a0[k..]` at k and next gives back its parts. */
  lemma Splice(done: seq<Complex>, a0: seq<Complex>, k: nat, next: nat)
    requires |done| == k <= next <= |a0|
    ensures (done + a0[k..])[..k] == done
    ensures (done + a0[k..])[k..next] == a0[k..next]
    ensures (done + a0[k..])[next..] == a0[next..]
  {
  }

  /** Doing the block at k of `done + a0[k..]`, where done has k slots, puts it after done. */
  lemma SpliceBlock(done: seq<Complex>, a0: seq<Complex>, k: nat, m: nat, ws: seq<Complex>, before: seq<Complex>, after: seq<Complex>)
    requires |done| == k && m == 2 * |ws| && k + m <= |a0|
    requires before == done + a0[k..]
    requires after == before[..k] + BlockOut(before[k..k + m], ws) + before[k + m..]
    ensures after == done + BlockOut(a0[k..k + m], ws) + a0[k + m..]
  {
    Splice(done, a0, k, k + m);
  }

  /** The stage output of the first k + m slots adds one block to that of the first k. */
  lemma StageOutSnoc(a0: seq<Complex>, k: nat, m: nat, ws: seq<Complex>)
    requires |ws| > 0 && m == 2 * |ws| && Tiled(k, m) && k + m <= |a0|
    ensures Tiled(k + m, m)
    ensures StageOut(a0[..k + m], ws) == StageOut(a0[..k], ws) + BlockOut(a0[k..k + m], ws)
  {
    assert Tiled(k + m, m);
    assert a0[..k + m][..k] == a0[..k] && a0[..k + m][k..] == a0[k..k + m];
  }

  /**
   * One pass of the stage loop: if the blocks before k are done and the
   * rest is untouched, doing the block at k leaves the blocks before
   * k + m done and the rest untouched.
   */
  lemma StageStep(a0: seq<Complex>, k: nat, m: nat, ws: seq<Complex>, before: seq<Complex>, after: seq<Complex>)
    requires |ws| > 0 && m == 2 * |ws| && Tiled(k, m) && k + m <= |a0|
    requires before == StageOut(a0[..k], ws) + a0[k..]
    requires after == before[..k] + BlockOut(before[k..k + m], ws) + before[k + m..]
    ensures Tiled(k + m, m)
    ensures after == StageOut(a0[..k + m], ws) + a0[k + m..]
  {
    SpliceBlock(StageOut(a0[..k], ws), a0, k, m, ws, before, after);
    StageOutSnoc(a0, k, m, ws);
  }

  /** The loop's stage state at block start x, restated at y = x. */
  lemma StageDoneAt(a0: seq<Complex>, x: nat, y: nat, m: nat, ws: seq<Complex>, after: seq<Complex>)
    requires |ws| > 0 && m == 2 * |ws| && x == y <= |a0| && Tiled(x, m)
    requires after == StageOut(a0[..x], ws) + a0[x..]
    ensures Tiled(y, m)
    ensures after == StageOut(a0[..y], ws) + a0[y..]
  {
  }

  /** StageStep, stated at the loop's next block start `next` = k + m. */
  lemma StageStepTo(a0: seq<Complex>, k: nat, next: nat, m: nat, ws: seq<Complex>, before: seq<Complex>, after: seq<Complex>)
    requires |ws| > 0 && m == 2 * |ws| && Tiled(k, m) && next == k + m <= |a0|
    requires before == StageOut(a0[..k], ws) + a0[k..]
    requires after == before[..k] + BlockOut(before[k..k + m], ws) + before[k + m..]
    ensures Tiled(next, m)
    ensures after == StageOut(a0[..next], ws) + a0[next..]
  {
    StageStep(a0, k, m, ws, before, after);
    StageDoneAt(a0, k + m, next, m, ws, after);
  }

  /** The `for k in (0..n).step_by(m)` loop of one stage. */
  method ButterflyStage(a: array<Complex>, m: nat, wm: Complex)
    requires m >= 2 && m % 2 == 0 && Tiled(a.Length, m)
    modifies a
    ensures a[..] == StageOut(old(a[..]), Factors(wm, m / 2))
  {
    ghost var a0 := a[..];
    ghost var ws := Factors(wm, m / 2);
    assert 2 * |ws| == m;
    var n := a.Length;
    var k := 0;
    assert StageOut(a0[..k], ws) == [] && a0[k..] == a0;
    while k < n
      invariant k <= n && Tiled(k, m) && Tiled(n - k, m)
      invariant a[..] == StageOut(a0[..k], ws) + a0[k..]
      decreases n - k
    {
      assert Tiled(n - (k + m), m);
      ghost var before := a[..];
      ButterflyBlock(a, k, m, wm);
      ghost var k0 := k;
      k := k + m;
      StageStepTo(a0, k0, k, m, ws, before, a[..]);
    }
    assert a0[..k] == a0;
  }

  /**
   * One pass of the outer loop of `fft` is stage s: running it and then
   * stages s + 1..p is running stages s..p.
   */
  lemma StagesStep(before: seq<Complex>, after: seq<Complex>, s: nat, p: nat, tw: Twiddle)
    requires 1 <= s <= p && |before| == Pow2(p) && Tiled(|before|, Pow2(s))
    requires Pow2(s) >= 2 && Pow2(s) % 2 == 0
    requires after == StageOut(before, Factors(tw(1, Pow2(s)), Pow2(s) / 2))
    ensures Stages(after, s + 1, p, tw) == Stages(before, s, p, tw)
  {
    assert Pow2(s) / 2 == Pow2(s - 1);
  }

  /**
   * The `while m <= n` loop of `fft` on the bit-reversed array a of n = 2^p
   * elements: stages m = 2, 4, ..., n, each with wm = twiddle(1, m). The
   * ghost `stages` counts its passes: p of them.
   */
  method FftStages(a: array<Complex>, ghost p: nat, tw: Twiddle) returns (ghost stages: nat)
    requires a.Length == Pow2(p)
    modifies a
    ensures stages == p
    ensures a[..] == Stages(old(a[..]), 1, p, tw)
  {
    ghost var a0 := a[..];
    var n := a.Length;
    var m := 2;
    stages := 0;
    while m <= n
      invariant stages <= p && m == Pow2(stages + 1)
      invariant Stages(a[..], stages + 1, p, tw) == Stages(a0, 1, p, tw)
      decreases p - stages
    {
      Pow2Monotone(stages + 1, p);
      Pow2Tiled(stages + 1, p);
      Pow2Half(stages + 1);
      var wm := tw(1, m);
      ghost var before := a[..];
      ButterflyStage(a, m, wm);
      StagesStep(before, a[..], stages + 1, p, tw);
      m := m * 2;
      stages := stages + 1;
    }
    Pow2Monotone(stages + 1, p);
  }

  /**
   * `fft`: aborts unless the length is a power of two; otherwise bit-reverse
   * copies the signal and runs the stages in place. The `i as u32` cast of
   * the bit-reversal copy is exact only for n <= 2^32, which the requires
   * states for the lengths that get past the assertion.
   */
  method Fft(signal: seq<Complex>, tw: Twiddle) returns (result: Outcome<seq<Complex>>, ghost stages: nat)
    requires IsPowOfTwo(|signal|) ==> |signal| <= U32_LIMIT
    ensures result.Panic? <==> !IsPowOfTwo(|signal|)
    ensures result.Panic? ==> result.message == NOT_POW_OF_TWO
    ensures result.Ok? ==> |result.value| == |signal| && Pow2(stages) == |signal|
    ensures result.Ok? ==> result.value == FftSpec(signal, tw)
  {
    var n := |signal|;
    if !IsPowOfTwo(n) {
      return Panic(NOT_POW_OF_TWO), 0;
    }
    IsPowOfTwoIffPow2(n);
    var a := BitReverseCopy(signal);
    stages := FftStages(a, TrailingZeros(n), tw);
    result := Ok(a[..]);
  }

  // ---------------------------------------------------------------------
  // Properties of the fast transform as written
  // ---------------------------------------------------------------------

  /**
   * Every index a butterfly of stage s touches is in bounds: for a block
   * start k below n = 2^p that is a multiple of m = 2^s (1 <= s <= p) and
   * j < m / 2, k + j < k + j + m / 2 < n.
   */
  lemma ButterflyIndicesInBounds(p: nat, s: nat, k: nat, j: nat)
    requires 1 <= s <= p && Tiled(k, Pow2(s)) && k < Pow2(p) && j < Pow2(s) / 2
    ensures k + j < k + j + Pow2(s) / 2 < Pow2(p)
  {
    Pow2Tiled(s, p);
    TiledBlockFits(k, Pow2(p), Pow2(s));
  }

  /** For n = 1 there is no stage: the output is the input. */
  lemma FftOfOne(x: Complex, tw: Twiddle)
    ensures IsPowOfTwo(1) && FftSpec([x], tw) == [x]
  {
    IsPowOfTwoExamples();
    BitReversedExamples(x, x, x, x, x);
  }

  /** The one block of a length-2 stage with factor w. */
  lemma StageOutOfTwo(x0: Complex, x1: Complex, w: Complex)
    ensures Tiled(2, 2)
    ensures StageOut([x0, x1], [w]) == [Add(x0, Mult(w, x1)), Sub(x0, Mult(w, x1))]
  {
    assert Tiled(2, 2) by {
      assert Tiled(0, 2);
    }
    var b := [x0, x1];
    assert b[..0] == [] && b[0..] == b;
    assert StageOut(b, [w]) == BlockOut(b, [w]);
    BlockOutAt(b, [w], 0);
  }

  /** For n = 2 the single butterfly uses the factor (1, 1), not 1. */
  lemma FftOfTwo(x0: Complex, x1: Complex, tw: Twiddle)
    ensures IsPowOfTwo(2)
    ensures FftSpec([x0, x1], tw) == [Add(x0, Mult(New(1.0, 1.0), x1)), Sub(x0, Mult(New(1.0, 1.0), x1))]
  {
    IsPowOfTwoIffPow2(2);
    assert TrailingZeros(2) == 1;
    assert Reverse(1, 1) == 1;
    assert BitReversed([x0, x1]) == [x0, x1];
    var w := New(1.0, 1.0);
    assert Factors(tw(1, 2), 1) == [w];
    StageOutOfTwo(x0, x1, w);
    var s := StageOut([x0, x1], [w]);
    assert Stages([x0, x1], 1, 1, tw) == Stages(s, 2, 1, tw);
  }

  /** Bin 0 of the direct transform of [x0, x1] is (x0 + x1) * twiddle(0, 2), summed left to right. */
  lemma DftOfTwoAtZero(x0: Complex, x1: Complex, tw: Twiddle)
    ensures DftSum([x0, x1], 0, 2, tw) == Add(Add(Zero(), Mult(x0, tw(0, 2))), Mult(x1, tw(0, 2)))
  {
    var x := [x0, x1];
    assert DftSum(x, 0, 1, tw) == Add(Zero(), Mult(x0, tw(0, 2)));
  }

  /**
   * The fast transform as written is not the direct transform: with the
   * exact twiddle value twiddle(0, 2) = 1, bin 0 of [x0, x1] is x0 + x1 for
   * the DFT but x0 + (1, 1) * x1 for the FFT, and the two differ whenever
   * x1 is not zero. For [0, 1] the bins are 1 and (1, 1).
   */
  lemma FftIsNotDft(x0: Complex, x1: Complex, tw: Twiddle)
    requires tw(0, 2) == One()
    ensures IsPowOfTwo(2)
    ensures DftSum([x0, x1], 0, 2, tw) == Add(x0, x1)
    ensures FftSpec([x0, x1], tw)[0] == Add(x0, Mult(New(1.0, 1.0), x1))
    ensures x1 != Zero() ==> FftSpec([x0, x1], tw)[0] != DftSum([x0, x1], 0, 2, tw)
  {
    DftOfTwoAtZero(x0, x1, tw);
    MultByOne(x0);
    MultByOne(x1);
    assert Add(Zero(), x0) == x0;
    FftOfTwo(x0, x1, tw);
    FactorOneOneChangesSum(x0, x1);
  }
}
