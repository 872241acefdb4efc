// The complex value type of the crate (src/types.rs).
// Components are idealised as `real`: IEEE-754 rounding and NaN/Inf
// propagation are not modelled.

module Types {

  /** A complex number; every operation builds a fresh value. */
  datatype Complex = Complex(re: real, im: real)

  /** `Complex::new`: the zero-cost constructor. */
  function New(re: real, im: real): Complex
  {
    Complex(re, im)
  }

  /** The value every output buffer is filled with before it is written. */
  function Zero(): Complex
  {
    New(0.0, 0.0)
  }

  /** The multiplicative identity (1, 0). */
  function One(): Complex
  {
    New(1.0, 0.0)
  }

  function Add(a: Complex, b: Complex): Complex
  {
    Complex(a.re + b.re, a.im + b.im)
  }

  function Sub(a: Complex, b: Complex): Complex
  {
    Complex(a.re - b.re, a.im - b.im)
  }

  function Mult(a: Complex, b: Complex): Complex
  {
    Complex(a.re * b.re - a.im * b.im, a.re * b.im + a.im * b.re)
  }

  function Scale(c: Complex, s: real): Complex
  {
    Complex(c.re * s, c.im * s)
  }

  function Conj(c: Complex): Complex
  {
    Complex(c.re, -c.im)
  }

  lemma NewStoresComponents(re: real, im: real)
    ensures New(re, im).re == re && New(re, im).im == im
  {
  }

  lemma AddComponentwise(a: Complex, b: Complex)
    ensures Add(a, b).re == a.re + b.re && Add(a, b).im == a.im + b.im
    ensures Add(a, b) == Add(b, a)
    ensures Add(a, Zero()) == a
  {
  }

  lemma AddAssociative(a: Complex, b: Complex, c: Complex)
    ensures Add(Add(a, b), c) == Add(a, Add(b, c))
  {
  }

  lemma AddInterchange(a: Complex, b: Complex, c: Complex, d: Complex)
    ensures Add(Add(a, b), Add(c, d)) == Add(Add(a, c), Add(b, d))
  {
  }

  /** Subtraction undoes addition exactly over the reals. */
  lemma SubUndoesAdd(a: Complex, b: Complex)
    ensures Sub(a, b).re == a.re - b.re && Sub(a, b).im == a.im - b.im
    ensures Sub(Add(a, b), b) == a
  {
  }

  lemma MultByOne(c: Complex)
    ensures Mult(c, One()) == c && Mult(One(), c) == c
  {
  }

  /** (1, 1) is not a multiplicative identity: it rotates and stretches. */
  lemma MultByOneOneIsNotIdentity(c: Complex)
    ensures Mult(New(1.0, 1.0), c) == Complex(c.re - c.im, c.re + c.im)
    ensures Mult(New(1.0, 1.0), One()) != One()
  {
  }

  /** Adding x0 is injective. */
  lemma AddCancel(x0: Complex, y: Complex, x1: Complex)
    ensures Add(x0, y) == Add(x0, x1) <==> y == x1
  {
    if Add(x0, y) == Add(x0, x1) {
      assert y.re == Add(x0, y).re - x0.re;
      assert y.im == Add(x0, y).im - x0.im;
    }
  }

  /** (x.re - x.im, x.re + x.im) is x only for x = 0. */
  lemma SumDiffFixesOnlyZero(x: Complex, y: Complex)
    requires y == Complex(x.re - x.im, x.re + x.im)
    ensures y == x <==> x == Zero()
  {
  }

  /** Multiplying by (1, 1) leaves x unchanged only for x = 0. */
  lemma MultOneOneFixesOnlyZero(x: Complex)
    ensures Mult(New(1.0, 1.0), x) == x <==> x == Zero()
  {
    MultByOneOneIsNotIdentity(x);
    SumDiffFixesOnlyZero(x, Mult(New(1.0, 1.0), x));
  }

  /** x0 + (1, 1) * x1 differs from x0 + x1 whenever x1 is not zero. */
  lemma FactorOneOneChangesSum(x0: Complex, x1: Complex)
    ensures x1 != Zero() ==> Add(x0, Mult(New(1.0, 1.0), x1)) != Add(x0, x1)
  {
    var y := Mult(New(1.0, 1.0), x1);
    MultByOneOneIsNotIdentity(x1);
    AddCancel(x0, y, x1);
    MultOneOneFixesOnlyZero(x1);
  }

  lemma MultCommutative(a: Complex, b: Complex)
    ensures Mult(a, b) == Mult(b, a)
  {
  }

  lemma MultAssociative(a: Complex, b: Complex, c: Complex)
    ensures Mult(Mult(a, b), c) == Mult(a, Mult(b, c))
  {
  }

  lemma MultDistributesOverAdd(a: Complex, b: Complex, w: Complex)
    ensures Mult(Add(a, b), w) == Add(Mult(a, w), Mult(b, w))
  {
  }

  lemma MultZero(w: Complex)
    ensures Mult(Zero(), w) == Zero()
  {
  }

  /** Adding one more copy of c to s copies gives s + 1 copies. */
  lemma ScaleAddOne(c: Complex, s: real)
    ensures Add(Scale(c, s), c) == Scale(c, s + 1.0)
  {
    assert c.re * (s + 1.0) == c.re * s + c.re;
    assert c.im * (s + 1.0) == c.im * s + c.im;
  }

  lemma ScaleComponentwise(c: Complex, s: real)
    ensures Scale(c, s).re == c.re * s && Scale(c, s).im == c.im * s
    ensures Scale(c, 1.0) == c
    ensures Scale(c, 0.0) == Zero()
  {
  }

  lemma ConjInvolution(c: Complex)
    ensures Conj(c).re == c.re && Conj(c).im == -c.im
    ensures Conj(Conj(c)) == c
  {
  }
}
