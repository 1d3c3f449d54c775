/** Exact scalar arithmetic shared by every kernel: real numbers, and complex
    numbers over the reals with conjugate and real part. Floating-point
    rounding is not modelled. */
module Scalars {

  datatype Complex = Complex(re: real, im: real)

  const Zero: Complex := Complex(0.0, 0.0)
  const One: Complex := Complex(1.0, 0.0)

  /** A real number seen as a complex number (the conversion `T(x)`). */
  function OfReal(x: real): Complex
  {
    Complex(x, 0.0)
  }

  function Conj(z: Complex): Complex
  {
    Complex(z.re, -z.im)
  }

  function Add(a: Complex, b: Complex): Complex
  {
    Complex(a.re + b.re, a.im + b.im)
  }

  function Mul(a: Complex, b: Complex): Complex
  {
    Complex(a.re * b.re - a.im * b.im, a.re * b.im + a.im * b.re)
  }

  /** A real scalar times a complex one (`beta * z` with a real beta). */
  function Scale(r: real, z: Complex): Complex
  {
    Complex(r * z.re, r * z.im)
  }

  /** `z += r` with a real right-hand side: only the real part moves. */
  function AddReal(z: Complex, r: real): Complex
  {
    Complex(z.re + r, z.im)
  }

  predicate IsReal(z: Complex)
  {
    z.im == 0.0
  }

  // Algebraic facts used by the proofs; each is a polynomial identity.

  lemma ConjConj(z: Complex)
    ensures Conj(Conj(z)) == z
  {
  }

  lemma ConjOfMul(a: Complex, b: Complex)
    ensures Conj(Mul(a, b)) == Mul(Conj(a), Conj(b))
  {
  }

  lemma ConjOfAdd(a: Complex, b: Complex)
    ensures Conj(Add(a, b)) == Add(Conj(a), Conj(b))
  {
  }

  lemma MulComm(a: Complex, b: Complex)
    ensures Mul(a, b) == Mul(b, a)
  {
  }

  lemma MulAssoc(a: Complex, b: Complex, c: Complex)
    ensures Mul(Mul(a, b), c) == Mul(a, Mul(b, c))
  {
  }

  lemma MulDistributes(a: Complex, b: Complex, c: Complex)
    ensures Mul(a, Add(b, c)) == Add(Mul(a, b), Mul(a, c))
  {
  }

  lemma ConjOfScale(r: real, z: Complex)
    ensures Conj(Scale(r, z)) == Scale(r, Conj(z))
  {
  }

  /** z + conj(z) is the real number 2 re(z). */
  lemma AddConjIsReal(z: Complex)
    ensures Add(z, Conj(z)) == OfReal(2.0 * z.re)
  {
  }

  lemma ConjOfReal(z: Complex)
    requires IsReal(z)
    ensures Conj(z) == z
  {
  }
}
