/** Exact complex numbers over Dafny's `real`, standing in for the
    `std::complex<double>` coefficients of the operator layer. Only the
    ring operations and the powers of i are needed. */
module ComplexNum {

  datatype Complex = Complex(re: real, im: real)

  const Zero := Complex(0.0, 0.0)
  const One := Complex(1.0, 0.0)
  const ImagUnit := Complex(0.0, 1.0)

  function FromReal(x: real): Complex { Complex(x, 0.0) }

  function Add(a: Complex, b: Complex): Complex {
    Complex(a.re + b.re, a.im + b.im)
  }

  function Neg(a: Complex): Complex {
    Complex(-a.re, -a.im)
  }

  function Mul(a: Complex, b: Complex): Complex {
    Complex(a.re * b.re - a.im * b.im, a.re * b.im + a.im * b.re)
  }

  function Conj(a: Complex): Complex {
    Complex(a.re, -a.im)
  }

  /** i^p for a phase p in 0..3, written with literal components. */
  function PhaseFactor(p: nat): (r: Complex)
    requires p < 4
    ensures r == One || r == ImagUnit || r == Neg(One) || r == Neg(ImagUnit)
  {
    if p == 0 then Complex(1.0, 0.0)
    else if p == 1 then Complex(0.0, 1.0)
    else if p == 2 then Complex(-1.0, 0.0)
    else Complex(0.0, -1.0)
  }

  /** Multiplication by i^p as a quarter-turn rotation: i·(a + bi) = −b + ai. */
  function Rotate(p: nat, x: Complex): Complex
    requires p < 4
  {
    if p == 0 then x
    else if p == 1 then Complex(-x.im, x.re)
    else if p == 2 then Complex(-x.re, -x.im)
    else Complex(x.im, -x.re)
  }

  lemma RotateIsMul(p: nat, x: Complex)
    requires p < 4
    ensures Rotate(p, x) == Mul(PhaseFactor(p), x)
  {
  }

  /** Powers of i multiply by adding exponents modulo 4. */
  lemma PhaseFactorMul(j: nat, k: nat)
    requires j < 4 && k < 4
    ensures Mul(PhaseFactor(j), PhaseFactor(k)) == PhaseFactor((j + k) % 4)
  {
    RotateIsMul(j, PhaseFactor(k));
    RotatePhase(j, k);
  }

  lemma RotatePhase(j: nat, k: nat)
    requires j < 4 && k < 4
    ensures Rotate(j, PhaseFactor(k)) == PhaseFactor((j + k) % 4)
  {
  }

  lemma AddAssoc(a: Complex, b: Complex, c: Complex)
    ensures Add(Add(a, b), c) == Add(a, Add(b, c))
  {
  }

  lemma MulOneLeft(a: Complex)
    ensures Mul(One, a) == a
  {
  }

  lemma MulAssoc(a: Complex, b: Complex, c: Complex)
    ensures Mul(Mul(a, b), c) == Mul(a, Mul(b, c))
  {
  }

  lemma MulComm(a: Complex, b: Complex)
    ensures Mul(a, b) == Mul(b, a)
  {
  }
}
