/** IEEE doubles and `std::complex<double>` as far as the correlation code
    observes them: a value is either finite or not (an infinity or NaN), and
    arithmetic on finite values overflows to a non-finite one. Rounding is not
    modelled: a finite result is the exact real result. */
module Floats {

  datatype Float = Finite(value: real) | NonFinite

  datatype Complex = Complex(re: Float, im: Float)

  function Pow2Real(k: nat): (p: real)
    ensures p >= 1.0
  {
    if k == 0 then 1.0 else 2.0 * Pow2Real(k - 1)
  }

  /** DBL_MAX = (2 - 2^-52) * 2^1023. */
  function MaxDouble(): (m: real)
    ensures m > 0.0
  {
    (2.0 - 1.0 / Pow2Real(52)) * Pow2Real(1023)
  }

  /** The double nearest to an exact result, ignoring rounding: the result
      itself when it is within range, an infinity otherwise. */
  function Fit(x: real): (f: Float)
    ensures f.Finite? <==> -MaxDouble() <= x <= MaxDouble()
    ensures f.Finite? ==> f.value == x
  {
    if -MaxDouble() <= x <= MaxDouble() then Finite(x) else NonFinite
  }

  /** Arithmetic with a non-finite operand is non-finite. */
  function Add(a: Float, b: Float): Float
  {
    if a.Finite? && b.Finite? then Fit(a.value + b.value) else NonFinite
  }

  function Sub(a: Float, b: Float): Float
  {
    if a.Finite? && b.Finite? then Fit(a.value - b.value) else NonFinite
  }

  function Mul(a: Float, b: Float): Float
  {
    if a.Finite? && b.Finite? then Fit(a.value * b.value) else NonFinite
  }

  function Neg(a: Float): (n: Float)
    ensures n.Finite? <==> a.Finite?
  {
    if a.Finite? then Finite(-a.value) else NonFinite
  }

  /** `fabs`. */
  function Abs(a: Float): (n: Float)
    ensures n.Finite? <==> a.Finite?
    ensures n.Finite? ==> n.value >= 0.0 && (n.value == a.value || n.value == -a.value)
  {
    if a.Finite? then Finite(if a.value < 0.0 then -a.value else a.value) else NonFinite
  }

  /** `isfinite` of a complex number: both parts are finite. */
  predicate IsFiniteComplex(z: Complex)
  {
    z.re.Finite? && z.im.Finite?
  }

  /** Complex multiplication (a + bi)(c + di) = (ac - bd) + (ad + bc)i. */
  function CMul(x: Complex, y: Complex): Complex
  {
    Complex(Sub(Mul(x.re, y.re), Mul(x.im, y.im)), Add(Mul(x.re, y.im), Mul(x.im, y.re)))
  }

  /** The complex conjugate, as written by negating the imaginary part. */
  function Conj(z: Complex): Complex
  {
    Complex(z.re, Neg(z.im))
  }

  const ZeroC := Complex(Finite(0.0), Finite(0.0))

  predicate AllFinite(s: seq<Float>)
  {
    forall i :: 0 <= i < |s| ==> s[i].Finite?
  }

  predicate AllFiniteComplex(s: seq<Complex>)
  {
    forall i :: 0 <= i < |s| ==> IsFiniteComplex(s[i])
  }
}
