/**
 * The Frequency Response Assurance Criterion of the validation metrics:
 * |<a, b>|^2 / (<a, a> <b, b>) over complex signals, with the inner product
 * conjugate-linear in its first argument (numpy's `vdot`). It is reported as
 * unavailable when either self inner product has a real part <= 0.
 *
 * Complex numbers are pairs of reals; |z|^2 is taken as re^2 + im^2 exactly.
 */
module Frac {
  import opened Results

  datatype Complex = Complex(re: real, im: real)

  const Zero: Complex := Complex(0.0, 0.0)

  function Conj(z: Complex): Complex {
    Complex(z.re, -z.im)
  }

  function Add(z: Complex, w: Complex): Complex {
    Complex(z.re + w.re, z.im + w.im)
  }

  function Mul(z: Complex, w: Complex): Complex {
    Complex(z.re * w.re - z.im * w.im, z.re * w.im + z.im * w.re)
  }

  /** The square of a real: never negative, and positive away from zero. */
  function Sq(x: real): (r: real)
    ensures r >= 0.0
    ensures x != 0.0 ==> r > 0.0
  {
    if x == 0.0 then 0.0
    else
      assert (x * x) / x == x;
      x * x
  }

  /** The squared modulus. */
  function AbsSq(z: Complex): real {
    Sq(z.re) + Sq(z.im)
  }

  /** numpy's `vdot(a, b)`: the sum of conj(a[k]) * b[k]. */
  function VDot(a: seq<Complex>, b: seq<Complex>): Complex
    requires |a| == |b|
  {
    if |a| == 0 then Zero else Add(Mul(Conj(a[0]), b[0]), VDot(a[1..], b[1..]))
  }

  /** The energy of a signal: the sum of the squared moduli. */
  function Energy(a: seq<Complex>): (e: real)
    ensures e >= 0.0
  {
    if |a| == 0 then 0.0 else AbsSq(a[0]) + Energy(a[1..])
  }

  predicate AllZero(a: seq<Complex>) {
    forall k :: 0 <= k < |a| ==> a[k] == Zero
  }

  /** The FRAC value, or `None` when it is unavailable. */
  function Frac(a: seq<Complex>, b: seq<Complex>): (r: Option<real>)
    requires |a| == |b|
  {
    var num := AbsSq(VDot(a, b));
    var da := VDot(a, a).re;
    var db := VDot(b, b).re;
    Ratio(num, da, db)
  }

  /** The normalised value: available only when both energies are positive. */
  function Ratio(num: real, da: real, db: real): Option<real> {
    if da > 0.0 && db > 0.0 then Some(num / (da * db)) else None
  }

  /* ------------------------- real arithmetic ------------------------- */

  lemma PosPos(x: real, y: real)
    requires x > 0.0 && y > 0.0
    ensures x * y > 0.0
  {
  }

  lemma DivNonNeg(n: real, d: real)
    requires n >= 0.0 && d > 0.0
    ensures n / d >= 0.0
  {
  }

  lemma DivSelf(x: real)
    requires x > 0.0
    ensures x / x == 1.0
  {
  }

  /* ------------------------------ lemmas ------------------------------ */

  /** The squared modulus is never negative and is positive away from zero. */
  lemma AbsSqPositive(z: Complex)
    ensures AbsSq(z) >= 0.0
    ensures z != Zero ==> AbsSq(z) > 0.0
  {
    if z != Zero {
      assert z.re != 0.0 || z.im != 0.0;
    }
  }

  /** A signal's inner product with itself is real and equals its energy. */
  lemma {:induction false} VDotSelf(a: seq<Complex>)
    ensures VDot(a, a) == Complex(Energy(a), 0.0)
  {
    if |a| > 0 {
      VDotSelf(a[1..]);
      var z := a[0];
      assert Mul(Conj(z), z) == Complex(AbsSq(z), 0.0);
    }
  }

  /** A signal is all zero when its first sample and the rest are. */
  lemma AllZeroCons(a: seq<Complex>)
    requires |a| > 0
    ensures AllZero(a) <==> a[0] == Zero && AllZero(a[1..])
  {
    if a[0] == Zero && AllZero(a[1..]) {
      forall k | 0 <= k < |a|
        ensures a[k] == Zero
      {
        if k > 0 {
          assert a[k] == a[1..][k - 1];
        }
      }
    }
  }

  /** The energy is positive exactly when some sample is non-zero. */
  lemma {:induction false} EnergyPositive(a: seq<Complex>)
    ensures Energy(a) > 0.0 <==> !AllZero(a)
  {
    if |a| > 0 {
      EnergyPositive(a[1..]);
      AllZeroCons(a);
      AbsSqPositive(a[0]);
    }
  }

  /** FRAC is unavailable exactly when one of the signals is all zero. */
  lemma FracUnavailable(a: seq<Complex>, b: seq<Complex>)
    requires |a| == |b|
    ensures Frac(a, b).None? <==> AllZero(a) || AllZero(b)
  {
    VDotSelf(a);
    VDotSelf(b);
    EnergyPositive(a);
    EnergyPositive(b);
  }

  lemma RatioNonNegative(num: real, da: real, db: real)
    requires num >= 0.0
    ensures Ratio(num, da, db).Some? ==> Ratio(num, da, db).value >= 0.0
  {
    if da > 0.0 && db > 0.0 {
      PosPos(da, db);
      DivNonNeg(num, da * db);
    }
  }

  /** An available FRAC is never negative. */
  lemma FracNonNegative(a: seq<Complex>, b: seq<Complex>)
    requires |a| == |b| && Frac(a, b).Some?
    ensures Frac(a, b).value >= 0.0
  {
    RatioNonNegative(AbsSq(VDot(a, b)), VDot(a, a).re, VDot(b, b).re);
  }

  /** A non-zero signal compared with itself has FRAC 1. */
  lemma FracIdentity(a: seq<Complex>)
    requires !AllZero(a)
    ensures Frac(a, a) == Some(1.0)
  {
    VDotSelf(a);
    EnergyPositive(a);
    var e := Energy(a);
    assert Frac(a, a) == Ratio(Sq(e) + Sq(0.0), e, e);
    assert Sq(e) == e * e;
    DivSelf(Sq(e));
  }

  lemma MulConjSwap(x: Complex, y: Complex)
    ensures Mul(Conj(y), x) == Conj(Mul(Conj(x), y))
  {
  }

  lemma ConjAdd(u: Complex, v: Complex)
    ensures Add(Conj(u), Conj(v)) == Conj(Add(u, v))
  {
  }

  /** Swapping the arguments conjugates the inner product. */
  lemma {:induction false} VDotSwap(a: seq<Complex>, b: seq<Complex>)
    requires |a| == |b|
    ensures VDot(b, a) == Conj(VDot(a, b))
  {
    if |a| > 0 {
      VDotSwap(a[1..], b[1..]);
      MulConjSwap(a[0], b[0]);
      ConjAdd(Mul(Conj(a[0]), b[0]), VDot(a[1..], b[1..]));
    }
  }

  lemma SqNeg(x: real)
    ensures Sq(-x) == Sq(x)
  {
    if x != 0.0 {
      assert (-x) * (-x) == x * x;
    }
  }

  /** Conjugation keeps the modulus. */
  lemma AbsSqConj(z: Complex)
    ensures AbsSq(Conj(z)) == AbsSq(z)
  {
    SqNeg(z.im);
  }

  /** The normalisation treats the two energies alike. */
  lemma RatioSwap(num: real, da: real, db: real)
    ensures Ratio(num, da, db) == Ratio(num, db, da)
  {
    assert da * db == db * da;
  }

  /** FRAC does not depend on which signal is the reference. */
  lemma FracSymmetric(a: seq<Complex>, b: seq<Complex>)
    requires |a| == |b|
    ensures Frac(a, b) == Frac(b, a)
  {
    VDotSwap(a, b);
    var z := VDot(a, b);
    AbsSqConj(z);
    RatioSwap(AbsSq(z), VDot(a, a).re, VDot(b, b).re);
    assert Frac(b, a) == Ratio(AbsSq(Conj(z)), VDot(b, b).re, VDot(a, a).re);
  }
}
