/**
 * The verbal ratings the validation report attaches to R² and to FRAC: the
 * same three strict thresholds, 0.95, 0.85 and 0.70, compared from the top;
 * a FRAC that could not be computed gets no rating at all.
 */
module Ratings {
  import opened Results
  import Frac

  datatype Band = Excellent | Good | Moderate | Poor

  const ExcellentAbove: real := 0.95
  const GoodAbove: real := 0.85
  const ModerateAbove: real := 0.70

  /** The band of a score; each threshold is exclusive. */
  function Rate(x: real): (b: Band)
    ensures b == Excellent <==> x > ExcellentAbove
    ensures b == Good <==> GoodAbove < x <= ExcellentAbove
    ensures b == Moderate <==> ModerateAbove < x <= GoodAbove
    ensures b == Poor <==> x <= ModerateAbove
  {
    if x > ExcellentAbove then Excellent
    else if x > GoodAbove then Good
    else if x > ModerateAbove then Moderate
    else Poor
  }

  /** Bands ordered from worst to best. */
  function Rank(b: Band): nat {
    match b
    case Poor => 0
    case Moderate => 1
    case Good => 2
    case Excellent => 3
  }

  /** A higher score never gets a worse band. */
  lemma RateMonotone(x: real, y: real)
    requires x <= y
    ensures Rank(Rate(x)) <= Rank(Rate(y))
  {
  }

  /** The threshold values themselves fall into the band below. */
  lemma ThresholdsExclusive()
    ensures Rate(ExcellentAbove) == Good
    ensures Rate(GoodAbove) == Moderate
    ensures Rate(ModerateAbove) == Poor
    ensures Rate(1.0) == Excellent
  {
  }

  /** What the report says about FRAC. */
  datatype FracVerdict = Unavailable | Rated(band: Band)

  function RateFrac(frac: Option<real>): (v: FracVerdict)
    ensures v == Unavailable <==> frac.None?
    ensures frac.Some? ==> v == Rated(Rate(frac.value))
  {
    match frac
    case None => Unavailable
    case Some(x) => Rated(Rate(x))
  }

  /** The report cannot rate FRAC exactly when one of the two signals is all zero. */
  lemma VerdictUnavailable(a: seq<Frac.Complex>, b: seq<Frac.Complex>)
    requires |a| == |b|
    ensures RateFrac(Frac.Frac(a, b)) == Unavailable <==> Frac.AllZero(a) || Frac.AllZero(b)
  {
    Frac.FracUnavailable(a, b);
  }

  /** A non-zero signal compared with itself is rated excellent. */
  lemma VerdictIdentity(a: seq<Frac.Complex>)
    requires !Frac.AllZero(a)
    ensures RateFrac(Frac.Frac(a, a)) == Rated(Excellent)
  {
    Frac.FracIdentity(a);
  }
}
