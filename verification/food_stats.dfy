/** The body-size / hunger-rate balance of a hybrid (`GetFoodStats`).
    A race's "gamma" is its body size over its hunger rate: how long it takes
    to get hungry. The hybrid's gamma and body size are interpolated between
    the animal's and the human's with a weight that shrinks as the two gammas
    drift apart, and the hunger rate is then chosen so that the hybrid's own
    ratio is exactly the interpolated gamma. */
module FoodStats {
  import opened RaceTypes
  import opened MergeAlgebra

  predicate HasPositiveMetabolism(p: RaceProperties)
  {
    p.baseBodySize > 0.0 && p.baseHungerRate > 0.0
  }

  function Gamma(p: RaceProperties): (g: real)
    requires HasPositiveMetabolism(p)
    ensures g > 0.0
  {
    p.baseBodySize / p.baseHungerRate
  }

  /** The argument of the square root: |(gammaA - gammaH) / gammaH|. */
  function GammaDeviation(human: RaceProperties, animal: RaceProperties): (d: real)
    requires HasPositiveMetabolism(human) && HasPositiveMetabolism(animal)
    ensures d >= 0.0
    ensures d == 0.0 <==> Gamma(animal) == Gamma(human)
  {
    var q := (Gamma(animal) - Gamma(human)) / Gamma(human);
    assert q == 0.0 <==> Gamma(animal) == Gamma(human);
    Abs(q)
  }

  /** What the floating-point `Mathf.Pow(d, 0.5f)` is relied on to return:
      a non-negative value that is zero exactly when `d` is. */
  predicate IsRootOf(f: real, d: real)
  {
    f >= 0.0 && (f == 0.0 <==> d == 0.0)
  }

  /** The interpolation weight `a = 1 / (1 + f)` given to the human side. */
  function BalanceWeight(f: real): (a: real)
    requires f >= 0.0
    ensures 0.0 < a <= 1.0
    ensures a == 1.0 <==> f == 0.0
  {
    1.0 / (1.0 + f)
  }

  datatype FoodStatPair = FoodStatPair(bodySize: real, hungerRate: real)

  /** `GetFoodStats(human, animal)`, with `f` the square root the source takes. */
  function GetFoodStats(human: RaceProperties, animal: RaceProperties, f: real): (r: FoodStatPair)
    requires HasPositiveMetabolism(human) && HasPositiveMetabolism(animal)
    requires IsRootOf(f, GammaDeviation(human, animal))
    ensures r.bodySize > 0.0 && r.hungerRate > 0.0
    ensures Between(r.bodySize, animal.baseBodySize, human.baseBodySize)
    ensures Between(r.bodySize / r.hungerRate, Gamma(animal), Gamma(human))
    ensures r.bodySize / r.hungerRate == Lerp(Gamma(animal), Gamma(human), BalanceWeight(f))
    ensures Gamma(animal) == Gamma(human) ==> r == FoodStatPair(human.baseBodySize, human.baseHungerRate)
  {
    var gammaH := Gamma(human);
    var gammaA := Gamma(animal);
    var a := BalanceWeight(f);
    var hGamma := Lerp(gammaA, gammaH, a);
    var hBSize := Lerp(animal.baseBodySize, human.baseBodySize, a);
    RatioRoundTrip(hBSize, hGamma);
    RatioRoundTrip(human.baseBodySize, human.baseHungerRate);
    FoodStatPair(hBSize, hBSize / hGamma)
  }

  /** Dividing by a quotient undoes it: s / (s / g) == g. */
  lemma RatioRoundTrip(s: real, g: real)
    requires s > 0.0 && g > 0.0
    ensures s / g > 0.0
    ensures s / (s / g) == g
  {
    var q := s / g;
    assert q * g == s;
    assert s / q == g;
  }

  /** A worked example: human 1.0 / 1.0, animal 4.0 / 2.0,
      so f = sqrt(1) = 1, a = 1/2, hybrid gamma 1.5, hybrid size 2.5. */
  lemma FoodStatsExample(human: RaceProperties, animal: RaceProperties)
    requires human.baseBodySize == 1.0 && human.baseHungerRate == 1.0
    requires animal.baseBodySize == 4.0 && animal.baseHungerRate == 2.0
    ensures HasPositiveMetabolism(human) && HasPositiveMetabolism(animal)
    ensures GammaDeviation(human, animal) == 1.0
    ensures GetFoodStats(human, animal, 1.0) == FoodStatPair(2.5, 2.5 / 1.5)
  {
  }
}
