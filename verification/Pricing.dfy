/** Comparing prices, as controller/ratio_sync.go does. Floats are modelled as reals. */
module Pricing {

  const EPSILON := 0.000000001

  predicate NearlyEqual(a: real, b: real) {
    if a > b then a - b < EPSILON else b - a < EPSILON
  }

  /** Two prices are nearly equal exactly when they are less than a billionth apart. */
  lemma NearlyEqualMeans(a: real, b: real)
    ensures NearlyEqual(a, b) <==> b - 0.000000001 < a < b + 0.000000001
  {
  }
}
