/** Go's float64 as its comparison operators see it.

    A value is finite (an exact real: rounding is not modelled, and the two
    signed zeros are the same value), one of the two infinities, or NaN.
    `strconv.ParseFloat` accepts "NaN", "Inf" and "-Inf", and the haversine
    formula yields NaN for out-of-range input, so all four kinds can reach
    the proximity test. */
module Float64 {

  datatype Float = Finite(v: real) | PosInf | NegInf | NaN

  /** Go's `x <= y` on float64 (IEEE 754): false whenever either side is NaN. */
  predicate Le(x: Float, y: Float)
  {
    if x.NaN? || y.NaN? then false
    else if x.NegInf? || y.PosInf? then true
    else if x.PosInf? || y.NegInf? then false
    else x.v <= y.v
  }

  /** Strictly below zero: minus infinity or a negative finite value. */
  predicate IsNegative(x: Float)
  {
    x.NegInf? || (x.Finite? && x.v < 0.0)
  }

  /** `<=` is reflexive on every value but NaN. */
  lemma LeReflexive(x: Float)
    ensures Le(x, x) <==> !x.NaN?
  {
  }

  /** `<=` is transitive; a chain through NaN never holds. */
  lemma LeTransitive(x: Float, y: Float, z: Float)
    requires Le(x, y) && Le(y, z)
    ensures Le(x, z)
  {
  }
}
