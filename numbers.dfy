/**
 * Numbers as the valuation engine sees them: amounts are exact reals,
 * a float division by zero inside a dataframe yields a non-finite value
 * (polars does not raise), and every rounding step is an opaque function
 * supplied by the caller.
 */
module Numbers {

  /** A dataframe float: a finite value, or inf/-inf/NaN. */
  datatype Float = Finite(value: real) | NonFinite

  /**
   * The rounding functions the engine calls, kept opaque so that no proof
   * depends on how ties are broken: `places(x, d)` is `round(x, d)` (Python)
   * or `.round(d)` (polars), `whole(x)` is Python's `round(x)`.
   */
  datatype Rounding = Rounding(places: (real, nat) -> real, whole: real -> int)

  /** Element-wise float division of a dataframe column by a scalar. */
  function Divide(x: real, y: real): (r: Float)
    ensures r.NonFinite? <==> y == 0.0
    ensures r.Finite? ==> r.value * y == x
  {
    if y == 0.0 then NonFinite else Finite(x / y)
  }

  /** Float multiplication: a non-finite factor makes a non-finite product. */
  function Times(x: Float, y: Float): (r: Float)
    ensures r.Finite? <==> x.Finite? && y.Finite?
    ensures r.Finite? ==> r.value == x.value * y.value
  {
    if x.Finite? && y.Finite? then Finite(x.value * y.value) else NonFinite
  }
}
