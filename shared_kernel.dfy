/** Helper types shared by the whole application: optional values and the
    two kinds of JavaScript numbers the form rules look at. */
module SharedKernel {

  /** `T | undefined`: a value that may be missing. */
  datatype Optional<+T> = Undefined | Defined(value: T)

  /** A JavaScript number as `Number(...)` produces it from a string. */
  datatype JsNumber = NaN | PositiveInfinity | NegativeInfinity | Finite(value: real)

  /** JavaScript's `n >= bound` for an integer bound: false for NaN,
      true for +Infinity, false for -Infinity. */
  function AtLeast(n: JsNumber, bound: int): (r: bool)
    ensures r ==> !n.NaN? && !n.NegativeInfinity?
    ensures n.PositiveInfinity? ==> r
    ensures n.Finite? ==> (r <==> n.value >= bound as real)
  {
    match n
    case NaN => false
    case PositiveInfinity => true
    case NegativeInfinity => false
    case Finite(v) => v >= bound as real
  }

  /** A time value as `Date.parse` returns it: NaN for a string it cannot
      read, otherwise a whole number of milliseconds since the epoch. */
  datatype TimeValue = InvalidDate | Time(ms: int)
}
