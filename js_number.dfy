/**
 * JavaScript numbers as the workout form produces them (`+input.value`).
 * A finite number is a mathematical real; the three non-finite values are
 * kept apart because `Number.isFinite` and `> 0` tell them apart.
 * Floating-point rounding, overflow and the sign of zero are not modelled.
 */
module JsNumber {

  datatype Num = Finite(value: real) | NaN | PosInfinity | NegInfinity

  /** `Number.isFinite(n)` */
  predicate IsFinite(n: Num) {
    n.Finite?
  }

  /** `n > 0`: true for a positive finite value and for `Infinity`, false for `NaN` */
  predicate IsPositive(n: Num) {
    match n
    case Finite(v) => v > 0.0
    case PosInfinity => true
    case _ => false
  }

  /** `a - b` */
  function Sub(a: Num, b: Num): (r: Num)
    ensures r.Finite? <==> a.Finite? && b.Finite?
    ensures r.Finite? ==> r.value + b.value == a.value
    ensures r.NaN? <==> a.NaN? || b.NaN? || (a.PosInfinity? && b.PosInfinity?) || (a.NegInfinity? && b.NegInfinity?)
  {
    match (a, b)
    case (NaN, _) => NaN
    case (_, NaN) => NaN
    case (Finite(x), Finite(y)) => Finite(x - y)
    case (PosInfinity, PosInfinity) => NaN
    case (NegInfinity, NegInfinity) => NaN
    case (PosInfinity, _) => PosInfinity
    case (NegInfinity, _) => NegInfinity
    case (Finite(_), PosInfinity) => NegInfinity
    case (Finite(_), NegInfinity) => PosInfinity
  }

  /** `a / b`, with a zero divisor taken to be +0 */
  function Div(a: Num, b: Num): (r: Num)
    ensures r.Finite? <==> a.Finite? && !b.NaN? && (b.Finite? ==> b.value != 0.0)
    ensures r.Finite? && b.Finite? ==> r.value * b.value == a.value
    ensures r.Finite? && !b.Finite? ==> r.value == 0.0
    ensures r.NaN? <==> a.NaN? || b.NaN? || (!a.Finite? && !b.Finite?) || (a == Finite(0.0) && b == Finite(0.0))
  {
    match (a, b)
    case (NaN, _) => NaN
    case (_, NaN) => NaN
    case (Finite(x), Finite(y)) =>
      if y != 0.0 then Finite(x / y)
      else if x > 0.0 then PosInfinity
      else if x < 0.0 then NegInfinity
      else NaN
    case (Finite(_), _) => Finite(0.0)
    case (_, Finite(y)) => if (y < 0.0) == a.PosInfinity? then NegInfinity else PosInfinity
    case (_, _) => NaN
  }

  /** `a - b > 0`, the test a comparator `(a, b) => a - b` makes a sort act on */
  predicate GreaterThan(a: Num, b: Num)
    ensures a.Finite? && b.Finite? ==> (GreaterThan(a, b) <==> a.value > b.value)
  {
    IsPositive(Sub(a, b))
  }
}
