/**
 * The part of JavaScript's number type that the tracker's arithmetic and
 * input validation depend on. A finite number is read as an exact real;
 * rounding and negative zero are not modelled.
 */
module JsNumber {

  datatype Num = Finite(value: real) | NaN | PosInf | NegInf

  /** `Number.isFinite(n)` */
  predicate IsFinite(n: Num) {
    n.Finite?
  }

  /** `n > 0`: false for NaN, true for positive infinity. */
  predicate GreaterThanZero(n: Num) {
    match n
    case Finite(v) => v > 0.0
    case PosInf => true
    case _ => false
  }

  /** `a / b` for finite operands: the quotient, or an infinity or NaN when `b` is zero. */
  function Divide(a: real, b: real): Num {
    if b != 0.0 then Finite(a / b)
    else if a > 0.0 then PosInf
    else if a < 0.0 then NegInf
    else NaN
  }
}
