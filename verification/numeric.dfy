/**
 The part of double-precision arithmetic that the indicator columns depend on.

 Prices and volumes are exact reals here; what matters from IEEE-754 is that
 a column cell can be NaN (pandas fills undefined rolling-mean cells with it)
 and that a division by zero yields an infinity or NaN instead of failing.
 Every ordered comparison with NaN is false.
 */
module Numeric {

  /** A float64 value: NaN, one of the two infinities, or a finite number. */
  datatype Double = NaN | PosInf | NegInf | Finite(v: real) {

    /** `self >= x` on a float64 and a finite threshold. */
    predicate AtLeast(x: real) {
      match this
      case NaN => false
      case PosInf => true
      case NegInf => false
      case Finite(v) => v >= x
    }

    /** `self <= x` on a float64 and a finite threshold. */
    predicate AtMost(x: real) {
      match this
      case NaN => false
      case PosInf => false
      case NegInf => true
      case Finite(v) => v <= x
    }
  }

  /** Float division `a / b` of a finite numerator by a column cell. */
  function Div(a: real, b: Double): (q: Double)
    ensures b.Finite? && b.v != 0.0 ==> q == Finite(a / b.v)
    ensures b == NaN ==> q == NaN
    ensures b == Finite(0.0) ==> (q == PosInf <==> a > 0.0) && (q == NegInf <==> a < 0.0) && (q == NaN <==> a == 0.0)
  {
    match b
    case NaN => NaN
    case PosInf => Finite(0.0)
    case NegInf => Finite(0.0)
    case Finite(d) =>
      if d != 0.0 then Finite(a / d)
      else if a > 0.0 then PosInf
      else if a < 0.0 then NegInf
      else NaN
  }

  /** On finite values the two tests are the ordinary order, and they can
      both hold only on the boundary between two thresholds `lo <= hi`. */
  lemma BothThresholds(d: Double, hi: real, lo: real)
    requires d.AtLeast(hi) && d.AtMost(lo)
    ensures d.Finite? && hi <= d.v <= lo
  {
  }
}
