/**
 * JavaScript numbers as the page uses them: what `Number(...)` yields for a
 * CSV cell, what `Number.isNaN` tests, and the relational operators.
 * Finite values are exact reals; rounding is not modelled.
 */
module JsNumbers {

  datatype Number = NaN | Finite(value: real) | PosInfinity | NegInfinity

  /** The JavaScript `a < b`: false whenever either side is NaN. */
  predicate Less(a: Number, b: Number) {
    match (a, b)
    case (NaN, _) => false
    case (_, NaN) => false
    case (Finite(x), Finite(y)) => x < y
    case (NegInfinity, _) => b != NegInfinity
    case (_, PosInfinity) => a != PosInfinity
    case _ => false
  }

  /** The JavaScript `a <= b`: false whenever either side is NaN. */
  predicate LessEq(a: Number, b: Number) {
    !a.NaN? && !b.NaN? && (a == b || Less(a, b))
  }

  /** `<` on numbers other than NaN is a strict total order and `<=` its reflexive closure. */
  lemma LessTrichotomy(a: Number, b: Number)
    requires !a.NaN? && !b.NaN?
    ensures Less(a, b) || a == b || Less(b, a)
    ensures !(Less(a, b) && Less(b, a))
    ensures LessEq(a, b) <==> !Less(b, a)
  {
  }

  lemma LessTransitive(a: Number, b: Number, c: Number)
    requires Less(a, b) && Less(b, c)
    ensures Less(a, c)
  {
  }

  /** `x >= lo && x <= hi` for a number `x` and finite bounds. */
  predicate WithinClosed(x: Number, lo: real, hi: real) {
    LessEq(Finite(lo), x) && LessEq(x, Finite(hi))
  }

  /** Only a finite number can lie between two finite bounds. */
  lemma WithinClosedIsFinite(x: Number, lo: real, hi: real)
    ensures WithinClosed(x, lo, hi) <==> x.Finite? && lo <= x.value <= hi
  {
  }
}
