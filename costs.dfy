/** Costs as the optimizer sees them: the value of the cost function at a
    point, or the positive infinity that the best-so-far cost starts from. */
module Costs {

  datatype Cost = Finite(value: real) | Infinity

  /** a < b in the extended reals. */
  predicate Below(a: Cost, b: Cost)
  {
    match (a, b)
    case (Finite(x), Finite(y)) => x < y
    case (Finite(_), Infinity) => true
    case (Infinity, _) => false
  }

  /** a <= b in the extended reals. */
  predicate AtMost(a: Cost, b: Cost)
  {
    !Below(b, a)
  }

  /** A trace that never goes up: a later entry is never above an earlier one. */
  predicate NonIncreasing(h: seq<Cost>)
  {
    forall i, j :: 0 <= i < j < |h| ==> AtMost(h[j], h[i])
  }

  lemma AtMostTransitive(a: Cost, b: Cost, c: Cost)
    requires AtMost(a, b) && AtMost(b, c)
    ensures AtMost(a, c)
  {
  }

  /** Appending a value no larger than the last entry keeps a trace non-increasing. */
  lemma AppendKeepsNonIncreasing(h: seq<Cost>, c: Cost)
    requires NonIncreasing(h)
    requires h != [] ==> AtMost(c, h[|h| - 1])
    ensures NonIncreasing(h + [c])
  {
  }
}
