/**
 The JavaScript numbers the counter widget can hold. Every value the widget
 stores is produced by `parseInt`, by the literals `0` and `1`, or by adding
 and subtracting such values, so it is always an integer or NaN. Integers are
 unbounded here: the 2^53 precision limit of IEEE-754 doubles is not modelled.
 */
module JsNumber {

  /** A JavaScript number: an integer, or `Invalid`, which stands for NaN. */
  datatype Num = Int(value: int) | Invalid

  /** JavaScript `a + b` on numbers: NaN as soon as either operand is NaN. */
  function Add(a: Num, b: Num): Num {
    if a.Int? && b.Int? then Int(a.value + b.value) else Invalid
  }

  /** JavaScript `a - b` on numbers: NaN as soon as either operand is NaN. */
  function Sub(a: Num, b: Num): Num {
    if a.Int? && b.Int? then Int(a.value - b.value) else Invalid
  }

  /** JavaScript `a >= k` for a numeric literal `k`: every comparison with NaN is false. */
  predicate AtLeast(a: Num, k: int) {
    match a
    case Int(n) => n >= k
    case Invalid => false
  }

  /** JavaScript `a <= k` for a numeric literal `k`: every comparison with NaN is false. */
  predicate AtMost(a: Num, k: int) {
    match a
    case Int(n) => n <= k
    case Invalid => false
  }
}
