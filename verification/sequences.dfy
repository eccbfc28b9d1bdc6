/** Order facts shared by the filters of both services. */
module Sequences {

  /** `a` is `b` with some elements left out, the rest kept in order. */
  predicate SubsequenceOf<T(==)>(a: seq<T>, b: seq<T>)
    decreases |b|
  {
    a == [] || (b != [] && if a[0] == b[0] then SubsequenceOf(a[1..], b[1..]) else SubsequenceOf(a, b[1..]))
  }
}
