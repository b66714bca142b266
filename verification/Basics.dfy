/** Small notions shared by several modules. */
module Basics {

  datatype Option<T> = None | Some(value: T)

  /** A non-zero multiple of m is at least m away from zero. */
  lemma MultipleWithin(m: int, d: int)
    requires 0 < m
    ensures d >= 1 ==> m * d >= m
    ensures d <= -1 ==> m * d <= 0 - m
  {
  }
}
