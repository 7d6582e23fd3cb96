/** Iteration over a Swift `Set`: the order is unspecified, so each step takes an arbitrary remaining element. */
module Sets {
  /** Some element of a non-empty set. */
  method Pick<T>(s: set<T>) returns (x: T)
    requires s != {}
    ensures x in s
  {
    x :| x in s;
  }
}
