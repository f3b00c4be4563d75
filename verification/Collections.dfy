/** Visiting the entries of a map or set in an order that nobody may rely on. */
module Collections {

  /** Some element; any order of visits is possible. */
  method AnyOf<T(==)>(rest: set<T>) returns (x: T)
    requires rest != {}
    ensures x in rest
  {
    assert (forall y :: y !in rest) ==> rest == {};
    x :| x in rest;
  }
}
