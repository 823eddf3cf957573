/** What several modules need. */
module Common {

  datatype Option<+T> = None | Some(value: T)

  /** A trigger of one's own: a fact behind `forall x :: Looked(x) ==> ...` stays folded until
      Looked(0) is asserted. */
  predicate Looked(x: int) { true }
}
