/**
 Large invariants are stated as `forall k :: Open(k) ==> ...`. Their parts come into view only in
 a proof that mentions `Open`, so that a method carrying such an invariant through many array
 updates treats it as one fact.
 */
module Sealing {
  ghost predicate Open(k: int) {
    true
  }

  /** The same for invariants that should stay closed while others are open. */
  ghost predicate Unlock(k: int) {
    true
  }
}
