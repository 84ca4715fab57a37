/** Facts that a proof uses only where it asks for them: `forall x {:trigger Look(x)} :: Look(x) ==> fact`. */
module Closing {
  predicate Look(x: nat) {
    true
  }
}
