module Folding {
  /** Always true.  Facts stated under a quantifier with this trigger stay folded up in proofs
      that only pass them on; `assert Show(0)` unfolds them. */
  predicate Show(z: nat) { true }
}
