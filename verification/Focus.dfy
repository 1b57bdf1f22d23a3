/** A switch for proofs: invariants stay folded until the proof asks to look inside them. */
module Focus {
  /** Always true. A quantifier triggered by it gives its body only where a proof mentions it. */
  ghost predicate LookInside(z: int) {
    true
  }

  // The same for other invariants, so that looking inside one kind leaves the others folded.

  ghost predicate LookAtLayout(z: int) {
    true
  }

  ghost predicate LookAtWalk(z: int) {
    true
  }

  ghost predicate LookAtState(z: int) {
    true
  }

  ghost predicate LookAtSlots(z: int) {
    true
  }

  ghost predicate LookAtProgress(z: int) {
    true
  }

  ghost predicate LookAtUses(z: int) {
    true
  }
}
