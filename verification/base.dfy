/** The operator contract's shared safety check: claims may only disappear
    when the new state's metadata carries a `'merges'` entry. */
module OperatorBase {
  import opened Common
  import opened Knowledge

  /** `ImprovementOperator.verify_invariants(old_state, new_state)`. */
  predicate VerifyInvariants(oldState: KnowledgeState, newState: KnowledgeState) {
    !(|newState.claims| < |oldState.claims| && newState.metadata.merges.None?)
  }

  /** The check, read against the dictionary form of the new metadata: it
      fails exactly when the claim count drops and `'merges'` is not a key
      of the new metadata. Key presence is all that matters; the merge log
      may even be empty. */
  lemma VerifyInvariantsKeyPresence(oldState: KnowledgeState, newState: KnowledgeState)
    requires ValidMetadata(newState.metadata)
    ensures VerifyInvariants(oldState, newState) <==>
      (|newState.claims| >= |oldState.claims|
       || MergesKey in ToDict(newState)["metadata"].fields)
    ensures |newState.claims| >= |oldState.claims| ==> VerifyInvariants(oldState, newState)
    ensures newState.metadata.merges == Some([]) ==> VerifyInvariants(oldState, newState)
  {
    ToDictPassThrough(newState);
  }

  /** Only the two claim counts and the new state's metadata are consulted:
      which ids are present, the old metadata and everything else are
      irrelevant. */
  lemma VerifyInvariantsConsultsOnlyCounts(
    old1: KnowledgeState, new1: KnowledgeState, old2: KnowledgeState, new2: KnowledgeState)
    requires |old1.claims| == |old2.claims| && |new1.claims| == |new2.claims|
    requires new1.metadata.merges.Some? == new2.metadata.merges.Some?
    ensures VerifyInvariants(old1, new1) == VerifyInvariants(old2, new2)
  {
  }
}
