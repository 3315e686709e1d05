/** The node that discards a proposal
    (apps/agents/src/open-canvas/nodes/rejectChanges.ts). */
module RejectChanges {
  import opened Wrappers
  import opened State

  /** `rejectChanges(state)`: clears the approval channels and nothing else. */
  function RejectChanges(s: GraphState): (r: NodeResult)
    ensures r.Update?
    ensures r.u.proposedChanges == Put(None) && r.u.approvalResult == Put(None)
    ensures r.u.artifact.Keep? && r.u.messages.Keep? && r.u.internalMessages.Keep? && r.u.next.Keep?
  {
    Update(ClearApproval)
  }

  /** The result does not depend on the state it is given. */
  lemma RejectIgnoresState(s: GraphState, t: GraphState)
    ensures RejectChanges(s) == RejectChanges(t)
  {
  }

  /** Applying the rejection keeps the artifact, the messages and every other
      channel, and applying it twice is applying it once. */
  lemma RejectLeavesArtifact(s: GraphState)
    ensures var s1 := ApplyUpdate(s, RejectChanges(s).u);
            s1.artifact == s.artifact && s1.messages == s.messages &&
            s1.internalMessages == s.internalMessages && s1.next == s.next &&
            s1.proposedChanges.None? && s1.approvalResult.None?
    ensures var s1 := ApplyUpdate(s, RejectChanges(s).u);
            ApplyUpdate(s1, RejectChanges(s1).u) == s1
  {
    ClearApprovalIdempotent(s);
  }
}
