/** The node that turns a human decision into a route
    (apps/agents/src/open-canvas/nodes/humanApprover.ts). */
module HumanApprover {
  import opened Wrappers
  import opened Messages
  import opened State

  const ApprovedNote: string := "\U{2705} Changes approved"
  const RejectedNote: string := "\U{274C} Changes rejected"

  /** `humanApprover(state)`: routes to the apply or the reject node according
      to `approvalResult` and records the decision as one human message. */
  function HumanApprover(s: GraphState): (r: NodeResult)
    ensures s.approvalResult.None? <==> r == Fail("No approval result available")
    ensures r.Update? ==>
              r.u.next.Put? && r.u.messages.Put? && |r.u.messages.value| == 1 &&
              IsHuman(r.u.messages.value[0]) &&
              r.u.artifact.Keep? && r.u.proposedChanges.Keep? && r.u.approvalResult.Keep? &&
              r.u.internalMessages.Keep?
    ensures r.Update? ==>
              (r.u.next.value == "applyApprovedChanges" <==> s.approvalResult == Some(true)) &&
              (r.u.next.value == "rejectChanges" <==> s.approvalResult == Some(false))
    ensures !r.Suspended?
  {
    match s.approvalResult
    case None => Fail("No approval result available")
    case Some(approved) =>
      Update(NoChange.(
        next := Put(if approved then "applyApprovedChanges" else "rejectChanges"),
        messages := Put([HumanMessage(if approved then ApprovedNote else RejectedNote)])))
  }

  /** The recorded message always agrees with the route. */
  lemma NoteMatchesRoute(s: GraphState)
    requires HumanApprover(s).Update?
    ensures var u := HumanApprover(s).u;
            (u.next.value == "applyApprovedChanges" <==> u.messages.value[0].content == Text(ApprovedNote)) &&
            (u.next.value == "rejectChanges" <==> u.messages.value[0].content == Text(RejectedNote))
  {
    assert ApprovedNote != RejectedNote by { assert ApprovedNote[0] != RejectedNote[0]; }
  }

  /** The node never looks at the proposal: it routes the same way whether
      or not one is pending. */
  lemma ApproverIgnoresProposal(s: GraphState, p: Option<ProposedChange>)
    ensures HumanApprover(s.(proposedChanges := p)) == HumanApprover(s)
  {
  }
}
