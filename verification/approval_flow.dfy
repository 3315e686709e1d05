/** The propose / approve-or-reject / apply protocol around a highlight
    rewrite, as a transition system composed from the node functions. The
    compiled graph ends at the suspension; the host records the proposal,
    then resumes with the human's decision, either through the approval
    nodes (humanApprover, then applyApprovedChanges or rejectChanges) or by
    re-entering updateHighlightedText with `approvalResult` set. */
module ApprovalFlow {
  import opened Wrappers
  import opened Strings
  import opened Artifacts
  import opened State
  import opened Runtime
  import opened AgentUtils
  import H = UpdateHighlightedText
  import Approver = HumanApprover
  import Apply = ApplyApprovedChanges
  import Reject = RejectChanges

  datatype Session =
    | Idle(state: GraphState)
    | Awaiting(state: GraphState, change: ProposedChange)
    | Failed(state: GraphState, msg: string)

  /** Run the highlight node's first pass; a suspension is recorded as the
      pending proposal. */
  function Propose(s: GraphState, config: Config, host: Host): (r: Session)
    requires s.approvalResult.None?
    ensures r.Awaiting? <==> H.UpdateHighlightedText(s, config, host).Suspended?
    ensures r.Awaiting? ==> r.change == H.UpdateHighlightedText(s, config, host).change &&
                            r.state == s.(proposedChanges := Some(r.change))
    ensures r.Failed? ==> r.state == s
  {
    match H.UpdateHighlightedText(s, config, host)
    case Suspended(_, change) => Awaiting(s.(proposedChanges := Some(change)), change)
    case Update(u) => Idle(ApplyUpdate(s, u))
    case Fail(m) => Failed(s, m)
  }

  /** Resume through the approval nodes: the approver records the decision
      and routes; the chosen node commits or discards. */
  function DecideViaApprover(s: GraphState, approved: bool): (r: Session)
    ensures !r.Awaiting?
  {
    var s0 := s.(approvalResult := Some(approved));
    match Approver.HumanApprover(s0)
    case Update(u) =>
      var s1 := ApplyUpdate(s0, u);
      var r := if s1.next == Some("applyApprovedChanges") then Apply.ApplyApprovedChanges(s1) else Reject.RejectChanges(s1);
      (match r
       case Update(u2) => Idle(ApplyUpdate(s1, u2))
       case Fail(m) => Failed(s1, m)
       case Suspended(_, _) => Failed(s1, ""))
    case Fail(m) => Failed(s0, m)
    case Suspended(_, _) => Failed(s0, "")
  }

  /** Resume by re-entering the highlight node with the decision set. */
  function DecideViaResume(s: GraphState, approved: bool, config: Config, host: Host): (r: Session)
    ensures !r.Awaiting?
  {
    var s0 := s.(approvalResult := Some(approved));
    match H.UpdateHighlightedText(s0, config, host)
    case Update(u) => Idle(ApplyUpdate(s0, u))
    case Fail(m) => Failed(s0, m)
    case Suspended(_, _) => Failed(s0, "")
  }

  /** What an approval commits for a pending highlight proposal on artifact
      `a`: the current text version with the first occurrence of the whole
      block replaced by the proposal, appended as version `length + 1`. */
  function Committed(a: Artifact, pc: ProposedChange): Option<Artifact> {
    match FindCurrentText(a)
    case None => None
    case Some(prev) =>
      if pc.currentText == "" || pc.proposedText == "" || !Contains(prev.fullMarkdown, pc.currentText) then None
      else Some(AppendVersion(a, Revised(prev, |a.contents| + 1, ReplaceFirst(prev.fullMarkdown, pc.currentText, pc.proposedText))))
  }

  /** Approving a proposal the highlight node made commits exactly
      `Committed`, by either route, and clears the proposal; it fails, with
      the artifact untouched, exactly when there is nothing to commit. */
  lemma ApproveCommits(s: GraphState, config: Config, host: Host)
    requires s.approvalResult.None?
    requires Propose(s, config, host).Awaiting?
    ensures var p := Propose(s, config, host);
            var a := s.artifact.value;
            var c := Committed(a, p.change);
            var v1 := DecideViaResume(p.state, true, config, host);
            var v2 := DecideViaApprover(p.state, true);
            (c.Some? ==> v1.Idle? && v1.state.artifact == c && v1.state.proposedChanges.None? && v1.state.approvalResult.None? &&
                         v2.Idle? && v2.state.artifact == c && v2.state.proposedChanges.None? && v2.state.approvalResult.None?) &&
            (c.None? ==> v1.Failed? && v1.state.artifact == s.artifact && v2.Failed? && v2.state.artifact == s.artifact)
  {
    var p := Propose(s, config, host);
    ApproveViaResume(s, config, host);
    assert Apply.OperationOf(p.change) == Some("updateHighlightedText");
    ApproveViaApprover(p.state);
  }

  /** The resume route of `ApproveCommits`. */
  lemma ApproveViaResume(s: GraphState, config: Config, host: Host)
    requires s.approvalResult.None?
    requires Propose(s, config, host).Awaiting?
    ensures var p := Propose(s, config, host);
            var c := Committed(s.artifact.value, p.change);
            var v := DecideViaResume(p.state, true, config, host);
            (c.Some? ==> v.Idle? && v.state.artifact == c && v.state.proposedChanges.None? && v.state.approvalResult.None?) &&
            (c.None? ==> v.Failed? && v.state.artifact == s.artifact)
  {
  }

  /** The approver route: a pending highlight proposal is committed as
      `Committed` and cleared, or the run fails with the artifact kept. */
  lemma ApproveViaApprover(st: GraphState)
    requires st.artifact.Some? && st.proposedChanges.Some?
    requires Apply.OperationOf(st.proposedChanges.value) == Some("updateHighlightedText")
    ensures var c := Committed(st.artifact.value, st.proposedChanges.value);
            var v := DecideViaApprover(st, true);
            (c.Some? ==> v.Idle? && v.state.artifact == c && v.state.proposedChanges.None? && v.state.approvalResult.None?) &&
            (c.None? ==> v.Failed? && v.state.artifact == st.artifact)
  {
    var s0 := st.(approvalResult := Some(true));
    assert Approver.HumanApprover(s0).Update?;
    var s1 := ApplyUpdate(s0, Approver.HumanApprover(s0).u);
    assert s1.next == Some("applyApprovedChanges");
    assert s1.artifact == st.artifact && s1.proposedChanges == st.proposedChanges;
  }

  /** Rejecting, by either route, leaves the artifact as it was before the
      proposal and clears the proposal. */
  lemma RejectRestores(s: GraphState, config: Config, host: Host)
    requires s.approvalResult.None?
    requires Propose(s, config, host).Awaiting?
    ensures var p := Propose(s, config, host);
            var v1 := DecideViaResume(p.state, false, config, host);
            var v2 := DecideViaApprover(p.state, false);
            v1.Idle? && v1.state.artifact == s.artifact && v1.state.proposedChanges.None? && v1.state.approvalResult.None? &&
            v2.Idle? && v2.state.artifact == s.artifact && v2.state.proposedChanges.None? && v2.state.approvalResult.None?
  {
    var p := Propose(s, config, host);
    RejectViaResume(s, config, host);
    RejectViaApprover(p.state);
  }

  /** The resume route of `RejectRestores`. */
  lemma RejectViaResume(s: GraphState, config: Config, host: Host)
    requires s.approvalResult.None?
    requires Propose(s, config, host).Awaiting?
    ensures var v := DecideViaResume(Propose(s, config, host).state, false, config, host);
            v.Idle? && v.state.artifact == s.artifact && v.state.proposedChanges.None? && v.state.approvalResult.None?
  {
  }

  /** The approver route: rejecting keeps the artifact and clears the proposal. */
  lemma RejectViaApprover(st: GraphState)
    ensures var v := DecideViaApprover(st, false);
            v.Idle? && v.state.artifact == st.artifact && v.state.proposedChanges.None? && v.state.approvalResult.None?
  {
    var s0 := st.(approvalResult := Some(false));
    var s1 := ApplyUpdate(s0, Approver.HumanApprover(s0).u);
    assert s1.next == Some("rejectChanges");
  }

  /** The proposal is the whole block: approving it replaces the first
      occurrence of the block, not the selection. */
  lemma ProposalIsWholeBlock(s: GraphState, config: Config, host: Host)
    requires s.approvalResult.None?
    requires Propose(s, config, host).Awaiting?
    ensures Propose(s, config, host).change.currentText == s.highlightedText.value.markdownBlock
  {
  }

  /** A stale selection: if the current version changed while the proposal
      was pending and no longer holds the block, approval fails with
      "Selected text not found in current content" and commits nothing. */
  lemma StaleSelectionRejected(s: GraphState, config: Config, host: Host, edited: Artifact)
    requires s.approvalResult.None?
    requires Propose(s, config, host).Awaiting?
    requires Propose(s, config, host).change.proposedText != ""
    requires FindCurrentText(edited).Some?
    requires !Contains(FindCurrentText(edited).value.fullMarkdown, s.highlightedText.value.markdownBlock)
    ensures var p := Propose(s, config, host);
            var v := DecideViaResume(p.state.(artifact := Some(edited)), true, config, host);
            v == Failed(p.state.(artifact := Some(edited), approvalResult := Some(true)), "Selected text not found in current content")
  {
  }

  /** An empty reply (or a structured one, which counts as "") can never be
      approved. */
  lemma EmptyReplyNotApprovable(s: GraphState, config: Config, host: Host)
    requires s.approvalResult.None?
    requires Propose(s, config, host).Awaiting? && Propose(s, config, host).change.proposedText == ""
    ensures DecideViaResume(Propose(s, config, host).state, true, config, host).Failed?
    ensures DecideViaApprover(Propose(s, config, host).state, true).Failed?
  {
    var p := Propose(s, config, host);
    var s0 := p.state.(approvalResult := Some(true));
    var s1 := ApplyUpdate(s0, Approver.HumanApprover(s0).u);
    assert s1.next == Some("applyApprovedChanges");
  }

  /** A full approved round keeps an indexed artifact indexed, and the
      committed version is then the selected one. */
  lemma RoundKeepsIndexed(a: Artifact, pc: ProposedChange)
    requires Indexed(a) && Committed(a, pc).Some?
    ensures Indexed(Committed(a, pc).value)
    ensures var a2 := Committed(a, pc).value; CurrentContent(a2) == Some(a2.contents[|a.contents|])
  {
    var prev := FindCurrentText(a).value;
    var v := Revised(prev, |a.contents| + 1, ReplaceFirst(prev.fullMarkdown, pc.currentText, pc.proposedText));
    AppendKeepsIndexed(a, v);
  }

  lemma CommittedSplices(a: Artifact, pc: ProposedChange)
    requires FindCurrentText(a).Some? && pc.currentText != "" && pc.proposedText != ""
    requires Contains(FindCurrentText(a).value.fullMarkdown, pc.currentText)
    ensures var prev := FindCurrentText(a).value;
            Committed(a, pc) ==
              Some(AppendVersion(a, Revised(prev, |a.contents| + 1, ReplaceFirst(prev.fullMarkdown, pc.currentText, pc.proposedText))))
  {
  }

  /** Approval rewrites the FIRST occurrence of the block, whichever one the
      user highlighted: the committed body is the old body with the block
      at its first position `i` replaced and everything after it, later
      copies of the block included, kept. */
  lemma FirstOccurrenceWins(a: Artifact, pc: ProposedChange, i: nat)
    requires FindCurrentText(a).Some? && pc.proposedText != ""
    requires IsFirstOccurrence(FindCurrentText(a).value.fullMarkdown, pc.currentText, i)
    requires pc.currentText != ""
    ensures var prev := FindCurrentText(a).value;
            var body := prev.fullMarkdown;
            Committed(a, pc) ==
              Some(AppendVersion(a, Revised(prev, |a.contents| + 1,
                                            body[..i] + pc.proposedText + body[i + |pc.currentText|..])))
  {
    var prev := FindCurrentText(a).value;
    var body := prev.fullMarkdown;
    assert Contains(body, pc.currentText) by { assert OccursAt(body, pc.currentText, i); }
    CommittedSplices(a, pc);
    ReplaceFirstAt(body, pc.currentText, pc.proposedText, i);
  }
}
