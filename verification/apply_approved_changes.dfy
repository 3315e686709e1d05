/** The node that commits an approved proposal
    (apps/agents/src/open-canvas/nodes/applyApprovedChanges.ts). */
module ApplyApprovedChanges {
  import opened Wrappers
  import opened Strings
  import opened Artifacts
  import opened State

  /** The operation tag of a proposal, if it has one. */
  function OperationOf(pc: ProposedChange): Option<string> {
    if pc.metadata.Some? then pc.metadata.value.operation else None
  }

  predicate IsThemeOperation(op: Option<string>) {
    op == Some("language") || op == Some("format") || op == Some("copyedit")
  }

  /** `a2` is `a` extended by exactly one version `v`, numbered, like the
      selection, `contents.length + 1`. */
  predicate AppendsOne(a: Artifact, a2: Artifact, v: Content) {
    AppendedLatest(a, a2, v) && v.index == |a.contents| + 1
  }

  /** The update both branches return: the artifact with the revised copy of
      `prev` appended, and the approval channels cleared. */
  function CommitUpdate(a: Artifact, prev: Content, body: string): (u: StateUpdate)
    requires prev.Flat?
    ensures u.artifact.Put? && AppendsOne(a, u.artifact.value, Revised(prev, |a.contents| + 1, body))
    ensures u.proposedChanges == Put(None) && u.approvalResult == Put(None)
    ensures u.messages.Keep? && u.internalMessages.Keep? && u.next.Keep?
  {
    ClearApproval.(artifact := Put(AppendVersion(a, Revised(prev, |a.contents| + 1, body))))
  }

  /** A proposal and an artifact are present and both texts are non-empty:
      the checks every commit must pass before its operation is looked at. */
  predicate Complete(s: GraphState) {
    s.proposedChanges.Some? && s.artifact.Some? &&
    s.proposedChanges.value.currentText != "" && s.proposedChanges.value.proposedText != ""
  }

  /** The operation is one the node knows how to commit. */
  predicate KnownOperation(pc: ProposedChange) {
    OperationOf(pc) == Some("updateHighlightedText") || IsThemeOperation(OperationOf(pc))
  }

  /** `applyApprovedChanges(state)`. */
  function ApplyApprovedChanges(s: GraphState): (r: NodeResult)
    ensures !r.Suspended?
    ensures s.proposedChanges.None? || s.artifact.None? ==> r == Fail("Missing required data to apply changes")
    ensures s.proposedChanges.Some? && s.artifact.Some? &&
            (s.proposedChanges.value.currentText == "" || s.proposedChanges.value.proposedText == "") ==>
              r == Fail("Missing text data in proposed changes")
    ensures r.Update? ==>
              s.proposedChanges.Some? && s.artifact.Some? &&
              var pc := s.proposedChanges.value;
              var a := s.artifact.value;
              var prev := FindCurrentText(a);
              pc.currentText != "" && pc.proposedText != "" && prev.Some? &&
              r.u.proposedChanges == Put(None) && r.u.approvalResult == Put(None) &&
              r.u.messages.Keep? && r.u.internalMessages.Keep? && r.u.next.Keep? &&
              r.u.artifact.Put? &&
              (OperationOf(pc) == Some("updateHighlightedText") ==>
                 Contains(prev.value.fullMarkdown, pc.currentText) &&
                 AppendsOne(a, r.u.artifact.value,
                   Revised(prev.value, |a.contents| + 1, ReplaceFirst(prev.value.fullMarkdown, pc.currentText, pc.proposedText)))) &&
              (IsThemeOperation(OperationOf(pc)) ==>
                 AppendsOne(a, r.u.artifact.value, Revised(prev.value, |a.contents| + 1, pc.proposedText))) &&
              (OperationOf(pc) == Some("updateHighlightedText") || IsThemeOperation(OperationOf(pc)))
    ensures Complete(s) && KnownOperation(s.proposedChanges.value) && FindCurrentText(s.artifact.value).None? ==>
              r == Fail("Previous content not found")
    ensures Complete(s) && FindCurrentText(s.artifact.value).Some? &&
            (IsThemeOperation(OperationOf(s.proposedChanges.value)) ||
             (OperationOf(s.proposedChanges.value) == Some("updateHighlightedText") &&
              Contains(FindCurrentText(s.artifact.value).value.fullMarkdown, s.proposedChanges.value.currentText))) ==>
              r.Update?
  {
    if s.proposedChanges.None? || s.artifact.None? then
      Fail("Missing required data to apply changes")
    else
      var pc := s.proposedChanges.value;
      var a := s.artifact.value;
      if pc.currentText == "" || pc.proposedText == "" then
        Fail("Missing text data in proposed changes")
      else if !KnownOperation(pc) then
        Fail("Unknown change type")
      else
        // both branches look the current text version up the same way
        var prev := FindCurrentText(a);
        if prev.None? then Fail("Previous content not found")
        else if OperationOf(pc) == Some("updateHighlightedText") then
          if !Contains(prev.value.fullMarkdown, pc.currentText) then
            Fail("Selected text not found in current content")
          else
            Update(CommitUpdate(a, prev.value, ReplaceFirst(prev.value.fullMarkdown, pc.currentText, pc.proposedText)))
        else Update(CommitUpdate(a, prev.value, pc.proposedText))
  }

  /** A highlight proposal whose text is no longer in the current version is
      refused, and nothing is committed. */
  lemma StaleSelectionFails(s: GraphState)
    requires s.proposedChanges.Some? && s.artifact.Some?
    requires s.proposedChanges.value.currentText != "" && s.proposedChanges.value.proposedText != ""
    requires OperationOf(s.proposedChanges.value) == Some("updateHighlightedText")
    requires FindCurrentText(s.artifact.value).Some?
    requires !Contains(FindCurrentText(s.artifact.value).value.fullMarkdown, s.proposedChanges.value.currentText)
    ensures ApplyApprovedChanges(s) == Fail("Selected text not found in current content")
  {
  }

  /** A theme proposal on an artifact with a current text version commits
      the proposed text as a whole new version, keeping the kind and title
      of the version it revises. */
  lemma ThemeCommitWritesProposal(s: GraphState)
    requires Complete(s) && IsThemeOperation(OperationOf(s.proposedChanges.value))
    requires FindCurrentText(s.artifact.value).Some?
    ensures var r := ApplyApprovedChanges(s);
            var a := s.artifact.value;
            var prev := FindCurrentText(a).value;
            r.Update? && r.u.artifact.Put? &&
            var a2 := r.u.artifact.value;
            |a2.contents| == |a.contents| + 1 && a2.contents[..|a.contents|] == a.contents &&
            a2.currentIndex == |a.contents| + 1 &&
            a2.contents[|a.contents|] == Flat(|a.contents| + 1, prev.kind, prev.title, s.proposedChanges.value.proposedText)
  {
    var a := s.artifact.value;
    var prev := FindCurrentText(a).value;
    var v := Revised(prev, |a.contents| + 1, s.proposedChanges.value.proposedText);
    assert v == Flat(|a.contents| + 1, prev.kind, prev.title, s.proposedChanges.value.proposedText);
  }

  /** Operations other than the highlight and the three themes are refused,
      and so is a proposal without metadata. */
  lemma UnknownOperationFails(s: GraphState)
    requires s.proposedChanges.Some? && s.artifact.Some?
    requires s.proposedChanges.value.currentText != "" && s.proposedChanges.value.proposedText != ""
    requires OperationOf(s.proposedChanges.value) != Some("updateHighlightedText")
    requires !IsThemeOperation(OperationOf(s.proposedChanges.value))
    ensures ApplyApprovedChanges(s) == Fail("Unknown change type")
  {
  }

  /** A highlight commit rewrites exactly the span of the first occurrence of
      the proposal's `currentText`: the text before and after it survives. */
  lemma HighlightCommitSplices(s: GraphState, i: nat)
    requires ApplyApprovedChanges(s).Update?
    requires OperationOf(s.proposedChanges.value) == Some("updateHighlightedText")
    requires IsFirstOccurrence(FindCurrentText(s.artifact.value).value.fullMarkdown, s.proposedChanges.value.currentText, i)
    ensures var body := FindCurrentText(s.artifact.value).value.fullMarkdown;
            var pc := s.proposedChanges.value;
            var a2 := ApplyApprovedChanges(s).u.artifact.value;
            a2.contents[|a2.contents| - 1].fullMarkdown == body[..i] + pc.proposedText + body[i + |pc.currentText|..]
  {
    var body := FindCurrentText(s.artifact.value).value.fullMarkdown;
    ReplaceFirstAt(body, s.proposedChanges.value.currentText, s.proposedChanges.value.proposedText, i);
  }

  /** A commit keeps an indexed artifact indexed, and the new version is then
      the one the lookup selects. */
  lemma CommitKeepsIndexed(s: GraphState)
    requires ApplyApprovedChanges(s).Update?
    requires Indexed(s.artifact.value)
    ensures Indexed(ApplyApprovedChanges(s).u.artifact.value)
    ensures var a2 := ApplyApprovedChanges(s).u.artifact.value;
            CurrentContent(a2) == Some(a2.contents[|a2.contents| - 1])
  {
    var a := s.artifact.value;
    var a2 := ApplyApprovedChanges(s).u.artifact.value;
    assert a2 == AppendVersion(a, a2.contents[|a.contents|]);
    AppendKeepsIndexed(a, a2.contents[|a.contents|]);
  }

  /** Whatever the operation, a proposal that empties the text is refused: a
      deletion to "" cannot be approved. */
  lemma EmptyProposalRefused(s: GraphState)
    requires s.proposedChanges.Some? && s.artifact.Some?
    requires s.proposedChanges.value.proposedText == ""
    ensures ApplyApprovedChanges(s).Fail?
  {
  }
}
