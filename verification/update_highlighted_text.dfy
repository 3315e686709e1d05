/** The two-pass highlight rewrite (apps/agents/src/open-canvas/nodes/updateHighlightedText.ts):
    the first pass asks the model for a new version of the highlighted
    block and suspends with it as a proposal; the second pass, entered with
    the human's decision, commits or discards that proposal. */
module UpdateHighlightedText {
  import opened Wrappers
  import opened Strings
  import opened Messages
  import opened Artifacts
  import opened State
  import opened Runtime
  import opened AgentUtils
  import opened Prompts
  import Approved = ApplyApprovedChanges

  const DefaultRequest: string := "Update the text"
  const Operation: string := "updateHighlightedText"
  const ReviewReason: string := "Please review changes"
  const FailurePrefix: string := "Failed to update text: "

  /** The request put into the prompt: the string content of the LAST
      message of the conversation, whoever sent it; the default request when
      there is none or when its content is structured. */
  function RequestText(messages: seq<Message>): (r: string)
    ensures |messages| == 0 ==> r == DefaultRequest
    ensures |messages| > 0 ==>
              r == (match messages[|messages| - 1].content
                    case Text(t) => t
                    case Parts(_) => DefaultRequest)
  {
    if |messages| == 0 then DefaultRequest
    else
      match messages[|messages| - 1].content
      case Text(t) => t
      case Parts(_) => DefaultRequest
  }

  /** Earlier messages never matter, and the last one counts even when it is
      not the human's. */
  lemma RequestIsLastMessage(earlier: seq<Message>, last: Message, t: string)
    requires last.content == Text(t)
    ensures RequestText(earlier + [last]) == t
    ensures RequestText(earlier + [AIMessage(None, t)]) == t
  {
  }

  /** The four chained `replace` calls on the highlight prompt. */
  function FillHighlightPrompt(selected: string, block: string, request: string): string {
    var p1 := ReplaceFirst(HighlightPrompt, "{highlightedText}", selected);
    var p2 := ReplaceFirst(p1, "{textBlocks}", block);
    var p3 := ReplaceFirst(p2, "{info}", "");
    ReplaceFirst(p3, "{request}", request)
  }

  /** The four fixed parts before the last placeholder contain no '{'. */
  lemma HighlightPartsBraceFree()
    ensures '{' !in HighlightHead && '{' !in HighlightAfterSelection
    ensures '{' !in HighlightAfterBlock && '{' !in HighlightAfterInfo
  {
  }

  /** The four fills on any template of the highlight prompt's shape
      `h p1 m1 p2 m2 p3 m3 p4 t`, placeholders all starting with the same
      character `c`: when `c` is not in the fixed parts, the selection or
      the block, every value lands in its own slot. */
  lemma {:induction false} FillHighlightShape(h: string, m1: string, m2: string, m3: string, t: string,
                                               p1: string, p2: string, p3: string, p4: string,
                                               selected: string, block: string, request: string)
    requires |p1| > 0 && |p2| > 0 && |p3| > 0 && |p4| > 0
    requires p2[0] == p1[0] && p3[0] == p1[0] && p4[0] == p1[0]
    requires p1[0] !in h && p1[0] !in m1 && p1[0] !in m2 && p1[0] !in m3
    requires p1[0] !in selected && p1[0] !in block
    ensures var tpl := h + p1 + (m1 + p2 + (m2 + p3 + (m3 + p4 + t)));
            ReplaceFirst(ReplaceFirst(ReplaceFirst(ReplaceFirst(tpl, p1, selected), p2, block), p3, ""), p4, request) ==
            h + selected + m1 + block + m2 + m3 + request + t
  {
    var b3 := m3 + p4 + t;
    FirstTwoFills(h, m1, m2, p1, p2, p3, b3, selected, block);
    var a3 := h + selected + m1 + block + m2;
    assert p1[0] !in a3;
    LastTwoFills(a3, p3, m3, p4, t, request);
  }

  /** The selection and block fills of the highlight chain. */
  lemma FirstTwoFills(h: string, m1: string, m2: string, p1: string, p2: string, q: string, rest: string,
                      selected: string, block: string)
    requires |p1| > 0 && |p2| > 0 && p2[0] == p1[0]
    requires p1[0] !in h && p1[0] !in m1 && p1[0] !in selected
    ensures ReplaceFirst(ReplaceFirst(h + p1 + (m1 + p2 + (m2 + q + rest)), p1, selected), p2, block) ==
            (h + selected + m1 + block + m2) + q + rest
  {
    FillStep(h, p1, m1, p2, m2 + q + rest, selected);
    var a2 := h + selected + m1;
    assert p2[0] !in a2;
    FillStep(a2, p2, m2, q, rest, block);
  }

  /** The info and request fills of the highlight chain: the info slot is
      emptied and the request lands in the last slot. */
  lemma LastTwoFills(a: string, p3: string, m3: string, p4: string, t: string, request: string)
    requires |p3| > 0 && |p4| > 0 && p3[0] !in a && p4[0] !in a && p4[0] !in m3
    ensures ReplaceFirst(ReplaceFirst(a + p3 + (m3 + p4 + t), p3, ""), p4, request) == a + m3 + request + t
  {
    FillStep(a, p3, m3, p4, t, "");
    assert a + "" + m3 == a + m3;
    Fill(a + m3, p4, t, request);
  }

  /** When the selection and the block contain no '{', every value lands in
      its own slot of the highlight prompt. */
  lemma HighlightPromptFilled(selected: string, block: string, request: string)
    requires '{' !in selected && '{' !in block
    ensures FillHighlightPrompt(selected, block, request) ==
            HighlightHead + selected + HighlightAfterSelection + block +
            HighlightAfterBlock + HighlightAfterInfo + request + HighlightTail
  {
    HighlightPartsBraceFree();
    FillHighlightShape(HighlightHead, HighlightAfterSelection, HighlightAfterBlock, HighlightAfterInfo, HighlightTail,
                       "{highlightedText}", "{textBlocks}", "{info}", "{request}", selected, block, request);
  }

  /** The first two fills of the capture: the selection puts a second copy
      of `p2` before the real one, and the block fills that copy. */
  lemma CaptureFirstTwo(h: string, p1: string, m1: string, p2: string, b2: string, block: string)
    requires |p1| > 0 && |p2| > 0 && p2[0] == p1[0] && p1[0] !in h
    ensures ReplaceFirst(ReplaceFirst(h + p1 + (m1 + p2 + b2), p1, p2), p2, block) == (h + block + m1) + p2 + b2
  {
    FillStep(h, p1, m1, p2, b2, p2);
    assert h + p2 + m1 + p2 + b2 == h + p2 + (m1 + p2 + b2);
    FillStep(h, p2, m1, p2, b2, block);
  }

  /** The last two fills of the capture, past the surviving literal `p2`. */
  lemma CaptureLastTwo(x: string, p2: string, m2: string, p3: string, m3: string, p4: string, t: string, request: string)
    requires |p2| > 1 && |p3| > 1 && |p4| > 1 && p3[0] == p2[0] && p4[0] == p2[0]
    requires p2[0] !in p2[1..] && p2[1] != p3[1] && p2[1] != p4[1]
    requires p2[0] !in x && p2[0] !in m2 && p2[0] !in m3
    ensures ReplaceFirst(ReplaceFirst(x + p2 + (m2 + p3 + (m3 + p4 + t)), p3, ""), p4, request) ==
            x + p2 + m2 + m3 + request + t
  {
    Regroup(x + p2, m2, p3, m3 + p4 + t, "");
    FillPastLiteral(x, p2, m2, p3, m3 + p4 + t, "");
    Regroup(x + p2, m2, m3, p4, t);
    FillPastLiteral(x, p2, m2 + m3, p4, t, request);
    Regroup(x + p2, m2, m3, request, t);
  }

  /** The regroupings of concatenations the fill chains need. */
  lemma Regroup(a: string, b: string, c: string, d: string, e: string)
    ensures a + (b + c + d) == a + b + c + d
    ensures a + b + "" + (c + d + e) == a + (b + c) + d + e
    ensures a + (b + c) + d + e == a + b + c + d + e
  {
  }

  /** The same fills when the selection is the second placeholder itself:
      the block is captured into the selection's slot and the block slot
      keeps the literal placeholder. */
  lemma CaptureShape(h: string, m1: string, m2: string, m3: string, t: string,
                     p1: string, p2: string, p3: string, p4: string,
                     block: string, request: string)
    requires |p1| > 0 && |p2| > 1 && |p3| > 1 && |p4| > 1
    requires p2[0] == p1[0] && p3[0] == p1[0] && p4[0] == p1[0]
    requires p1[0] !in p2[1..] && p2[1] != p3[1] && p2[1] != p4[1]
    requires p1[0] !in h && p1[0] !in m1 && p1[0] !in m2 && p1[0] !in m3 && p1[0] !in block
    ensures var tpl := h + p1 + (m1 + p2 + (m2 + p3 + (m3 + p4 + t)));
            ReplaceFirst(ReplaceFirst(ReplaceFirst(ReplaceFirst(tpl, p1, p2), p2, block), p3, ""), p4, request) ==
            h + block + m1 + p2 + m2 + m3 + request + t
  {
    CaptureFirstTwo(h, p1, m1, p2, m2 + p3 + (m3 + p4 + t), block);
    CaptureLastTwo(h + block + m1, p2, m2, p3, m3, p4, t, request);
  }

  /** A selection that itself reads "{textBlocks}" captures the block. */
  lemma SelectionCanCaptureBlock(block: string, request: string)
    requires '{' !in block
    ensures FillHighlightPrompt("{textBlocks}", block, request) ==
            HighlightHead + block + HighlightAfterSelection + "{textBlocks}" +
            HighlightAfterBlock + HighlightAfterInfo + request + HighlightTail
  {
    HighlightPartsBraceFree();
    CaptureShape(HighlightHead, HighlightAfterSelection, HighlightAfterBlock, HighlightAfterInfo, HighlightTail,
                 "{highlightedText}", "{textBlocks}", "{info}", "{request}", block, request);
  }

  /** `typeof response.content === "string" ? response.content : ""`. */
  function ReplyText(c: MessageContent): string {
    match c
    case Text(t) => t
    case Parts(_) => ""
  }

  /** The first pass's model call: the configured model asked with the
      filled prompt, or the error setting up the model raised. */
  function RewriteReply(s: GraphState, h: TextHighlight, config: Config, host: Host): Result<MessageContent> {
    match GetModelConfig(config.customModelName, false)
    case Err(m) => Err(m)
    case Ok(mc) => host.invokeContent(mc.modelName, FillHighlightPrompt(h.selectedText, h.markdownBlock, RequestText(s.messages)))
  }

  /** The first pass, from the model set-up on: everything inside the
      `try`, whose errors come back prefixed. A reply always suspends the
      run with the reply as the proposal. */
  function AskForRewrite(s: GraphState, h: TextHighlight, config: Config, host: Host): (r: NodeResult)
    ensures !r.Update?
    ensures r.Fail? ==> FailurePrefix <= r.msg
    ensures RewriteReply(s, h, config, host).Err? ==> r == Fail(FailurePrefix + RewriteReply(s, h, config, host).msg)
    ensures r.Suspended? <==> RewriteReply(s, h, config, host).Ok?
    ensures r.Suspended? ==> r.change.proposedText == ReplyText(RewriteReply(s, h, config, host).value)
    ensures r.Suspended? ==>
              r.reason == ReviewReason &&
              r.change.currentText == h.markdownBlock &&
              r.change.metadata == Some(ChangeMetadata(Some(Operation), h.selectedText, h.markdownBlock))
  {
    match GetModelConfig(config.customModelName, false)
    case Err(m) => Fail(FailurePrefix + m)
    case Ok(mc) =>
      var prompt := FillHighlightPrompt(h.selectedText, h.markdownBlock, RequestText(s.messages));
      match host.invokeContent(mc.modelName, prompt)
      case Err(m) => Fail(FailurePrefix + m)
      case Ok(reply) =>
        Suspended(ReviewReason, ProposedChange(h.markdownBlock, ReplyText(reply),
          Some(ChangeMetadata(Some(Operation), h.selectedText, h.markdownBlock))))
  }

  /** The approved second pass. It checks in its own order (the lookup
      before the texts) and never looks at the proposal's operation. */
  function CommitProposal(s: GraphState): (r: NodeResult)
    ensures !r.Suspended?
    ensures s.proposedChanges.None? || s.artifact.None? ==> r == Fail("Missing required data to apply changes")
    ensures r.Update? ==>
              s.proposedChanges.Some? && s.artifact.Some? &&
              var pc := s.proposedChanges.value;
              var a := s.artifact.value;
              var prev := FindCurrentText(a);
              prev.Some? && pc.currentText != "" && pc.proposedText != "" &&
              Contains(prev.value.fullMarkdown, pc.currentText) &&
              r.u.proposedChanges == Put(None) && r.u.approvalResult == Put(None) &&
              r.u.messages.Keep? && r.u.internalMessages.Keep? && r.u.next.Keep? &&
              r.u.artifact.Put? &&
              Approved.AppendsOne(a, r.u.artifact.value,
                Revised(prev.value, |a.contents| + 1, ReplaceFirst(prev.value.fullMarkdown, pc.currentText, pc.proposedText)))
  {
    if s.proposedChanges.None? || s.artifact.None? then
      Fail("Missing required data to apply changes")
    else
      var pc := s.proposedChanges.value;
      var a := s.artifact.value;
      match FindCurrentText(a)
      case None => Fail("Previous content not found")
      case Some(prev) =>
        if pc.currentText == "" || pc.proposedText == "" then
          Fail("Missing text data")
        else if !Contains(prev.fullMarkdown, pc.currentText) then
          Fail("Selected text not found in current content")
        else
          Update(Approved.CommitUpdate(a, prev, ReplaceFirst(prev.fullMarkdown, pc.currentText, pc.proposedText)))
  }

  /** `updateHighlightedText(state, config)`. */
  function UpdateHighlightedText(s: GraphState, config: Config, host: Host): (r: NodeResult)
    ensures s.approvalResult == Some(false) ==> r == Update(ClearApproval)
    ensures s.approvalResult == Some(true) ==> !r.Suspended?
    ensures s.approvalResult.None? ==> !r.Update?
    ensures s.approvalResult == Some(true) ==> r == CommitProposal(s)
    ensures s.approvalResult.None? && (s.highlightedText.None? || s.artifact.None?) ==>
              r == Fail("Highlighted text or artifact not provided")
    ensures s.approvalResult.None? && s.highlightedText.Some? && s.artifact.Some? &&
            (s.highlightedText.value.selectedText == "" || s.highlightedText.value.markdownBlock == "") ==>
              r == Fail("Invalid highlight data")
    ensures s.approvalResult.None? && s.highlightedText.Some? && s.artifact.Some? &&
            s.highlightedText.value.selectedText != "" && s.highlightedText.value.markdownBlock != "" ==>
              r == AskForRewrite(s, s.highlightedText.value, config, host) &&
              (r.Suspended? <==> RewriteReply(s, s.highlightedText.value, config, host).Ok?)
    ensures r.Suspended? ==>
              s.approvalResult.None? && s.highlightedText.Some? && s.artifact.Some? &&
              var h := s.highlightedText.value;
              h.selectedText != "" && h.markdownBlock != "" &&
              r.reason == ReviewReason && r.change.currentText == h.markdownBlock &&
              r.change.metadata == Some(ChangeMetadata(Some(Operation), h.selectedText, h.markdownBlock))
  {
    match s.approvalResult
    case Some(true) => CommitProposal(s)
    case Some(false) => Update(ClearApproval)
    case None =>
      if s.highlightedText.None? || s.artifact.None? then
        Fail("Highlighted text or artifact not provided")
      else
        var h := s.highlightedText.value;
        if h.selectedText == "" || h.markdownBlock == "" then Fail("Invalid highlight data")
        else AskForRewrite(s, h, config, host)
  }

  /** The proposal's text is exactly the model's reply to the filled prompt
      (or "" for a structured reply), and the request is the last message. */
  lemma ProposalIsModelReply(s: GraphState, config: Config, host: Host)
    requires UpdateHighlightedText(s, config, host).Suspended?
    ensures var h := s.highlightedText.value;
            var mc := GetModelConfig(config.customModelName, false);
            mc.Ok? &&
            var reply := host.invokeContent(mc.value.modelName, FillHighlightPrompt(h.selectedText, h.markdownBlock, RequestText(s.messages)));
            reply.Ok? && UpdateHighlightedText(s, config, host).change.proposedText == ReplyText(reply.value)
  {
  }

  /** When the proposal came from this node's own first pass, committing it
      here and committing it through the dedicated apply node give the same
      update, and fail in the same cases. */
  lemma CommitAgreesWithApplyNode(s: GraphState, config: Config, host: Host)
    requires s.approvalResult == Some(true)
    requires s.proposedChanges.Some? && Approved.OperationOf(s.proposedChanges.value) == Some(Operation)
    ensures UpdateHighlightedText(s, config, host).Update? <==> Approved.ApplyApprovedChanges(s).Update?
    ensures UpdateHighlightedText(s, config, host).Update? ==>
              UpdateHighlightedText(s, config, host) == Approved.ApplyApprovedChanges(s)
  {
  }

  /** The commit ignores the proposal's operation: a theme proposal approved
      here is spliced in by `replace`, not swapped in whole. */
  lemma CommitIgnoresOperation(s: GraphState, config: Config, host: Host, m: Option<ChangeMetadata>)
    requires s.approvalResult == Some(true) && s.proposedChanges.Some?
    ensures var s2 := s.(proposedChanges := Some(s.proposedChanges.value.(metadata := m)));
            UpdateHighlightedText(s2, config, host) == UpdateHighlightedText(s, config, host)
  {
  }

  /** A rejected second pass clears the proposal and keeps the artifact. */
  lemma RejectKeepsArtifact(s: GraphState, config: Config, host: Host)
    requires s.approvalResult == Some(false)
    ensures ApplyUpdate(s, UpdateHighlightedText(s, config, host).u) == s.(proposedChanges := None, approvalResult := None)
  {
    ClearApprovalIdempotent(s);
  }
}
