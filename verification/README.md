# Artifact revision core of Open Canvas (storia), in Dafny

This project models the part of the Open Canvas writing assistant that keeps
an *artifact* — a document stored as a list of numbered versions with one
current index — and revises it. It covers:

- the version lookup and the markdown test shared by client and agents
  (`packages/shared/src/utils/artifacts.ts`);
- the graph nodes that rewrite an artifact:
  - the theme node (language / format / copy-edit, single body or
    multi-article snapshot);
  - the highlight node, which proposes a rewrite of a selected block,
    suspends for review, and on the second pass commits or drops it;
- the approval nodes (approver, apply, reject) and the router and edge
  table of the compiled graph;
- the state channels: the two message reducers, the summary-message test
  and the last-value fields;
- the shared agent helpers:
  - the model-name router, a first-match decision table;
  - template filling;
  - the base64 cleaner and the Gemini context-document conversion;
  - message formatting;
- the client-side merge functions that fold streamed chunks into message
  lists and artifact versions;
- the text renderer's block splitter, block diff, change summary and the
  pending-edit bookkeeping of accept/reject;
- the Google Docs import route: document-id extraction and the body →
  markdown loop;
- the three deprecated nodes still in the tree: the character-range splice,
  the theme priority chain and the new-artifact helpers.

Everything is functional. A node is a function from the graph state to a
`NodeResult`:

- `Update(StateUpdate)`: a partial update. Each field is `Keep` (key absent)
  or `Put(v)` (key present, possibly `undefined`).
- `Suspended(reason, ProposedChange)`: stands for the `NodeInterrupt` throw.
- `Fail(message)`: stands for a thrown `Error`, with the source's message.

The approval round, which the compiled graph does not wire, is a small
transition system built from the node functions (`approval_flow.dfy`).

The outside world is a parameter:

- `Runtime.Host` holds the model call, the thinking-model helpers and the
  uuid as uninterpreted functions.
- `Runtime.Config` holds the configurable values.

Prompt templates keep their placeholders in order between abbreviated
instruction texts (`prompts.dfy`). `Strings` models the JavaScript string
operations used:

- `replace` with a string pattern, which replaces the first occurrence only;
- `includes`, `trim`, `slice` with negative and clamped indices, `join`,
  `repeat` and `parseInt`.

Two facts the proofs make explicit:

- **New version index.** Every commit numbers the new version
  `contents.length + 1`. On an artifact whose versions are numbered 1, 2, …
  by position this equals "largest index + 1" and keeps the numbering
  (`Artifacts.LengthRuleIsMaxRule`). Otherwise it can reuse an index
  (`Artifacts.LengthRuleCanCollide`). The multi-article theme path copies
  the old snapshot's index instead (`RewriteArtifactTheme.SnapshotKeepsOldIndex`).
- **Whole-block proposal.** The highlight proposal replaces the whole
  markdown block, not the selection (`ApprovalFlow.ProposalIsWholeBlock`).
  Only its first occurrence in the body is replaced
  (`ApprovalFlow.FirstOccurrenceWins`).
- **UTF-16 lengths.** JavaScript measures strings in UTF-16 code units,
  while a Dafny `string` holds Unicode scalar values. `Strings.Units` is the
  code-unit length, and the change summary and the import's content length
  use it. Slicing by code units is not modelled (see "Left out").

## Model

| member | source | states |
|---|---|---|
| Artifacts.MarkdownContentAgrees | packages/shared/src/utils/artifacts.ts:17-26 | a version counts as markdown exactly when its JSON form is an object whose "type" is "text"; nothing that is not an object counts |
| Artifacts.CurrentPos | packages/shared/src/utils/artifacts.ts:34-40 | when some version carries the current index, the position of the first such version; when none does, the last position; nothing only for an empty version list |
| Artifacts.CurrentContent | packages/shared/src/utils/artifacts.ts:34-40 | a version is found exactly when the list is non-empty, and it is always one of the artifact's versions |
| Artifacts.GetArtifactContent | packages/shared/src/utils/artifacts.ts:28-41 | a missing artifact fails with "No artifact found."; an artifact with no versions yields nothing without an error; otherwise the result is one of its versions |
| Artifacts.FindCurrentText | apps/agents/src/open-canvas/nodes/applyApprovedChanges.ts:30-36 | the version found carries the current index and is markdown text; nothing is found exactly when no version has both properties, with no fallback to the last version |
| Artifacts.AppendVersion | apps/agents/src/open-canvas/nodes/applyApprovedChanges.ts:54-59 | the new artifact keeps every earlier version in place, adds exactly the given version at the end and makes its index current |
| Artifacts.Revised | apps/agents/src/open-canvas/nodes/applyApprovedChanges.ts:48-52 | the revision keeps the previous version's title and type and carries the new index and body |
| Artifacts.LengthRuleIsMaxRule | apps/agents/src/open-canvas/nodes/applyApprovedChanges.ts:45 | on an artifact whose versions are numbered 1, 2, ... by position, "length + 1" equals "largest index + 1" |
| Artifacts.AppendKeepsIndexed | apps/agents/src/open-canvas/nodes/applyApprovedChanges.ts:45-59 | appending at "length + 1" keeps versions numbered by position, and the lookup then selects the new version |
| Artifacts.PositionalLookupAgrees | packages/shared/src/utils/artifacts.ts:34-40 | on a position-numbered artifact with a current index in range, looking up by index agrees with taking the element at that position |
| Artifacts.LengthRuleCanCollide | apps/agents/src/open-canvas/nodes/applyApprovedChanges.ts:45 | on an artifact not numbered by position the "length + 1" rule can reuse an existing index, and the lookup then keeps returning the older version |
| ApplyApprovedChanges.CommitUpdate | apps/agents/src/open-canvas/nodes/applyApprovedChanges.ts:45-61 | the update appends exactly one revision of the current version at "length + 1" with the given body, clears the proposal and the approval, and touches nothing else |
| ApplyApprovedChanges.ApplyApprovedChanges | apps/agents/src/open-canvas/nodes/applyApprovedChanges.ts:7-98 | never suspends; a missing proposal or artifact and an empty current or proposed text fail with their messages; a known operation with no current text version fails with "Previous content not found"; a theme operation with a current text version always commits, and so does a highlight operation whose selection occurs in the body; a highlight commit appends the body with its first occurrence replaced; any other operation fails |
| ApplyApprovedChanges.StaleSelectionFails | apps/agents/src/open-canvas/nodes/applyApprovedChanges.ts:39-42 | a highlight proposal whose selected text no longer occurs in the current body fails with "Selected text not found in current content" |
| ApplyApprovedChanges.UnknownOperationFails | apps/agents/src/open-canvas/nodes/applyApprovedChanges.ts:66-97 | an operation tag that is neither the highlight tag nor "language", "format" or "copyedit" (including a missing one) fails with "Unknown change type" |
| ApplyApprovedChanges.HighlightCommitSplices | apps/agents/src/open-canvas/nodes/applyApprovedChanges.ts:39-51 | the committed body is the old body up to the first occurrence of the selection, then the proposed text, then the rest after the selection |
| ApplyApprovedChanges.ThemeCommitWritesProposal | apps/agents/src/open-canvas/nodes/applyApprovedChanges.ts:65-95 | a theme commit appends exactly one version, numbered length + 1, that copies the previous text version with the proposed text as its body, keeps every old version and makes the new one current |
| ApplyApprovedChanges.CommitKeepsIndexed | apps/agents/src/open-canvas/nodes/applyApprovedChanges.ts:45-59 | a commit keeps position numbering, and the new version becomes the one the lookup selects |
| ApplyApprovedChanges.EmptyProposalRefused | apps/agents/src/open-canvas/nodes/applyApprovedChanges.ts:21-23 | a proposal that would delete the text, i.e. one with an empty proposed text, can never be committed |
| RejectChanges.RejectChanges | apps/agents/src/open-canvas/nodes/rejectChanges.ts:3-14 | the update clears the proposal and the approval result and writes nothing else: no artifact, no messages, no routing |
| RejectChanges.RejectIgnoresState | apps/agents/src/open-canvas/nodes/rejectChanges.ts:3-14 | the update is the same for every input state |
| RejectChanges.RejectLeavesArtifact | apps/agents/src/open-canvas/nodes/rejectChanges.ts:3-14 | applying the rejection keeps the artifact, the messages and the routing field, clears the approval fields, and applying it again changes nothing |
| HumanApprover.HumanApprover | apps/agents/src/open-canvas/nodes/humanApprover.ts:12-36 | fails with "No approval result available" exactly when there is no decision; otherwise routes to "applyApprovedChanges" iff approved and to "rejectChanges" iff rejected, emits exactly one human message and leaves artifact, proposal and decision alone |
| HumanApprover.NoteMatchesRoute | apps/agents/src/open-canvas/nodes/humanApprover.ts:28-35 | the message says the changes were approved exactly when the route is the apply node, and rejected exactly when it is the reject node |
| HumanApprover.ApproverIgnoresProposal | apps/agents/src/open-canvas/nodes/humanApprover.ts:15-18 | whether a proposal is present has no effect on the result |
| State.SummaryMessageIff | apps/agents/src/open-canvas/state.ts:21-45 | a message is a summary exactly when it is an object whose "additional_kwargs", or whose "kwargs"."additional_kwargs", sets the summary flag to true; non-objects never are |
| State.SummaryFlagIsStrict | apps/agents/src/open-canvas/state.ts:26-33 | only the boolean true marks a summary; any other flag value, truthy or not, does not |
| State.ReduceMessages | apps/agents/src/open-canvas/state.ts:95-98 | the visible message list only grows: the old list followed by the update's messages |
| State.ReduceInternalMessages | apps/agents/src/open-canvas/state.ts:76-90 | an update whose latest message is a summary empties the internal list; any other update appends its messages after the old ones |
| State.SummaryClearsOnlyInternal | apps/agents/src/open-canvas/state.ts:76-98 | a summary update empties the internal list while the visible list keeps its old messages and grows |
| State.ReducersAgreeWithoutSummary | apps/agents/src/open-canvas/state.ts:76-98 | without a summary as the latest message both reducers compute the same list |
| State.EarlierSummaryIsKept | apps/agents/src/open-canvas/state.ts:78-87 | only the latest message of a batch is inspected: a summary followed by an ordinary message clears nothing and both are appended |
| State.ApplyUpdate | apps/agents/src/open-canvas/state.ts:71-190 | an update changes only the channels it writes: both message lists go through their reducers, the artifact, routing and approval fields are replaced by the written value, an absent key keeps its value, and the highlight and theme flags are never touched by a node update |
| State.ClearApprovalIdempotent | apps/agents/src/open-canvas/state.ts:178-183 | clearing the proposal and the approval result changes only those two fields, and doing it twice equals doing it once |
| UpdateHighlightedText.RequestText | apps/agents/src/open-canvas/nodes/updateHighlightedText.ts:122-134 | the request is the last message's string content; with no messages, or a last message whose content is not a string, it is "Update the text" |
| UpdateHighlightedText.RequestIsLastMessage | apps/agents/src/open-canvas/nodes/updateHighlightedText.ts:122-134 | whatever came before, a last message with string content supplies the request verbatim, whichever role sent it |
| UpdateHighlightedText.HighlightPromptFilled | apps/agents/src/open-canvas/nodes/updateHighlightedText.ts:15-31 | when the selection and the block contain no '{', the prompt is the template with the selection, the block, an empty info section and the request in their four slots |
| UpdateHighlightedText.SelectionCanCaptureBlock | apps/agents/src/open-canvas/nodes/updateHighlightedText.ts:128-134 | a selection that is literally "{textBlocks}" is itself filled by the block on the next step, so the block lands in the selection slot and the block slot keeps the placeholder text |
| UpdateHighlightedText.AskForRewrite | apps/agents/src/open-canvas/nodes/updateHighlightedText.ts:115-170 | the first pass never commits: when the configured model replies it always suspends with "Please review changes", proposing the reply in place of the whole markdown block and tagging the operation with the selection and block; when setting up or calling the model fails it fails with that error prefixed "Failed to update text: " |
| UpdateHighlightedText.CommitProposal | apps/agents/src/open-canvas/nodes/updateHighlightedText.ts:49-92 | a missing proposal or artifact fails with "Missing required data to apply changes"; a success needs a current text version, non-empty texts and the selection in the body, appends the body with its first occurrence replaced at "length + 1", and clears the proposal and approval |
| UpdateHighlightedText.UpdateHighlightedText | apps/agents/src/open-canvas/nodes/updateHighlightedText.ts:36-171 | a rejection only clears the approval fields; an approval runs the commit; a first pass never commits, fails on a missing highlight or artifact and on an empty selection or block, and otherwise suspends exactly when the model replies, with the whole block as the text to replace |
| UpdateHighlightedText.ProposalIsModelReply | apps/agents/src/open-canvas/nodes/updateHighlightedText.ts:117-162 | the proposed text is the model's reply to the filled prompt, or "" when the reply is not a string |
| UpdateHighlightedText.CommitAgreesWithApplyNode | apps/agents/src/open-canvas/nodes/updateHighlightedText.ts:46-93 | for a highlight proposal, the second pass commits exactly when the separate apply node would, and then with the same update |
| UpdateHighlightedText.CommitIgnoresOperation | apps/agents/src/open-canvas/nodes/updateHighlightedText.ts:46-93 | the second pass never reads the operation tag: any metadata gives the same result |
| UpdateHighlightedText.RejectKeepsArtifact | apps/agents/src/open-canvas/nodes/updateHighlightedText.ts:95-99 | after a rejection the state equals the old state with only the proposal and the approval result cleared |
| Graph.GraphShape | apps/agents/src/open-canvas/index.ts:18-68 | the compiled graph runs start to the path generator, then to the theme node or the highlight node, and both of those go straight to the end |
| Graph.ApprovalNodesNotWired | apps/agents/src/open-canvas/index.ts:18-68 | none of the approver, apply and reject nodes is a node of the graph or the target of any edge |
| Graph.RouteNode | apps/agents/src/open-canvas/index.ts:8-16 | an unset or empty routing field fails with "'next' state field not set."; otherwise the whole state is sent to the node it names |
| Graph.Conclude | apps/agents/src/open-canvas/index.ts:67-68 | a node update is applied to the state and the run ends; a suspension becomes an interrupt carrying the state and the proposal; an error ends the run with that error |
| Graph.RunFromRouter | apps/agents/src/open-canvas/index.ts:8-68 | a run dispatches to the theme or highlight node named in the routing field, fails when that field is unset, and can only be interrupted in the highlight node |
| Graph.FirstHighlightRunNeverCommits | apps/agents/src/open-canvas/index.ts:28-68 | a first highlight run never finishes with a commit: it is interrupted or fails |
| ApprovalFlow.Propose | apps/agents/src/open-canvas/nodes/updateHighlightedText.ts:102-162 | a proposal round awaits a decision exactly when the highlight node suspends, recording its proposal in the state; a failed round leaves the state unchanged |
| ApprovalFlow.DecideViaApprover | apps/agents/src/open-canvas/nodes/humanApprover.ts:22-35 | deciding through the approver node and then the apply or reject node always ends the round |
| ApprovalFlow.DecideViaResume | apps/agents/src/open-canvas/nodes/updateHighlightedText.ts:46-100 | deciding by resuming the highlight node with the decision always ends the round |
| ApprovalFlow.ApproveCommits | apps/agents/src/open-canvas/nodes/updateHighlightedText.ts:46-93 | approving a proposal commits the same artifact along both decision paths and clears the proposal and decision; when the commit is impossible both paths fail and leave the artifact alone |
| ApprovalFlow.RejectRestores | apps/agents/src/open-canvas/nodes/updateHighlightedText.ts:95-99 | rejecting along either path leaves the artifact as it was before the proposal and clears the proposal and decision |
| ApprovalFlow.ApproveViaResume | apps/agents/src/open-canvas/nodes/updateHighlightedText.ts:46-93 | re-entering the highlight node with an approval commits the artifact `Committed` describes and clears the proposal and decision, and fails with the artifact kept when nothing can be committed |
| ApprovalFlow.ApproveViaApprover | apps/agents/src/open-canvas/nodes/humanApprover.ts:12-36 | for any state holding an artifact and a pending highlight proposal, approving through the approver and the apply node commits what `Committed` describes and clears the proposal and decision, or fails with the artifact kept |
| ApprovalFlow.RejectViaResume | apps/agents/src/open-canvas/nodes/updateHighlightedText.ts:95-99 | re-entering the highlight node with a rejection keeps the artifact and clears the proposal and decision |
| ApprovalFlow.RejectViaApprover | apps/agents/src/open-canvas/nodes/rejectChanges.ts:3-14 | from any state, rejecting through the approver and the reject node keeps the artifact and clears the proposal and decision |
| ApprovalFlow.ProposalIsWholeBlock | apps/agents/src/open-canvas/nodes/updateHighlightedText.ts:152-161 | the text proposed for replacement is the whole markdown block, not just the selection |
| ApprovalFlow.StaleSelectionRejected | apps/agents/src/open-canvas/nodes/updateHighlightedText.ts:70-73 | if the document changed during review so that the block no longer occurs, approving fails with "Selected text not found in current content" |
| ApprovalFlow.EmptyReplyNotApprovable | apps/agents/src/open-canvas/nodes/updateHighlightedText.ts:147-149 | a non-string model reply becomes an empty proposal, which approval along either path rejects |
| ApprovalFlow.RoundKeepsIndexed | apps/agents/src/open-canvas/nodes/updateHighlightedText.ts:74-92 | a committed round keeps position numbering, and the new version becomes the current one |
| ApprovalFlow.FirstOccurrenceWins | apps/agents/src/open-canvas/nodes/applyApprovedChanges.ts:39-51 | for every artifact and proposal, approval replaces the block at its first position in the body and keeps everything after it, later copies of the block included, whichever copy the user highlighted |
| RewriteArtifactTheme.SelectedTheme | apps/agents/src/open-canvas/nodes/rewriteArtifactTheme.ts:131-142 | language wins whenever it is set, format only when language is not, copyedit only when neither is, and no theme exactly when none of the three flags is set |
| RewriteArtifactTheme.ThemePromptWrapsBody | apps/agents/src/open-canvas/nodes/rewriteArtifactTheme.ts:131-139 | the prompt is the chosen theme's instructions, then the body, then the closing part of the template |
| RewriteArtifactTheme.ThinkingNotes | apps/agents/src/open-canvas/nodes/rewriteArtifactTheme.ts:148-159 | a thinking model yields exactly one AI note, with a "thinking-" id and the extracted reasoning; any other model yields none |
| RewriteArtifactTheme.ArticleRewrite | apps/agents/src/open-canvas/nodes/rewriteArtifactTheme.ts:59-95 | an article is rewritten exactly when the model call succeeds; it keeps index, title and author and takes the reply, with any reasoning removed, as its body |
| RewriteArtifactTheme.RewriteArticles | apps/agents/src/open-canvas/nodes/rewriteArtifactTheme.ts:56-96 | no articles give an empty list without consulting the flags; otherwise no theme fails with "No theme selected"; success rewrites every article in order; failure reports the first article whose rewrite fails |
| Seqs.MapResults | apps/agents/src/open-canvas/nodes/rewriteArtifactTheme.ts:56-96 | the awaited per-element loop succeeds with one result per element, each the function's result on that element, whenever every element succeeds, and otherwise fails with the error of the first failing element |
| RewriteArtifactTheme.RewriteV4 | apps/agents/src/open-canvas/nodes/rewriteArtifactTheme.ts:50-117 | looks the current version up by position: out of range fails as reading `articles` of undefined, a version without articles fails with "currentContent.articles is not iterable", an article whose rewrite fails fails with that error; it succeeds exactly when every article rewrites, appending one snapshot that keeps the old snapshot's index and title with the rewritten articles, and writes empty message lists |
| RewriteArtifactTheme.RewriteV3 | apps/agents/src/open-canvas/nodes/rewriteArtifactTheme.ts:118-178 | no artifact or no versions fails with "No artifact found", a non-markdown current version with "Current artifact content is not markdown", no theme with "No theme selected", a failed model call with its error; it succeeds exactly when the model replies, appending the reply as a revision at "length + 1" and writing the thinking note, if any, to both message lists |
| RewriteArtifactTheme.RewriteArtifactTheme | apps/agents/src/open-canvas/nodes/rewriteArtifactTheme.ts:32-180 | never suspends; a model-name error and a missing assistant id fail first; then a state whose first version carries articles takes the multi-article path and any other the single-body path; every success appends exactly one version after the old ones, makes "length + 1" current and leaves proposal, approval and routing alone |
| RewriteArtifactTheme.EmptySnapshotNeedsNoTheme | apps/agents/src/open-canvas/nodes/rewriteArtifactTheme.ts:56-72 | a snapshot without articles is copied as a new version even when no theme is selected |
| RewriteArtifactTheme.SingleBodyNeedsTheme | apps/agents/src/open-canvas/nodes/rewriteArtifactTheme.ts:130-142 | a markdown version with no theme flag set fails with "No theme selected" |
| RewriteArtifactTheme.SingleBodyKeepsIndexed | apps/agents/src/open-canvas/nodes/rewriteArtifactTheme.ts:161-172 | a single-body rewrite keeps position numbering and the new version becomes the current one |
| RewriteArtifactTheme.SnapshotKeepsOldIndex | apps/agents/src/open-canvas/nodes/rewriteArtifactTheme.ts:99-111 | the appended snapshot keeps the index of the snapshot it was copied from, so it differs from the new current index and position numbering breaks |
| RewriteUtils.ValidateState | apps/agents/src/open-canvas/nodes/rewrite-artifact/utils.ts:15-33 | fails with "No artifact found" exactly when there is no artifact or no version, then with "No recent human message found" exactly when no internal message is human; on success returns the looked-up current version and the last human message |
| RewriteUtils.LaterReplyKeepsRequest | apps/agents/src/open-canvas/nodes/rewrite-artifact/utils.ts:25-27 | appending a non-human message does not change which request is found |
| RewriteUtils.TitleSection | apps/agents/src/open-canvas/nodes/rewrite-artifact/utils.ts:38-41 | the title section is non-empty exactly when a non-empty title is given for a non-code artifact, and then introduces that title |
| RewriteUtils.TypeText | apps/agents/src/open-canvas/nodes/rewrite-artifact/utils.ts:43-46 | the type slot receives the tool call's type, or "undefined" when there is no tool call |
| RewriteUtils.MetaPromptFilled | apps/agents/src/open-canvas/nodes/rewrite-artifact/utils.ts:35-47 | the meta prompt is the template with the type and the title section in their slots |
| RewriteUtils.BuildPromptFilled | apps/agents/src/open-canvas/nodes/rewrite-artifact/utils.ts:55-67 | for a body without '{', the prompt holds the body and then, for a new type, the meta prompt, and nothing else in their slots |
| RewriteUtils.ContentCapturesMetaPrompt | apps/agents/src/open-canvas/nodes/rewrite-artifact/utils.ts:62-66 | a body that is literally "{updateMetaPrompt}" takes the meta prompt's place, and the real meta slot keeps its placeholder text |
| RewriteUtils.CreateNewArtifactContent | apps/agents/src/open-canvas/nodes/rewrite-artifact/utils.ts:86-103 | the new version is markdown text at "length + 1" with the new body; it takes the tool call's title when that is non-empty and keeps the current title otherwise |
| RewriteUtils.NewContentBecomesCurrent | apps/agents/src/open-canvas/nodes/rewrite-artifact/utils.ts:93-96 | on a position-numbered artifact the created version, once appended, keeps the numbering and is what both lookups select |
| AgentUtils.EnsureStoreInConfig | apps/agents/src/utils.ts:28-35 | the store is returned exactly when the configuration carries one; otherwise the error names the missing store |
| AgentUtils.FormatArtifactContent | apps/agents/src/utils.ts:37-46 | the text starts with the title/type header and then shows the body: all of it, or, when shortening, its first 500 characters (the whole body if shorter) |
| AgentUtils.FormatArtifactContentWithTemplate | apps/agents/src/utils.ts:48-57 | a template without the "{artifact}" placeholder comes back unchanged |
| AgentUtils.FormatWithTemplateFills | apps/agents/src/utils.ts:48-57 | when the text before the placeholder holds no '{', the formatted artifact lands exactly where "{artifact}" stood and the rest of the template is kept |
| AgentUtils.GetModelConfig | apps/agents/src/utils.ts:59-199 | an empty model name fails with "Model name is missing in config."; otherwise the call succeeds exactly when some provider rule matches, the provider is the one that rule names, and every other failure is "Unknown model provider" |
| AgentUtils.ModelNamePerProvider | apps/agents/src/utils.ts:83-193 | the model name returned per provider: Azure drops "azure/" and, for tool calling, turns an "o1" model into "gpt-4o"; OpenAI does the same swap; Anthropic keeps the name; Fireworks answers every tool call with the Llama tool model; Gemini gives a "thinking" model the Gemini tool model for tool calling; groq and ollama drop their prefix |
| AgentUtils.SelectedRule | apps/agents/src/utils.ts:83-198 | the first rule of the provider table whose test passes; no earlier rule passes, and none is chosen only when no rule passes |
| AgentUtils.RuleTests | apps/agents/src/utils.ts:83-198 | each row's test is the source's guard: "azure/" prefix; "gpt-", "o1" or "o3" inside; "claude-" inside; "fireworks/" inside; "groq/" prefix; "gemini-" inside (twice); "ollama-" prefix |
| AgentUtils.GetModelConfigFollowsRules | apps/agents/src/utils.ts:83-198 | for a non-empty name the router succeeds iff some table row passes, picks the provider of the first passing row, and otherwise fails with "Unknown model provider" |
| AgentUtils.RouteProviderIsTable | apps/agents/src/utils.ts:83-198 | the provider chosen by the if-chain equals the provider of the first passing table row, and is empty when no row passes |
| AgentUtils.OpenAIRow | apps/agents/src/utils.ts:110-126 | a name without the "azure/" prefix that mentions "gpt-", "o1" or "o3" is routed to OpenAI, before the Claude rule is consulted |
| AgentUtils.ClaudeRow | apps/agents/src/utils.ts:128-134 | a name that reaches the Claude guard and mentions "claude-" is routed to Anthropic |
| AgentUtils.FireworksRow | apps/agents/src/utils.ts:136-150 | a name that reaches the Fireworks guard and mentions "fireworks/" is routed to Fireworks |
| AgentUtils.LaterRows | apps/agents/src/utils.ts:152-198 | past the Fireworks guard, "groq/" wins over "gemini-", which wins over "ollama-"; a name matching none of them is unroutable |
| AgentUtils.SecondGeminiRuleUnreachable | apps/agents/src/utils.ts:175-187 | the second "gemini-" branch is never the chosen one, because the first catches every name it would |
| AgentUtils.OpenAIRuleComesFirst | apps/agents/src/utils.ts:110-126 | any non-Azure name containing "o1", e.g. "claude-o1", is routed to OpenAI; for tool calling the model becomes "gpt-4o" |
| AgentUtils.PrefixRulesStrip | apps/agents/src/utils.ts:83-103 | the "azure/" prefix is removed from the model name and the provider is azure_openai; a "groq/" name, and an "ollama-" name, that no earlier rule claims loses its prefix and goes to Groq or Ollama |
| AgentUtils.CleanBase64 | apps/agents/src/utils.ts:308-310 | the result is a suffix of the input, and an input not starting with "data:" is unchanged |
| AgentUtils.CleanBase64DataUrl | apps/agents/src/utils.ts:308-310 | a data URL "data:<mime>;base64,<payload>" whose mime type has no ';' and no line terminator is reduced to exactly its payload |
| AgentUtils.CleanBase64Plain | apps/agents/src/utils.ts:308-310 | cleaning a plain (non data-URL) string is idempotent |
| AgentUtils.GeminiPartOf | apps/agents/src/utils.ts:368-385 | a PDF becomes inline data holding the cleaned base64; a "text" document keeps its data as text; any other non-"text/" type fails with "Unsupported document type: " followed by the type |
| AgentUtils.GeminiDocumentMessages | apps/agents/src/utils.ts:365-387 | succeeds iff every document converts, with one part per document in order; otherwise fails with the error of the first document that does not convert |
| AgentUtils.TextsOf | apps/agents/src/utils.ts:535-538 | keeps exactly the text parts, in order; all-text input gives every text, input without text gives nothing |
| AgentUtils.GetStringFromContent | apps/agents/src/utils.ts:531-539 | string content is returned as is; content with no text part gives "" |
| AgentUtils.TextsOfSnoc | apps/agents/src/utils.ts:535-538 | appending a part extends the text list by that part's text if it has one and leaves it unchanged otherwise |
| AgentUtils.GetStringFromContentSnoc | apps/agents/src/utils.ts:531-539 | appending a text part to content with some text adds a newline and the new text; appending a non-text part changes nothing |
| AgentUtils.FormatMessage | apps/agents/src/utils.ts:483-497 | each message is rendered starting with an opening tag named by its type and carrying its position as index |
| AgentUtils.FormatMessageLayout | apps/agents/src/utils.ts:483-497 | a rendered message is exactly its opening tag, then the message's text, then the closing tag "\n</type>" |
| AgentUtils.FormatMessageKeepsText | apps/agents/src/utils.ts:483-497 | two messages of one type rendered at one position give the same string only if their texts agree: the text can be read back from the rendering |
| AgentUtils.FormattedList | apps/agents/src/utils.ts:482-498 | one rendering per message, in order, each tagged with its own position |
| AgentUtils.FormatMessages | apps/agents/src/utils.ts:481-500 | no messages render as the empty string, one message as its own rendering, and a longer list starts with the first message rendered at index 0 |
| AgentUtils.FormatMessagesSnoc | apps/agents/src/utils.ts:481-500 | appending a message to a non-empty list appends a newline and that message rendered at the next index |
| ClientMerge.FenceBody | apps/web/src/contexts/utils.ts:18-21 | a recognised fence is at least the eight fence characters longer than the body it encloses |
| ClientMerge.FenceBodyIff | apps/web/src/contexts/utils.ts:18-21 | the fence matcher returns a body exactly when the text is a fence: three backticks, a run of word characters or dashes, a newline, the body, a newline and three closing backticks spanning the whole text |
| ClientMerge.FenceBodySound | apps/web/src/contexts/utils.ts:18-21 | every body the matcher returns comes with a language tag that makes the text a fence around it |
| ClientMerge.FenceBodyComplete | apps/web/src/contexts/utils.ts:18-21 | every fence, whatever its language tag, is recognised, and the matcher returns its body |
| ClientMerge.RemoveCodeBlockFormatting | apps/web/src/contexts/utils.ts:15-30 | the text is either returned unchanged or stripped of at least the fence characters |
| ClientMerge.FenceUnwraps | apps/web/src/contexts/utils.ts:15-30 | a fenced block with a word-or-dash language tag is replaced by its trimmed body |
| ClientMerge.NonFenceUnchanged | apps/web/src/contexts/utils.ts:15-30 | text that is not a fence, including the empty text, comes back unchanged |
| ClientMerge.ReplaceOrInsertMessageChunk | apps/web/src/contexts/utils.ts:32-68 | a successful merge needs a string chunk and either keeps the message count or appends the chunk as an AI message; the only failures are the two "not a string" errors |
| ClientMerge.ReplaceOrInsertCases | apps/web/src/contexts/utils.ts:36-67 | fails with "Message content is not a string" exactly when the first message with the chunk's id holds structured content; with a known id the chunk text is appended to that message and every other message is kept; with an unknown id the chunk is appended at the end |
| ClientMerge.KnownIdExtended | apps/web/src/contexts/utils.ts:36-61 | for the first message carrying the chunk's id: structured content fails, and otherwise that message alone becomes an AI message whose text is extended by the chunk |
| ClientMerge.ApplyChunks | apps/web/src/contexts/utils.ts:32-68 | feeding a stream of chunks never shortens the message list |
| ClientMerge.StreamExtendsInPlace | apps/web/src/contexts/utils.ts:50-61 | streaming text chunks for an existing AI message extends that message by their concatenated text and leaves every other message alone |
| ClientMerge.StreamBuildsOneMessage | apps/web/src/contexts/utils.ts:50-67 | streaming text chunks for a new id appends exactly one AI message whose text is the concatenation of all the chunks |
| ClientMerge.CreateNewGeneratedArtifactFromTool | apps/web/src/contexts/utils.ts:70-85 | a version is produced exactly for a tool response of type "text"; it is markdown at index 1 with the title and body, defaulting to "" when missing |
| ClientMerge.GeneratedVersionIsCurrent | apps/web/src/contexts/utils.ts:70-85 | a first artifact made of the generated version is numbered by position and selects it |
| ClientMerge.ValidateNewArtifactIndex | apps/web/src/contexts/utils.ts:87-107 | the index is "length + 1" for a first update and "length" for a later one |
| ClientMerge.GuessIgnored | apps/web/src/contexts/utils.ts:87-107 | whatever index the caller guesses, the result is the same: the guess never matters |
| ClientMerge.OverwriteVersions | apps/web/src/contexts/utils.ts:138-146 | rewriting the versions that carry the current index keeps the version count |
| ClientMerge.UpdateHighlightedMarkdown | apps/web/src/contexts/utils.ts:109-162 | a first update appends a copy of the previous current version with the new body at "length + 1" and makes it current; a later update makes "length" current and overwrites the body of the versions carrying that index in place |
| ClientMerge.RewrittenTitle | apps/web/src/contexts/utils.ts:202 | the title is the rewrite's title when given, else the previous current version's title, else "" |
| ClientMerge.UpdateRewrittenArtifact | apps/web/src/contexts/utils.ts:174-230 | a first update appends a markdown version at "length + 1" with the chosen title and makes it current; a later update makes "length" current and overwrites in place |
| ClientMerge.HighlightStreamSettles | apps/web/src/contexts/utils.ts:109-162 | when no old version already carries the number "length + 1", a first update followed by a later update equals a single first update with the later body: the stream ends with one new version |
| ClientMerge.RewriteStreamSettles | apps/web/src/contexts/utils.ts:174-230 | under the same condition the same holds for rewrites: the title is fixed by the first update, and the body is the last one streamed |
| ClientMerge.LaterUpdateTouchesNewest | apps/web/src/contexts/utils.ts:137-146 | on a position-numbered artifact a later update rewrites only the newest version's body and keeps it current |
| ClientMerge.ExtractChunkFields | apps/web/src/contexts/utils.ts:279-304 | a chunk without truthy data yields the empty fields; otherwise each field is the value at its property path under `data` (`metadata.run_id`, `event`, `metadata.langgraph_node`, `data.input`, `data.chunk`, `data.output`, `name`), with "" for a falsy event or node name |
| ClientMerge.ChunkFieldsRoundTrip | apps/web/src/contexts/utils.ts:294-303 | for any chunk whose data holds metadata and inner data objects, whatever else it holds, extraction reads the run id and node name from the metadata, the input, chunk and output from the inner data, and the event and task name from the data, with "" for a missing or falsy event or node name |
| TextRenderer.CleanText | apps/web/src/components/artifacts/TextRenderer.tsx:24-26 | cleaning never lengthens the text |
| TextRenderer.CleanTextDropsEscapes | apps/web/src/components/artifacts/TextRenderer.tsx:24-26 | cleaning equals deleting every backslash that stands right before a newline, and nothing else |
| TextRenderer.CleanTextKeepsPlainText | apps/web/src/components/artifacts/TextRenderer.tsx:24-26 | text with no backslash-newline pair is returned unchanged |
| TextRenderer.SplitIntoBlocks | apps/web/src/components/artifacts/TextRenderer.tsx:31-67 | the loop's blocks are exactly the recombination of the parts (a heading opens a block, a blank-line run closes one, anything else is appended), and every block is non-empty and trimmed |
| TextRenderer.RecombineStep | apps/web/src/components/artifacts/TextRenderer.tsx:39-59 | one loop step: a heading or separator closes the block being built and starts a new one (the heading, or empty); other parts are appended to it |
| TextRenderer.RecombineTrimmed | apps/web/src/components/artifacts/TextRenderer.tsx:44-66 | every block the recombination produces is non-empty and already trimmed, so the final filter removes nothing |
| TextRenderer.NonBlank | apps/web/src/components/artifacts/TextRenderer.tsx:66 | the filter keeps only blocks that are not blank, and keeps a list without blank blocks whole |
| TextRenderer.MovedFrom | apps/web/src/components/artifacts/TextRenderer.tsx:77-81 | the key map sends a key to the last original position whose block starts with it, and to nothing when no block does |
| TextRenderer.OriginalBlocksMap | apps/web/src/components/artifacts/TextRenderer.tsx:77-81 | the map built from the original blocks holds exactly the keys of those blocks, each mapped to its last position |
| TextRenderer.MarkEdited | apps/web/src/components/artifacts/TextRenderer.tsx:84-109 | after the first loop, every edited position whose block differs from the original at that position has an entry, taken from the moved block when its key points elsewhere, and no other position has one |
| TextRenderer.MarkDeleted | apps/web/src/components/artifacts/TextRenderer.tsx:111-123 | the second loop adds, for each original position past the end of the edited list, an entry pairing the block with "", and adds nothing else |
| TextRenderer.FindDifferentBlocks | apps/web/src/components/artifacts/TextRenderer.tsx:72-126 | the map returned equals the declarative diff: changed positions and deleted trailing positions, with their entries |
| TextRenderer.SameBlocksNoDiff | apps/web/src/components/artifacts/TextRenderer.tsx:72-126 | comparing a block list with itself reports no change |
| TextRenderer.DiffEntries | apps/web/src/components/artifacts/TextRenderer.tsx:84-123 | an unchanged position has no entry; an edited position has an entry exactly when its block differs, carrying the new block; every original position past the edited list is reported as deleted |
| TextRenderer.MovedBlockReported | apps/web/src/components/artifacts/TextRenderer.tsx:92-100 | for any block list, swapping two blocks whose keys occur nowhere else reports exactly those two positions, each paired with the swapped-in block's own old text, so a moved block looks unchanged in its entry |
| TextRenderer.GetChangeSummary | apps/web/src/components/artifacts/TextRenderer.tsx:129-138 | empty to non-empty is "Added new content", non-empty to empty is "Removed content", and texts of equal length in UTF-16 code units are "Modified content" |
| TextRenderer.SummaryCountsCharacters | apps/web/src/components/artifacts/TextRenderer.tsx:133-135 | for two non-empty texts of different UTF-16 length, the summary says "Added" or "Removed" followed by the difference in UTF-16 code units in decimal and "characters" |
| TextRenderer.AstralSwapCountsAsAdded | apps/web/src/components/artifacts/TextRenderer.tsx:133 | a character outside the Basic Multilingual Plane counts as two code units, so replacing "é" with an emoji is "Added 1 characters" |
| TextRenderer.SetBlock | apps/web/src/components/artifacts/TextRenderer.tsx:320-321 | writing a block at a position replaces only that position, growing the list with empty blocks when the position is past the end |
| TextRenderer.OverwriteCurrentText | apps/web/src/components/artifacts/TextRenderer.tsx:327-338 | only markdown versions carrying the current index get the new body; every other version is kept |
| TextRenderer.AcceptChange | apps/web/src/components/artifacts/TextRenderer.tsx:310-349 | without an editable markdown artifact nothing changes; otherwise the accepted edit (or "" for an unknown position) is written into the blocks, the joined text replaces the current body, that position's pending edit is dropped, and the editing flag stays set only while edits remain |
| TextRenderer.RejectChange | apps/web/src/components/artifacts/TextRenderer.tsx:352-362 | rejecting drops that position's pending edit and changes neither the artifact nor the blocks; afterwards the editing flag is set exactly when it was set before and edits remain |
| TextRenderer.RejectEachDrops | apps/web/src/components/artifacts/TextRenderer.tsx:352-362 | rejecting a list of positions one at a time drops exactly those positions, keeps the artifact and blocks, and leaves the flag set only while edits remain |
| TextRenderer.RejectEachIsRejectAll | apps/web/src/components/artifacts/TextRenderer.tsx:352-399 | rejecting every pending position one at a time ends in the same state as rejecting all changes at once |
| TextRenderer.RejectThenRejectAll | apps/web/src/components/artifacts/TextRenderer.tsx:352-399 | rejecting one position and then all changes is the same as rejecting all changes |
| TextRenderer.ApplyEditsPointwise | apps/web/src/components/artifacts/TextRenderer.tsx:372-377 | after writing every pending edit, each position holds its edit if it has one and its old block otherwise |
| TextRenderer.AcceptAllChanges | apps/web/src/components/artifacts/TextRenderer.tsx:365-399 | without an editable markdown artifact nothing changes; otherwise every pending edit is written into the block list, the blocks joined by blank lines replace each current markdown version, the current index is kept, and all pending edits and the editing flag are cleared |
| TextRenderer.AcceptAllWritesEveryEdit | apps/web/src/components/artifacts/TextRenderer.tsx:372-380 | in the block list that accepting all writes, every pending position holds its edited block, every other position its old block (or "" in a hole), and the list is at least as long as before |
| TextRenderer.RejectAllChanges | apps/web/src/components/artifacts/TextRenderer.tsx:402-405 | all pending edits are dropped and the editing flag is reset while the artifact stays as it is |
| TextRenderer.AcceptOneIsAcceptAll | apps/web/src/components/artifacts/TextRenderer.tsx:310-399 | with a single pending edit, accepting it alone equals accepting all |
| TextRenderer.AcceptAllOrderFree | apps/web/src/components/artifacts/TextRenderer.tsx:375-377 | the order in which pending edits are written does not matter |
| TextRenderer.GrownLengthIsMax | apps/web/src/components/artifacts/TextRenderer.tsx:375-377 | the length the block list grows to depends only on which positions are written, not on their order |
| TextRenderer.GrownLengthBound | apps/web/src/components/artifacts/TextRenderer.tsx:375-377 | the grown list is at least as long as the old one and covers every written position, ending right after one of them unless it did not grow |
| DocsRoute.FirstMatch | apps/web/src/app/api/google/docs/route.ts:9 | the first position at or after the start where "/d/" is followed by at least one word character or dash; none when there is no such position |
| DocsRoute.ExtractDocId | apps/web/src/app/api/google/docs/route.ts:9-17 | no id exactly when the URL contains no "/d/" followed by an id character; an id found is non-empty and made only of letters, digits, '_' and '-' |
| DocsRoute.ExtractDocIdSound | apps/web/src/app/api/google/docs/route.ts:9-17 | the id returned is the maximal id run after the first "/d/" that starts one |
| DocsRoute.ExtractDocIdComplete | apps/web/src/app/api/google/docs/route.ts:9-17 | when the leftmost "/d/" followed by an id character is followed by the id run `id`, extraction returns exactly `id` |
| DocsRoute.ExtractDocIdIff | apps/web/src/app/api/google/docs/route.ts:9-17 | extraction returns an id exactly when that id is the whole run of id characters after the leftmost "/d/" that starts one |
| DocsRoute.DocumentLinkRoundTrip | apps/web/src/app/api/google/docs/route.ts:9-17 | a document link built from an id and a tail that does not continue the id gives back exactly that id |
| DocsRoute.FormattedNesting | apps/web/src/app/api/google/docs/route.ts:78-82 | a styled run is wrapped bold innermost, then italic, then underline, each marker present only when its style is set |
| DocsRoute.UnstyledParagraphIsPlain | apps/web/src/app/api/google/docs/route.ts:68-87 | a paragraph without text styles renders as the plain concatenation of its text runs |
| DocsRoute.HeadingLevel | apps/web/src/app/api/google/docs/route.ts:52 | the heading level is never 0: a non-number or 0 falls back to 1 |
| DocsRoute.OrOne | apps/web/src/app/api/google/docs/route.ts:52 | a parsed non-zero number is kept; a missing number or 0 becomes 1 |
| DocsRoute.HeadingLevelOfNamedStyle | apps/web/src/app/api/google/docs/route.ts:52 | the style "HEADING_n" has level n, and "HEADING_0" has level 1 |
| DocsRoute.HeadingStyleNamed | apps/web/src/app/api/google/docs/route.ts:51-52 | every "HEADING_" style counts as a heading, and its level is the parsed suffix or 1 |
| DocsRoute.ListText | apps/web/src/app/api/google/docs/route.ts:100-108 | the only failure of collecting a list item's text is a paragraph without elements |
| DocsRoute.HeadingParagraph | apps/web/src/app/api/google/docs/route.ts:51-65 | a heading paragraph contributes a block only when its text is not blank |
| DocsRoute.RegularParagraph | apps/web/src/app/api/google/docs/route.ts:66-91 | a regular paragraph contributes a block only when its formatted text is not blank |
| DocsRoute.ListItemParagraph | apps/web/src/app/api/google/docs/route.ts:97-113 | a list item contributes a block only when its text is not blank |
| DocsRoute.ElementBlock | apps/web/src/app/api/google/docs/route.ts:45-114 | every block contributed is not blank, and only paragraphs and list items can fail |
| DocsRoute.Step | apps/web/src/app/api/google/docs/route.ts:44-115 | one loop iteration adds at most one block, keeps all blocks non-blank, and an error stops the accumulation |
| DocsRoute.ConvertBody | apps/web/src/app/api/google/docs/route.ts:41-118 | a successful conversion yields at most one block per element, none of them blank |
| DocsRoute.ErrorPersists | apps/web/src/app/api/google/docs/route.ts:44-115 | once an element has failed, the later elements cannot undo the failure |
| DocsRoute.ConvertConcat | apps/web/src/app/api/google/docs/route.ts:44-115 | converting two consecutive element lists concatenates their blocks |
| DocsRoute.ConvertElements | apps/web/src/app/api/google/docs/route.ts:42-115 | the imperative loop over the body computes exactly the declarative conversion |
| DocsRoute.ImportDoc | apps/web/src/app/api/google/docs/route.ts:4-143 | an invalid URL is answered with status 400 "Invalid Google Docs URL" exactly; an import reports the length of its content in UTF-16 code units and a non-empty title; every other failure is status 500 "Failed to fetch document" with details |
| DocsRoute.InvalidUrlNeverFetches | apps/web/src/app/api/google/docs/route.ts:9-15 | a URL without an id is refused before any fetch, whatever the fetch would do |
| DocsRoute.ImportedDocument | apps/web/src/app/api/google/docs/route.ts:31-132 | a fetched document gets its title or "Untitled Document"; without a body its content is the fallback text; otherwise it is the body's blocks joined by a blank line |
| DocsRoute.HeadingBlock | apps/web/src/app/api/google/docs/route.ts:51-65 | a non-blank heading of level n becomes n hashes, a space and the trimmed text |
| DocsRoute.NegativeHeadingLevelFails | apps/web/src/app/api/google/docs/route.ts:52-64 | a style such as "HEADING_-2" parses to a negative level, and repeating '#' a negative number of times fails the whole import with the range error |
| DocsRoute.NegativeHeadingLevel | apps/web/src/app/api/google/docs/route.ts:51-52 | "HEADING_-n" still counts as a heading and parses to level -n |
| DocsRoute.ParagraphBlock | apps/web/src/app/api/google/docs/route.ts:66-91 | a non-heading paragraph becomes its formatted text, untrimmed, or nothing when that text is blank |
| DocsRoute.TableBlock | apps/web/src/app/api/google/docs/route.ts:93-96 | any table becomes the fixed table placeholder comment |
| DocsRoute.ListItemBlock | apps/web/src/app/api/google/docs/route.ts:97-113 | a non-blank list item becomes "- " and its trimmed text when it has a list id, and "1. " and its trimmed text otherwise |
| DocsRoute.OtherElementSkipped | apps/web/src/app/api/google/docs/route.ts:44-115 | an element that is neither paragraph, table nor list item contributes nothing |
| DeprecatedUpdateArtifact.ContextStartIsHighlightStart | apps/deprecate/agents/src/open-canvas/nodes/updateArtifact.ts:69 | because "0 - 500" binds before the "or", the context window starts at the highlight start itself (0 when missing), not 500 characters earlier |
| DeprecatedUpdateArtifact.BeforeHighlightCases | apps/deprecate/agents/src/open-canvas/nodes/updateArtifact.ts:75-78 | the text before the highlight is empty for any non-negative start, the whole body when the start is missing, and counted from the end for a negative start |
| DeprecatedUpdateArtifact.SlicesInsideBody | apps/deprecate/agents/src/open-canvas/nodes/updateArtifact.ts:79-86 | for a range inside the body the highlighted slice is exactly that range, and the text after it is at most 500 characters following the end |
| DeprecatedUpdateArtifact.PartialPromptFilled | apps/deprecate/agents/src/open-canvas/nodes/updateArtifact.ts:88-93 | when the before-text and the highlight hold no '{', the prompt has the before-text, the highlight inside its tags and the after-text in their slots |
| DeprecatedUpdateArtifact.SpliceReplacesRange | apps/deprecate/agents/src/open-canvas/nodes/updateArtifact.ts:110-117 | for a range inside the body the new body is the text before the start, the reply, then the text from the end on; its length changes by the reply's length minus the range's |
| DeprecatedUpdateArtifact.SpliceSameTextIsIdentity | apps/deprecate/agents/src/open-canvas/nodes/updateArtifact.ts:110-117 | splicing a range back in with its own text gives the body unchanged |
| DeprecatedUpdateArtifact.UpdateBody | apps/deprecate/agents/src/open-canvas/nodes/updateArtifact.ts:55-133 | fails with "No artifact found", then the missing-highlight error, then the error of reading a missing body, then "No recent human message found", in that order; past those checks it fails exactly when the model call fails, with its error, and otherwise appends the current version with the reply spliced over the highlighted range |
| DeprecatedUpdateArtifact.UpdateArtifact | apps/deprecate/agents/src/open-canvas/nodes/updateArtifact.ts:29-54 | a model-name error and then a missing assistant id fail first; past them the result is the body update, run with the configured model when its provider mentions OpenAI or its name "3-5-sonnet", and with "gpt-4o" otherwise |
| DeprecatedUpdateArtifact.SplicedVersion | apps/deprecate/agents/src/open-canvas/nodes/updateArtifact.ts:119-129 | the new artifact appends exactly one revision of the current version at "length + 1" holding the spliced body and makes it current |
| DeprecatedUpdateArtifact.SplicedVersionReplacesHighlight | apps/deprecate/agents/src/open-canvas/nodes/updateArtifact.ts:110-129 | on a position-numbered artifact the appended version is current, keeps the numbering, and its body is the old one with the highlighted range replaced by the reply |
| DeprecatedRewriteTheme.SelectTheme | apps/deprecate/agents/src/open-canvas/nodes/rewriteArtifactTheme.ts:52-109 | a language always wins; then a reading level other than "pirate"; then "pirate"; then a length; then emojis; no theme exactly when none of these is set |
| DeprecatedRewriteTheme.ReadingLevelPhraseKnown | apps/deprecate/agents/src/open-canvas/nodes/rewriteArtifactTheme.ts:58-72 | the reading level gets a phrase exactly for "child", "teenager", "college" and "phd"; any other level leaves it empty |
| DeprecatedRewriteTheme.LengthPhraseKnown | apps/deprecate/agents/src/open-canvas/nodes/rewriteArtifactTheme.ts:83-97 | the length gets a phrase exactly for "shortest", "short", "long" and "longest"; any other length leaves it empty |
| DeprecatedRewriteTheme.ReadingLevelPromptWrapsBody | apps/deprecate/agents/src/open-canvas/nodes/rewriteArtifactTheme.ts:73-76 | the reading-level prompt is its instructions, then the body, then the template's closing part |
| DeprecatedRewriteTheme.TranslatePromptWrapsBody | apps/deprecate/agents/src/open-canvas/nodes/rewriteArtifactTheme.ts:53-56 | for a language without '{', the translation prompt is its instructions, then the body, then the closing part |
| DeprecatedRewriteTheme.LengthPromptWrapsBody | apps/deprecate/agents/src/open-canvas/nodes/rewriteArtifactTheme.ts:98-101 | the length prompt is its instructions, then the body, then the closing part |
| DeprecatedRewriteTheme.ThemePromptWrapsBody | apps/deprecate/agents/src/open-canvas/nodes/rewriteArtifactTheme.ts:52-106 | every theme's prompt is its instructions, then the body, then the closing part |
| DeprecatedRewriteTheme.ThemedVersion | apps/deprecate/agents/src/open-canvas/nodes/rewriteArtifactTheme.ts:128-139 | the new artifact appends exactly one revision of the current version at "length + 1" holding the rewritten body and makes it current |
| DeprecatedRewriteTheme.RewriteTheme | apps/deprecate/agents/src/open-canvas/nodes/rewriteArtifactTheme.ts:29-146 | fails on a model-name error, then a missing assistant id, "No artifact found", "Current artifact content is not markdown" and "No theme selected", in that order; past those it fails exactly when the model call fails, with its error, and otherwise appends the reply, reasoning removed, and writes the thinking note to both message lists |
| DeprecatedRewriteTheme.ThemedVersionKeepsIndexed | apps/deprecate/agents/src/open-canvas/nodes/rewriteArtifactTheme.ts:115-139 | on a position-numbered artifact the rewrite keeps the numbering and the earlier versions, and the new markdown version keeps the title and holds the reply or, for a thinking model, its response part |
| DeprecatedGenerateUtils.FormatNewArtifactPrompt | apps/deprecate/agents/src/open-canvas/nodes/generate-artifact/utils.ts:8-17 | the prompt is longer by the chain-of-thought warning exactly when the model name mentions "claude" |
| DeprecatedGenerateUtils.NewArtifactPromptShape | apps/deprecate/agents/src/open-canvas/nodes/generate-artifact/utils.ts:8-17 | the prompt is the instructions followed by the warning against chain of thought, which appears only for model names containing "claude" |
| DeprecatedGenerateUtils.CreateArtifactContent | apps/deprecate/agents/src/open-canvas/nodes/generate-artifact/utils.ts:19-30 | the first version of a generated artifact is markdown text numbered 1 with the tool call's title and body |
| DeprecatedGenerateUtils.GeneratedArtifactIsIndexed | apps/deprecate/agents/src/open-canvas/nodes/generate-artifact/utils.ts:19-30 | an artifact holding only the generated version is numbered by position and both lookups select that version |
| Seqs.FindFirst | apps/agents/src/open-canvas/nodes/applyApprovedChanges.ts:30-32 | the position found satisfies the test and no earlier one does; nothing is found exactly when no element satisfies it |
| Seqs.FindLast | apps/agents/src/open-canvas/nodes/rewrite-artifact/utils.ts:25-27 | the position found satisfies the test and no later one does; nothing is found exactly when no element satisfies it |
| Strings.IndexOf | apps/agents/src/open-canvas/nodes/applyApprovedChanges.ts:40 | the position returned is the first occurrence of the pattern, and nothing is returned exactly when the text does not contain it |
| Strings.ReplaceFirst | apps/agents/src/open-canvas/nodes/applyApprovedChanges.ts:44 | a text without the pattern is returned unchanged; otherwise the length changes by the replacement's length minus the pattern's |
| Strings.ReplaceFirstAt | apps/agents/src/open-canvas/nodes/applyApprovedChanges.ts:44 | the replacement happens at the first occurrence: the text before it, the replacement, then the text after the pattern |
| Strings.ReplaceFirstSelf | apps/agents/src/open-canvas/nodes/applyApprovedChanges.ts:44 | replacing a pattern by itself changes nothing |
| Strings.Trim | apps/web/src/components/artifacts/TextRenderer.tsx:45-46 | trimming never lengthens the text, and the result neither starts nor ends with whitespace |
| Strings.TrimStrips | apps/web/src/components/artifacts/TextRenderer.tsx:45-46 | the trimmed text is a contiguous part of the text: only whitespace is cut, and only from the two ends |
| Strings.TrimIdempotent | apps/web/src/components/artifacts/TextRenderer.tsx:45-46 | trimming twice equals trimming once |
| Strings.TrimEmptyIffBlank | apps/web/src/app/api/google/docs/route.ts:63 | the trimmed text is empty exactly when the text is all whitespace |
| Strings.Slice | apps/deprecate/agents/src/open-canvas/nodes/updateArtifact.ts:75-86 | a slice is never longer than the text, and for in-range bounds it is exactly that range |
| Strings.SliceFrom | apps/deprecate/agents/src/open-canvas/nodes/updateArtifact.ts:114-116 | a slice from an in-range start is the rest of the text, and from a start past the end it is empty |
| Strings.Prefix | apps/web/src/components/artifacts/TextRenderer.tsx:79 | the key of a block is a prefix of it, 50 characters long or the whole block if shorter |
| Strings.RepeatChar | apps/web/src/app/api/google/docs/route.ts:64 | repeating a character n times gives exactly n copies of it |
| Strings.ParseInt | apps/web/src/app/api/google/docs/route.ts:52 | parsing fails exactly when no digit follows the leading whitespace and optional sign |
| Strings.ParseIntRoundTrip | apps/web/src/app/api/google/docs/route.ts:52 | parsing the decimal form of a number, with or without a minus sign, gives back that number or its negation |
| Strings.NatToString | apps/web/src/components/artifacts/TextRenderer.tsx:134 | the decimal form of a number is a non-empty run of digits |
| Strings.NatToStringRoundTrip | apps/web/src/components/artifacts/TextRenderer.tsx:134 | reading the decimal form of a number back gives that number |
| Strings.JoinSnoc | apps/web/src/app/api/google/docs/route.ts:118 | joining one more part adds the separator and that part at the end |
| Strings.Units | apps/web/src/components/artifacts/TextRenderer.tsx:133 | the UTF-16 length of a text lies between its number of characters and twice that |
| Strings.UnitsConcat | apps/web/src/components/artifacts/TextRenderer.tsx:133 | the UTF-16 length of a concatenation is the sum of the lengths |
| Strings.UnitsOfBmp | apps/web/src/components/artifacts/TextRenderer.tsx:133 | inside the Basic Multilingual Plane the UTF-16 length is the number of characters |
| Strings.AstralCountsTwice | apps/web/src/components/artifacts/TextRenderer.tsx:133 | "é" is one code unit and an emoji outside the Basic Multilingual Plane two |

## Left out

- Model calls. `getModelFromConfig` and `model.invoke` are the uninterpreted `Runtime.Host.invoke` / `invokeContent`. A call sees only the filled prompt and the model name. The context documents (`createContextDocumentMessages`), the system/user role choice (`isUsingO1MiniModel`) and the recent human message sent alongside the prompt are not passed.
- `isThinkingModel` and `extractThinkingAndResponseTokens` live in a shared module that is not part of this model. They are the `Host` fields `isThinkingModel` and `extractThinking`. The uuid of a thinking note is `Host.freshId`.
- The LangGraph runtime: `Send`, interrupt and resume, checkpointing and the `generatePath` node are not modelled. `Graph.Conclude` and `ApprovalFlow` stand for what a run does with a node's result.
- AgentUtils.GetModelConfig: returns only the model name and the provider. API keys, the Azure settings, base URLs and the per-model `modelConfig` come from the environment and are left out.
- Strings.ReplaceFirst: inserts the replacement literally. JavaScript's `replace` also expands `$&`, `$1`, `$$` and similar patterns in the replacement string, so a model reply or selection containing `$` can differ from the source. These patterns are not modelled.
- Prompt texts are abbreviated to their placeholders and short separators. The deprecated nodes' prompt module is not part of this model; its templates are assumed to carry the placeholders their callers fill. The deprecated nodes call the current `getModelConfig`.
- Functions of `apps/agents/src/utils.ts` outside the revision core:
  - `optionallyGetSystemPromptFromConfig`;
  - `getUserFromConfig` (Supabase auth);
  - `convertPDFToText` (network);
  - the Anthropic/OpenAI context-document builders and `createContextDocumentMessages` (store access);
  - `createAIMessageFromWebResults`.
  `atob` is a parameter of `AgentUtils.GeminiDocumentMessages`.
- `handleGenerateArtifactToolCallChunk` (parsing partial JSON of a streamed tool call) is left out.
- TextRenderer.SplitIntoBlocks: the regular-expression split of the markdown is not modelled. Its output parts and the heading/separator tests are parameters; the recombination loop and the final filter are modelled.
- TextRenderer.AcceptAllChanges: takes the map's entry order as a parameter that lists every pending position exactly once (the source uses the map's insertion order). `TextRenderer.AcceptAllOrderFree` shows the order does not matter. The React state hooks, the editor callbacks and the expanded-diff set are UI and left out.
- DocsRoute.ImportDoc: the Google credentials, the API call (a `fetch` parameter), request parsing and logging are left out. A thrown error's details are abstract.
- V8 error wording. The two messages the model reproduces for reading a missing property are "Cannot read properties of undefined …" and "Invalid count value: -n". A `repeat` count too large for a string, and a list item whose `content` is missing, are not modelled.
- Messages keep only their type, id, content and extra fields. `getType()` is the `kind` field.
- RewriteArtifactTheme.RewriteArtifactTheme: the model reply is taken to be a string, as the `as string` cast asserts. A structured reply, which the cast would pass through, is not modelled. DeprecatedUpdateArtifact.UpdateBody likewise treats the reply as text, where the template literal would stringify a structured reply.
- DeprecatedGenerateUtils.CreateArtifactContent: the tool-call title and artifact are strings. A missing field, which the source would copy as `undefined`, is not modelled.
- Strings.Slice: positions count Unicode scalar values, while JavaScript's `slice` counts UTF-16 code units. A code-unit slice can split a surrogate pair and leave a lone surrogate, which a Dafny `string` cannot hold. The two agree on text inside the Basic Multilingual Plane (`Strings.UnitsOfBmp`); on text outside it the slice ends at a different place.
- Strings.SliceFrom: counts Unicode scalar values, not UTF-16 code units, as Strings.Slice.
- Strings.Prefix: the 50 characters of a block key are Unicode scalar values, not UTF-16 code units, as Strings.Slice.
- AgentUtils.FormatArtifactContent: the shortened body keeps 500 Unicode scalar values where the source keeps 500 UTF-16 code units.
- TextRenderer.MovedFrom: block keys are the first 50 Unicode scalar values (Strings.Prefix). Two blocks that agree on their first 50 UTF-16 code units but not on their first 50 scalar values are matched differently from the source.
- TextRenderer.OriginalBlocksMap: built from the same scalar-value keys as TextRenderer.MovedFrom.
- TextRenderer.MarkEdited: looks up moved blocks by the same scalar-value keys as TextRenderer.MovedFrom.
- TextRenderer.FindDifferentBlocks: equals `DiffSpec`, whose keys count scalar values as TextRenderer.MovedFrom.
- TextRenderer.MovedBlockReported: its key-uniqueness condition uses the scalar-value keys of TextRenderer.MovedFrom.
- DeprecatedUpdateArtifact.BeforeHighlightCases: the client's selection offsets are UTF-16 code units, but the model applies them as scalar positions.
- DeprecatedUpdateArtifact.SlicesInsideBody: applies the code-unit offsets as scalar positions, as DeprecatedUpdateArtifact.BeforeHighlightCases.
- DeprecatedUpdateArtifact.SpliceReplacesRange: splices at scalar positions where the source splices at code-unit offsets.
- DeprecatedUpdateArtifact.UpdateBody: on text outside the Basic Multilingual Plane it highlights and replaces a different range from the source.
- DeprecatedUpdateArtifact.SplicedVersion: the committed body differs from the source's on text outside the Basic Multilingual Plane.
- DeprecatedUpdateArtifact.SplicedVersionReplacesHighlight: the replaced range counts scalar values, not UTF-16 code units.
- Graph.RunFromRouter: a `Send` to a node the graph does not define is refused by the LangGraph runtime with its own error. The model fails with "Invalid node: " and the node name, which stands in for that error; no source line produces this text.
- JavaScript numbers are modelled as unbounded integers. Indices and lengths in this core stay far below 2^53.
- Version numbering: every node numbers a new version `contents.length + 1`; Artifacts.LengthRuleIsMaxRule shows this equals the largest index + 1 on position-numbered artifacts, and Artifacts.LengthRuleCanCollide shows a collision when the numbering is not positional.
