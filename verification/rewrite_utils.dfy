/** The helpers of the whole-artifact rewrite node
    (apps/agents/src/open-canvas/nodes/rewrite-artifact/utils.ts): the state
    check, the two prompt builders and the new version. */
module RewriteUtils {
  import opened Wrappers
  import opened Seqs
  import opened Strings
  import opened Messages
  import opened Artifacts
  import opened State
  import opened Prompts

  // ---------------------------------------------------------------------
  // validateState

  /** What `validateState` hands back. */
  datatype Validated = Validated(currentArtifactContent: Content, recentHumanMessage: Message)

  /** `validateState(state)`: the current version of the artifact (by
      `getArtifactContent`, so with its last-version fallback) and the
      latest human message of `_messages`. */
  function ValidateState(s: GraphState): (r: Result<Validated>)
    ensures r == Err("No artifact found") <==> s.artifact.None? || |s.artifact.value.contents| == 0
    ensures r == Err("No recent human message found") <==>
              s.artifact.Some? && |s.artifact.value.contents| > 0 &&
              forall i :: 0 <= i < |s.internalMessages| ==> !IsHuman(s.internalMessages[i])
    ensures r.Ok? ==> Some(r.value.currentArtifactContent) == CurrentContent(s.artifact.value)
    ensures r.Ok? ==> exists i :: 0 <= i < |s.internalMessages| && s.internalMessages[i] == r.value.recentHumanMessage &&
                        IsHuman(s.internalMessages[i]) &&
                        forall j :: i < j < |s.internalMessages| ==> !IsHuman(s.internalMessages[j])
  {
    var current := if s.artifact.Some? then CurrentContent(s.artifact.value) else None;
    if current.None? then Err("No artifact found")
    else
      match FindLast(s.internalMessages, IsHuman)
      case None => Err("No recent human message found")
      case Some(i) => Ok(Validated(current.value, s.internalMessages[i]))
  }

  /** Messages after the latest human one do not change what is validated. */
  lemma LaterReplyKeepsRequest(s: GraphState, m: Message)
    requires !IsHuman(m)
    ensures ValidateState(s.(internalMessages := s.internalMessages + [m])) == ValidateState(s)
  {
    var ms := s.internalMessages + [m];
    assert forall i :: 0 <= i < |s.internalMessages| ==> ms[i] == s.internalMessages[i];
    assert FindLast(ms, IsHuman) == FindLast(s.internalMessages, IsHuman) by {
      assert ms[..|ms| - 1] == s.internalMessages;
    }
  }

  // ---------------------------------------------------------------------
  // buildMetaPrompt, buildPrompt

  /** The optional meta tool call: the new artifact type and maybe a title. */
  datatype ArtifactMeta = ArtifactMeta(kind: string, title: Option<string>)

  const TitleIntro: string := "And its title is (do NOT include this in your response):\n"

  /** The title part of the meta prompt: present only for a non-empty title
      on an artifact whose type is not "code". */
  function TitleSection(meta: Option<ArtifactMeta>): (r: string)
    ensures r != "" <==> meta.Some? && meta.value.title.Some? && meta.value.title.value != "" && meta.value.kind != "code"
    ensures r != "" ==> r == TitleIntro + meta.value.title.value
  {
    if meta.Some? && meta.value.title.Some? && meta.value.title.value != "" && meta.value.kind != "code"
    then TitleIntro + meta.value.title.value
    else ""
  }

  /** The text `replace` inserts for `meta?.type`: a missing meta call
      turns into the string "undefined". */
  function TypeText(meta: Option<ArtifactMeta>): (r: string)
    ensures meta.Some? ==> r == meta.value.kind
    ensures meta.None? ==> r == "undefined"
  {
    if meta.Some? then meta.value.kind else "undefined"
  }

  /** `buildMetaPrompt(meta)`. */
  function BuildMetaPrompt(meta: Option<ArtifactMeta>): string {
    ReplaceFirst(ReplaceFirst(OptionallyUpdateMetaPrompt, "{artifactType}", TypeText(meta)), "{artifactTitle}", TitleSection(meta))
  }

  /** With a type free of '{', the type and the title section land in their
      slots of the meta prompt. */
  lemma MetaPromptFilled(meta: Option<ArtifactMeta>)
    requires '{' !in TypeText(meta)
    ensures BuildMetaPrompt(meta) == MetaHead + TypeText(meta) + MetaMiddle + TitleSection(meta) + MetaTail
  {
    assert '{' !in MetaHead && '{' !in MetaMiddle;
    FillTwo(MetaHead, "{artifactType}", MetaMiddle, "{artifactTitle}", MetaTail, TypeText(meta), TitleSection(meta));
  }

  /** `buildPrompt({ artifactContent, isNewType, artifactMetaToolCall })`:
      the meta prompt goes in only for a new type. */
  function BuildPrompt(content: string, isNewType: bool, meta: Option<ArtifactMeta>): string {
    var metaPrompt := if isNewType then BuildMetaPrompt(meta) else "";
    ReplaceFirst(ReplaceFirst(UpdateEntireArtifactPrompt, "{artifactContent}", content), "{updateMetaPrompt}", metaPrompt)
  }

  /** With content free of '{', the content and the meta prompt (or nothing)
      land in their slots, in that order. */
  lemma BuildPromptFilled(content: string, isNewType: bool, meta: Option<ArtifactMeta>)
    requires '{' !in content
    ensures BuildPrompt(content, isNewType, meta) ==
              EntireHead + content + EntireMiddle + (if isNewType then BuildMetaPrompt(meta) else "") + EntireTail
  {
    assert '{' !in EntireHead && '{' !in EntireMiddle;
    FillTwo(EntireHead, "{artifactContent}", EntireMiddle, "{updateMetaPrompt}", EntireTail,
            content, if isNewType then BuildMetaPrompt(meta) else "");
  }

  /** The content is filled first, so content reading "{updateMetaPrompt}"
      receives the meta prompt and the real slot keeps the placeholder. */
  lemma ContentCapturesMetaPrompt(isNewType: bool, meta: Option<ArtifactMeta>)
    ensures BuildPrompt("{updateMetaPrompt}", isNewType, meta) ==
              EntireHead + (if isNewType then BuildMetaPrompt(meta) else "") + (EntireMiddle + "{updateMetaPrompt}" + EntireTail)
  {
    assert '{' !in EntireHead;
    FillTwoCaptured(EntireHead, "{artifactContent}", EntireMiddle, "{updateMetaPrompt}", EntireTail,
                    if isNewType then BuildMetaPrompt(meta) else "");
  }

  // ---------------------------------------------------------------------
  // createNewArtifactContent

  /** `createNewArtifactContent(...)`: a text version numbered
      `contents.length + 1` holding the new body, titled by the meta call
      when it carries a non-empty title and by the current version otherwise. */
  function CreateNewArtifactContent(a: Artifact, current: Content, meta: Option<ArtifactMeta>, newContent: string): (r: Content)
    ensures IsMarkdownContent(r) && r.index == |a.contents| + 1 && r.fullMarkdown == newContent
    ensures meta.Some? && meta.value.title.Some? && meta.value.title.value != "" ==> r.title == meta.value.title.value
    ensures !(meta.Some? && meta.value.title.Some? && meta.value.title.value != "") ==> r.title == current.title
  {
    var title := if meta.Some? && meta.value.title.Some? && meta.value.title.value != "" then meta.value.title.value else current.title;
    Flat(|a.contents| + 1, "text", title, newContent)
  }

  /** Appending the new version keeps an indexed artifact indexed and makes
      it both the current version and the current text version. */
  lemma NewContentBecomesCurrent(a: Artifact, current: Content, meta: Option<ArtifactMeta>, newContent: string)
    requires Indexed(a)
    ensures var c := CreateNewArtifactContent(a, current, meta, newContent);
            var a2 := AppendVersion(a, c);
            Indexed(a2) && CurrentContent(a2) == Some(c) && FindCurrentText(a2) == Some(c)
  {
    var c := CreateNewArtifactContent(a, current, meta, newContent);
    AppendKeepsIndexed(a, c);
    var a2 := AppendVersion(a, c);
    assert a2.contents[|a.contents|] == c;
  }
}
