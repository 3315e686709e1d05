/** The whole-document restyling node
    (apps/agents/src/open-canvas/nodes/rewriteArtifactTheme.ts): translate,
    format or copy-edit the current version and append the result, either
    per article of a multi-article version or on the single body. */
module RewriteArtifactTheme {
  import opened Wrappers
  import opened Seqs
  import opened Strings
  import opened Messages
  import opened Artifacts
  import opened State
  import opened Runtime
  import opened AgentUtils
  import opened Prompts

  const NoThemeError: string := "No theme selected"
  const NoAssistantError: string := "`assistant_id` not found in configurable"
  /** The TypeErrors JavaScript raises when the selected multi-article
      version is missing or is not a multi-article version. */
  const NoSnapshotError: string := "Cannot read properties of undefined (reading 'articles')"
  const NotIterableError: string := "currentContent.articles is not iterable"

  datatype Theme = Language | Format | Copyedit

  /** The flag chain: language before format before copy-edit. */
  function SelectedTheme(s: GraphState): (r: Option<Theme>)
    ensures r == Some(Language) <==> s.language
    ensures r == Some(Format) <==> !s.language && s.format
    ensures r == Some(Copyedit) <==> !s.language && !s.format && s.copyedit
    ensures r.None? <==> !s.language && !s.format && !s.copyedit
  {
    if s.language then Some(Language)
    else if s.format then Some(Format)
    else if s.copyedit then Some(Copyedit)
    else None
  }

  function ThemeHead(t: Theme): string {
    match t
    case Language => LanguageHead
    case Format => FormatHead
    case Copyedit => CopyeditHead
  }

  function ThemeTemplate(t: Theme): string {
    match t
    case Language => ChangeArtifactLanguagePrompt
    case Format => ChangeArtifactFormat
    case Copyedit => CopyeditArtifactPrompt
  }

  /** `TEMPLATE.replace("{artifactContent}", body)`. */
  function ThemePrompt(t: Theme, body: string): string {
    ReplaceFirst(ThemeTemplate(t), "{artifactContent}", body)
  }

  /** The body is placed, whole, between the theme's instructions and the
      closing of the artifact, whatever characters it holds. */
  lemma ThemePromptWrapsBody(t: Theme, body: string)
    ensures ThemePrompt(t, body) == ThemeHead(t) + body + ArtifactClose
  {
    assert '{' !in ThemeHead(t);
    Fill(ThemeHead(t), "{artifactContent}", ArtifactClose, body);
  }

  /** The stored text of a reply: the response part for a thinking model,
      the whole reply otherwise. */
  function ReplyBody(host: Host, model: string, reply: string): string {
    if host.isThinkingModel(model) then host.extractThinking(reply).response else reply
  }

  /** The messages a reply adds: one AI message holding the reasoning, with
      the id `thinking-<uuid>`, for a thinking model; none otherwise. */
  function ThinkingNotes(host: Host, model: string, reply: string): (r: seq<Message>)
    ensures |r| <= 1
    ensures |r| == 1 <==> host.isThinkingModel(model)
    ensures |r| == 1 ==> r[0].id == Some("thinking-" + host.freshId) &&
                         r[0].content == Text(host.extractThinking(reply).thinking)
  {
    if host.isThinkingModel(model) then
      [AIMessage(Some("thinking-" + host.freshId), host.extractThinking(reply).thinking)]
    else []
  }

  /** One article through the model: its body is replaced by the reply and
      every other field is kept. */
  function ArticleRewrite(a: Article, t: Theme, model: string, host: Host): (r: Result<Article>)
    ensures r.Ok? <==> host.invoke(model, ThemePrompt(t, a.fullMarkdown)).Ok?
    ensures r.Ok? ==> r.value.index == a.index && r.value.title == a.title && r.value.author == a.author &&
                      r.value.fullMarkdown == ReplyBody(host, model, host.invoke(model, ThemePrompt(t, a.fullMarkdown)).value)
  {
    match host.invoke(model, ThemePrompt(t, a.fullMarkdown))
    case Err(m) => Err(m)
    case Ok(reply) => Ok(a.(fullMarkdown := ReplyBody(host, model, reply)))
  }

  /** The per-article loop: articles in order, stopping at the first error.
      The theme is only consulted inside the loop, so an empty article list
      succeeds even when no theme is selected. */
  function RewriteArticles(arts: seq<Article>, theme: Option<Theme>, model: string, host: Host): (r: Result<seq<Article>>)
    ensures |arts| == 0 ==> r == Ok([])
    ensures |arts| > 0 && theme.None? ==> r == Err(NoThemeError)
    ensures r.Ok? ==>
              |r.value| == |arts| &&
              forall i :: 0 <= i < |arts| ==> theme.Some? && ArticleRewrite(arts[i], theme.value, model, host) == Ok(r.value[i])
    ensures theme.Some? && (forall i :: 0 <= i < |arts| ==> ArticleRewrite(arts[i], theme.value, model, host).Ok?) ==> r.Ok?
    ensures r.Err? && theme.Some? ==>
              exists i :: 0 <= i < |arts| && ArticleRewrite(arts[i], theme.value, model, host) == Err(r.msg) &&
                          forall j :: 0 <= j < i ==> ArticleRewrite(arts[j], theme.value, model, host).Ok?
  {
    if |arts| == 0 then Ok([])
    else if theme.None? then Err(NoThemeError)
    else MapResults(arts, (a: Article) => ArticleRewrite(a, theme.value, model, host))
  }

  /** The multi-article test: the first version carries articles. */
  predicate IsV4(artifact: Option<Artifact>) {
    artifact.Some? && |artifact.value.contents| > 0 && artifact.value.contents[0].Snapshot?
  }

  /** The multi-article path. The selected version is read by position
      `currentIndex - 1`; the new snapshot keeps that version's own index. */
  function RewriteV4(a: Artifact, theme: Option<Theme>, model: string, host: Host): (r: NodeResult)
    ensures !r.Suspended?
    ensures !(1 <= a.currentIndex <= |a.contents|) ==> r == Fail(NoSnapshotError)
    ensures 1 <= a.currentIndex <= |a.contents| && !a.contents[a.currentIndex - 1].Snapshot? ==>
              r == Fail(NotIterableError)
    ensures 1 <= a.currentIndex <= |a.contents| && a.contents[a.currentIndex - 1].Snapshot? &&
            RewriteArticles(a.contents[a.currentIndex - 1].articles, theme, model, host).Err? ==>
              r == Fail(RewriteArticles(a.contents[a.currentIndex - 1].articles, theme, model, host).msg)
    ensures r.Update? <==>
              1 <= a.currentIndex <= |a.contents| && a.contents[a.currentIndex - 1].Snapshot? &&
              RewriteArticles(a.contents[a.currentIndex - 1].articles, theme, model, host).Ok?
    ensures r.Update? ==>
              1 <= a.currentIndex <= |a.contents| &&
              var cur := a.contents[a.currentIndex - 1];
              cur.Snapshot? && r.u.artifact.Put? && RewriteArticles(cur.articles, theme, model, host).Ok? &&
              AppendedLatest(a, r.u.artifact.value,
                Snapshot(cur.index, cur.title, RewriteArticles(cur.articles, theme, model, host).value)) &&
              r.u.messages == Put([]) && r.u.internalMessages == Put([]) &&
              r.u.next.Keep? && r.u.proposedChanges.Keep? && r.u.approvalResult.Keep?
  {
    if !(1 <= a.currentIndex <= |a.contents|) then Fail(NoSnapshotError)
    else
      var cur := a.contents[a.currentIndex - 1];
      if !cur.Snapshot? then Fail(NotIterableError)
      else
        match RewriteArticles(cur.articles, theme, model, host)
        case Err(m) => Fail(m)
        case Ok(arts) =>
          Update(NoChange.(artifact := Put(AppendVersion(a, cur.(articles := arts))),
                           messages := Put([]), internalMessages := Put([])))
  }

  /** The single-body path: the current version is the one `getArtifactContent`
      selects, and it must be markdown. */
  function RewriteV3(artifact: Option<Artifact>, theme: Option<Theme>, model: string, host: Host): (r: NodeResult)
    ensures !r.Suspended?
    ensures artifact.None? || |artifact.value.contents| == 0 ==> r == Fail("No artifact found")
    ensures artifact.Some? && CurrentContent(artifact.value).Some? && !IsMarkdownContent(CurrentContent(artifact.value).value) ==>
              r == Fail("Current artifact content is not markdown")
    ensures artifact.Some? && CurrentContent(artifact.value).Some? && IsMarkdownContent(CurrentContent(artifact.value).value) &&
            theme.None? ==>
              r == Fail(NoThemeError)
    ensures artifact.Some? && CurrentContent(artifact.value).Some? && IsMarkdownContent(CurrentContent(artifact.value).value) &&
            theme.Some? && host.invoke(model, ThemePrompt(theme.value, CurrentContent(artifact.value).value.fullMarkdown)).Err? ==>
              r == Fail(host.invoke(model, ThemePrompt(theme.value, CurrentContent(artifact.value).value.fullMarkdown)).msg)
    ensures r.Update? <==>
              artifact.Some? && CurrentContent(artifact.value).Some? && IsMarkdownContent(CurrentContent(artifact.value).value) &&
              theme.Some? && host.invoke(model, ThemePrompt(theme.value, CurrentContent(artifact.value).value.fullMarkdown)).Ok?
    ensures r.Update? ==>
              artifact.Some? && CurrentContent(artifact.value).Some? &&
              var a := artifact.value;
              var cur := CurrentContent(a).value;
              IsMarkdownContent(cur) && theme.Some? &&
              var reply := host.invoke(model, ThemePrompt(theme.value, cur.fullMarkdown));
              reply.Ok? && r.u.artifact.Put? &&
              AppendedLatest(a, r.u.artifact.value, Revised(cur, |a.contents| + 1, ReplyBody(host, model, reply.value))) &&
              r.u.messages == Put(ThinkingNotes(host, model, reply.value)) &&
              r.u.internalMessages == r.u.messages &&
              r.u.next.Keep? && r.u.proposedChanges.Keep? && r.u.approvalResult.Keep?
  {
    var cur := if artifact.Some? then CurrentContent(artifact.value) else None;
    if cur.None? then Fail("No artifact found")
    else if !IsMarkdownContent(cur.value) then Fail("Current artifact content is not markdown")
    else if theme.None? then Fail(NoThemeError)
    else
      var a := artifact.value;
      match host.invoke(model, ThemePrompt(theme.value, cur.value.fullMarkdown))
      case Err(m) => Fail(m)
      case Ok(reply) =>
        var notes := ThinkingNotes(host, model, reply);
        Update(NoChange.(artifact := Put(AppendVersion(a, Revised(cur.value, |a.contents| + 1, ReplyBody(host, model, reply)))),
                         messages := Put(notes), internalMessages := Put(notes)))
  }

  /** `rewriteArtifactTheme(state, config)`. */
  function RewriteArtifactTheme(s: GraphState, config: Config, host: Host): (r: NodeResult)
    ensures !r.Suspended?
    ensures GetModelConfig(config.customModelName, false).Err? ==>
              r == Fail(GetModelConfig(config.customModelName, false).msg)
    ensures GetModelConfig(config.customModelName, false).Ok? && config.assistantId == "" ==>
              r == Fail(NoAssistantError)
    ensures GetModelConfig(config.customModelName, false).Ok? && config.assistantId != "" && IsV4(s.artifact) ==>
              r == RewriteV4(s.artifact.value, SelectedTheme(s), GetModelConfig(config.customModelName, false).value.modelName, host)
    ensures GetModelConfig(config.customModelName, false).Ok? && config.assistantId != "" && !IsV4(s.artifact) ==>
              r == RewriteV3(s.artifact, SelectedTheme(s), GetModelConfig(config.customModelName, false).value.modelName, host)
    ensures r.Update? ==>
              s.artifact.Some? && r.u.artifact.Put? &&
              var a := s.artifact.value;
              var a2 := r.u.artifact.value;
              |a2.contents| == |a.contents| + 1 && a2.contents[..|a.contents|] == a.contents &&
              a2.currentIndex == |a.contents| + 1 &&
              r.u.internalMessages == r.u.messages &&
              r.u.next.Keep? && r.u.proposedChanges.Keep? && r.u.approvalResult.Keep?
  {
    match GetModelConfig(config.customModelName, false)
    case Err(m) => Fail(m)
    case Ok(mc) =>
      if config.assistantId == "" then Fail(NoAssistantError)
      else if IsV4(s.artifact) then RewriteV4(s.artifact.value, SelectedTheme(s), mc.modelName, host)
      else RewriteV3(s.artifact, SelectedTheme(s), mc.modelName, host)
  }

  /** A multi-article version with no articles is copied forward even when
      no theme is selected, and no model is called. */
  lemma EmptySnapshotNeedsNoTheme(a: Artifact, model: string, host: Host)
    requires 1 <= a.currentIndex <= |a.contents|
    requires a.contents[a.currentIndex - 1].Snapshot? && a.contents[a.currentIndex - 1].articles == []
    ensures RewriteV4(a, None, model, host).Update?
    ensures RewriteV4(a, None, model, host).u.artifact.value.contents[|a.contents|] == a.contents[a.currentIndex - 1]
  {
  }

  /** The single-body path refuses to run without a theme: no model call and
      no new version. */
  lemma SingleBodyNeedsTheme(a: Artifact, model: string, host: Host)
    requires CurrentContent(a).Some? && IsMarkdownContent(CurrentContent(a).value)
    ensures RewriteV3(Some(a), None, model, host) == Fail(NoThemeError)
  {
  }

  /** The single-body path keeps an indexed artifact indexed and selects
      the new version. */
  lemma SingleBodyKeepsIndexed(a: Artifact, theme: Option<Theme>, model: string, host: Host)
    requires Indexed(a)
    requires RewriteV3(Some(a), theme, model, host).Update?
    ensures var a2 := RewriteV3(Some(a), theme, model, host).u.artifact.value;
            Indexed(a2) && CurrentContent(a2) == Some(a2.contents[|a.contents|])
  {
    var a2 := RewriteV3(Some(a), theme, model, host).u.artifact.value;
    assert a2 == AppendVersion(a, a2.contents[|a.contents|]);
    AppendKeepsIndexed(a, a2.contents[|a.contents|]);
  }

  /** The multi-article path copies the selected version's index into the
      new snapshot instead of numbering it `contents.length + 1`, so an
      indexed artifact stops being indexed. */
  lemma SnapshotKeepsOldIndex(a: Artifact, theme: Option<Theme>, model: string, host: Host)
    requires Indexed(a)
    requires RewriteV4(a, theme, model, host).Update?
    ensures var a2 := RewriteV4(a, theme, model, host).u.artifact.value;
            a2.contents[|a.contents|].index == a.currentIndex &&
            a2.contents[|a.contents|].index != a2.currentIndex && !Indexed(a2)
  {
  }
}
