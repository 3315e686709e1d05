/** The deprecated whole-document restyling node
    (apps/deprecate/agents/src/open-canvas/nodes/rewriteArtifactTheme.ts):
    a chain of flags picks one theme (language, reading level, pirate,
    length, emojis), the model rewrites the single body, and the reply is
    appended as a new version. */
module DeprecatedRewriteTheme {
  import opened Wrappers
  import opened Strings
  import opened Messages
  import opened Artifacts
  import opened Runtime
  import opened AgentUtils
  import opened Prompts
  import Live = RewriteArtifactTheme

  const NoAssistantError: string := "`assistant_id` not found in configurable"
  const NoArtifactError: string := "No artifact found"
  const NotMarkdownError: string := "Current artifact content is not markdown"
  const NoThemeError: string := "No theme selected"

  /** The flags of the deprecated state that choose a theme; an empty
      string stands for a missing one. */
  datatype ThemeRequest = ThemeRequest(
    language: string,
    readingLevel: string,
    artifactLength: string,
    regenerateWithEmojis: bool)

  datatype Theme =
    | Translate(language: string)
    | ReadingLevel(level: string)
    | Pirate
    | Length(length: string)
    | Emojis

  /** The `if`/`else if` chain: language, then a reading level other than
      "pirate", then "pirate", then length, then emojis. */
  function SelectTheme(q: ThemeRequest): (r: Option<Theme>)
    ensures r == Some(Translate(q.language)) <==> q.language != ""
    ensures r == Some(ReadingLevel(q.readingLevel)) <==>
              q.language == "" && q.readingLevel != "" && q.readingLevel != "pirate"
    ensures r == Some(Pirate) <==> q.language == "" && q.readingLevel == "pirate"
    ensures r == Some(Length(q.artifactLength)) <==>
              q.language == "" && q.readingLevel == "" && q.artifactLength != ""
    ensures r == Some(Emojis) <==>
              q.language == "" && q.readingLevel == "" && q.artifactLength == "" && q.regenerateWithEmojis
    ensures r.None? <==>
              q.language == "" && q.readingLevel == "" && q.artifactLength == "" && !q.regenerateWithEmojis
  {
    if q.language != "" then Some(Translate(q.language))
    else if q.readingLevel != "" && q.readingLevel != "pirate" then Some(ReadingLevel(q.readingLevel))
    else if q.readingLevel == "pirate" then Some(Pirate)
    else if q.artifactLength != "" then Some(Length(q.artifactLength))
    else if q.regenerateWithEmojis then Some(Emojis)
    else None
  }

  const Student: string := " student"

  /** The audience a reading level names; "" for a level outside the switch. */
  function ReadingLevelPhrase(level: string): string {
    match level
    case "child" => "elementary school" + Student
    case "teenager" => "high school" + Student
    case "college" => "college" + Student
    case "phd" => "PhD" + Student
    case _ => ""
  }

  const ThanNow: string := " than it currently is"

  /** How far a length setting moves the artifact; "" for a setting outside
      the switch. */
  function LengthPhrase(length: string): string {
    match length
    case "shortest" => "much shorter" + ThanNow
    case "short" => "slightly shorter" + ThanNow
    case "long" => "slightly longer" + ThanNow
    case "longest" => "much longer" + ThanNow
    case _ => ""
  }

  /** Exactly the four reading levels of the switch name an audience. */
  lemma ReadingLevelPhraseKnown(level: string)
    ensures ReadingLevelPhrase(level) != "" <==> level in {"child", "teenager", "college", "phd"}
  {
  }

  /** Exactly the four lengths of the switch give an instruction. */
  lemma LengthPhraseKnown(length: string)
    ensures LengthPhrase(length) != "" <==> length in {"shortest", "short", "long", "longest"}
  {
  }

  /** The audiences hold no '{', so they never disturb a later fill. */
  lemma ReadingLevelPhraseBraceFree(level: string)
    ensures '{' !in ReadingLevelPhrase(level)
  {
    assert '{' !in Student;
  }

  /** The length instructions hold no '{'. */
  lemma LengthPhraseBraceFree(length: string)
    ensures '{' !in LengthPhrase(length)
  {
    assert '{' !in ThanNow;
  }

  /** The chained `replace` calls of each theme. */
  function ThemePrompt(t: Theme, body: string): string {
    match t
    case Translate(language) =>
      ReplaceFirst(ReplaceFirst(ChangeArtifactLanguageToPrompt, "{newLanguage}", language), "{artifactContent}", body)
    case ReadingLevel(level) =>
      ReplaceFirst(ReplaceFirst(ChangeArtifactReadingLevelPrompt, "{newReadingLevel}", ReadingLevelPhrase(level)),
                   "{artifactContent}", body)
    case Pirate => ReplaceFirst(ChangeArtifactToPiratePrompt, "{artifactContent}", body)
    case Length(length) =>
      ReplaceFirst(ReplaceFirst(ChangeArtifactLengthPrompt, "{newLength}", LengthPhrase(length)), "{artifactContent}", body)
    case Emojis => ReplaceFirst(AddEmojisToArtifactPrompt, "{artifactContent}", body)
  }

  /** The text a theme puts before the body. The reading-level template
      names its placeholder twice and `replace` fills only the first, so the
      second stays in the prompt as written. */
  function Instructions(t: Theme): string {
    match t
    case Translate(language) => TranslateHead + language + TranslateMiddle
    case ReadingLevel(level) => LevelHead + ReadingLevelPhrase(level) + LevelMiddle + "{newReadingLevel}" + LevelTail
    case Pirate => PirateHead
    case Length(length) => LengthHead + LengthPhrase(length) + LengthMiddle
    case Emojis => EmojisHead
  }

  /** Two slots filled in order, on a left-nested template. */
  lemma FillTwoSlots(h: string, p1: string, m: string, p2: string, t: string, v1: string, v2: string)
    requires |p1| > 0 && |p2| > 0
    requires p1[0] !in h && p2[0] !in h && p2[0] !in v1 && p2[0] !in m
    ensures ReplaceFirst(ReplaceFirst(h + p1 + m + p2 + t, p1, v1), p2, v2) == h + v1 + m + v2 + t
  {
    Assoc(h + p1, m + p2, t);
    Assoc(h + p1, m, p2);
    FillTwo(h, p1, m, p2, t, v1, v2);
  }

  /** A placeholder `p` named twice before `q`: filling `p` fills only the
      first copy, and `q` is still found past the surviving copy. */
  lemma FillFirstOfTwo(h: string, p: string, m1: string, m2: string, q: string, t: string, v: string, w: string)
    requires |p| > 1 && |q| > 1 && p[0] == q[0] && p[0] !in p[1..] && p[1] != q[1]
    requires p[0] !in h && p[0] !in m1 && p[0] !in m2 && p[0] !in v
    ensures ReplaceFirst(ReplaceFirst(h + p + m1 + p + m2 + q + t, p, v), q, w) == h + v + m1 + p + m2 + w + t
  {
    var rest := m1 + p + m2 + q + t;
    Assoc(h + p, m1 + p + m2 + q, t);
    Assoc(h + p, m1 + p + m2, q);
    Assoc(h + p, m1 + p, m2);
    Assoc(h + p, m1, p);
    Fill(h, p, rest, v);
    Assoc(h + v, m1 + p + m2 + q, t);
    Assoc(h + v, m1 + p + m2, q);
    Assoc(h + v, m1 + p, m2);
    Assoc(h + v, m1, p);
    FillPastLiteral(h + v + m1, p, m2, q, t, w);
  }

  /** The reading-level prompt: the audience fills the first slot, the
      second slot keeps its placeholder, and the body follows whole. */
  lemma ReadingLevelPromptWrapsBody(level: string, body: string)
    ensures ThemePrompt(ReadingLevel(level), body) == Instructions(ReadingLevel(level)) + body + ArtifactClose
  {
    ReadingLevelPhraseBraceFree(level);
    FillFirstOfTwo(LevelHead, "{newReadingLevel}", LevelMiddle, LevelTail, "{artifactContent}", ArtifactClose,
                   ReadingLevelPhrase(level), body);
  }

  /** The translation prompt: the language, then the body. */
  lemma TranslatePromptWrapsBody(language: string, body: string)
    requires '{' !in language
    ensures ThemePrompt(Translate(language), body) == Instructions(Translate(language)) + body + ArtifactClose
  {
    FillTwoSlots(TranslateHead, "{newLanguage}", TranslateMiddle, "{artifactContent}", ArtifactClose, language, body);
  }

  /** The length prompt: the instruction, then the body. */
  lemma LengthPromptWrapsBody(length: string, body: string)
    ensures ThemePrompt(Length(length), body) == Instructions(Length(length)) + body + ArtifactClose
  {
    LengthPhraseBraceFree(length);
    FillTwoSlots(LengthHead, "{newLength}", LengthMiddle, "{artifactContent}", ArtifactClose, LengthPhrase(length), body);
  }

  /** Every theme's prompt is its instructions, then the whole body, then
      the closing of the artifact, when the requested language holds no '{'. */
  lemma ThemePromptWrapsBody(t: Theme, body: string)
    requires t.Translate? ==> '{' !in t.language
    ensures ThemePrompt(t, body) == Instructions(t) + body + ArtifactClose
  {
    match t
    case Translate(language) =>
      TranslatePromptWrapsBody(language, body);
    case ReadingLevel(level) =>
      ReadingLevelPromptWrapsBody(level, body);
    case Pirate =>
      Fill(PirateHead, "{artifactContent}", ArtifactClose, body);
    case Length(length) =>
      LengthPromptWrapsBody(length, body);
    case Emojis =>
      Fill(EmojisHead, "{artifactContent}", ArtifactClose, body);
  }

  /** What the node returns: the artifact, and the same thinking notes for
      the visible and the internal message lists. */
  datatype ThemeOutput = ThemeOutput(artifact: Artifact, messages: seq<Message>, internalMessages: seq<Message>)

  /** The current version, renumbered, with the new body, appended and
      selected. */
  function ThemedVersion(a: Artifact, cur: Content, body: string): (r: Artifact)
    requires cur.Flat?
    ensures AppendedLatest(a, r, Revised(cur, |a.contents| + 1, body))
  {
    AppendVersion(a, Revised(cur, |a.contents| + 1, body))
  }

  /** `rewriteArtifactTheme(state, config)` of the deprecated graph. */
  function RewriteTheme(artifact: Option<Artifact>, q: ThemeRequest, config: Config, host: Host): (r: Result<ThemeOutput>)
    ensures GetModelConfig(config.customModelName, false).Err? ==>
              r == Err(GetModelConfig(config.customModelName, false).msg)
    ensures GetModelConfig(config.customModelName, false).Ok? && config.assistantId == "" ==>
              r == Err(NoAssistantError)
    ensures (GetModelConfig(config.customModelName, false).Ok? && config.assistantId != "" &&
             (artifact.None? || |artifact.value.contents| == 0)) ==> r == Err(NoArtifactError)
    ensures (GetModelConfig(config.customModelName, false).Ok? && config.assistantId != "" &&
             artifact.Some? && |artifact.value.contents| > 0 &&
             !IsMarkdownContent(CurrentContent(artifact.value).value)) ==> r == Err(NotMarkdownError)
    ensures (GetModelConfig(config.customModelName, false).Ok? && config.assistantId != "" &&
             artifact.Some? && |artifact.value.contents| > 0 &&
             IsMarkdownContent(CurrentContent(artifact.value).value) && SelectTheme(q).None?) ==> r == Err(NoThemeError)
    ensures (GetModelConfig(config.customModelName, false).Ok? && config.assistantId != "" &&
             artifact.Some? && |artifact.value.contents| > 0 &&
             IsMarkdownContent(CurrentContent(artifact.value).value) && SelectTheme(q).Some?) ==>
              var model := GetModelConfig(config.customModelName, false).value.modelName;
              var reply := host.invoke(model, ThemePrompt(SelectTheme(q).value, CurrentContent(artifact.value).value.fullMarkdown));
              (reply.Err? ==> r == Err(reply.msg)) && (reply.Ok? ==> r.Ok?)
    ensures r.Ok? ==>
              GetModelConfig(config.customModelName, false).Ok? && artifact.Some? && SelectTheme(q).Some? &&
              var model := GetModelConfig(config.customModelName, false).value.modelName;
              var a := artifact.value;
              CurrentContent(a).Some? &&
              var cur := CurrentContent(a).value;
              IsMarkdownContent(cur) &&
              var reply := host.invoke(model, ThemePrompt(SelectTheme(q).value, cur.fullMarkdown));
              reply.Ok? &&
              r.value.artifact == ThemedVersion(a, cur, Live.ReplyBody(host, model, reply.value)) &&
              r.value.messages == Live.ThinkingNotes(host, model, reply.value) &&
              r.value.internalMessages == r.value.messages
  {
    match GetModelConfig(config.customModelName, false)
    case Err(m) => Err(m)
    case Ok(mc) =>
      if config.assistantId == "" then Err(NoAssistantError)
      else
        var cur := if artifact.Some? then CurrentContent(artifact.value) else None;
        if cur.None? then Err(NoArtifactError)
        else if !IsMarkdownContent(cur.value) then Err(NotMarkdownError)
        else
          match SelectTheme(q)
          case None => Err(NoThemeError)
          case Some(t) =>
            match host.invoke(mc.modelName, ThemePrompt(t, cur.value.fullMarkdown))
            case Err(m) => Err(m)
            case Ok(reply) =>
              var notes := Live.ThinkingNotes(host, mc.modelName, reply);
              Ok(ThemeOutput(ThemedVersion(artifact.value, cur.value, Live.ReplyBody(host, mc.modelName, reply)), notes, notes))
  }

  /** On an artifact numbered by position, the restyled version stays
      numbered by position, is selected, and keeps the markdown type and
      title of the version it replaces; the body is the reply for an
      ordinary model and only the response part for a thinking model. */
  lemma ThemedVersionKeepsIndexed(a: Artifact, cur: Content, model: string, host: Host, reply: string)
    requires Indexed(a) && IsMarkdownContent(cur)
    ensures var a2 := ThemedVersion(a, cur, Live.ReplyBody(host, model, reply));
            var v := a2.contents[|a.contents|];
            Indexed(a2) && CurrentContent(a2) == Some(v) && a2.contents[..|a.contents|] == a.contents &&
            IsMarkdownContent(v) && v.title == cur.title &&
            v.fullMarkdown == (if host.isThinkingModel(model) then host.extractThinking(reply).response else reply)
  {
    AppendKeepsIndexed(a, Revised(cur, |a.contents| + 1, Live.ReplyBody(host, model, reply)));
  }
}
