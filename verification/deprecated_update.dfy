/** The deprecated partial rewrite (apps/deprecate/agents/src/open-canvas/nodes/updateArtifact.ts):
    the highlight is a pair of character offsets into the current body, the
    model rewrites the characters between them, and the reply is spliced
    back in as a new version. */
module DeprecatedUpdateArtifact {
  import opened Wrappers
  import opened Seqs
  import opened Strings
  import opened Messages
  import opened Artifacts
  import opened Runtime
  import opened AgentUtils
  import opened Prompts

  const NoAssistantError: string := "`assistant_id` not found in configurable"
  const NoArtifactError: string := "No artifact found"
  const NoHighlightError: string := "Can not partially regenerate an artifact without a highlight"
  const NoHumanMessageError: string := "No recent human message found"
  /** The TypeError JavaScript raises when the current version has no
      single body (a multi-article version). */
  const NoBodyError: string := "Cannot read properties of undefined (reading 'length')"

  /** The size of the context window after the highlight. */
  const ContextChars: nat := 500
  /** The model used when the configured one is judged too weak. */
  const FallbackModel: string := "gpt-4o"

  /** The deprecated highlight: offsets into the current body, either of
      which may be missing. */
  datatype CharRange = CharRange(startCharIndex: Option<int>, endCharIndex: Option<int>)

  /** The parts of the deprecated graph state the node reads. */
  datatype PartialState = PartialState(
    internalMessages: seq<Message>,
    artifact: Option<Artifact>,
    highlightedText: Option<CharRange>)

  /** `x || 0` on an optional offset. */
  function OrZero(x: Option<int>): int {
    if x.Some? then x.value else 0
  }

  function Min(a: int, b: int): int { if a < b then a else b }
  function Max(a: int, b: int): int { if a < b then b else a }

  /** The configured model for OpenAI providers and 3.5 Sonnet names; the
      fallback model otherwise. */
  function UpdateModel(mc: ModelConfig): string {
    if Contains(mc.modelProvider, "openai") || Contains(mc.modelName, "3-5-sonnet") then mc.modelName
    else FallbackModel
  }

  // ---------------------------------------------------------------------
  // the three slices around the highlight

  /** `Math.max(0, startCharIndex || 0 - 500)`: the subtraction binds
      tighter than `||`, so -500 only stands in for a missing or zero start. */
  function ContextStart(h: CharRange): int {
    Max(0, if OrZero(h.startCharIndex) != 0 then OrZero(h.startCharIndex) else -500)
  }

  /** `Math.min(length, (endCharIndex || 0) + 500)`. */
  function ContextEnd(body: string, h: CharRange): int {
    Min(|body|, OrZero(h.endCharIndex) + ContextChars)
  }

  /** `slice(start, startCharIndex)`; a missing end argument slices to the end. */
  function BeforeHighlight(body: string, h: CharRange): string {
    if h.startCharIndex.Some? then Slice(body, ContextStart(h), h.startCharIndex.value)
    else SliceFrom(body, ContextStart(h))
  }

  function HighlightedSlice(body: string, h: CharRange): string {
    Slice(body, OrZero(h.startCharIndex), OrZero(h.endCharIndex))
  }

  function AfterHighlight(body: string, h: CharRange): string {
    Slice(body, OrZero(h.endCharIndex), ContextEnd(body, h))
  }

  /** The look-back window is empty: the context start is the highlight's
      start itself (clamped at 0), never 500 characters before it. */
  lemma ContextStartIsHighlightStart(h: CharRange)
    ensures ContextStart(h) == Max(0, OrZero(h.startCharIndex))
  {
  }

  /** The text before the highlight is non-empty only for a missing start
      (the whole body) or a negative one (counted from the end); for every
      start at or after 0 it is empty. */
  lemma BeforeHighlightCases(body: string, h: CharRange)
    ensures h.startCharIndex.None? ==> BeforeHighlight(body, h) == body
    ensures h.startCharIndex.Some? && h.startCharIndex.value >= 0 ==> BeforeHighlight(body, h) == ""
    ensures h.startCharIndex.Some? && -|body| <= h.startCharIndex.value < 0 ==>
              BeforeHighlight(body, h) == body[..|body| + h.startCharIndex.value]
  {
  }

  /** Inside the body, the highlight slice is exactly the characters
      between the offsets, and the text after it is the next (at most) 500
      characters. */
  lemma SlicesInsideBody(body: string, s: int, e: int)
    requires 0 <= s <= e <= |body|
    ensures HighlightedSlice(body, CharRange(Some(s), Some(e))) == body[s..e]
    ensures AfterHighlight(body, CharRange(Some(s), Some(e))) == body[e..Min(|body|, e + ContextChars)]
    ensures |AfterHighlight(body, CharRange(Some(s), Some(e)))| <= ContextChars
  {
  }

  // ---------------------------------------------------------------------
  // prompt

  /** The three chained `replace` calls: highlight, then before, then after. */
  function PartialPrompt(before: string, highlighted: string, after: string): string {
    ReplaceFirst(ReplaceFirst(ReplaceFirst(UpdateHighlightedArtifactPrompt,
      "{highlightedText}", highlighted), "{beforeHighlight}", before), "{afterHighlight}", after)
  }

  /** Filling the middle placeholder of `h p1 m1 p2 m2 p3 t` first, then the
      first, then the last: each value lands in its own slot when the text
      before a placeholder holds its first character only as the start of
      an earlier placeholder that continues differently. */
  lemma FillMiddleFirst(h: string, p1: string, m1: string, p2: string, m2: string, p3: string, t: string,
                        v1: string, v2: string, v3: string)
    requires |p1| > 1 && |p2| > 1 && |p3| > 0
    requires p1[0] == p2[0] && p3[0] == p2[0] && p2[0] !in p1[1..] && p1[1] != p2[1]
    requires p2[0] !in h && p2[0] !in m1 && p2[0] !in m2 && p2[0] !in v1 && p2[0] !in v2
    ensures ReplaceFirst(ReplaceFirst(ReplaceFirst(h + p1 + m1 + p2 + m2 + p3 + t, p2, v2), p1, v1), p3, v3) ==
            h + v1 + m1 + v2 + m2 + v3 + t
  {
    FillMiddleOfThree(h, p1, m1, p2, m2, p3, t, v2);
    Fill(h, p1, m1 + v2 + (m2 + p3 + t), v1);
    FillLastOfThree(h + v1, m1, v2, m2, p3, t, v3);
  }

  /** The first step of `FillMiddleFirst`: the middle placeholder is the
      first occurrence of itself. */
  lemma FillMiddleOfThree(h: string, p1: string, m1: string, p2: string, m2: string, p3: string, t: string,
                          v2: string)
    requires |p1| > 1 && |p2| > 1
    requires p1[0] == p2[0] && p2[0] !in p1[1..] && p1[1] != p2[1]
    requires p2[0] !in h && p2[0] !in m1
    ensures ReplaceFirst(h + p1 + m1 + p2 + m2 + p3 + t, p2, v2) == h + p1 + (m1 + v2 + (m2 + p3 + t))
  {
    var a := h + p1 + m1;
    OnlyMarkFollowedBy(h, p1, m1, p2[0], p2[1]);
    Fill2(a, p2, m2 + p3 + t, v2);
    Assoc(a + p2, m2, p3);
    Assoc(a + p2, m2 + p3, t);
    Assoc(h + p1, m1, v2);
    Assoc(h + p1, m1 + v2, m2 + p3 + t);
  }

  /** The last step of `FillMiddleFirst`: the text before the last
      placeholder no longer holds its first character. */
  lemma FillLastOfThree(a: string, m1: string, v2: string, m2: string, p3: string, t: string, v3: string)
    requires |p3| > 0 && p3[0] !in a && p3[0] !in m1 && p3[0] !in v2 && p3[0] !in m2
    ensures ReplaceFirst(a + (m1 + v2 + (m2 + p3 + t)), p3, v3) == a + m1 + v2 + m2 + v3 + t
  {
    var x := a + m1 + v2 + m2;
    assert a + (m1 + v2 + (m2 + p3 + t)) == x + p3 + t;
    Fill(x, p3, t, v3);
  }

  /** When the before and highlighted texts hold no '{', the prompt shows
      them, tagged, followed by the after text. */
  lemma PartialPromptFilled(before: string, highlighted: string, after: string)
    requires '{' !in before && '{' !in highlighted
    ensures PartialPrompt(before, highlighted, after) ==
            PartialHead + before + "<highlight>" + highlighted + "</highlight>" + after + PartialTail
  {
    FillMiddleFirst(PartialHead, "{beforeHighlight}", "<highlight>", "{highlightedText}", "</highlight>",
                    "{afterHighlight}", PartialTail, before, highlighted, after);
  }

  // ---------------------------------------------------------------------
  // splice

  /** `${slice(0, start || 0)}${reply}${slice(end || 0)}`. */
  function Splice(body: string, h: CharRange, reply: string): string {
    Slice(body, 0, OrZero(h.startCharIndex)) + reply + SliceFrom(body, OrZero(h.endCharIndex))
  }

  /** Inside the body the reply replaces exactly the highlighted characters:
      the text before the start and after the end is kept. */
  lemma SpliceReplacesRange(body: string, s: int, e: int, reply: string)
    requires 0 <= s <= e <= |body|
    ensures var r := Splice(body, CharRange(Some(s), Some(e)), reply);
            r == body[..s] + reply + body[e..] &&
            |r| == |body| - (e - s) + |reply| &&
            r[..s] == body[..s] && r[s..s + |reply|] == reply && r[s + |reply|..] == body[e..]
  {
    var r := Splice(body, CharRange(Some(s), Some(e)), reply);
    assert r == body[..s] + reply + body[e..];
    assert r[..s] == body[..s];
    assert r[s..s + |reply|] == reply;
    assert r[s + |reply|..] == body[e..];
  }

  /** Splicing the highlighted text back in gives the body unchanged. */
  lemma SpliceSameTextIsIdentity(body: string, s: int, e: int)
    requires 0 <= s <= e <= |body|
    ensures Splice(body, CharRange(Some(s), Some(e)), body[s..e]) == body
  {
    SpliceReplacesRange(body, s, e, body[s..e]);
    assert body[..s] + body[s..e] + body[e..] == body;
  }

  // ---------------------------------------------------------------------
  // the node

  /** The steps after the model set-up and the assistant check. */
  function UpdateBody(s: PartialState, model: string, host: Host): (r: Result<Artifact>)
    ensures (s.artifact.None? || |s.artifact.value.contents| == 0) ==> r == Err(NoArtifactError)
    ensures s.artifact.Some? && |s.artifact.value.contents| > 0 && s.highlightedText.None? ==> r == Err(NoHighlightError)
    ensures (s.artifact.Some? && |s.artifact.value.contents| > 0 && s.highlightedText.Some? &&
             !CurrentContent(s.artifact.value).value.Flat?) ==> r == Err(NoBodyError)
    ensures (s.artifact.Some? && |s.artifact.value.contents| > 0 && s.highlightedText.Some? &&
             CurrentContent(s.artifact.value).value.Flat? &&
             forall i :: 0 <= i < |s.internalMessages| ==> !IsHuman(s.internalMessages[i])) ==>
              r == Err(NoHumanMessageError)
    ensures s.artifact.Some? && |s.artifact.value.contents| > 0 && s.highlightedText.Some? &&
            CurrentContent(s.artifact.value).value.Flat? &&
            (exists i :: 0 <= i < |s.internalMessages| && IsHuman(s.internalMessages[i])) ==>
              var a := s.artifact.value;
              var cur := CurrentContent(a).value;
              var h := s.highlightedText.value;
              var body := cur.fullMarkdown;
              var reply := host.invoke(model, PartialPrompt(BeforeHighlight(body, h), HighlightedSlice(body, h), AfterHighlight(body, h)));
              r == (if reply.Ok? then Ok(SplicedVersion(a, cur, h, reply.value)) else Err(reply.msg))
    ensures r.Ok? ==>
              s.artifact.Some? && CurrentContent(s.artifact.value).Some? && s.highlightedText.Some? &&
              var a := s.artifact.value;
              var cur := CurrentContent(a).value;
              var h := s.highlightedText.value;
              cur.Flat? &&
              (exists i :: 0 <= i < |s.internalMessages| && IsHuman(s.internalMessages[i])) &&
              var body := cur.fullMarkdown;
              var reply := host.invoke(model, PartialPrompt(BeforeHighlight(body, h), HighlightedSlice(body, h), AfterHighlight(body, h)));
              reply.Ok? &&
              r.value == SplicedVersion(a, cur, h, reply.value)
  {
    var cur := if s.artifact.Some? then CurrentContent(s.artifact.value) else None;
    if cur.None? then Err(NoArtifactError)
    else if s.highlightedText.None? then Err(NoHighlightError)
    else if !cur.value.Flat? then Err(NoBodyError)
    else
      var a := s.artifact.value;
      var h := s.highlightedText.value;
      var body := cur.value.fullMarkdown;
      var prompt := PartialPrompt(BeforeHighlight(body, h), HighlightedSlice(body, h), AfterHighlight(body, h));
      match FindLast(s.internalMessages, IsHuman)
      case None => Err(NoHumanMessageError)
      case Some(_) =>
        match host.invoke(model, prompt)
        case Err(m) => Err(m)
        case Ok(reply) => Ok(SplicedVersion(a, cur.value, h, reply))
  }

  /** `updateArtifact(state, config)`: the new artifact. */
  function UpdateArtifact(s: PartialState, config: Config, host: Host): (r: Result<Artifact>)
    ensures GetModelConfig(config.customModelName, false).Err? ==>
              r == Err(GetModelConfig(config.customModelName, false).msg)
    ensures GetModelConfig(config.customModelName, false).Ok? && config.assistantId == "" ==>
              r == Err(NoAssistantError)
    ensures GetModelConfig(config.customModelName, false).Ok? && config.assistantId != "" ==>
              r == UpdateBody(s, UpdateModel(GetModelConfig(config.customModelName, false).value), host)
    ensures r.Ok? ==>
              GetModelConfig(config.customModelName, false).Ok? && config.assistantId != "" &&
              r == UpdateBody(s, UpdateModel(GetModelConfig(config.customModelName, false).value), host)
  {
    match GetModelConfig(config.customModelName, false)
    case Err(m) => Err(m)
    case Ok(mc) =>
      if config.assistantId == "" then Err(NoAssistantError)
      else UpdateBody(s, UpdateModel(mc), host)
  }

  /** The version the node commits: the current version, renumbered, with
      the reply spliced into its body, appended and selected. */
  function SplicedVersion(a: Artifact, cur: Content, h: CharRange, reply: string): (r: Artifact)
    requires cur.Flat?
    ensures AppendedLatest(a, r, Revised(cur, |a.contents| + 1, Splice(cur.fullMarkdown, h, reply)))
  {
    AppendVersion(a, Revised(cur, |a.contents| + 1, Splice(cur.fullMarkdown, h, reply)))
  }

  /** A highlight inside a single-body version: the appended version is
      numbered by position and selected, and its body is the old body with
      the highlighted characters replaced by the reply. */
  lemma SplicedVersionReplacesHighlight(a: Artifact, cur: Content, st: int, en: int, reply: string)
    requires Indexed(a) && cur.Flat? && 0 <= st <= en <= |cur.fullMarkdown|
    ensures var a2 := SplicedVersion(a, cur, CharRange(Some(st), Some(en)), reply);
            var body := cur.fullMarkdown;
            var v := a2.contents[|a.contents|];
            Indexed(a2) && CurrentContent(a2) == Some(v) &&
            v.fullMarkdown == body[..st] + reply + body[en..]
  {
    var h := CharRange(Some(st), Some(en));
    AppendKeepsIndexed(a, Revised(cur, |a.contents| + 1, Splice(cur.fullMarkdown, h, reply)));
    SpliceReplacesRange(cur.fullMarkdown, st, en, reply);
  }
}
