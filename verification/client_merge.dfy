/** The browser-side merge of streamed results into the local artifact and
    message list (apps/web/src/contexts/utils.ts). A streamed rewrite first
    appends a version and then keeps overwriting that version in place. */
module ClientMerge {
  import opened Wrappers
  import opened Seqs
  import opened Strings
  import opened Messages
  import opened Artifacts

  // ---------------------------------------------------------------------
  // removeCodeBlockFormatting

  /** The fence as a reference shape: three back-ticks, a tag, a newline,
      the inner text, a newline and three closing back-ticks, spanning the
      whole string. */
  predicate IsFence(text: string, lang: string, inner: string) {
    (forall i :: 0 <= i < |lang| ==> IsWordOrDash(lang[i])) &&
    text == "```" + lang + "\n" + inner + "\n```"
  }

  /** The capture group of `/^```[\w-]*\n([\s\S]*?)\n```$/` on `text`. The
      tag can only end at the first non-tag character, which must be the
      newline, and both anchors pin the inner text, so the lazy group has
      exactly one way to match. */
  function FenceBody(text: string): (r: Option<string>)
    ensures r.Some? ==> |r.value| + 8 <= |text|
  {
    if |text| < 3 || text[..3] != "```" then None
    else
      var n := 3 + WordOrDashRun(text[3..]);
      if n + 5 <= |text| && text[n] == '\n' && text[|text| - 4..] == "\n```" then Some(text[n + 1..|text| - 4])
      else None
  }

  /** The regular expression matches exactly the fences, and its group is
      the fence's inner text. */
  lemma FenceBodyIff(text: string, inner: string)
    ensures FenceBody(text) == Some(inner) <==> exists lang :: IsFence(text, lang, inner)
  {
    if FenceBody(text) == Some(inner) {
      FenceBodySound(text);
    }
    if lang :| IsFence(text, lang, inner) {
      FenceBodyComplete(text, lang, inner);
    }
  }

  /** What the group captures comes from a fence. */
  lemma FenceBodySound(text: string)
    requires FenceBody(text).Some?
    ensures IsFence(text, text[3..3 + WordOrDashRun(text[3..])], FenceBody(text).value)
  {
    var n := 3 + WordOrDashRun(text[3..]);
    var lang := text[3..n];
    assert forall i :: 0 <= i < |lang| ==> lang[i] == text[3..][i];
    assert text == text[..3] + text[3..n] + [text[n]] + text[n + 1..|text| - 4] + text[|text| - 4..];
  }

  /** Every fence is matched, and the group is its inner text. */
  lemma FenceBodyComplete(text: string, lang: string, inner: string)
    requires IsFence(text, lang, inner)
    ensures FenceBody(text) == Some(inner)
  {
    var s := text[3..];
    assert s == lang + "\n" + inner + "\n```";
    assert s[|lang|] == '\n';
    assert forall i :: 0 <= i < |lang| ==> s[i] == lang[i];
    assert WordOrDashRun(s) == |lang|;
    var n := 3 + |lang|;
    assert text[n + 1..|text| - 4] == inner;
    assert text[|text| - 4..] == "\n```";
  }

  /** `removeCodeBlockFormatting(text)`: the trimmed inner text when the
      whole string is one fenced block, the text itself otherwise. */
  function RemoveCodeBlockFormatting(text: string): (r: string)
    ensures r == text || |r| + 8 <= |text|
  {
    if text == "" then text
    else
      match FenceBody(text)
      case Some(inner) => Trim(inner)
      case None => text
  }

  /** A fenced block is unwrapped to its trimmed inner text. */
  lemma FenceUnwraps(lang: string, inner: string)
    requires forall i :: 0 <= i < |lang| ==> IsWordOrDash(lang[i])
    ensures RemoveCodeBlockFormatting("```" + lang + "\n" + inner + "\n```") == Trim(inner)
  {
    var text := "```" + lang + "\n" + inner + "\n```";
    assert IsFence(text, lang, inner);
    FenceBodyIff(text, inner);
  }

  /** Anything that is not a single fenced block comes back unchanged. */
  lemma NonFenceUnchanged(text: string)
    requires forall lang, inner :: !IsFence(text, lang, inner)
    ensures RemoveCodeBlockFormatting(text) == text
  {
    if FenceBody(text).Some? {
      FenceBodyIff(text, FenceBody(text).value);
    }
  }

  // ---------------------------------------------------------------------
  // replaceOrInsertMessageChunk

  /** The string content of a message, "" for structured content. */
  function TextOf(m: Message): string {
    match m.content
    case Text(s) => s
    case Parts(_) => ""
  }

  /** The `findIndex` test: the message's id is `id` (two missing ids match). */
  function IdIs(id: Option<string>): Message -> bool {
    (m: Message) => m.id == id
  }

  /** The search finds the first message carrying `id`. */
  lemma FindIdAt(ms: seq<Message>, k: nat, id: Option<string>)
    requires k < |ms| && ms[k].id == id
    requires forall j :: 0 <= j < k ==> ms[j].id != id
    ensures FindFirst(ms, IdIs(id)) == Some(k)
  {
    assert IdIs(id)(ms[k]);
  }

  /** `replaceOrInsertMessageChunk(prev, chunk)`: a chunk whose id is
      already in the list extends that message's text; a chunk with a new
      id is appended as an AI message. Structured content, on the matched
      message or on the chunk, is refused. */
  function ReplaceOrInsertMessageChunk(prev: seq<Message>, chunk: Message): (r: Result<seq<Message>>)
    ensures r.Ok? ==> chunk.content.Text? && (|r.value| == |prev| || r.value == prev + [chunk.(kind := "ai")])
    ensures r.Err? ==> r == Err("Message content is not a string") || r == Err("Message chunk content is not a string")
  {
    var found := FindFirst(prev, IdIs(chunk.id));
    if found.Some? && prev[found.value].content.Parts? then Err("Message content is not a string")
    else if chunk.content.Parts? then Err("Message chunk content is not a string")
    else
      match found
      case Some(i) =>
        Ok(prev[..i] + [Message("ai", prev[i].id, Text(TextOf(prev[i]) + TextOf(chunk)), prev[i].fields)] + prev[i + 1..])
      case None =>
        Ok(prev + [chunk.(kind := "ai")])
  }

  /** The merge in full: structured content on the first message with the
      chunk's id fails first, then structured content on the chunk; a known
      id extends the first message carrying it, in place, as an AI message,
      leaving the length and every other message unchanged; a new id is
      appended. */
  lemma ReplaceOrInsertCases(prev: seq<Message>, chunk: Message)
    ensures var r := ReplaceOrInsertMessageChunk(prev, chunk);
            (r == Err("Message content is not a string") <==>
               exists i :: 0 <= i < |prev| && prev[i].id == chunk.id && prev[i].content.Parts? &&
                           forall j :: 0 <= j < i ==> prev[j].id != chunk.id) &&
            (r == Err("Message chunk content is not a string") ==> chunk.content.Parts?) &&
            (r.Ok? && (exists i :: 0 <= i < |prev| && prev[i].id == chunk.id) ==>
               |r.value| == |prev| &&
               exists i :: 0 <= i < |prev| && prev[i].id == chunk.id &&
                           (forall j :: 0 <= j < i ==> prev[j].id != chunk.id) &&
                           r.value[i] == Message("ai", prev[i].id, Text(TextOf(prev[i]) + TextOf(chunk)), prev[i].fields) &&
                           forall j :: 0 <= j < |prev| && j != i ==> r.value[j] == prev[j]) &&
            (r.Ok? && (forall i :: 0 <= i < |prev| ==> prev[i].id != chunk.id) ==>
               r.value == prev + [chunk.(kind := "ai")])
  {
    var found := FindFirst(prev, IdIs(chunk.id));
    if found.Some? {
      var i := found.value;
      assert IdIs(chunk.id)(prev[i]);
      assert forall j :: 0 <= j < i ==> !IdIs(chunk.id)(prev[j]);
      KnownIdExtended(prev, chunk, i);
    } else {
      assert forall j :: 0 <= j < |prev| ==> !IdIs(chunk.id)(prev[j]);
    }
  }

  /** The merge when `i` is the first message with the chunk's id. */
  lemma KnownIdExtended(prev: seq<Message>, chunk: Message, i: nat)
    requires i < |prev| && prev[i].id == chunk.id
    requires forall j :: 0 <= j < i ==> prev[j].id != chunk.id
    ensures var r := ReplaceOrInsertMessageChunk(prev, chunk);
            (r == Err("Message content is not a string") <==> prev[i].content.Parts?) &&
            (r.Ok? ==>
               |r.value| == |prev| &&
               r.value[i] == Message("ai", prev[i].id, Text(TextOf(prev[i]) + TextOf(chunk)), prev[i].fields) &&
               forall j :: 0 <= j < |prev| && j != i ==> r.value[j] == prev[j])
  {
    var found := FindFirst(prev, IdIs(chunk.id));
    assert IdIs(chunk.id)(prev[i]);
    assert found == Some(i);
    SpliceOne(prev, i, Message("ai", prev[i].id, Text(TextOf(prev[i]) + TextOf(chunk)), prev[i].fields));
  }

  /** Feeding a stream of chunks in order. */
  function ApplyChunks(ms: seq<Message>, chunks: seq<Message>): (r: Result<seq<Message>>)
    ensures r.Ok? ==> |ms| <= |r.value|
    decreases |chunks|
  {
    if |chunks| == 0 then Ok(ms)
    else
      match ReplaceOrInsertMessageChunk(ms, chunks[0])
      case Err(e) => Err(e)
      case Ok(ms2) => ApplyChunks(ms2, chunks[1..])
  }

  /** The text of a run of chunks, concatenated. */
  function ChunkTexts(chunks: seq<Message>): string {
    if |chunks| == 0 then "" else TextOf(chunks[0]) + ChunkTexts(chunks[1..])
  }

  /** A string chunk of the message `id`. */
  predicate TextChunkOf(c: Message, id: Option<string>) {
    c.id == id && c.content.Text?
  }

  /** One chunk for a message already in the list extends that message in place. */
  lemma ExtendAt(ms: seq<Message>, k: nat, c: Message)
    requires k < |ms| && ms[k].id == c.id && ms[k].content.Text? && c.content.Text?
    requires forall j :: 0 <= j < k ==> ms[j].id != c.id
    ensures ReplaceOrInsertMessageChunk(ms, c) ==
              Ok(ms[k := Message("ai", c.id, Text(TextOf(ms[k]) + TextOf(c)), ms[k].fields)])
  {
    FindIdAt(ms, k, c.id);
    var m2 := Message("ai", c.id, Text(TextOf(ms[k]) + TextOf(c)), ms[k].fields);
    SpliceOne(ms, k, m2);
  }

  /** Feeding a stream whose first chunk extends message `k` is feeding the
      rest to the extended list. */
  lemma ApplyChunksStep(ms: seq<Message>, k: nat, chunks: seq<Message>)
    requires |chunks| > 0 && k < |ms| && ms[k].id == chunks[0].id && ms[k].content.Text? && chunks[0].content.Text?
    requires forall j :: 0 <= j < k ==> ms[j].id != chunks[0].id
    ensures ApplyChunks(ms, chunks) ==
              ApplyChunks(ms[k := Message("ai", chunks[0].id, Text(TextOf(ms[k]) + TextOf(chunks[0])), ms[k].fields)], chunks[1..])
  {
    ExtendAt(ms, k, chunks[0]);
  }

  lemma ConcatAssoc(a: string, b: string, c: string)
    ensures (a + b) + c == a + (b + c)
  {
  }

  /** Once an AI message with the stream's id is in the list, the rest of
      the stream extends exactly that message, in order, and nothing else. */
  lemma {:induction false} StreamExtendsInPlace(ms: seq<Message>, k: nat, id: Option<string>, chunks: seq<Message>)
    requires k < |ms| && ms[k].id == id && ms[k].kind == "ai" && ms[k].content.Text?
    requires forall j :: 0 <= j < k ==> ms[j].id != id
    requires forall i :: 0 <= i < |chunks| ==> TextChunkOf(chunks[i], id)
    ensures ApplyChunks(ms, chunks) == Ok(ms[k := ms[k].(content := Text(TextOf(ms[k]) + ChunkTexts(chunks)))])
    decreases |chunks|
  {
    if |chunks| == 0 {
      assert TextOf(ms[k]) + "" == TextOf(ms[k]);
      assert ms[k := ms[k]] == ms;
    } else {
      var c, rest := chunks[0], chunks[1..];
      ChunksTail(chunks, id);
      var t := TextOf(ms[k]) + TextOf(c);
      var ms2 := ms[k := Message("ai", id, Text(t), ms[k].fields)];
      ApplyChunksStep(ms, k, chunks);
      StreamExtendsInPlace(ms2, k, id, rest);
      assert ChunkTexts(chunks) == TextOf(c) + ChunkTexts(rest);
      ConcatAssoc(TextOf(ms[k]), TextOf(c), ChunkTexts(rest));
      UpdateTwice(ms, k, ms2[k], ms[k].(content := Text(TextOf(ms[k]) + ChunkTexts(chunks))));
    }
  }

  /** The chunks after the first are chunks of the same message. */
  lemma ChunksTail(chunks: seq<Message>, id: Option<string>)
    requires |chunks| > 0
    requires forall i :: 0 <= i < |chunks| ==> TextChunkOf(chunks[i], id)
    ensures TextChunkOf(chunks[0], id)
    ensures forall i :: 0 <= i < |chunks[1..]| ==> TextChunkOf(chunks[1..][i], id)
  {
    forall i | 0 <= i < |chunks[1..]| ensures TextChunkOf(chunks[1..][i], id) {
      assert chunks[1..][i] == chunks[i + 1];
    }
  }

  /** Writing one slot twice keeps the second value. */
  lemma UpdateTwice<T>(s: seq<T>, k: nat, x: T, y: T)
    requires k < |s|
    ensures s[k := x][k := y] == s[k := y]
  {
  }

  /** A whole stream for a new id adds one AI message at the end whose text
      is the chunks' texts in order; earlier messages are untouched. */
  lemma StreamBuildsOneMessage(prev: seq<Message>, id: Option<string>, chunks: seq<Message>)
    requires |chunks| > 0
    requires forall i :: 0 <= i < |chunks| ==> TextChunkOf(chunks[i], id)
    requires forall i :: 0 <= i < |prev| ==> prev[i].id != id
    ensures ApplyChunks(prev, chunks) ==
              Ok(prev + [Message("ai", id, Text(ChunkTexts(chunks)), chunks[0].fields)])
  {
    var c := chunks[0];
    assert TextChunkOf(c, id);
    var ms := prev + [c.(kind := "ai")];
    assert FindFirst(prev, IdIs(id)).None? by {
      assert forall j :: 0 <= j < |prev| ==> !IdIs(id)(prev[j]);
    }
    assert ReplaceOrInsertMessageChunk(prev, c) == Ok(ms);
    var k := |prev|;
    StreamExtendsInPlace(ms, k, id, chunks[1..]);
    assert ms[k := ms[k].(content := Text(TextOf(ms[k]) + ChunkTexts(chunks[1..])))] ==
           prev + [Message("ai", id, Text(ChunkTexts(chunks)), c.fields)];
  }

  // ---------------------------------------------------------------------
  // createNewGeneratedArtifactFromTool

  /** The generate tool's arguments; every field may be missing. */
  datatype ArtifactToolResponse = ArtifactToolResponse(kind: Option<string>, title: Option<string>, artifact: Option<string>)

  /** `x || ""` on an optional string. */
  function OrEmpty(x: Option<string>): (r: string)
    ensures x.Some? ==> r == x.value
    ensures x.None? ==> r == ""
  {
    x.GetOr("")
  }

  /** `createNewGeneratedArtifactFromTool(tool)`: the first version of a new
      text artifact; nothing for a missing, empty or non-"text" type. */
  function CreateNewGeneratedArtifactFromTool(tool: ArtifactToolResponse): (r: Option<Content>)
    ensures r.Some? <==> tool.kind == Some("text")
    ensures r.Some? ==> IsMarkdownContent(r.value) && r.value.index == 1 &&
                        r.value.title == OrEmpty(tool.title) && r.value.fullMarkdown == OrEmpty(tool.artifact)
  {
    if tool.kind.None? || tool.kind.value == "" then None
    else if tool.kind.value == "text" then Some(Flat(1, "text", OrEmpty(tool.title), OrEmpty(tool.artifact)))
    else None
  }

  /** The generated version starts an indexed artifact in which it is the
      current text version. */
  lemma GeneratedVersionIsCurrent(tool: ArtifactToolResponse)
    requires tool.kind == Some("text")
    ensures var c := CreateNewGeneratedArtifactFromTool(tool).value;
            Indexed(Artifact(1, [c])) && FindCurrentText(Artifact(1, [c])) == Some(c)
  {
    var c := CreateNewGeneratedArtifactFromTool(tool).value;
    assert Artifact(1, [c]).contents[0] == c;
  }

  // ---------------------------------------------------------------------
  // validateNewArtifactIndex

  /** `validateNewArtifactIndex(guess, prevLen, isFirstUpdate)`: a guess is
      kept only when it already is the right answer. */
  function ValidateNewArtifactIndex(guess: int, prevLen: nat, isFirstUpdate: bool): (r: int)
    ensures isFirstUpdate ==> r == prevLen + 1
    ensures !isFirstUpdate ==> r == prevLen
  {
    if isFirstUpdate then
      if guess != prevLen + 1 then prevLen + 1 else guess
    else
      if guess != prevLen then prevLen else guess
  }

  /** The guess never matters. */
  lemma GuessIgnored(g1: int, g2: int, prevLen: nat, isFirstUpdate: bool)
    ensures ValidateNewArtifactIndex(g1, prevLen, isFirstUpdate) == ValidateNewArtifactIndex(g2, prevLen, isFirstUpdate)
  {
  }

  // ---------------------------------------------------------------------
  // updateHighlightedMarkdown, updateRewrittenArtifact

  /** `{ ...c, fullMarkdown: body }` for the versions numbered `ci`. Markdown
      artifacts hold only flat versions; any other entry is left as it is. */
  function OverwriteIfCurrent(c: Content, ci: int, body: string): Content {
    if c.Flat? && c.index == ci then c.(fullMarkdown := body) else c
  }

  /** `contents.map(...)` overwriting the body of every version numbered `ci`. */
  function OverwriteVersions(cs: seq<Content>, ci: int, body: string): (r: seq<Content>)
    ensures |r| == |cs|
  {
    seq(|cs|, i requires 0 <= i < |cs| => OverwriteIfCurrent(cs[i], ci, body))
  }

  /** `cs2` is `cs` with the body of each flat version numbered `ci` set to
      `body` and every other version untouched. */
  predicate OverwroteInPlace(cs: seq<Content>, cs2: seq<Content>, ci: int, body: string) {
    |cs2| == |cs| &&
    forall i :: 0 <= i < |cs| ==>
      (cs[i].index != ci ==> cs2[i] == cs[i]) &&
      (cs[i].index == ci && cs[i].Flat? ==> cs2[i] == Flat(ci, cs[i].kind, cs[i].title, body))
  }

  /** The merge both streaming paths share: the first update appends
      `added`, later ones overwrite the versions numbered `contents.length`. */
  function MergeStreamed(prev: Artifact, added: Content, body: string, guess: int, isFirstUpdate: bool): (r: Artifact)
  {
    var ci := ValidateNewArtifactIndex(guess, |prev.contents|, isFirstUpdate);
    if isFirstUpdate then Artifact(ci, prev.contents + [added])
    else Artifact(ci, OverwriteVersions(prev.contents, ci, body))
  }

  /** `updateHighlightedMarkdown(prev, content, guess, prevCurrent, isFirstUpdate)`:
      the first update appends a copy of the current version renumbered
      `length + 1` with the new body; later updates overwrite in place the
      body of the versions numbered `length`, which stays current. */
  function UpdateHighlightedMarkdown(prev: Artifact, content: string, guess: int, prevCurrent: Content, isFirstUpdate: bool): (r: Artifact)
    requires prevCurrent.Flat?
    ensures isFirstUpdate ==>
              AppendedLatest(prev, r, Flat(|prev.contents| + 1, prevCurrent.kind, prevCurrent.title, content))
    ensures !isFirstUpdate ==>
              r.currentIndex == |prev.contents| && OverwroteInPlace(prev.contents, r.contents, |prev.contents|, content)
  {
    var ci := ValidateNewArtifactIndex(guess, |prev.contents|, isFirstUpdate);
    MergeStreamed(prev, prevCurrent.(index := ci, fullMarkdown := content), content, guess, isFirstUpdate)
  }

  /** The title `updateRewrittenArtifact` gives a new version:
      `meta.title ?? prevCurrent?.title ?? ""`. */
  function RewrittenTitle(metaTitle: Option<string>, prevCurrent: Option<Content>): (t: string)
    ensures metaTitle.Some? ==> t == metaTitle.value
    ensures metaTitle.None? && prevCurrent.Some? ==> t == prevCurrent.value.title
    ensures metaTitle.None? && prevCurrent.None? ==> t == ""
  {
    match metaTitle
    case Some(t) => t
    case None => if prevCurrent.Some? then prevCurrent.value.title else ""
  }

  /** `updateRewrittenArtifact(...)`: the first update appends a fresh text
      version numbered `length + 1`; later updates overwrite in place the
      body of the versions numbered `length`. */
  function UpdateRewrittenArtifact(prev: Artifact, body: string, metaTitle: Option<string>, prevCurrent: Option<Content>,
                                   guess: int, isFirstUpdate: bool): (r: Artifact)
    ensures isFirstUpdate ==>
              AppendedLatest(prev, r, Flat(|prev.contents| + 1, "text", RewrittenTitle(metaTitle, prevCurrent), body)) &&
              IsMarkdownContent(r.contents[|prev.contents|])
    ensures !isFirstUpdate ==>
              r.currentIndex == |prev.contents| && OverwroteInPlace(prev.contents, r.contents, |prev.contents|, body)
  {
    var ci := ValidateNewArtifactIndex(guess, |prev.contents|, isFirstUpdate);
    MergeStreamed(prev, Flat(ci, "text", RewrittenTitle(metaTitle, prevCurrent), body), body, guess, isFirstUpdate)
  }

  /** No version of `prev` carries the number the first update will use. */
  predicate FreshSlot(prev: Artifact) {
    forall i :: 0 <= i < |prev.contents| ==> prev.contents[i].index != |prev.contents| + 1
  }

  /** A whole stream settles on one appended version: a first update
      followed by a later one is the first update made with the final text.
      This needs the new number to be unused, as it is on indexed
      artifacts. */
  lemma HighlightStreamSettles(prev: Artifact, c1: string, c2: string, g1: int, g2: int, g3: int,
                               pc: Content, pc2: Content)
    requires pc.Flat? && pc2.Flat? && FreshSlot(prev)
    ensures UpdateHighlightedMarkdown(UpdateHighlightedMarkdown(prev, c1, g1, pc, true), c2, g2, pc2, false) ==
            UpdateHighlightedMarkdown(prev, c2, g3, pc, true)
  {
    var a1 := UpdateHighlightedMarkdown(prev, c1, g1, pc, true);
    var a2 := UpdateHighlightedMarkdown(a1, c2, g2, pc2, false);
    var b := UpdateHighlightedMarkdown(prev, c2, g3, pc, true);
    assert a1.contents[..|prev.contents|] == prev.contents;
    assert forall i :: 0 <= i < |prev.contents| ==> a2.contents[i] == prev.contents[i] == b.contents[i];
    assert a2.contents == b.contents;
  }

  /** The same for a streamed rewrite. */
  lemma RewriteStreamSettles(prev: Artifact, c1: string, c2: string, t1: Option<string>, t2: Option<string>,
                             p1: Option<Content>, p2: Option<Content>, g1: int, g2: int, g3: int)
    requires FreshSlot(prev)
    ensures UpdateRewrittenArtifact(UpdateRewrittenArtifact(prev, c1, t1, p1, g1, true), c2, t2, p2, g2, false) ==
            UpdateRewrittenArtifact(prev, c2, t1, p1, g3, true)
  {
    var a1 := UpdateRewrittenArtifact(prev, c1, t1, p1, g1, true);
    var a2 := UpdateRewrittenArtifact(a1, c2, t2, p2, g2, false);
    var b := UpdateRewrittenArtifact(prev, c2, t1, p1, g3, true);
    assert a1.contents[..|prev.contents|] == prev.contents;
    assert forall i :: 0 <= i < |prev.contents| ==> a2.contents[i] == prev.contents[i] == b.contents[i];
    assert a2.contents == b.contents;
  }

  /** On an indexed artifact a later update rewrites exactly the newest
      version and nothing else. */
  lemma LaterUpdateTouchesNewest(prev: Artifact, body: string, guess: int, pc: Content)
    requires pc.Flat? && Indexed(prev) && |prev.contents| > 0 && prev.contents[|prev.contents| - 1].Flat?
    ensures var n := |prev.contents|;
            var r := UpdateHighlightedMarkdown(prev, body, guess, pc, false);
            r.contents == prev.contents[..n - 1] + [prev.contents[n - 1].(fullMarkdown := body)] &&
            CurrentContent(r) == Some(r.contents[n - 1])
  {
    var n := |prev.contents|;
    var r := UpdateHighlightedMarkdown(prev, body, guess, pc, false);
    assert r.contents[n - 1].index == n;
  }

  // ---------------------------------------------------------------------
  // extractChunkFields

  /** The fields of one streamed event the client dispatches on. */
  datatype StreamChunkFields = StreamChunkFields(
    runId: Value, event: Value, langgraphNode: Value,
    nodeInput: Value, nodeChunk: Value, nodeOutput: Value, taskName: Value)

  /** `x || ""`. */
  function OrEmptyValue(v: Value): (r: Value)
    ensures Truthy(v) ==> r == v
    ensures !Truthy(v) ==> r == Str("")
  {
    if Truthy(v) then v else Str("")
  }

  const NoFields: StreamChunkFields :=
    StreamChunkFields(Undefined, Str(""), Str(""), Undefined, Undefined, Undefined, Undefined)

  /** `extractChunkFields(chunk)`: all empty for a missing chunk or one
      without truthy `data`; otherwise the nested properties, with "" for a
      falsy event or node name. */
  function ExtractChunkFields(chunk: Value): (r: StreamChunkFields)
    ensures !Truthy(Get(chunk, "data")) ==> r == NoFields
    ensures Truthy(r.event) || r.event == Str("")
    ensures Truthy(r.langgraphNode) || r.langgraphNode == Str("")
    ensures r.runId != Undefined ==> Truthy(Get(chunk, "data"))
    ensures Truthy(Get(chunk, "data")) ==>
              var d := Get(chunk, "data");
              r.runId == Get(Get(d, "metadata"), "run_id") &&
              r.event == OrEmptyValue(Get(d, "event")) &&
              r.langgraphNode == OrEmptyValue(Get(Get(d, "metadata"), "langgraph_node")) &&
              r.nodeInput == Get(Get(d, "data"), "input") &&
              r.nodeChunk == Get(Get(d, "data"), "chunk") &&
              r.nodeOutput == Get(Get(d, "data"), "output") &&
              r.taskName == Get(d, "name")
  {
    if !Truthy(chunk) || !Truthy(Get(chunk, "data")) then NoFields
    else
      var data := Get(chunk, "data");
      StreamChunkFields(
        Get(Get(data, "metadata"), "run_id"),
        OrEmptyValue(Get(data, "event")),
        OrEmptyValue(Get(Get(data, "metadata"), "langgraph_node")),
        Get(Get(data, "data"), "input"),
        Get(Get(data, "data"), "chunk"),
        Get(Get(data, "data"), "output"),
        Get(data, "name"))
  }

  /** Any event is read back field by field: whatever else the chunk and
      its `data` hold, the run id and node name come from the metadata
      object, the node's input, chunk and output from the inner `data`
      object, and the event and task name from `data` itself. */
  lemma ChunkFieldsRoundTrip(outer: map<string, Value>, data: map<string, Value>,
                             metadata: map<string, Value>, payload: map<string, Value>)
    ensures var d := data["metadata" := Obj(metadata)]["data" := Obj(payload)];
            var r := ExtractChunkFields(Obj(outer["data" := Obj(d)]));
            r.runId == Lookup(metadata, "run_id") &&
            r.event == OrEmptyValue(Lookup(data, "event")) &&
            r.langgraphNode == OrEmptyValue(Lookup(metadata, "langgraph_node")) &&
            r.nodeInput == Lookup(payload, "input") &&
            r.nodeChunk == Lookup(payload, "chunk") &&
            r.nodeOutput == Lookup(payload, "output") &&
            r.taskName == Lookup(data, "name")
  {
    var d := data["metadata" := Obj(metadata)]["data" := Obj(payload)];
    var chunk := Obj(outer["data" := Obj(d)]);
    assert Get(chunk, "data") == Obj(d);
    assert Get(Obj(d), "metadata") == Obj(metadata);
    assert Get(Obj(d), "data") == Obj(payload);
    assert Get(Obj(d), "event") == Lookup(data, "event") by { assert "event" != "metadata" && "event" != "data"; }
    assert Get(Obj(d), "name") == Lookup(data, "name") by { assert "name" != "metadata" && "name" != "data"; }
  }

  /** `m[key]`, or `undefined` when the key is missing. */
  function Lookup(m: map<string, Value>, key: string): Value {
    if key in m then m[key] else Undefined
  }
}
