/** The versioned document ("artifact") and the lookups every node shares
    (packages/shared/src/utils/artifacts.ts). */
module Artifacts {
  import opened Wrappers
  import opened Seqs
  import opened Messages

  /** One sub-document of a multi-article version. */
  datatype Article = Article(index: int, title: string, author: string, fullMarkdown: string)

  /** One entry of an artifact's history. `Flat` is the single-body version
      (`type` is "text" for markdown); `Snapshot` is the multi-article
      version, which carries no `type` and no `fullMarkdown`. */
  datatype Content =
    | Flat(index: int, kind: string, title: string, fullMarkdown: string)
    | Snapshot(index: int, title: string, articles: seq<Article>)

  /** The version log plus the 1-based `currentIndex` selecting the active version. */
  datatype Artifact = Artifact(currentIndex: int, contents: seq<Content>)

  /** The object form of a version, as `isArtifactMarkdownContent` sees it. */
  function ContentValue(c: Content): Value {
    match c
    case Flat(i, k, t, m) =>
      Obj(map["index" := Num(i), "type" := Str(k), "title" := Str(t), "fullMarkdown" := Str(m)])
    case Snapshot(i, t, _) =>
      Obj(map["index" := Num(i), "title" := Str(t), "articles" := Arr([])])
  }

  /** `isArtifactMarkdownContent(content)`: a non-null object whose `type` is "text". */
  predicate IsArtifactMarkdownContent(v: Value) {
    v.Obj? && "type" in v.fields && v.fields["type"] == Str("text")
  }

  /** The same test on the tagged union. */
  predicate IsMarkdownContent(c: Content) {
    c.Flat? && c.kind == "text"
  }

  /** The value-level test holds exactly for flat versions of type "text",
      and never for null, primitives or arrays. */
  lemma MarkdownContentAgrees(c: Content, v: Value)
    ensures IsMarkdownContent(c) <==> IsArtifactMarkdownContent(ContentValue(c))
    ensures !v.Obj? ==> !IsArtifactMarkdownContent(v)
  {
  }

  /** The position `getArtifactContent` reads: the first version whose index
      equals `currentIndex`, else the last version, else none. */
  function CurrentPos(a: Artifact): (r: Option<nat>)
    ensures r.Some? <==> |a.contents| > 0
    ensures r.Some? ==> r.value < |a.contents|
    ensures r.Some? && a.contents[r.value].index == a.currentIndex ==>
              forall j :: 0 <= j < r.value ==> a.contents[j].index != a.currentIndex
    ensures r.Some? && a.contents[r.value].index != a.currentIndex ==>
              r.value == |a.contents| - 1 &&
              forall j :: 0 <= j < |a.contents| ==> a.contents[j].index != a.currentIndex
    ensures (exists j :: 0 <= j < |a.contents| && a.contents[j].index == a.currentIndex) ==>
              r.Some? && a.contents[r.value].index == a.currentIndex
  {
    var ci := a.currentIndex;
    match FindFirst(a.contents, (c: Content) => c.index == ci)
    case Some(i) => Some(i)
    case None => if |a.contents| == 0 then None else Some(|a.contents| - 1)
  }

  /** The current version of an existing artifact; `None` only when it has no versions. */
  function CurrentContent(a: Artifact): (r: Option<Content>)
    ensures r.Some? <==> |a.contents| > 0
    ensures r.Some? ==> r.value in a.contents
  {
    match CurrentPos(a)
    case Some(i) => Some(a.contents[i])
    case None => None
  }

  /** `getArtifactContent(artifact)`: fails with "No artifact found." on a
      missing artifact and never fails otherwise. */
  function GetArtifactContent(artifact: Option<Artifact>): (r: Result<Option<Content>>)
    ensures artifact.None? <==> r == Err("No artifact found.")
    ensures artifact.Some? ==> r.Ok? && (r.value.Some? <==> |artifact.value.contents| > 0)
    ensures artifact.Some? && r.Ok? && r.value.Some? ==> r.value.value in artifact.value.contents
  {
    match artifact
    case None => Err("No artifact found.")
    case Some(a) => Ok(CurrentContent(a))
  }

  /** The lookup the approval nodes use: the first version whose index is
      `currentIndex` and whose type is "text", with no fallback. */
  function FindCurrentText(a: Artifact): (r: Option<Content>)
    ensures r.Some? ==> r.value in a.contents && r.value.index == a.currentIndex && IsMarkdownContent(r.value)
    ensures r.None? <==> forall j :: 0 <= j < |a.contents| ==>
              !(a.contents[j].index == a.currentIndex && IsMarkdownContent(a.contents[j]))
  {
    var ci := a.currentIndex;
    match FindFirst(a.contents, (c: Content) => c.index == ci && IsMarkdownContent(c))
    case Some(i) => Some(a.contents[i])
    case None => None
  }

  /** `a2` is `a` with `v` added as the newest version and selected by
      `currentIndex = contents.length + 1`, every earlier version kept. */
  predicate AppendedLatest(a: Artifact, a2: Artifact, v: Content) {
    |a2.contents| == |a.contents| + 1 &&
    a2.contents[..|a.contents|] == a.contents &&
    a2.contents[|a.contents|] == v &&
    a2.currentIndex == |a.contents| + 1
  }

  /** `{ ...artifact, currentIndex: n, contents: [...artifact.contents, v] }`
      with `n = contents.length + 1`. */
  function AppendVersion(a: Artifact, v: Content): (r: Artifact)
    ensures AppendedLatest(a, r, v)
  {
    Artifact(|a.contents| + 1, a.contents + [v])
  }

  /** `{ ...c, index, fullMarkdown }` on a flat version. */
  function Revised(c: Content, index: int, body: string): (r: Content)
    requires c.Flat?
    ensures r.Flat? && r.kind == c.kind && r.title == c.title
    ensures r.index == index && r.fullMarkdown == body
  {
    c.(index := index, fullMarkdown := body)
  }

  /** Every version's index is its 1-based position: the shape produced by
      appending with `contents.length + 1` from an empty log. */
  predicate Indexed(a: Artifact) {
    forall i :: 0 <= i < |a.contents| ==> a.contents[i].index == i + 1
  }

  /** The largest version index (0 for an empty log). */
  function MaxIndex(cs: seq<Content>): int {
    if |cs| == 0 then 0
    else
      var m := MaxIndex(cs[..|cs| - 1]);
      if cs[|cs| - 1].index > m then cs[|cs| - 1].index else m
  }

  /** On indexed artifacts `contents.length + 1` is the largest index + 1. */
  lemma {:induction false} LengthRuleIsMaxRule(a: Artifact)
    requires Indexed(a)
    ensures |a.contents| + 1 == MaxIndex(a.contents) + 1
    decreases |a.contents|
  {
    if |a.contents| > 0 {
      var b := Artifact(a.currentIndex, a.contents[..|a.contents| - 1]);
      assert Indexed(b);
      LengthRuleIsMaxRule(b);
    }
  }

  /** Appending a version numbered `length + 1` keeps an artifact indexed, and
      the lookup then selects the new version. */
  lemma AppendKeepsIndexed(a: Artifact, v: Content)
    requires Indexed(a) && v.index == |a.contents| + 1
    ensures Indexed(AppendVersion(a, v))
    ensures CurrentContent(AppendVersion(a, v)) == Some(v)
  {
    var r := AppendVersion(a, v);
    assert r.contents[|a.contents|] == v;
  }

  /** On indexed artifacts, looking a version up by position (as the
      multi-article path does) and by index agree. */
  lemma PositionalLookupAgrees(a: Artifact)
    requires Indexed(a) && 1 <= a.currentIndex <= |a.contents|
    ensures CurrentContent(a) == Some(a.contents[a.currentIndex - 1])
  {
    assert a.contents[a.currentIndex - 1].index == a.currentIndex;
  }

  /** Off the indexed shape the length rule can reuse an existing index, and
      the lookup then keeps selecting the older version. */
  lemma LengthRuleCanCollide()
    ensures var a := Artifact(2, [Flat(2, "text", "t", "old")]);
            var r := AppendVersion(a, Flat(|a.contents| + 1, "text", "t", "new"));
            r.contents[1].index == r.contents[0].index &&
            CurrentContent(r) == Some(Flat(2, "text", "t", "old"))
  {
    var a := Artifact(2, [Flat(2, "text", "t", "old")]);
    var r := AppendVersion(a, Flat(2, "text", "t", "new"));
    assert r.contents[0].index == r.currentIndex;
  }
}
