/** The Google Docs import route (apps/web/src/app/api/google/docs/route.ts):
    the document id read from the URL, and the conversion of the fetched
    document body into markdown blocks joined by a blank line. The Docs API
    call is a parameter; credentials and logging are not modelled. */
module DocsRoute {
  import opened Wrappers
  import opened Seqs
  import opened Strings

  // ---------------------------------------------------------------------
  // document id

  /** The pattern `/\/d\/([a-zA-Z0-9-_]+)/` can start matching at `i`: a
      `/d/` followed by at least one id character. */
  predicate MatchesAt(url: string, i: nat) {
    i + 3 < |url| && url[i..i + 3] == "/d/" && IsWordOrDash(url[i + 3])
  }

  /** The match as a reference shape: `id` is the whole run of id characters
      after the leftmost `/d/` that is followed by one. */
  predicate IsDocIdMatch(url: string, i: nat, id: string) {
    MatchesAt(url, i) && (forall j: nat :: j < i ==> !MatchesAt(url, j)) &&
    i + 3 + |id| <= |url| && url[i + 3..i + 3 + |id|] == id && |id| > 0 &&
    (forall k :: 0 <= k < |id| ==> IsWordOrDash(id[k])) &&
    (i + 3 + |id| == |url| || !IsWordOrDash(url[i + 3 + |id|]))
  }

  /** The leftmost position at or after `from` where the pattern matches. */
  function FirstMatch(url: string, from: nat): (r: Option<nat>)
    ensures r.Some? ==> from <= r.value && MatchesAt(url, r.value)
    ensures r.Some? ==> forall j: nat :: from <= j < r.value ==> !MatchesAt(url, j)
    ensures r.None? ==> forall j: nat :: from <= j ==> !MatchesAt(url, j)
    decreases |url| - from
  {
    if from + 3 >= |url| then None
    else if MatchesAt(url, from) then Some(from)
    else FirstMatch(url, from + 1)
  }

  /** `docUrl.match(/\/d\/([a-zA-Z0-9-_]+)/)` and its group: the greedy run
      of id characters after the leftmost match, `None` when nothing
      matches. */
  function ExtractDocId(url: string): (r: Option<string>)
    ensures r.None? <==> forall j: nat :: !MatchesAt(url, j)
    ensures r.Some? ==> |r.value| > 0 && forall k :: 0 <= k < |r.value| ==> IsWordOrDash(r.value[k])
  {
    match FirstMatch(url, 0)
    case None => None
    case Some(i) => Some(url[i + 3..i + 3 + WordOrDashRun(url[i + 3..])])
  }

  /** The id read from the URL is the regular expression's group. */
  lemma ExtractDocIdSound(url: string)
    requires ExtractDocId(url).Some?
    ensures IsDocIdMatch(url, FirstMatch(url, 0).value, ExtractDocId(url).value)
  {
    var i := FirstMatch(url, 0).value;
    var rest := url[i + 3..];
    var n := WordOrDashRun(rest);
    assert url[i + 3..i + 3 + n] == rest[..n];
    assert i + 3 + n == |url| || url[i + 3 + n] == rest[n];
  }

  /** The regular expression's group is the id read from the URL. */
  lemma ExtractDocIdComplete(url: string, i: nat, id: string)
    requires IsDocIdMatch(url, i, id)
    ensures ExtractDocId(url) == Some(id)
  {
    var f := FirstMatch(url, 0);
    assert f == Some(i);
    var rest := url[i + 3..];
    forall k | 0 <= k < |id| ensures IsWordOrDash(rest[k]) {
      assert rest[k] == url[i + 3 + k] == id[k];
    }
    assert |id| < |rest| ==> rest[|id|] == url[i + 3 + |id|];
    assert WordOrDashRun(rest) == |id|;
  }

  /** The id read from the URL is exactly the regular expression's group. */
  lemma ExtractDocIdIff(url: string, id: string)
    ensures ExtractDocId(url) == Some(id) <==> exists i: nat :: IsDocIdMatch(url, i, id)
  {
    if ExtractDocId(url) == Some(id) {
      ExtractDocIdSound(url);
    }
    if exists i: nat :: IsDocIdMatch(url, i, id) {
      var i: nat :| IsDocIdMatch(url, i, id);
      ExtractDocIdComplete(url, i, id);
    }
  }

  /** The part of a document link before `/d/`. */
  const DocsPrefix: string := "https://docs.google.com/document"

  /** No match can start inside the fixed part of a document link. */
  lemma NoMatchInPrefix(rest: string, j: nat)
    requires j < |DocsPrefix|
    ensures !MatchesAt(DocsPrefix + rest, j)
  {
    var url := DocsPrefix + rest;
    assert url[j] == DocsPrefix[j];
    if j + 3 < |url| {
      var w := url[j..j + 3];
      assert w[0] == url[j] && w[1] == url[j + 1] && w[2] == url[j + 2];
      assert j + 1 < |DocsPrefix| ==> url[j + 1] == DocsPrefix[j + 1];
      assert j + 2 < |DocsPrefix| ==> url[j + 2] == DocsPrefix[j + 2];
    }
  }

  /** The id is read back from a document link of the usual shape. */
  lemma DocumentLinkRoundTrip(id: string, tail: string)
    requires |id| > 0 && forall k :: 0 <= k < |id| ==> IsWordOrDash(id[k])
    requires tail == [] || !IsWordOrDash(tail[0])
    ensures ExtractDocId("https://docs.google.com/document/d/" + id + tail) == Some(id)
  {
    var rest := "/d/" + id + tail;
    var url := DocsPrefix + rest;
    assert "https://docs.google.com/document/d/" + id + tail == url;
    var i := |DocsPrefix|;
    assert url[i..] == rest;
    assert url[i..i + 3] == rest[..3] == "/d/";
    assert url[i + 3] == id[0];
    forall j: nat | j < i
      ensures !MatchesAt(url, j)
    {
      NoMatchInPrefix(rest, j);
    }
    assert url[i + 3..i + 3 + |id|] == id;
    assert i + 3 + |id| < |url| ==> url[i + 3 + |id|] == tail[0];
    assert IsDocIdMatch(url, i, id);
    ExtractDocIdComplete(url, i, id);
  }

  // ---------------------------------------------------------------------
  // the document body

  datatype TextStyle = TextStyle(bold: bool, italic: bool, underline: bool)

  /** A text run; `textStyle` is absent when the run carries no style. */
  datatype TextRun = TextRun(content: string, textStyle: Option<TextStyle>)

  /** An element of a paragraph; only text runs are read. */
  datatype ParagraphElement = ParagraphElement(textRun: Option<TextRun>)

  /** A paragraph; `namedStyleType` is "" when the paragraph has no style. */
  datatype Paragraph = Paragraph(namedStyleType: string, elements: Option<seq<ParagraphElement>>)

  /** One entry of a list item's content; only paragraphs are read. */
  datatype ListContent = ListContent(paragraph: Option<Paragraph>)

  /** A list item; `listId` is "" when absent. */
  datatype ListItem = ListItem(listId: string, content: seq<ListContent>)

  /** A structural element of the body. The kinds are tested in the order
      paragraph, table, list item, so the first present one decides. */
  datatype StructuralElement = StructuralElement(paragraph: Option<Paragraph>, table: bool, listItem: Option<ListItem>)

  /** The fetched document; `title` is "" when absent, `body` is `None`
      when the document has no body content. */
  datatype Document = Document(title: string, body: Option<seq<StructuralElement>>)

  const TablePlaceholder: string := "<!--" + " Table detected - converting to markdown format -->"
  const NoContentText: string := "No content could be extracted from the document."
  const UntitledTitle: string := "Untitled Document"

  /** The message of the `TypeError` raised when a list paragraph has no
      elements. */
  const MissingElementsMessage: string := "Cannot read properties of undefined (reading 'filter')"

  /** The message of the `RangeError` raised by `repeat` with a negative count. */
  function InvalidCountMessage(level: int): string
    requires level < 0
  {
    "Invalid count value: -" + NatToString(-level)
  }

  /** The filter `el.textRun && el.textRun.content`: a run with non-empty text. */
  predicate HasText(e: ParagraphElement) {
    e.textRun.Some? && e.textRun.value.content != ""
  }

  /** The texts of the runs, concatenated, as headings and list items read them. */
  function PlainText(els: seq<ParagraphElement>): string
    decreases |els|
  {
    if |els| == 0 then ""
    else (if HasText(els[0]) then els[0].textRun.value.content else "") + PlainText(els[1..])
  }

  /** A run with its markdown emphasis: bold first, then italic, then
      underline, each wrapping what came before. */
  function Formatted(run: TextRun): string {
    match run.textStyle
    case None => run.content
    case Some(st) =>
      var b := if st.bold then "**" + run.content + "**" else run.content;
      var i := if st.italic then "*" + b + "*" else b;
      if st.underline then "__" + i + "__" else i
  }

  /** The formatted runs, concatenated without trimming, as a regular
      paragraph reads them. */
  function FormattedText(els: seq<ParagraphElement>): string
    decreases |els|
  {
    if |els| == 0 then ""
    else (if HasText(els[0]) then Formatted(els[0].textRun.value) else "") + FormattedText(els[1..])
  }

  /** The marks that open a formatted run, outermost first. */
  function Opening(st: TextStyle): string {
    (if st.underline then "__" else "") + (if st.italic then "*" else "") + (if st.bold then "**" else "")
  }

  /** The marks that close a formatted run, innermost first. */
  function Closing(st: TextStyle): string {
    (if st.bold then "**" else "") + (if st.italic then "*" else "") + (if st.underline then "__" else "")
  }

  /** The marks nest: underline outermost, bold innermost. */
  lemma FormattedNesting(content: string, st: TextStyle)
    ensures Formatted(TextRun(content, Some(st))) == Opening(st) + content + Closing(st)
  {
    var ob := if st.bold then "**" else "";
    var oi := if st.italic then "*" else "";
    var ou := if st.underline then "__" else "";
    var b := if st.bold then "**" + content + "**" else content;
    var i := if st.italic then "*" + b + "*" else b;
    Wrapped(ob, content);
    Wrapped(oi, b);
    Wrapped(ou, i);
    Nest(ou, oi, ob, content);
  }

  lemma Wrapped(m: string, x: string)
    ensures m + x + m == if m == "" then x else m + x + m
  {
    if m == "" { assert m + x + m == x; }
  }

  lemma Nest(ou: string, oi: string, ob: string, c: string)
    ensures ou + (oi + (ob + c + ob) + oi) + ou == (ou + oi + ob) + c + (ob + oi + ou)
  {
  }

  /** Runs without any style read the same in a paragraph as in a heading. */
  lemma {:induction false} UnstyledParagraphIsPlain(els: seq<ParagraphElement>)
    requires forall k :: 0 <= k < |els| && els[k].textRun.Some? ==> els[k].textRun.value.textStyle.None?
    ensures FormattedText(els) == PlainText(els)
    decreases |els|
  {
    if |els| > 0 {
      UnstyledParagraphIsPlain(els[1..]);
    }
  }

  /** `namedStyleType.includes('HEADING')`. */
  predicate IsHeadingStyle(style: string) {
    Contains(style, "HEADING")
  }

  /** `parseInt(style.replace('HEADING_', ''), 10) || 1`: a `NaN` or a zero
      level falls back to 1. A negative level comes through. */
  function HeadingLevel(style: string): (level: int)
    ensures level != 0
  {
    OrOne(ParseInt(ReplaceFirst(style, "HEADING_", "")))
  }

  /** `x || 1` on a parsed number: `NaN` and zero are falsy. */
  function OrOne(parsed: Option<int>): (r: int)
    ensures r != 0
    ensures parsed.Some? && parsed.value != 0 ==> r == parsed.value
    ensures parsed.None? || parsed == Some(0) ==> r == 1
  {
    match parsed
    case None => 1
    case Some(v) => if v == 0 then 1 else v
  }

  /** The named heading styles give their number as the level, and
      `HEADING_0` gives 1. */
  lemma HeadingLevelOfNamedStyle(n: nat)
    ensures HeadingLevel("HEADING_" + NatToString(n)) == if n == 0 then 1 else n
  {
    HeadingStyleNamed(NatToString(n));
    ParseIntRoundTrip(n);
  }

  /** Every `HEADING_` style counts as a heading, and its level is read
      from what follows the prefix. */
  lemma HeadingStyleNamed(suffix: string)
    ensures IsHeadingStyle("HEADING_" + suffix)
    ensures HeadingLevel("HEADING_" + suffix) == OrOne(ParseInt(suffix))
  {
    var style := "HEADING_" + suffix;
    assert style[0..7] == "HEADING";
    assert OccursAt(style, "HEADING", 0);
    StripPrefix(style, "HEADING_");
    assert style[|"HEADING_"|..] == suffix;
  }

  /** A text that holds a non-blank character does not trim to "". */
  lemma NotBlank(s: string, i: nat)
    requires i < |s| && !IsSpace(s[i])
    ensures Trim(s) != ""
  {
    TrimEmptyIffBlank(s);
  }

  /** The text of a list item: the plain text of each paragraph entry,
      concatenated. An entry whose paragraph has no elements raises a
      `TypeError`. */
  function ListText(content: seq<ListContent>): (r: Result<string>)
    ensures r.Err? ==> r.msg == MissingElementsMessage
    decreases |content|
  {
    if |content| == 0 then Ok("")
    else
      var head :=
        if content[0].paragraph.None? then Ok("")
        else if content[0].paragraph.value.elements.None? then Err(MissingElementsMessage)
        else Ok(PlainText(content[0].paragraph.value.elements.value));
      match head
      case Err(m) => Err(m)
      case Ok(t) =>
        match ListText(content[1..])
        case Err(m) => Err(m)
        case Ok(rest) => Ok(t + rest)
  }

  /** A paragraph in a heading style: `#` repeated to the level, a space
      and the trimmed plain text. A blank heading is skipped before the
      level is used; a negative level makes `repeat` throw. */
  function HeadingParagraph(p: Paragraph): (r: Result<Option<string>>)
    ensures r.Ok? && r.value.Some? ==> Trim(r.value.value) != ""
  {
    var level := HeadingLevel(p.namedStyleType);
    var text := if p.elements.Some? then PlainText(p.elements.value) else "";
    if Trim(text) == "" then Ok(None)
    else if level < 0 then Err(InvalidCountMessage(level))
    else
      var t := Trim(text);
      var block := RepeatChar('#', level) + " " + t;
      assert block[level + 1] == t[0];
      NotBlank(block, level + 1);
      Ok(Some(block))
  }

  /** Any other paragraph: its formatted text, untrimmed, unless blank. */
  function RegularParagraph(p: Paragraph): (r: Option<string>)
    ensures r.Some? ==> Trim(r.value) != ""
  {
    var text := if p.elements.Some? then FormattedText(p.elements.value) else "";
    if Trim(text) == "" then None else Some(text)
  }

  /** A list item: "- " when it has a list id, "1. " otherwise, then the
      trimmed text, unless blank. */
  function ListItemParagraph(item: ListItem): (r: Result<Option<string>>)
    ensures r.Ok? && r.value.Some? ==> Trim(r.value.value) != ""
  {
    match ListText(item.content)
    case Err(m) => Err(m)
    case Ok(text) =>
      if Trim(text) == "" then Ok(None)
      else
        var block := (if item.listId != "" then "- " else "1. ") + Trim(text);
        NotBlank(block, 0);
        Ok(Some(block))
  }

  /** What one element contributes to the body: at most one block, or the
      error the route reports with status 500. Every block has a non-blank
      character. */
  function ElementBlock(e: StructuralElement): (r: Result<Option<string>>)
    ensures r.Ok? && r.value.Some? ==> Trim(r.value.value) != ""
    ensures r.Err? ==> e.paragraph.Some? || (!e.table && e.listItem.Some?)
  {
    if e.paragraph.Some? then
      if IsHeadingStyle(e.paragraph.value.namedStyleType) then HeadingParagraph(e.paragraph.value)
      else Ok(RegularParagraph(e.paragraph.value))
    else if e.table then
      assert TablePlaceholder[0] == '<';
      NotBlank(TablePlaceholder, 0);
      Ok(Some(TablePlaceholder))
    else if e.listItem.Some? then ListItemParagraph(e.listItem.value)
    else Ok(None)
  }

  /** Every block has a non-blank character. */
  predicate NonBlankBlocks(blocks: seq<string>) {
    forall i :: 0 <= i < |blocks| ==> Trim(blocks[i]) != ""
  }

  /** One turn of the loop: add the element's block, if any, or stop at
      its error; an earlier error is kept. */
  function Step(acc: Result<seq<string>>, block: Result<Option<string>>): (r: Result<seq<string>>)
    requires block.Ok? && block.value.Some? ==> Trim(block.value.value) != ""
    ensures acc.Ok? && NonBlankBlocks(acc.value) && r.Ok? ==> NonBlankBlocks(r.value)
    ensures acc.Ok? && r.Ok? ==> |r.value| <= |acc.value| + 1
  {
    match acc
    case Err(m) => Err(m)
    case Ok(blocks) =>
      match block
      case Err(m) => Err(m)
      case Ok(None) => Ok(blocks)
      case Ok(Some(b)) => Ok(blocks + [b])
  }

  /** The blocks of the body, element by element in order; the first error
      stops the conversion. */
  function ConvertBody(els: seq<StructuralElement>): (r: Result<seq<string>>)
    ensures r.Ok? ==> |r.value| <= |els| && NonBlankBlocks(r.value)
    decreases |els|
  {
    if |els| == 0 then Ok([])
    else Step(ConvertBody(els[..|els| - 1]), ElementBlock(els[|els| - 1]))
  }

  /** A step on a longer list of blocks adds the same block at the end. */
  lemma StepPrefix(x: seq<string>, bs: seq<string>, block: Result<Option<string>>)
    requires block.Ok? && block.value.Some? ==> Trim(block.value.value) != ""
    requires Step(Ok(bs), block).Ok?
    ensures Step(Ok(x + bs), block) == Ok(x + Step(Ok(bs), block).value)
  {
    match block
    case Ok(None) =>
    case Ok(Some(blk)) =>
      assert x + (bs + [blk]) == (x + bs) + [blk];
  }

  /** Once a prefix of the body fails, the whole body fails the same way. */
  lemma {:induction false} ErrorPersists(els: seq<StructuralElement>, n: nat)
    requires n <= |els| && ConvertBody(els[..n]).Err?
    ensures ConvertBody(els) == ConvertBody(els[..n])
    decreases |els| - n
  {
    if n < |els| {
      var next := els[..n + 1];
      assert next[..n] == els[..n];
      assert ConvertBody(next) == ConvertBody(els[..n]);
      ErrorPersists(els, n + 1);
    } else {
      assert els[..n] == els;
    }
  }

  /** Converting two parts of a body one after the other gives the blocks
      of the first part followed by those of the second. */
  lemma {:induction false} ConvertConcat(a: seq<StructuralElement>, b: seq<StructuralElement>)
    requires ConvertBody(a).Ok? && ConvertBody(b).Ok?
    ensures ConvertBody(a + b) == Ok(ConvertBody(a).value + ConvertBody(b).value)
    decreases |b|
  {
    if |b| == 0 {
      assert a + b == a;
      assert ConvertBody(a).value + [] == ConvertBody(a).value;
    } else {
      var ab := a + b;
      var init := b[..|b| - 1];
      var last := b[|b| - 1];
      assert ConvertBody(b) == Step(ConvertBody(init), ElementBlock(last));
      assert ConvertBody(init).Ok?;
      DropLastOfConcat(a, b);
      assert ConvertBody(ab) == Step(ConvertBody(a + init), ElementBlock(last));
      ConvertConcat(a, init);
      StepPrefix(ConvertBody(a).value, ConvertBody(init).value, ElementBlock(last));
    }
  }

  /** The conversion loop of the route. */
  method ConvertElements(els: seq<StructuralElement>) returns (r: Result<seq<string>>)
    ensures r == ConvertBody(els)
  {
    var blocks: seq<string> := [];
    var i := 0;
    while i < |els|
      invariant 0 <= i <= |els|
      invariant ConvertBody(els[..i]) == Ok(blocks)
    {
      assert els[..i + 1][..i] == els[..i];
      var b := ElementBlock(els[i]);
      if b.Err? {
        ErrorPersists(els, i + 1);
        return Err(b.msg);
      }
      if b.value.Some? {
        blocks := blocks + [b.value.value];
      }
      i := i + 1;
    }
    assert els[..i] == els;
    r := Ok(blocks);
  }

  // ---------------------------------------------------------------------
  // the route

  /** The JSON reply: the title, the markdown and its JavaScript length (in
      UTF-16 code units), or an error with its status and, for a 500, the
      thrown message. */
  datatype Response =
    | Imported(title: string, content: string, contentLength: nat)
    | Failed(status: nat, error: string, details: Option<string>)

  /** `POST /api/google/docs` with body `{ docUrl }`. `fetch` is the Docs
      API call for an id; its errors are reported as a 500. */
  function ImportDoc(docUrl: string, fetch: string -> Result<Document>): (r: Response)
    ensures ExtractDocId(docUrl).None? <==> r == Failed(400, "Invalid Google Docs URL", None)
    ensures r.Imported? ==> r.contentLength == Units(r.content) && r.title != ""
    ensures r.Failed? && r.status != 400 ==> r.status == 500 && r.error == "Failed to fetch document" && r.details.Some?
  {
    match ExtractDocId(docUrl)
    case None => Failed(400, "Invalid Google Docs URL", None)
    case Some(id) =>
      match fetch(id)
      case Err(m) => Failed(500, "Failed to fetch document", Some(m))
      case Ok(doc) =>
        var title := if doc.title != "" then doc.title else UntitledTitle;
        match DocumentText(doc)
        case Err(m) => Failed(500, "Failed to fetch document", Some(m))
        case Ok(content) => Imported(title, content, Units(content))
  }

  /** The markdown of a fetched document: its converted blocks joined by a
      blank line, or the fixed notice when it has no body. */
  function DocumentText(doc: Document): Result<string> {
    match doc.body
    case None => Ok(NoContentText)
    case Some(els) =>
      match ConvertBody(els)
      case Err(m) => Err(m)
      case Ok(blocks) => Ok(Join(blocks, "\n\n"))
  }

  /** A URL without a document id is refused before anything is fetched. */
  lemma InvalidUrlNeverFetches(docUrl: string, f: string -> Result<Document>, g: string -> Result<Document>)
    requires forall j: nat :: !MatchesAt(docUrl, j)
    ensures ImportDoc(docUrl, f) == ImportDoc(docUrl, g) == Failed(400, "Invalid Google Docs URL", None)
  {
  }

  /** A fetched document is imported under its own title, or "Untitled
      Document" when it has none; its content is the blocks joined by a
      blank line, or the fixed notice when it has no body. */
  lemma ImportedDocument(docUrl: string, fetch: string -> Result<Document>, doc: Document)
    requires ExtractDocId(docUrl).Some? && fetch(ExtractDocId(docUrl).value) == Ok(doc)
    requires doc.body.Some? ==> ConvertBody(doc.body.value).Ok?
    ensures var r := ImportDoc(docUrl, fetch);
            r.Imported? &&
            (doc.title != "" ==> r.title == doc.title) && (doc.title == "" ==> r.title == UntitledTitle) &&
            (doc.body.None? ==> r.content == NoContentText) &&
            (doc.body.Some? ==> r.content == Join(ConvertBody(doc.body.value).value, "\n\n"))
  {
    var text := DocumentText(doc);
    assert text.Ok?;
    var title := if doc.title != "" then doc.title else UntitledTitle;
    assert ImportDoc(docUrl, fetch) == Imported(title, text.value, Units(text.value));
  }

  // ---------------------------------------------------------------------
  // one element at a time

  /** A heading in a named heading style becomes that many `#`, a space and
      the trimmed text. */
  lemma HeadingBlock(n: nat, els: seq<ParagraphElement>, table: bool, listItem: Option<ListItem>)
    requires n > 0 && Trim(PlainText(els)) != ""
    ensures var style := "HEADING_" + NatToString(n);
            ElementBlock(StructuralElement(Some(Paragraph(style, Some(els))), table, listItem)) ==
              Ok(Some(RepeatChar('#', n) + " " + Trim(PlainText(els))))
  {
    var style := "HEADING_" + NatToString(n);
    HeadingLevelOfNamedStyle(n);
    HeadingStyleNamed(NatToString(n));
  }

  /** A style such as `HEADING_-2` reaches `repeat` with a negative count,
      and the import fails with a 500. */
  lemma NegativeHeadingLevelFails(n: nat, els: seq<ParagraphElement>)
    requires n > 0 && Trim(PlainText(els)) != ""
    ensures var style := "HEADING_" + ("-" + NatToString(n));
            ElementBlock(StructuralElement(Some(Paragraph(style, Some(els))), false, None)) ==
              Err("Invalid count value: -" + NatToString(n))
  {
    var style := "HEADING_" + ("-" + NatToString(n));
    NegativeHeadingLevel(n);
    assert HeadingParagraph(Paragraph(style, Some(els))) == Err(InvalidCountMessage(-(n as int)));
  }

  lemma NegativeHeadingLevel(n: nat)
    requires n > 0
    ensures var style := "HEADING_" + ("-" + NatToString(n));
            IsHeadingStyle(style) && HeadingLevel(style) == -(n as int)
  {
    HeadingStyleNamed("-" + NatToString(n));
    ParseIntRoundTrip(n);
  }

  /** A paragraph outside the heading styles keeps its formatted text as
      it is, untrimmed; a blank one contributes nothing. */
  lemma ParagraphBlock(style: string, els: seq<ParagraphElement>, table: bool, listItem: Option<ListItem>)
    requires !IsHeadingStyle(style)
    ensures var r := ElementBlock(StructuralElement(Some(Paragraph(style, Some(els))), table, listItem));
            (Trim(FormattedText(els)) == "" ==> r == Ok(None)) &&
            (Trim(FormattedText(els)) != "" ==> r == Ok(Some(FormattedText(els))))
  {
  }

  /** A table, unless the element is also a paragraph, becomes the fixed
      placeholder. */
  lemma TableBlock(listItem: Option<ListItem>)
    ensures ElementBlock(StructuralElement(None, true, listItem)) == Ok(Some(TablePlaceholder))
  {
  }

  /** A list item is a bullet when it has a list id and numbered otherwise,
      followed by its trimmed text. */
  lemma ListItemBlock(item: ListItem)
    requires ListText(item.content).Ok? && Trim(ListText(item.content).value) != ""
    ensures var b := ElementBlock(StructuralElement(None, false, Some(item)));
            b.Ok? && b.value.Some? &&
            (item.listId != "" ==> b.value.value == "- " + Trim(ListText(item.content).value)) &&
            (item.listId == "" ==> b.value.value == "1. " + Trim(ListText(item.content).value))
  {
  }

  /** An element with none of the three kinds contributes nothing. */
  lemma OtherElementSkipped()
    ensures ElementBlock(StructuralElement(None, false, None)) == Ok(None)
  {
  }
}
