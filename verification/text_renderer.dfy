/** The pure helpers of the markdown editor and its pending-edit review
    (apps/web/src/components/artifacts/TextRenderer.tsx): escaped-newline
    cleaning, block splitting, the block diff, change summaries, and the
    accept/reject bookkeeping. */
module TextRenderer {
  import opened Wrappers
  import opened Seqs
  import opened Strings
  import opened Artifacts

  // ---------------------------------------------------------------------
  // cleanText

  /** A backslash immediately followed by a newline starts at `i`. */
  predicate EscapedNewlineAt(s: string, i: nat) {
    i + 1 < |s| && s[i] == '\\' && s[i + 1] == '\n'
  }

  /** `text.replace(/\\\n/g, "\n")`: scanning left to right, every
      backslash-newline pair becomes a newline. */
  function CleanText(s: string): (r: string)
    ensures |r| <= |s|
    decreases |s|
  {
    if |s| == 0 then ""
    else if EscapedNewlineAt(s, 0) then "\n" + CleanText(s[2..])
    else [s[0]] + CleanText(s[1..])
  }

  /** The reference reading: drop exactly the backslashes that stand before
      a newline, keep every other character in order. */
  function DropEscapes(s: string): (r: string)
    decreases |s|
  {
    if |s| == 0 then ""
    else (if EscapedNewlineAt(s, 0) then "" else [s[0]]) + DropEscapes(s[1..])
  }

  /** The global replace is the character filter: two matches can never
      overlap, since a match ends with a newline and starts with a backslash. */
  lemma {:induction false} CleanTextDropsEscapes(s: string)
    ensures CleanText(s) == DropEscapes(s)
    decreases |s|
  {
    if |s| > 0 {
      if EscapedNewlineAt(s, 0) {
        var t := s[1..];
        assert !EscapedNewlineAt(t, 0);
        assert t[1..] == s[2..];
        CleanTextDropsEscapes(s[2..]);
        assert DropEscapes(t) == [t[0]] + DropEscapes(s[2..]);
      } else {
        CleanTextDropsEscapes(s[1..]);
      }
    }
  }

  /** Text with no backslash-newline pair is left alone. */
  lemma {:induction false} CleanTextKeepsPlainText(s: string)
    requires forall i: nat :: !EscapedNewlineAt(s, i)
    ensures CleanText(s) == s
    decreases |s|
  {
    if |s| > 0 {
      assert forall i: nat :: EscapedNewlineAt(s[1..], i) ==> EscapedNewlineAt(s, i + 1);
      CleanTextKeepsPlainText(s[1..]);
    }
  }

  // ---------------------------------------------------------------------
  // splitIntoBlocks

  /** The recombination loop of `splitIntoBlocks`, over the pieces the
      heading/blank-line split produced. `isHeading` and `isSeparator` are
      the two per-piece regular-expression tests. A heading or separator
      closes the current block (kept trimmed, when not blank); a heading
      then starts the next one; any other piece is appended to it. */
  method SplitIntoBlocks(parts: seq<string>, isHeading: string -> bool, isSeparator: string -> bool)
    returns (blocks: seq<string>)
    ensures TrimmedBlocks(blocks)
    ensures blocks == Recombine(parts, isHeading, isSeparator, "")
  {
    var out: seq<string> := [];
    var current := "";
    var i := 0;
    while i < |parts|
      invariant 0 <= i <= |parts|
      invariant out + Recombine(parts[i..], isHeading, isSeparator, current) == Recombine(parts, isHeading, isSeparator, "")
    {
      var part := parts[i];
      RecombineStep(parts, isHeading, isSeparator, i, current);
      if isHeading(part) || isSeparator(part) {
        var closed := Closed(current);
        Regroup(out, closed, Recombine(parts[i + 1..], isHeading, isSeparator, if isHeading(part) then part else ""));
        out := out + closed;
        current := if isHeading(part) then part else "";
      } else {
        current := current + part;
      }
      i := i + 1;
    }
    assert parts[|parts|..] == [];
    out := out + Closed(current);
    RecombineTrimmed(parts, isHeading, isSeparator, "");
    blocks := NonBlank(out);
  }

  lemma Regroup(a: seq<string>, b: seq<string>, c: seq<string>)
    ensures a + (b + c) == (a + b) + c
  {
  }

  /** One turn of the loop, on the definition. */
  lemma RecombineStep(parts: seq<string>, isHeading: string -> bool, isSeparator: string -> bool, i: nat, current: string)
    requires i < |parts|
    ensures Recombine(parts[i..], isHeading, isSeparator, current) ==
              if isHeading(parts[i]) || isSeparator(parts[i]) then
                Closed(current) +
                Recombine(parts[i + 1..], isHeading, isSeparator, if isHeading(parts[i]) then parts[i] else "")
              else Recombine(parts[i + 1..], isHeading, isSeparator, current + parts[i])
  {
    assert parts[i..][0] == parts[i];
    assert parts[i..][1..] == parts[i + 1..];
  }

  /** Every block is trimmed and not blank. */
  predicate TrimmedBlocks(r: seq<string>) {
    forall i :: 0 <= i < |r| ==> r[i] != "" && Trim(r[i]) == r[i]
  }

  /** Every block the recombination emits is trimmed and not blank. */
  lemma {:induction false} RecombineTrimmed(parts: seq<string>, isHeading: string -> bool, isSeparator: string -> bool, current: string)
    ensures TrimmedBlocks(Recombine(parts, isHeading, isSeparator, current))
    decreases |parts|
  {
    var closed := Closed(current);
    if |parts| > 0 {
      var part := parts[0];
      if isHeading(part) || isSeparator(part) {
        var next := if isHeading(part) then part else "";
        RecombineTrimmed(parts[1..], isHeading, isSeparator, next);
        TrimmedConcat(closed, Recombine(parts[1..], isHeading, isSeparator, next));
      } else {
        RecombineTrimmed(parts[1..], isHeading, isSeparator, current + part);
      }
    }
  }

  /** The block a heading or separator closes: the trimmed current text,
      unless it is blank. */
  function Closed(current: string): (r: seq<string>)
    ensures TrimmedBlocks(r)
  {
    var t := Trim(current);
    if t != "" then
      TrimIdempotent(current);
      assert TrimmedBlocks([t]) by { assert [t][0] == t; }
      [t]
    else []
  }

  lemma TrimmedConcat(a: seq<string>, b: seq<string>)
    requires TrimmedBlocks(a) && TrimmedBlocks(b)
    ensures TrimmedBlocks(a + b)
  {
    forall i | 0 <= i < |a + b|
      ensures (a + b)[i] != "" && Trim((a + b)[i]) == (a + b)[i]
    {
      if i >= |a| {
        assert (a + b)[i] == b[i - |a|];
      }
    }
  }

  /** The blocks the loop produces from `parts` when the block being built
      is `current`. */
  function Recombine(parts: seq<string>, isHeading: string -> bool, isSeparator: string -> bool, current: string): seq<string>
    decreases |parts|
  {
    if |parts| == 0 then Closed(current)
    else
      var part := parts[0];
      if isHeading(part) || isSeparator(part) then
        Closed(current) +
        Recombine(parts[1..], isHeading, isSeparator, if isHeading(part) then part else "")
      else Recombine(parts[1..], isHeading, isSeparator, current + part)
  }

  /** `blocks.filter(b => b.trim().length > 0)`. */
  function NonBlank(blocks: seq<string>): (r: seq<string>)
    ensures forall i :: 0 <= i < |r| ==> Trim(r[i]) != ""
    ensures (forall i :: 0 <= i < |blocks| ==> Trim(blocks[i]) != "") ==> r == blocks
  {
    if |blocks| == 0 then []
    else (if Trim(blocks[0]) != "" then [blocks[0]] else []) + NonBlank(blocks[1..])
  }

  // ---------------------------------------------------------------------
  // findDifferentBlocks

  /** One entry of the diff map. */
  datatype BlockChange = BlockChange(original: string, edited: string)

  /** Blocks are matched across positions by their first 50 characters. */
  const KeyLength: nat := 50

  function BlockKey(b: string): string {
    Prefix(b, KeyLength)
  }

  /** `originalBlocksMap.get(key)`: the last original position whose block
      has this key, since later `set` calls overwrite earlier ones. */
  function MovedFrom(original: seq<string>, key: string): (r: Option<nat>)
    ensures r.Some? ==> r.value < |original| && BlockKey(original[r.value]) == key
    ensures r.Some? ==> forall j :: r.value < j < |original| ==> BlockKey(original[j]) != key
    ensures r.None? <==> forall j :: 0 <= j < |original| ==> BlockKey(original[j]) != key
  {
    FindLast(original, (b: string) => BlockKey(b) == key)
  }

  lemma MovedFromSnoc(original: seq<string>, i: nat, key: string)
    requires i < |original|
    ensures MovedFrom(original[..i + 1], key) ==
              if BlockKey(original[i]) == key then Some(i) else MovedFrom(original[..i], key)
  {
    assert original[..i + 1][..i] == original[..i];
  }

  /** The block at position `i`, or "" past the end. */
  function BlockAt(blocks: seq<string>, i: nat): string {
    if i < |blocks| then blocks[i] else ""
  }

  /** Position `i` gets an entry: an edited block that differs from the
      original block at the same position, or an original block past the
      end of the edited list. */
  predicate Flagged(original: seq<string>, edited: seq<string>, i: int) {
    0 <= i && ((i < |edited| && BlockAt(original, i) != edited[i]) || (|edited| <= i < |original|))
  }

  /** The entry of a flagged position: for an edited block, the original
      block with the same key when it sits elsewhere, else the block at the
      same position; for a deleted block, the block and "". */
  function Entry(original: seq<string>, edited: seq<string>, i: nat): BlockChange
    requires Flagged(original, edited, i)
  {
    if i < |edited| then
      var m := MovedFrom(original, BlockKey(edited[i]));
      if m.Some? && m.value != i then BlockChange(original[m.value], edited[i])
      else BlockChange(BlockAt(original, i), edited[i])
    else BlockChange(original[i], "")
  }

  /** The diff as a whole. */
  function DiffSpec(original: seq<string>, edited: seq<string>): map<int, BlockChange> {
    map i | 0 <= i < |original| + |edited| && Flagged(original, edited, i) :: Entry(original, edited, i)
  }

  /** `keys` is `originalBlocksMap`: each key present maps to the last
      original position with that key. */
  ghost predicate KeyIndex(original: seq<string>, keys: map<string, nat>) {
    (forall k :: k in keys <==> MovedFrom(original, k).Some?) &&
    (forall k :: k in keys ==> keys[k] == MovedFrom(original, k).value)
  }

  /** The first loop of `findDifferentBlocks`: `set(key, index)` for every
      original block in order. */
  method OriginalBlocksMap(original: seq<string>) returns (keys: map<string, nat>)
    ensures KeyIndex(original, keys)
  {
    keys := map[];
    var i := 0;
    while i < |original|
      invariant 0 <= i <= |original|
      invariant KeyIndex(original[..i], keys)
    {
      forall k ensures MovedFrom(original[..i + 1], k) == if BlockKey(original[i]) == k then Some(i) else MovedFrom(original[..i], k) {
        MovedFromSnoc(original, i, k);
      }
      keys := keys[BlockKey(original[i]) := i];
      i := i + 1;
    }
    assert original[..|original|] == original;
  }

  /** `diff` holds exactly the flagged positions below `n`, with their entries. */
  ghost predicate DiffUpTo(original: seq<string>, edited: seq<string>, diff: map<int, BlockChange>, n: int) {
    (forall j :: j in diff <==> 0 <= j < n && Flagged(original, edited, j)) &&
    (forall j :: j in diff ==> Flagged(original, edited, j) && diff[j] == Entry(original, edited, j))
  }

  /** The second loop: flag every edited position whose block differs from
      the original block at that position. */
  method MarkEdited(original: seq<string>, edited: seq<string>, keys: map<string, nat>) returns (diff: map<int, BlockChange>)
    requires KeyIndex(original, keys)
    ensures DiffUpTo(original, edited, diff, |edited|)
  {
    diff := map[];
    var i := 0;
    while i < |edited|
      invariant 0 <= i <= |edited|
      invariant DiffUpTo(original, edited, diff, i)
    {
      ExtendDiff(original, edited, diff, i);
      var originalBlock := if i < |original| then original[i] else "";
      if originalBlock != edited[i] {
        var key := BlockKey(edited[i]);
        var entry := if key in keys && keys[key] != i then BlockChange(original[keys[key]], edited[i])
                     else BlockChange(originalBlock, edited[i]);
        assert entry == Entry(original, edited, i);
        diff := diff[i := entry];
      }
      i := i + 1;
    }
  }

  /** The diff up to `n` grows by position `n`'s entry exactly when that
      position is flagged. */
  lemma ExtendDiff(original: seq<string>, edited: seq<string>, diff: map<int, BlockChange>, n: nat)
    requires DiffUpTo(original, edited, diff, n)
    ensures Flagged(original, edited, n) ==> DiffUpTo(original, edited, diff[n := Entry(original, edited, n)], n + 1)
    ensures !Flagged(original, edited, n) ==> DiffUpTo(original, edited, diff, n + 1)
  {
  }

  /** The third loop: an original position is deleted when the edited list
      is too short to reach it, or when it has no entry and its block
      appears nowhere in the edited list; the latter never happens for a
      position the edited list reaches, since an unflagged position holds
      the same block in both lists. */
  method MarkDeleted(original: seq<string>, edited: seq<string>, flagged: map<int, BlockChange>) returns (diff: map<int, BlockChange>)
    requires DiffUpTo(original, edited, flagged, |edited|)
    ensures DiffUpTo(original, edited, diff, |original| + |edited|)
  {
    diff := flagged;
    var i := 0;
    while i < |original|
      invariant 0 <= i <= |original|
      invariant forall j :: j in diff <==> (0 <= j < |edited| && Flagged(original, edited, j)) || (|edited| <= j < i)
      invariant forall j :: j in diff ==> Flagged(original, edited, j) && diff[j] == Entry(original, edited, j)
    {
      var isDeleted := |edited| <= i || ((if i in diff then diff[i].edited != edited[i] else true) && original[i] !in edited);
      if isDeleted && i !in diff {
        diff := diff[i := BlockChange(original[i], "")];
      }
      i := i + 1;
    }
  }

  /** `findDifferentBlocks(original, edited)`: build the key map, flag the
      edited positions that differ, then add the original positions judged
      deleted. */
  method FindDifferentBlocks(original: seq<string>, edited: seq<string>) returns (diff: map<int, BlockChange>)
    ensures diff == DiffSpec(original, edited)
  {
    var keys := OriginalBlocksMap(original);
    var flagged := MarkEdited(original, edited, keys);
    diff := MarkDeleted(original, edited, flagged);
    var spec := DiffSpec(original, edited);
    assert diff.Keys == spec.Keys;
  }

  /** Identical block lists have no differences. */
  lemma SameBlocksNoDiff(blocks: seq<string>)
    ensures DiffSpec(blocks, blocks) == map[]
  {
    var d := DiffSpec(blocks, blocks);
    assert forall i :: !Flagged(blocks, blocks, i);
    assert d.Keys == {};
  }

  /** Positions where the two lists agree are never flagged; every flagged
      edited position records the edited block; every original position
      past the edited list is recorded as deleted. */
  lemma DiffEntries(original: seq<string>, edited: seq<string>)
    ensures var d := DiffSpec(original, edited);
            (forall i :: 0 <= i < |original| && i < |edited| && original[i] == edited[i] ==> i !in d) &&
            (forall i :: 0 <= i < |edited| && i in d ==> d[i].edited == edited[i]) &&
            (forall i :: 0 <= i < |edited| ==> (i in d <==> BlockAt(original, i) != edited[i])) &&
            (forall i :: |edited| <= i < |original| ==> i in d && d[i] == BlockChange(original[i], ""))
  {
  }

  /** The blocks of `original` with positions `p` and `q` exchanged. */
  function Swapped(original: seq<string>, p: nat, q: nat): (r: seq<string>)
    requires p < |original| && q < |original|
    ensures |r| == |original|
  {
    original[p := original[q]][q := original[p]]
  }

  /** After a swap of two different blocks, exactly the two swapped
      positions differ. */
  lemma SwapFlagged(original: seq<string>, p: nat, q: nat)
    requires p < |original| && q < |original| && p != q && original[p] != original[q]
    ensures forall i :: Flagged(original, Swapped(original, p, q), i) <==> i == p || i == q
  {
    var edited := Swapped(original, p, q);
    assert forall i :: 0 <= i < |edited| && i != p && i != q ==> edited[i] == original[i];
  }

  /** A swapped-in block whose key is unique is reported against its own
      old text. */
  lemma SwapEntry(original: seq<string>, p: nat, q: nat)
    requires p < |original| && q < |original| && p != q && original[p] != original[q]
    requires forall j :: 0 <= j < |original| && j != q ==> BlockKey(original[j]) != BlockKey(original[q])
    ensures Flagged(original, Swapped(original, p, q), p)
    ensures Entry(original, Swapped(original, p, q), p) == BlockChange(original[q], original[q])
  {
    var edited := Swapped(original, p, q);
    assert edited[p] == original[q];
    var m := MovedFrom(original, BlockKey(original[q]));
    assert m == Some(q);
  }

  /** Swapping two blocks whose keys occur nowhere else among the originals
      reports exactly the two positions, each against the block's own old
      text (found by its key), and nothing else. */
  lemma MovedBlockReported(original: seq<string>, p: nat, q: nat)
    requires p < |original| && q < |original| && p != q
    requires forall j :: 0 <= j < |original| && j != p ==> BlockKey(original[j]) != BlockKey(original[p])
    requires forall j :: 0 <= j < |original| && j != q ==> BlockKey(original[j]) != BlockKey(original[q])
    ensures DiffSpec(original, Swapped(original, p, q)) ==
              map[p := BlockChange(original[q], original[q]), q := BlockChange(original[p], original[p])]
  {
    assert original[p] != original[q];
    assert Swapped(original, q, p) == Swapped(original, p, q);
    SwapFlagged(original, p, q);
    SwapEntry(original, p, q);
    SwapEntry(original, q, p);
    var d := DiffSpec(original, Swapped(original, p, q));
    assert d.Keys == {p, q};
  }

  // ---------------------------------------------------------------------
  // getChangeSummary

  /** `getChangeSummary(original, edited)`. */
  function GetChangeSummary(original: string, edited: string): (r: string)
    ensures original == "" && edited != "" ==> r == "Added new content"
    ensures original != "" && edited == "" ==> r == "Removed content"
    ensures Units(original) == Units(edited) ==> r == "Modified content"
  {
    if original == "" && edited != "" then "Added new content"
    else if original != "" && edited == "" then "Removed content"
    else
      var d := Units(edited) - Units(original);
      if d > 0 then "Added " + NatToString(d) + " characters"
      else if d < 0 then "Removed " + NatToString(-d) + " characters"
      else "Modified content"
  }

  /** Between two non-empty texts of different JavaScript lengths the
      summary names the difference in UTF-16 code units, as a number that
      reads back to it. */
  lemma SummaryCountsCharacters(original: string, edited: string)
    requires original != "" && edited != "" && Units(original) != Units(edited)
    ensures var n, m := Units(original), Units(edited);
            var d := if m > n then m - n else n - m;
            var r := GetChangeSummary(original, edited);
            r == (if m > n then "Added " else "Removed ") + NatToString(d) + " characters" &&
            DigitsValue(NatToString(d)) == d
  {
    var n, m := Units(original), Units(edited);
    NatToStringRoundTrip(if m > n then m - n else n - m);
  }

  /** One character swapped for one outside the Basic Multilingual Plane is
      reported as an added character, as JavaScript's `length` sees it. */
  lemma AstralSwapCountsAsAdded()
    ensures GetChangeSummary("\U{E9}", "\U{1F600}") == "Added 1 characters"
  {
    assert Units("\U{E9}") == 1 && Units("\U{1F600}") == 2;
    assert NatToString(1) == "1";
  }

  // ---------------------------------------------------------------------
  // accept / reject bookkeeping

  /** The editor's review state: the artifact, the pending block changes,
      the current block list, and whether an edit is under review. */
  datatype Review = Review(artifact: Option<Artifact>, editedBlocks: map<int, BlockChange>,
                           currentBlocks: seq<string>, hasEditingOperation: bool)

  /** `newBlocks[k] = v` on a JavaScript array: past the end, the holes in
      between read as "" when joined. */
  function SetBlock(blocks: seq<string>, k: nat, v: string): (r: seq<string>)
    ensures |r| == if k < |blocks| then |blocks| else k + 1
    ensures r[k] == v
    ensures forall i :: 0 <= i < |r| && i != k ==> r[i] == BlockAt(blocks, i)
  {
    if k < |blocks| then blocks[k := v]
    else blocks + seq(k - |blocks|, _ => "") + [v]
  }

  /** The body every markdown version numbered `ci` receives. */
  function OverwriteCurrentText(cs: seq<Content>, ci: int, body: string): (r: seq<Content>)
    ensures |r| == |cs|
    ensures forall i :: 0 <= i < |cs| ==>
              r[i] == if cs[i].index == ci && IsMarkdownContent(cs[i]) then cs[i].(fullMarkdown := body) else cs[i]
  {
    seq(|cs|, i requires 0 <= i < |cs| => if cs[i].index == ci && IsMarkdownContent(cs[i]) then cs[i].(fullMarkdown := body) else cs[i])
  }

  /** The editor may write into the artifact only when its current version is markdown. */
  predicate Editable(a: Option<Artifact>) {
    a.Some? && CurrentContent(a.value).Some? && IsMarkdownContent(CurrentContent(a.value).value)
  }

  /** The flag after a key is dropped: cleared when nothing is pending. */
  function FlagAfter(edits: map<int, BlockChange>, flag: bool): bool {
    if |edits| == 0 then false else flag
  }

  /** `acceptChange(blockIndex)`: write the pending edit into the block list,
      join the blocks with a blank line into the current markdown version's
      body, in place, and drop the key. Nothing happens when the artifact is
      missing or its current version is not markdown. */
  function AcceptChange(r: Review, k: nat): (r2: Review)
    ensures !Editable(r.artifact) ==> r2 == r
    ensures Editable(r.artifact) ==>
              r2.editedBlocks == r.editedBlocks - {k} && r2.currentBlocks == r.currentBlocks &&
              r2.artifact.Some? && r2.artifact.value.currentIndex == r.artifact.value.currentIndex &&
              r2.artifact.value.contents ==
                OverwriteCurrentText(r.artifact.value.contents, r.artifact.value.currentIndex,
                                     Join(SetBlock(r.currentBlocks, k, if k in r.editedBlocks then r.editedBlocks[k].edited else ""), "\n\n"))
    ensures Editable(r.artifact) ==> r2.hasEditingOperation == (|r2.editedBlocks| > 0 && r.hasEditingOperation)
  {
    if !Editable(r.artifact) then r
    else
      var a := r.artifact.value;
      var edited := if k in r.editedBlocks then r.editedBlocks[k].edited else "";
      var body := Join(SetBlock(r.currentBlocks, k, edited), "\n\n");
      var pending := r.editedBlocks - {k};
      r.(artifact := Some(a.(contents := OverwriteCurrentText(a.contents, a.currentIndex, body))),
         editedBlocks := pending,
         hasEditingOperation := FlagAfter(pending, r.hasEditingOperation))
  }

  /** `rejectChange(blockIndex)`: only drop the key. */
  function RejectChange(r: Review, k: nat): (r2: Review)
    ensures r2.artifact == r.artifact && r2.currentBlocks == r.currentBlocks
    ensures r2.editedBlocks == r.editedBlocks - {k}
    ensures r2.hasEditingOperation == (|r2.editedBlocks| > 0 && r.hasEditingOperation)
  {
    var pending := r.editedBlocks - {k};
    r.(editedBlocks := pending, hasEditingOperation := FlagAfter(pending, r.hasEditingOperation))
  }

  /** `newBlocks[k] = edited` for each pending key, in the map's order. */
  function ApplyEdits(blocks: seq<string>, edits: map<int, BlockChange>, order: seq<nat>): seq<string>
    requires forall j :: 0 <= j < |order| ==> order[j] in edits
    decreases |order|
  {
    if |order| == 0 then blocks
    else ApplyEdits(SetBlock(blocks, order[0], edits[order[0]].edited), edits, order[1..])
  }

  /** The length of the block list after writing at each position of `order`. */
  function GrownLength(n: nat, order: seq<nat>): nat
    decreases |order|
  {
    if |order| == 0 then n
    else GrownLength(if order[0] < n then n else order[0] + 1, order[1..])
  }

  /** Each position ends up with its pending edit when it has one, with the
      old block otherwise, and "" in the holes; the map's order does not
      matter because its keys are distinct. */
  lemma {:induction false} ApplyEditsPointwise(blocks: seq<string>, edits: map<int, BlockChange>, order: seq<nat>)
    requires forall j :: 0 <= j < |order| ==> order[j] in edits
    requires forall a, b :: 0 <= a < b < |order| ==> order[a] != order[b]
    ensures |ApplyEdits(blocks, edits, order)| == GrownLength(|blocks|, order)
    ensures forall i :: 0 <= i < GrownLength(|blocks|, order) ==>
              ApplyEdits(blocks, edits, order)[i] == if i in order then edits[i].edited else BlockAt(blocks, i)
    decreases |order|
  {
    if |order| > 0 {
      var k := order[0];
      var b2 := SetBlock(blocks, k, edits[k].edited);
      var rest := order[1..];
      assert forall j :: 0 <= j < |rest| ==> rest[j] == order[j + 1];
      ApplyEditsPointwise(b2, edits, rest);
      assert k !in rest;
      forall i | 0 <= i < GrownLength(|blocks|, order)
        ensures ApplyEdits(blocks, edits, order)[i] == if i in order then edits[i].edited else BlockAt(blocks, i)
      {
        assert i in order <==> i == k || i in rest;
      }
    }
  }

  /** `order` is the list of the map's entries: every pending key exactly once. */
  predicate ListsKeys(order: seq<nat>, edits: map<int, BlockChange>) {
    (forall j :: 0 <= j < |order| ==> order[j] in edits) &&
    (forall k :: k in edits ==> k in order) &&
    (forall a, b :: 0 <= a < b < |order| ==> order[a] != order[b])
  }

  /** `acceptAllChanges()`: write every pending edit into the block list,
      store the joined text in the current markdown version, in place, and
      clear all pending edits. `order` lists the pending keys in the map's
      insertion order. */
  function AcceptAllChanges(r: Review, order: seq<nat>): (r2: Review)
    requires ListsKeys(order, r.editedBlocks)
    ensures !Editable(r.artifact) ==> r2 == r
    ensures Editable(r.artifact) ==>
              r2.editedBlocks == map[] && !r2.hasEditingOperation && r2.currentBlocks == r.currentBlocks &&
              r2.artifact.Some? && r2.artifact.value.currentIndex == r.artifact.value.currentIndex &&
              r2.artifact.value.contents ==
                OverwriteCurrentText(r.artifact.value.contents, r.artifact.value.currentIndex,
                                     Join(ApplyEdits(r.currentBlocks, r.editedBlocks, order), "\n\n"))
  {
    if !Editable(r.artifact) then r
    else
      var a := r.artifact.value;
      var body := Join(ApplyEdits(r.currentBlocks, r.editedBlocks, order), "\n\n");
      r.(artifact := Some(a.(contents := OverwriteCurrentText(a.contents, a.currentIndex, body))),
         editedBlocks := map[], hasEditingOperation := false)
  }

  /** `rejectAllChanges()`: clear all pending edits; nothing else changes. */
  function RejectAllChanges(r: Review): (r2: Review)
    ensures r2.artifact == r.artifact && r2.currentBlocks == r.currentBlocks
    ensures r2.editedBlocks == map[] && !r2.hasEditingOperation
  {
    r.(editedBlocks := map[], hasEditingOperation := false)
  }

  /** With a single pending edit, accepting it and accepting all agree. */
  lemma AcceptOneIsAcceptAll(r: Review, k: nat)
    requires r.editedBlocks.Keys == {k}
    ensures AcceptChange(r, k) == AcceptAllChanges(r, [k])
  {
    assert r.editedBlocks - {k} == map[];
    assert [k][1..] == [];
    assert ApplyEdits(r.currentBlocks, r.editedBlocks, [k]) == SetBlock(r.currentBlocks, k, r.editedBlocks[k].edited);
    assert FlagAfter(r.editedBlocks - {k}, r.hasEditingOperation) == false;
  }

  /** Accepting all in two different orders of the same keys stores the
      same text. */
  lemma AcceptAllOrderFree(r: Review, o1: seq<nat>, o2: seq<nat>)
    requires ListsKeys(o1, r.editedBlocks) && ListsKeys(o2, r.editedBlocks)
    ensures AcceptAllChanges(r, o1) == AcceptAllChanges(r, o2)
  {
    var b := r.currentBlocks;
    assert forall i :: i in o1 <==> i in o2;
    ApplyEditsPointwise(b, r.editedBlocks, o1);
    ApplyEditsPointwise(b, r.editedBlocks, o2);
    GrownLengthIsMax(|b|, o1, o2);
    assert ApplyEdits(b, r.editedBlocks, o1) == ApplyEdits(b, r.editedBlocks, o2);
  }

  /** Accepting all writes every pending edit at its own position, keeps
      every other block, and fills the holes with "": the stored body is the
      join of exactly that block list. */
  lemma AcceptAllWritesEveryEdit(r: Review, order: seq<nat>)
    requires ListsKeys(order, r.editedBlocks) && Editable(r.artifact)
    ensures var blocks := ApplyEdits(r.currentBlocks, r.editedBlocks, order);
            AcceptAllChanges(r, order).artifact.value.contents ==
              OverwriteCurrentText(r.artifact.value.contents, r.artifact.value.currentIndex, Join(blocks, "\n\n")) &&
            |blocks| >= |r.currentBlocks| &&
            (forall k :: k in r.editedBlocks ==> 0 <= k < |blocks| && blocks[k] == r.editedBlocks[k].edited) &&
            (forall i :: 0 <= i < |blocks| && i !in r.editedBlocks ==> blocks[i] == BlockAt(r.currentBlocks, i))
  {
    var blocks := ApplyEdits(r.currentBlocks, r.editedBlocks, order);
    ApplyEditsPointwise(r.currentBlocks, r.editedBlocks, order);
    GrownLengthBound(|r.currentBlocks|, order);
    forall i | 0 <= i < |blocks|
      ensures i in order <==> i in r.editedBlocks
    {
      if i in order {
        var j :| 0 <= j < |order| && order[j] == i;
      }
    }
  }

  /** `rejectChange` for each key of `ks` in turn. */
  function RejectEach(r: Review, ks: seq<nat>): Review
    decreases |ks|
  {
    if |ks| == 0 then r else RejectEach(RejectChange(r, ks[0]), ks[1..])
  }

  /** The positions a key list names. */
  function KeySet(ks: seq<nat>): set<int> {
    set j | 0 <= j < |ks| :: ks[j] as int
  }

  lemma KeySetCons(ks: seq<nat>)
    requires |ks| > 0
    ensures KeySet(ks) == {ks[0] as int} + KeySet(ks[1..])
  {
    forall i | i in KeySet(ks) ensures i in {ks[0] as int} + KeySet(ks[1..]) {
      var j :| 0 <= j < |ks| && ks[j] as int == i;
      if j > 0 { assert ks[1..][j - 1] == ks[j]; }
    }
    forall i | i in KeySet(ks[1..]) ensures i in KeySet(ks) {
      var j :| 0 <= j < |ks[1..]| && ks[1..][j] as int == i;
      assert ks[j + 1] == ks[1..][j];
    }
  }

  lemma MinusTwice<V>(m: map<int, V>, a: set<int>, b: set<int>)
    ensures (m - a) - b == m - (a + b)
    ensures |(m - a) - b| > 0 ==> |m - a| > 0
  {
    if |m - a| == 0 {
      assert m - a == map[];
      assert (m - a) - b == map[];
    }
  }

  /** Rejecting keys one at a time drops exactly those keys, keeps the
      artifact and the blocks, and leaves the flag set only while edits
      remain. */
  lemma {:induction false} RejectEachDrops(r: Review, ks: seq<nat>)
    requires |ks| > 0
    ensures RejectEach(r, ks).artifact == r.artifact
    ensures RejectEach(r, ks).currentBlocks == r.currentBlocks
    ensures RejectEach(r, ks).editedBlocks == r.editedBlocks - KeySet(ks)
    ensures RejectEach(r, ks).hasEditingOperation ==
              (|RejectEach(r, ks).editedBlocks| > 0 && r.hasEditingOperation)
    decreases |ks|
  {
    var r1 := RejectChange(r, ks[0]);
    KeySetCons(ks);
    if |ks| == 1 {
      assert KeySet(ks[1..]) == {};
    } else {
      RejectEachDrops(r1, ks[1..]);
      MinusTwice(r.editedBlocks, {ks[0] as int}, KeySet(ks[1..]));
    }
  }

  /** Rejecting every pending key one at a time is rejecting all of them. */
  lemma RejectEachIsRejectAll(r: Review, ks: seq<nat>)
    requires |ks| > 0 && forall k :: k in r.editedBlocks ==> k in ks
    ensures RejectEach(r, ks) == RejectAllChanges(r)
  {
    RejectEachDrops(r, ks);
    var m2 := RejectEach(r, ks).editedBlocks;
    forall i | i in r.editedBlocks ensures i in KeySet(ks) {
      var j :| 0 <= j < |ks| && ks[j] == i;
    }
    assert m2.Keys == {};
  }

  /** Rejecting one key and then all is rejecting all. */
  lemma RejectThenRejectAll(r: Review, k: nat)
    ensures RejectAllChanges(RejectChange(r, k)) == RejectAllChanges(r)
  {
  }

  /** The grown length depends only on the set of positions written. */
  lemma GrownLengthIsMax(n: nat, o1: seq<nat>, o2: seq<nat>)
    requires forall i :: i in o1 <==> i in o2
    ensures GrownLength(n, o1) == GrownLength(n, o2)
  {
    GrownLengthBound(n, o1);
    GrownLengthBound(n, o2);
  }

  /** The grown length is the old length or one past the furthest write,
      whichever is larger. */
  lemma {:induction false} GrownLengthBound(n: nat, order: seq<nat>)
    ensures GrownLength(n, order) >= n
    ensures forall i :: i in order ==> i < GrownLength(n, order)
    ensures GrownLength(n, order) == n || exists i :: i in order && GrownLength(n, order) == i + 1
    decreases |order|
  {
    if |order| > 0 {
      var k := order[0];
      var n2 := if k < n then n else k + 1;
      GrownLengthBound(n2, order[1..]);
      assert forall i :: i in order ==> i == k || i in order[1..];
      if GrownLength(n, order) != n {
        if GrownLength(n2, order[1..]) == n2 {
          assert n2 == k + 1 && k in order;
        } else {
          var i :| i in order[1..] && GrownLength(n2, order[1..]) == i + 1;
          assert i in order;
        }
      }
    }
  }
}
