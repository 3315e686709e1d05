/** The JavaScript string operations the source relies on, as pure functions
    over `seq<char>`: `indexOf`/`includes`, `replace` with a string pattern
    (first occurrence only), `trim`, `slice`, `join`, `repeat`, and decimal
    rendering and parsing of numbers. */
module Strings {
  import opened Wrappers
  import opened Seqs

  /** `t` occurs in `s` starting at position `i`. */
  predicate OccursAt(s: string, t: string, i: nat) {
    i + |t| <= |s| && s[i..i + |t|] == t
  }

  /** `s.includes(t)`. */
  predicate Contains(s: string, t: string) {
    exists i: nat :: i <= |s| && OccursAt(s, t, i)
  }

  /** `i` is where `s.indexOf(t)` finds `t`: an occurrence with none before it. */
  predicate IsFirstOccurrence(s: string, t: string, i: nat) {
    OccursAt(s, t, i) && forall j: nat :: j < i ==> !OccursAt(s, t, j)
  }

  lemma OccursShift(s: string, t: string)
    requires |s| > 0
    ensures forall i: nat :: OccursAt(s[1..], t, i) <==> OccursAt(s, t, i + 1)
  {
    forall i: nat
      ensures OccursAt(s[1..], t, i) <==> OccursAt(s, t, i + 1)
    {
      if i + |t| <= |s[1..]| {
        assert s[1..][i..i + |t|] == s[i + 1..i + 1 + |t|];
      }
    }
  }

  /** `s.indexOf(t)`, with `None` for -1. */
  function IndexOf(s: string, t: string): (r: Option<nat>)
    ensures r.Some? ==> IsFirstOccurrence(s, t, r.value)
    ensures r.None? <==> !Contains(s, t)
    decreases |s|
  {
    if t <= s then
      assert OccursAt(s, t, 0) by { assert s[0..|t|] == s[..|t|]; }
      Some(0)
    else if |s| == 0 then
      None
    else
      OccursShift(s, t);
      assert !OccursAt(s, t, 0) by { if |t| <= |s| { assert s[0..|t|] == s[..|t|]; } }
      assert forall i: nat :: i > 0 ==> (OccursAt(s, t, i) <==> OccursAt(s[1..], t, i - 1));
      var rest := IndexOf(s[1..], t);
      if rest.None? then None else Some(rest.value + 1)
  }

  /** `s.replace(pat, rep)` with a string pattern: only the first occurrence
      of `pat` is replaced, and `s` is returned unchanged when there is none.
      The `$&`/`$$` replacement patterns of JavaScript are not interpreted. */
  function ReplaceFirst(s: string, pat: string, rep: string): (r: string)
    ensures !Contains(s, pat) ==> r == s
    ensures Contains(s, pat) ==> |r| == |s| - |pat| + |rep|
  {
    match IndexOf(s, pat)
    case None => s
    case Some(i) => s[..i] + rep + s[i + |pat|..]
  }

  /** Replacing the first occurrence rewrites exactly the span of the first
      occurrence and leaves the text before and after it character-identical. */
  lemma ReplaceFirstAt(s: string, pat: string, rep: string, i: nat)
    requires IsFirstOccurrence(s, pat, i)
    ensures ReplaceFirst(s, pat, rep) == s[..i] + rep + s[i + |pat|..]
  {
    var k := IndexOf(s, pat);
    assert k == Some(i);
  }

  /** The text before the replaced span contains no occurrence of the pattern. */
  lemma ReplaceFirstPrefixClean(s: string, pat: string, rep: string, i: nat)
    requires IsFirstOccurrence(s, pat, i) && |pat| > 0
    ensures ReplaceFirst(s, pat, rep)[..i] == s[..i]
    ensures !Contains(s[..i], pat)
  {
    ReplaceFirstAt(s, pat, rep, i);
    if Contains(s[..i], pat) {
      var j: nat :| j <= i && OccursAt(s[..i], pat, j);
      assert s[..i][j..j + |pat|] == s[j..j + |pat|];
      assert OccursAt(s, pat, j);
      assert false;
    }
  }

  /** Replacing a pattern with itself is the identity. */
  lemma ReplaceFirstSelf(s: string, pat: string)
    ensures ReplaceFirst(s, pat, pat) == s
  {
    match IndexOf(s, pat)
    case None =>
    case Some(i) =>
      assert s[i..i + |pat|] == pat;
      assert s == s[..i] + s[i..i + |pat|] + s[i + |pat|..];
  }

  /** Template filling: when the placeholder's first character does not occur
      in the text before it, the first occurrence is the placeholder itself. */
  lemma Fill(a: string, p: string, b: string, v: string)
    requires |p| > 0 && p[0] !in a
    ensures ReplaceFirst(a + p + b, p, v) == a + v + b
  {
    var s := a + p + b;
    FirstOccurrenceAfter(a, p, b);
    ReplaceFirstAt(s, p, v, |a|);
    assert s[..|a|] == a;
    assert s[|a| + |p|..] == b;
  }

  /** When the pattern's first character does not occur in `a`, the first
      occurrence of the pattern in `a + p + b` is right after `a`. */
  lemma FirstOccurrenceAfter(a: string, p: string, b: string)
    requires |p| > 0 && p[0] !in a
    ensures IsFirstOccurrence(a + p + b, p, |a|)
    ensures IndexOf(a + p + b, p) == Some(|a|)
  {
    var s := a + p + b;
    assert s[|a|..|a| + |p|] == p;
    forall j: nat | j < |a|
      ensures !OccursAt(s, p, j)
    {
      assert s[j] == a[j] != p[0];
      assert s[j..j + |p|][0] == s[j];
    }
    assert IsFirstOccurrence(s, p, |a|);
    var k := IndexOf(s, p);
    assert k == Some(|a|);
  }

  /** Template filling where the text before the placeholder may hold other
      placeholders: it suffices that every occurrence of the placeholder's
      first character in `a` is followed, inside `a`, by a character other
      than the placeholder's second. */
  lemma Fill2(a: string, p: string, b: string, v: string)
    requires |p| > 1
    requires forall j :: 0 <= j < |a| && a[j] == p[0] ==> j + 1 < |a| && a[j + 1] != p[1]
    ensures ReplaceFirst(a + p + b, p, v) == a + v + b
  {
    var s := a + p + b;
    assert s[|a|..|a| + |p|] == p;
    forall j: nat | j < |a|
      ensures !OccursAt(s, p, j)
    {
      if j + |p| <= |s| {
        assert s[j..j + |p|][0] == s[j] == a[j];
        assert s[j..j + |p|][1] == s[j + 1];
        if a[j] == p[0] {
          assert s[j + 1] == a[j + 1];
        }
      }
    }
    ReplaceFirstAt(s, p, v, |a|);
    assert s[..|a|] == a;
    assert s[|a| + |p|..] == b;
  }

  /** Two chained fills of a two-slot template `h p1 m p2 t`: each value
      lands in its own slot when neither the fixed text before a
      placeholder nor the first value holds the next placeholder's first
      character. */
  lemma FillTwo(h: string, p1: string, m: string, p2: string, t: string, v1: string, v2: string)
    requires |p1| > 0 && |p2| > 0
    requires p1[0] !in h && p2[0] !in h && p2[0] !in v1 && p2[0] !in m
    ensures ReplaceFirst(ReplaceFirst(h + p1 + (m + p2 + t), p1, v1), p2, v2) == h + v1 + m + v2 + t
  {
    Fill(h, p1, m + p2 + t, v1);
    assert h + v1 + (m + p2 + t) == (h + v1 + m) + p2 + t;
    Fill(h + v1 + m, p2, t, v2);
  }

  /** The same chain when the first value is the second placeholder: the
      second value is captured into the first slot and the second slot
      keeps the literal placeholder. */
  lemma FillTwoCaptured(h: string, p1: string, m: string, p2: string, t: string, v2: string)
    requires |p1| > 0 && |p2| > 0 && p1[0] !in h && p2[0] !in h
    ensures ReplaceFirst(ReplaceFirst(h + p1 + (m + p2 + t), p1, p2), p2, v2) == h + v2 + (m + p2 + t)
  {
    Fill(h, p1, m + p2 + t, p2);
    Fill(h, p2, m + p2 + t, v2);
  }

  /** One fill of a chain: filling `p` in `a + p + (m + q + rest)` leaves
      the next placeholder `q` with everything before it grouped. */
  lemma FillStep(a: string, p: string, m: string, q: string, rest: string, v: string)
    requires |p| > 0 && p[0] !in a
    ensures ReplaceFirst(a + p + (m + q + rest), p, v) == (a + v + m) + q + rest
  {
    Fill(a, p, m + q + rest, v);
    assert a + v + (m + q + rest) == (a + v + m) + q + rest;
  }

  /** `FillStep` when `a` may hold `p[0]`, but never followed by `p[1]`. */
  lemma FillStep2(a: string, p: string, m: string, q: string, rest: string, v: string)
    requires |p| > 1
    requires forall j :: 0 <= j < |a| && a[j] == p[0] ==> j + 1 < |a| && a[j + 1] != p[1]
    ensures ReplaceFirst(a + p + (m + q + rest), p, v) == (a + v + m) + q + rest
  {
    Fill2(a, p, m + q + rest, v);
    assert a + v + (m + q + rest) == (a + v + m) + q + rest;
  }

  /** In `x + q + y`, where `q` starts with `c0`, holds it nowhere else and
      continues with a character other than `c`, and `c0` is in neither `x`
      nor `y`, every `c0` is followed by a character other than `c`. */
  lemma OnlyMarkFollowedBy(x: string, q: string, y: string, c0: char, c: char)
    requires |q| > 1 && q[0] == c0 && c0 !in q[1..] && q[1] != c
    requires c0 !in x && c0 !in y
    ensures var a := x + q + y;
            forall j :: 0 <= j < |a| && a[j] == c0 ==> j + 1 < |a| && a[j + 1] != c
  {
    var a := x + q + y;
    forall j | 0 <= j < |a| && a[j] == c0
      ensures j + 1 < |a| && a[j + 1] != c
    {
    }
  }

  /** A later fill past the surviving literal `p2`, which starts with the
      same character as the filled placeholder but continues differently. */
  lemma FillPastLiteral(x: string, p2: string, m: string, p: string, rest: string, v: string)
    requires |p2| > 1 && |p| > 1 && p[0] == p2[0]
    requires p2[0] !in p2[1..] && p2[1] != p[1]
    requires p2[0] !in x && p2[0] !in m
    ensures ReplaceFirst(x + p2 + m + p + rest, p, v) == x + p2 + m + v + rest
  {
    OnlyMarkFollowedBy(x, p2, m, p2[0], p[1]);
    Fill2(x + p2 + m, p, rest, v);
  }

  /** Regrouping a concatenation, for the fill chains. */
  lemma Assoc(a: string, b: string, c: string)
    ensures a + (b + c) == a + b + c
  {
  }

  /** Removing a prefix with `replace(prefix, "")`. */
  lemma StripPrefix(s: string, p: string)
    requires p <= s
    ensures ReplaceFirst(s, p, "") == s[|p|..]
  {
    assert s[0..|p|] == p;
    ReplaceFirstAt(s, p, "", 0);
  }

  // ---------------------------------------------------------------------
  // trim

  /** ECMAScript WhiteSpace and LineTerminator code points, which `trim()` removes. */
  predicate IsSpace(c: char) {
    c == ' ' || c == '\t' || c == '\n' || c == '\r' || c == '\U{0B}' || c == '\U{0C}'
    || c == '\U{A0}' || c == '\U{1680}' || ('\U{2000}' <= c <= '\U{200A}')
    || c == '\U{2028}' || c == '\U{2029}' || c == '\U{202F}' || c == '\U{205F}'
    || c == '\U{3000}' || c == '\U{FEFF}'
  }

  /** How many white-space characters open `s`. */
  function LeadingSpace(s: string): (n: nat)
    ensures n <= |s|
    ensures forall i :: 0 <= i < n ==> IsSpace(s[i])
    ensures n == |s| || !IsSpace(s[n])
  {
    if |s| > 0 && IsSpace(s[0]) then
      var m := LeadingSpace(s[1..]);
      assert forall i :: 1 <= i < m + 1 ==> s[1..][i - 1] == s[i];
      m + 1
    else 0
  }

  /** `s.trimStart()`. */
  function TrimStart(s: string): (r: string)
    ensures |r| <= |s|
    ensures r == s[|s| - |r|..]
    ensures forall i :: 0 <= i < |s| - |r| ==> IsSpace(s[i])
    ensures r == [] || !IsSpace(r[0])
  {
    s[LeadingSpace(s)..]
  }

  /** `s.trimEnd()`. */
  function TrimEnd(s: string): (r: string)
    ensures |r| <= |s|
    ensures r == s[..|r|]
    ensures forall i :: |r| <= i < |s| ==> IsSpace(s[i])
    ensures r == [] || !IsSpace(r[|r| - 1])
  {
    if |s| > 0 && IsSpace(s[|s| - 1]) then
      var r := TrimEnd(s[..|s| - 1]);
      assert forall i :: |r| <= i < |s| - 1 ==> s[..|s| - 1][i] == s[i];
      r
    else s
  }

  /** `s.trim()`: the widest slice of `s` that neither starts nor ends with white space. */
  function Trim(s: string): (r: string)
    ensures |r| <= |s|
    ensures r == [] || (!IsSpace(r[0]) && !IsSpace(r[|r| - 1]))
  {
    TrimEnd(TrimStart(s))
  }

  /** Trimming cuts only white space, and only from the two ends: the
      result is the slice of `s` that starts after the leading white space. */
  lemma TrimStrips(s: string)
    ensures exists k: nat :: StrippedAt(s, Trim(s), k)
  {
    var t := TrimStart(s);
    var r := TrimEnd(t);
    var k := |s| - |t|;
    assert r == s[k..k + |r|];
    assert forall i :: k + |r| <= i < |s| ==> s[i] == t[i - k];
    assert StrippedAt(s, r, k);
    assert Trim(s) == r;
  }

  /** `r` is `s` with `k` white-space characters cut from the front and
      only white space cut from the back. */
  predicate StrippedAt(s: string, r: string, k: nat) {
    k + |r| <= |s| && r == s[k..k + |r|] &&
    (forall i :: 0 <= i < k ==> IsSpace(s[i])) &&
    (forall i :: k + |r| <= i < |s| ==> IsSpace(s[i]))
  }

  lemma {:induction false} TrimStartNoop(s: string)
    requires s == [] || !IsSpace(s[0])
    ensures TrimStart(s) == s
  {
  }

  lemma {:induction false} TrimEndNoop(s: string)
    requires s == [] || !IsSpace(s[|s| - 1])
    ensures TrimEnd(s) == s
  {
  }

  /** Trimming twice is trimming once. */
  lemma TrimIdempotent(s: string)
    ensures Trim(Trim(s)) == Trim(s)
  {
    var t := Trim(s);
    TrimStartNoop(t);
    TrimEndNoop(t);
  }

  /** The trimmed text is empty exactly when the text is all white space. */
  lemma TrimEmptyIffBlank(s: string)
    ensures Trim(s) == [] <==> forall i :: 0 <= i < |s| ==> IsSpace(s[i])
  {
    var a := TrimStart(s);
    if a != [] {
      assert a[0] == s[|s| - |a|];
      assert IsSpace(a[0]) || TrimEnd(a) != [];
    }
  }

  // ---------------------------------------------------------------------
  // character classes

  /** `[\w-]`, which is also `[A-Za-z0-9-_]`: an ASCII letter or digit, `_`
      or `-`. */
  predicate IsWordOrDash(c: char) {
    ('a' <= c <= 'z') || ('A' <= c <= 'Z') || ('0' <= c <= '9') || c == '_' || c == '-'
  }

  /** The length of the longest run of `[\w-]` characters at the start of `s`. */
  function WordOrDashRun(s: string): (n: nat)
    ensures n <= |s|
    ensures forall i :: 0 <= i < n ==> IsWordOrDash(s[i])
    ensures n < |s| ==> !IsWordOrDash(s[n])
  {
    match FindFirst(s, (c: char) => !IsWordOrDash(c))
    case None => |s|
    case Some(i) => i
  }

  // ---------------------------------------------------------------------
  // slice, join, repeat

  /** How `slice` turns a possibly negative argument into a position in `[0, len]`. */
  function ClampIndex(i: int, len: nat): (r: nat)
    ensures r <= len
    ensures 0 <= i <= len ==> r == i
  {
    if i < 0 then (if len + i < 0 then 0 else len + i)
    else if i > len then len
    else i
  }

  /** `s.slice(start, end)`: negative arguments count from the end, arguments
      beyond the length are clamped, and an empty result when `end <= start`. */
  function Slice(s: string, start: int, end: int): (r: string)
    ensures |r| <= |s|
    ensures 0 <= start <= end <= |s| ==> r == s[start..end]
  {
    var a := ClampIndex(start, |s|);
    var b := ClampIndex(end, |s|);
    if a < b then s[a..b] else ""
  }

  /** `s.slice(start)`. */
  function SliceFrom(s: string, start: int): (r: string)
    ensures 0 <= start <= |s| ==> r == s[start..]
    ensures start >= |s| ==> r == ""
  {
    s[ClampIndex(start, |s|)..]
  }

  /** `s.slice(0, Math.min(n, s.length))`: the first `n` characters. */
  function Prefix(s: string, n: nat): (r: string)
    ensures r <= s
    ensures |r| == if |s| < n then |s| else n
  {
    if |s| < n then s else s[..n]
  }

  /** `parts.join(sep)`. */
  function Join(parts: seq<string>, sep: string): string
  {
    if |parts| == 0 then ""
    else if |parts| == 1 then parts[0]
    else parts[0] + sep + Join(parts[1..], sep)
  }

  /** Joining one more part appends the separator and the part. */
  lemma {:induction false} JoinSnoc(parts: seq<string>, sep: string, x: string)
    requires |parts| > 0
    ensures Join(parts + [x], sep) == Join(parts, sep) + sep + x
  {
    if |parts| == 1 {
      assert (parts + [x])[1..] == [x];
    } else {
      assert (parts + [x])[1..] == parts[1..] + [x];
      JoinSnoc(parts[1..], sep, x);
    }
  }

  /** `c.repeat(n)` for a one-character string `c`. */
  function RepeatChar(c: char, n: nat): (r: string)
    ensures |r| == n
    ensures forall i :: 0 <= i < n ==> r[i] == c
  {
    if n == 0 then "" else RepeatChar(c, n - 1) + [c]
  }

  // ---------------------------------------------------------------------
  // numbers

  predicate IsDigit(c: char) {
    '0' <= c <= '9'
  }

  function DigitChar(d: nat): (c: char)
    requires d < 10
    ensures IsDigit(c)
  {
    "0123456789"[d]
  }

  /** Decimal rendering of a natural number, as template literals print it. */
  function NatToString(n: nat): (r: string)
    ensures |r| > 0
    ensures forall i :: 0 <= i < |r| ==> IsDigit(r[i])
  {
    if n < 10 then [DigitChar(n)] else NatToString(n / 10) + [DigitChar(n % 10)]
  }

  /** The value of a string of decimal digits. */
  function DigitsValue(s: string): nat
    requires forall i :: 0 <= i < |s| ==> IsDigit(s[i])
  {
    if |s| == 0 then 0
    else
      assert IsDigit(s[|s| - 1]);
      DigitsValue(s[..|s| - 1]) * 10 + (s[|s| - 1] as int - '0' as int)
  }

  /** Rendering then reading a number gives it back. */
  lemma {:induction false} NatToStringRoundTrip(n: nat)
    ensures DigitsValue(NatToString(n)) == n
  {
    if n >= 10 {
      var r := NatToString(n);
      assert r[..|r| - 1] == NatToString(n / 10);
      NatToStringRoundTrip(n / 10);
      assert "0123456789"[n % 10] as int - '0' as int == n % 10;
    } else {
      assert "0123456789"[n] as int - '0' as int == n;
    }
  }

  /** The length of the longest run of decimal digits at the start of `s`. */
  function DigitRun(s: string): (n: nat)
    ensures n <= |s|
    ensures forall i :: 0 <= i < n ==> IsDigit(s[i])
    ensures n < |s| ==> !IsDigit(s[n])
  {
    match FindFirst(s, (c: char) => !IsDigit(c))
    case None => |s|
    case Some(i) => i
  }

  /** `parseInt(s, 10)`: leading white space is skipped, one `+` or `-` is
      read, then the longest run of decimal digits; `None` stands for `NaN`,
      the result when that run is empty. */
  function ParseInt(s: string): (r: Option<int>)
    ensures r.None? <==> DigitRun(Unsigned(TrimStart(s))) == 0
  {
    var t := TrimStart(s);
    var u := Unsigned(t);
    var n := DigitRun(u);
    if n == 0 then None
    else
      var v: int := DigitsValue(u[..n]);
      Some(if |t| > 0 && t[0] == '-' then -v else v)
  }

  /** `s` without a leading sign character. */
  function Unsigned(t: string): (u: string)
    ensures u == t || (|t| > 0 && u == t[1..] && (t[0] == '+' || t[0] == '-'))
  {
    if |t| > 0 && (t[0] == '+' || t[0] == '-') then t[1..] else t
  }

  /** `parseInt` reads back what `NatToString` renders, and with a minus
      sign in front, its negation. */
  lemma ParseIntRoundTrip(n: nat)
    ensures ParseInt(NatToString(n)) == Some(n)
    ensures ParseInt("-" + NatToString(n)) == Some(-(n as int))
  {
    var d := NatToString(n);
    NatToStringRoundTrip(n);
    assert !IsSpace(d[0]) && d[0] != '+' && d[0] != '-' by { assert IsDigit(d[0]); }
    TrimStartNoop(d);
    assert DigitRun(d) == |d|;
    assert d[..|d|] == d;
    var m := "-" + d;
    TrimStartNoop(m);
    assert Unsigned(m) == d;
  }

  // ---------------------------------------------------------------------
  // UTF-16 length

  /** A character JavaScript stores in one UTF-16 code unit. */
  predicate InBmp(c: char) {
    c as int <= 0xFFFF
  }

  /** `s.length` in JavaScript: the number of UTF-16 code units, two for each
      character outside the Basic Multilingual Plane (a surrogate pair). */
  function Units(s: string): (n: nat)
    ensures |s| <= n <= 2 * |s|
  {
    UnitsUpTo(s, |s|)
  }

  /** The code units of the first `k` characters of `s`. */
  function UnitsUpTo(s: string, k: nat): (n: nat)
    requires k <= |s|
    ensures k <= n <= 2 * k
  {
    if k == 0 then 0 else UnitsUpTo(s, k - 1) + (if InBmp(s[k - 1]) then 1 else 2)
  }

  /** Only the first `k` characters count. */
  lemma {:induction false} UnitsUpToPrefix(s: string, t: string, k: nat)
    requires k <= |s| && k <= |t| && forall i :: 0 <= i < k ==> s[i] == t[i]
    ensures UnitsUpTo(s, k) == UnitsUpTo(t, k)
  {
    if k > 0 {
      UnitsUpToPrefix(s, t, k - 1);
    }
  }

  lemma {:induction false} UnitsUpToConcat(a: string, b: string, m: nat)
    requires m <= |b|
    ensures UnitsUpTo(a + b, |a| + m) == Units(a) + UnitsUpTo(b, m)
  {
    if m == 0 {
      UnitsUpToPrefix(a + b, a, |a|);
    } else {
      UnitsUpToConcat(a, b, m - 1);
      assert (a + b)[|a| + m - 1] == b[m - 1];
    }
  }

  /** Code units add up over concatenation. */
  lemma UnitsConcat(a: string, b: string)
    ensures Units(a + b) == Units(a) + Units(b)
  {
    UnitsUpToConcat(a, b, |b|);
  }

  lemma {:induction false} UnitsUpToOfBmp(s: string, k: nat)
    requires k <= |s| && forall i :: 0 <= i < k ==> InBmp(s[i])
    ensures UnitsUpTo(s, k) == k
  {
    if k > 0 {
      UnitsUpToOfBmp(s, k - 1);
    }
  }

  /** On text inside the Basic Multilingual Plane, code units are characters. */
  lemma UnitsOfBmp(s: string)
    requires forall i :: 0 <= i < |s| ==> InBmp(s[i])
    ensures Units(s) == |s|
  {
    UnitsUpToOfBmp(s, |s|);
  }

  /** A character outside the plane counts twice: "é" is one unit, "😀" two. */
  lemma AstralCountsTwice()
    ensures Units("\U{E9}") == 1 && Units("\U{1F600}") == 2
  {
    assert UnitsUpTo("\U{E9}", 1) == 1;
    assert UnitsUpTo("\U{1F600}", 1) == 2;
  }
}
