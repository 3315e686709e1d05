/** Searching sequences the way the source's array methods do. */
module Seqs {
  import opened Wrappers

  /** `Array.prototype.findIndex` / `find`: the position of the first element
      satisfying `p`, or `None` when no element does. */
  function FindFirst<T>(xs: seq<T>, p: T -> bool): (r: Option<nat>)
    ensures r.Some? ==> r.value < |xs| && p(xs[r.value])
    ensures r.Some? ==> forall j :: 0 <= j < r.value ==> !p(xs[j])
    ensures r.None? <==> forall j :: 0 <= j < |xs| ==> !p(xs[j])
  {
    if |xs| == 0 then None
    else if p(xs[0]) then Some(0)
    else
      var rest := FindFirst(xs[1..], p);
      assert forall j :: 1 <= j < |xs| ==> xs[1..][j - 1] == xs[j];
      if rest.None? then None else Some(rest.value + 1)
  }

  /** `Array.prototype.findLast`: the position of the last element satisfying
      `p`, or `None` when no element does. */
  function FindLast<T>(xs: seq<T>, p: T -> bool): (r: Option<nat>)
    ensures r.Some? ==> r.value < |xs| && p(xs[r.value])
    ensures r.Some? ==> forall j :: r.value < j < |xs| ==> !p(xs[j])
    ensures r.None? <==> forall j :: 0 <= j < |xs| ==> !p(xs[j])
  {
    if |xs| == 0 then None
    else if p(xs[|xs| - 1]) then Some(|xs| - 1)
    else
      var rest := FindLast(xs[..|xs| - 1], p);
      assert forall j :: 0 <= j < |xs| - 1 ==> xs[..|xs| - 1][j] == xs[j];
      rest
  }

  /** Dropping the last element of `a + b`, for a non-empty `b`, drops it from `b`. */
  lemma DropLastOfConcat<T>(a: seq<T>, b: seq<T>)
    requires |b| > 0
    ensures (a + b)[..|a + b| - 1] == a + b[..|b| - 1]
    ensures (a + b)[|a + b| - 1] == b[|b| - 1]
  {
  }

  /** Splicing one element over position `i` is updating position `i`. */
  lemma SpliceOne<T>(s: seq<T>, i: nat, x: T)
    requires i < |s|
    ensures s[..i] + [x] + s[i + 1..] == s[i := x]
  {
    var a, b := s[..i] + [x] + s[i + 1..], s[i := x];
    assert forall j :: 0 <= j < |s| ==> a[j] == b[j];
  }

  /** A `for … of` loop that awaits `f` on each element in order and throws
      on the first failure: every result on success, the first error otherwise. */
  function MapResults<A, B>(xs: seq<A>, f: A -> Result<B>): (r: Result<seq<B>>)
    ensures r.Ok? ==> |r.value| == |xs| && forall i :: 0 <= i < |xs| ==> f(xs[i]) == Ok(r.value[i])
    ensures (forall i :: 0 <= i < |xs| ==> f(xs[i]).Ok?) ==> r.Ok?
    ensures r.Err? ==>
              exists i :: 0 <= i < |xs| && f(xs[i]) == Err(r.msg) && forall j :: 0 <= j < i ==> f(xs[j]).Ok?
  {
    if |xs| == 0 then Ok([])
    else
      var tl := xs[1..];
      assert forall j :: 0 <= j < |tl| ==> tl[j] == xs[j + 1];
      match f(xs[0])
      case Err(m) => Err(m)
      case Ok(y) =>
        match MapResults(tl, f)
        case Err(m) =>
          var i :| 0 <= i < |tl| && f(tl[i]) == Err(m) && forall j :: 0 <= j < i ==> f(tl[j]).Ok?;
          assert f(xs[i + 1]) == Err(m);
          Err(m)
        case Ok(ys) =>
          var r := [y] + ys;
          assert forall j :: 1 <= j < |xs| ==> r[j] == ys[j - 1];
          Ok(r)
  }
}
