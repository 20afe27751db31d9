/**
  Sequences used as PHP lists that must stay duplicate-free: appending only what is
  not already there, in order of first appearance.
 */
module Seqs {
  import opened Wrappers

  predicate Distinct<T(==)>(s: seq<T>) {
    forall i, j :: 0 <= i < j < |s| ==> s[i] != s[j]
  }

  /** `if (!in_array($x, $s, true)) { $s[] = $x; }` */
  function AppendNew<T(==)>(s: seq<T>, x: T): seq<T> {
    if x in s then s else s + [x]
  }

  /** AppendNew applied to each of `xs` in turn. */
  function AppendAllNew<T(==)>(s: seq<T>, xs: seq<T>): seq<T>
    decreases |xs|
  {
    if xs == [] then s else AppendNew(AppendAllNew(s, xs[..|xs| - 1]), xs[|xs| - 1])
  }

  /** Appending only new elements keeps a list duplicate-free, never disturbs what was
      already there, and ends up holding exactly the old elements and the new ones. */
  lemma {:induction false} AppendAllNewSpec<T>(s: seq<T>, xs: seq<T>)
    ensures Distinct(s) ==> Distinct(AppendAllNew(s, xs))
    ensures |AppendAllNew(s, xs)| >= |s| && AppendAllNew(s, xs)[..|s|] == s
    ensures forall y :: y in AppendAllNew(s, xs) <==> y in s || y in xs
    ensures |AppendAllNew(s, xs)| <= |s| + |xs|
    decreases |xs|
  {
    if xs != [] {
      var init := xs[..|xs| - 1];
      AppendAllNewSpec(s, init);
      var r := AppendAllNew(s, init);
      assert xs == init + [xs[|xs| - 1]];
      if xs[|xs| - 1] !in r {
        assert (r + [xs[|xs| - 1]])[..|s|] == r[..|s|];
      }
    }
  }

  /** One more element appended to the input is one more AppendNew on the result. */
  lemma AppendAllNewSnoc<T>(s: seq<T>, xs: seq<T>, x: T)
    ensures AppendAllNew(s, xs + [x]) == AppendNew(AppendAllNew(s, xs), x)
  {
    assert (xs + [x])[..|xs|] == xs;
  }

  /** The result changes exactly when some element of `xs` was not yet present. */
  lemma {:induction false} AppendAllNewUnchanged<T>(s: seq<T>, xs: seq<T>)
    ensures AppendAllNew(s, xs) == s <==> forall y :: y in xs ==> y in s
    decreases |xs|
  {
    AppendAllNewSpec(s, xs);
    if xs != [] {
      var init := xs[..|xs| - 1];
      AppendAllNewUnchanged(s, init);
      AppendAllNewSpec(s, init);
      assert xs == init + [xs[|xs| - 1]];
    }
  }

  /** Index of the first element satisfying `p`: the early-return `foreach` over a list. */
  function FirstWhere<T>(s: seq<T>, p: T -> bool): (r: Option<nat>)
    ensures r.Some? ==> r.value < |s| && p(s[r.value])
    ensures r.Some? ==> forall j :: 0 <= j < r.value ==> !p(s[j])
    ensures r.None? ==> forall j :: 0 <= j < |s| ==> !p(s[j])
    decreases |s|
  {
    if s == [] then None
    else if p(s[0]) then Some(0)
    else match FirstWhere(s[1..], p)
      case None => None
      case Some(i) => Some(i + 1)
  }

  /** The first satisfying index is determined by the condition alone. */
  lemma FirstWhereIs<T>(s: seq<T>, p: T -> bool, k: nat)
    requires k < |s| && p(s[k]) && forall j :: 0 <= j < k ==> !p(s[j])
    ensures FirstWhere(s, p) == Some(k)
  {
    var r := FirstWhere(s, p);
    assert r.Some? by { assert p(s[k]); }
    assert !(r.value < k);
    assert !(r.value > k) by { assert p(s[k]); }
  }

  lemma FirstWhereNone<T>(s: seq<T>, p: T -> bool)
    requires forall j :: 0 <= j < |s| ==> !p(s[j])
    ensures FirstWhere(s, p) == None
  {
  }

  /** Adding an element at the end only matters when nothing before it satisfies `p`. */
  lemma FirstWhereSnoc<T>(s: seq<T>, p: T -> bool)
    requires s != []
    ensures FirstWhere(s, p) ==
              match FirstWhere(s[..|s| - 1], p)
              case Some(k) => Some(k)
              case None => if p(s[|s| - 1]) then Some(|s| - 1) else None
  {
    var n := |s| - 1;
    var init := s[..n];
    match FirstWhere(init, p)
    case Some(k) =>
      assert forall j :: 0 <= j <= k ==> s[j] == init[j];
      FirstWhereIs(s, p, k);
    case None =>
      assert forall j :: 0 <= j < n ==> s[j] == init[j];
      if p(s[n]) {
        FirstWhereIs(s, p, n);
      } else {
        FirstWhereNone(s, p);
      }
  }
}
