/** Store queries shared by the route handlers: a `where` filter, an
    `orderBy: { <timestamp>: "desc" }` ordering and a `take` limit. */
module Listing {

  /** The elements are ordered by the timestamp `at`, newest first. */
  ghost predicate NewestFirst<T>(xs: seq<T>, at: T -> int) {
    forall i, j :: 0 <= i < j < |xs| ==> at(xs[i]) >= at(xs[j])
  }

  /** The elements of `xs` satisfying `keep`, in their original order. */
  function Filter<T(!new)>(xs: seq<T>, keep: T -> bool): (r: seq<T>)
    ensures |r| <= |xs|
    ensures forall x :: multiset(r)[x] == if keep(x) then multiset(xs)[x] else 0
    ensures forall x :: x in r <==> x in xs && keep(x)
  {
    if xs == [] then []
    else
      var rest := Filter(xs[1..], keep);
      assert xs == [xs[0]] + xs[1..];
      if keep(xs[0]) then [xs[0]] + rest else rest
  }

  /** A sequence headed by an element at least as new as everything after it,
      followed by a newest-first tail, is newest first. */
  lemma ConsNewestFirst<T>(h: T, t: seq<T>, at: T -> int)
    requires NewestFirst(t, at)
    requires forall k :: 0 <= k < |t| ==> at(h) >= at(t[k])
    ensures NewestFirst([h] + t, at)
  {
    var r := [h] + t;
    forall i, j | 0 <= i < j < |r|
      ensures at(r[i]) >= at(r[j])
    {
      if i > 0 {
        assert r[i] == t[i - 1] && r[j] == t[j - 1];
      } else {
        assert r[j] == t[j - 1];
      }
    }
  }

  lemma TailNewestFirst<T>(xs: seq<T>, at: T -> int)
    requires xs != [] && NewestFirst(xs, at)
    ensures NewestFirst(xs[1..], at)
    ensures forall k :: 0 <= k < |xs[1..]| ==> at(xs[0]) >= at(xs[1..][k])
  {
    var tail := xs[1..];
    forall i, j | 0 <= i < j < |tail| ensures at(tail[i]) >= at(tail[j]) {
      assert tail[i] == xs[i + 1] && tail[j] == xs[j + 1];
    }
  }

  /** Every element of `ys` is `x` or an element of `xs`, so a bound on both
      bounds all of `ys`. */
  lemma BoundByParts<T>(b: int, x: T, xs: seq<T>, ys: seq<T>, at: T -> int)
    requires multiset(ys) == multiset(xs) + multiset{x}
    requires at(x) <= b
    requires forall k :: 0 <= k < |xs| ==> at(xs[k]) <= b
    ensures forall k :: 0 <= k < |ys| ==> at(ys[k]) <= b
  {
    forall k | 0 <= k < |ys| ensures at(ys[k]) <= b {
      assert ys[k] in multiset(ys);
      if ys[k] != x {
        assert ys[k] in multiset(xs);
        var m :| 0 <= m < |xs| && xs[m] == ys[k];
      }
    }
  }

  /** Inserts `x` into a newest-first sequence, keeping it newest-first. */
  function Insert<T(!new)>(x: T, xs: seq<T>, at: T -> int): (r: seq<T>)
    requires NewestFirst(xs, at)
    ensures multiset(r) == multiset(xs) + multiset{x}
    ensures NewestFirst(r, at)
    ensures |r| == |xs| + 1
  {
    if xs == [] || at(x) >= at(xs[0]) then
      ConsNewestFirst(x, xs, at);
      [x] + xs
    else
      TailNewestFirst(xs, at);
      var rest := Insert(x, xs[1..], at);
      BoundByParts(at(xs[0]), x, xs[1..], rest, at);
      ConsNewestFirst(xs[0], rest, at);
      assert xs == [xs[0]] + xs[1..];
      [xs[0]] + rest
  }

  /** The elements of `xs` ordered newest first. The order among equal timestamps
      is not fixed by the store's query and is not promised here either. */
  function SortNewestFirst<T(!new)>(xs: seq<T>, at: T -> int): (r: seq<T>)
    ensures multiset(r) == multiset(xs)
    ensures NewestFirst(r, at)
    ensures |r| == |xs|
  {
    if xs == [] then []
    else
      assert xs == [xs[0]] + xs[1..];
      Insert(xs[0], SortNewestFirst(xs[1..], at), at)
  }

  /** `take: n` — the first `n` elements, or all of them when there are fewer. */
  function Take<T>(xs: seq<T>, n: nat): (r: seq<T>)
    ensures |r| == if |xs| < n then |xs| else n
    ensures r <= xs
  {
    if |xs| <= n then xs else xs[..n]
  }

  lemma PrefixNewestFirst<T>(xs: seq<T>, k: nat, at: T -> int)
    requires k <= |xs| && NewestFirst(xs, at)
    ensures NewestFirst(xs[..k], at)
  {
    var p := xs[..k];
    forall i, j | 0 <= i < j < |p| ensures at(p[i]) >= at(p[j]) {
      assert p[i] == xs[i] && p[j] == xs[j];
    }
  }

  lemma PrefixMultiset<T>(xs: seq<T>, k: nat)
    requires k <= |xs|
    ensures multiset(xs) == multiset(xs[..k]) + multiset(xs[k..])
  {
    assert xs == xs[..k] + xs[k..];
  }

  /** The newest `n` elements of `xs` satisfying `keep`, newest first. */
  function NewestMatching<T(!new)>(xs: seq<T>, keep: T -> bool, at: T -> int, n: nat): (r: seq<T>)
    ensures |r| <= n
    ensures NewestFirst(r, at)
    ensures forall x :: x in r ==> x in xs && keep(x)
    ensures multiset(r) <= multiset(Filter(xs, keep))
    ensures |r| == n || multiset(r) == multiset(Filter(xs, keep))
  {
    var sorted := SortNewestFirst(Filter(xs, keep), at);
    var k := if |sorted| < n then |sorted| else n;
    PrefixNewestFirst(sorted, k, at);
    PrefixMultiset(sorted, k);
    assert sorted[k..] == [] || k == n;
    assert forall x :: x in sorted[..k] ==> x in multiset(sorted);
    Take(sorted, n)
  }

  lemma SortedPrefixDominates<T>(sorted: seq<T>, k: nat, at: T -> int, x: T, y: T)
    requires k <= |sorted| && NewestFirst(sorted, at)
    requires x in sorted[..k]
    requires y in multiset(sorted) - multiset(sorted[..k])
    ensures at(x) >= at(y)
  {
    PrefixMultiset(sorted, k);
    assert y in multiset(sorted[k..]);
    var j :| 0 <= j < |sorted[k..]| && sorted[k..][j] == y;
    var i :| 0 <= i < k && sorted[..k][i] == x;
    assert sorted[i] == x && sorted[k + j] == y;
  }

  /** Nothing left out by `NewestMatching` is newer than anything it selected:
      the selection is the `n` most recent matching elements. */
  lemma NewestMatchingDominates<T(!new)>(xs: seq<T>, keep: T -> bool, at: T -> int, n: nat, x: T, y: T)
    requires x in NewestMatching(xs, keep, at, n)
    requires y in multiset(Filter(xs, keep)) - multiset(NewestMatching(xs, keep, at, n))
    ensures at(x) >= at(y)
  {
    var sorted := SortNewestFirst(Filter(xs, keep), at);
    var k := if |sorted| < n then |sorted| else n;
    assert NewestMatching(xs, keep, at, n) == sorted[..k];
    SortedPrefixDominates(sorted, k, at, x, y);
  }
}
