/** Folds over sequences: `reduce` adding integer weights, and `map` with a callback that may throw. */
module Folds {
  import opened Wrappers

  /** `s.map(f)` where f may throw: the first element whose f fails aborts the map. */
  function MapAll<T, U, E>(s: seq<T>, f: T -> Result<U, E>): Result<seq<U>, E> {
    if s == [] then Ok([])
    else
      match f(s[0])
      case Err(e) => Err(e)
      case Ok(y) =>
        match MapAll(s[1..], f)
        case Err(e) => Err(e)
        case Ok(ys) => Ok([y] + ys)
  }

  /**
   * The map succeeds exactly when f succeeds on every element, and then holds
   * f's results in order; when it fails, it fails with the error of the first
   * element on which f fails.
   */
  lemma {:induction false} MapAllSpec<T, U, E>(s: seq<T>, f: T -> Result<U, E>)
    ensures MapAll(s, f).Ok? <==> forall i :: 0 <= i < |s| ==> f(s[i]).Ok?
    ensures MapAll(s, f).Ok? ==>
      |MapAll(s, f).value| == |s| && forall i :: 0 <= i < |s| ==> f(s[i]) == Ok(MapAll(s, f).value[i])
    ensures MapAll(s, f).Err? ==>
      exists k :: 0 <= k < |s| && f(s[k]) == Err(MapAll(s, f).error) && forall i :: 0 <= i < k ==> f(s[i]).Ok?
  {
    if s != [] {
      MapAllSpec(s[1..], f);
      assert forall i :: 1 <= i < |s| ==> s[i] == s[1..][i - 1];
      if f(s[0]).Ok? && MapAll(s[1..], f).Err? {
        var k :| 0 <= k < |s[1..]| && f(s[1..][k]) == Err(MapAll(s[1..], f).error) && forall i :: 0 <= i < k ==> f(s[1..][i]).Ok?;
        assert f(s[k + 1]) == Err(MapAll(s, f).error);
        assert forall i :: 0 <= i < k + 1 ==> f(s[i]).Ok?;
      }
    }
  }

  /** f(s[0]) + ... + f(s[|s|-1]), accumulated from the left as `reduce` does. */
  function SumBy<T>(s: seq<T>, f: T -> int): int {
    if s == [] then 0 else SumBy(s[..|s| - 1], f) + f(s[|s| - 1])
  }

  lemma {:induction false} SumByAppend<T>(a: seq<T>, b: seq<T>, f: T -> int)
    ensures SumBy(a + b, f) == SumBy(a, f) + SumBy(b, f)
  {
    if b == [] {
      assert a + b == a;
    } else {
      var n := |b| - 1;
      assert (a + b)[..|a + b| - 1] == a + b[..n];
      assert (a + b)[|a + b| - 1] == b[n];
      SumByAppend(a, b[..n], f);
    }
  }

  /** The sum does not depend on the order of the elements. */
  lemma {:induction false} SumByPermutation<T>(a: seq<T>, b: seq<T>, f: T -> int)
    requires multiset(a) == multiset(b)
    ensures SumBy(a, f) == SumBy(b, f)
  {
    if a != [] {
      var n := |a| - 1;
      var x := a[n];
      assert a == a[..n] + [x];
      assert multiset(a[..n]) == multiset(a) - multiset{x};
      assert x in multiset(b);
      var j :| 0 <= j < |b| && b[j] == x;
      var l, r := b[..j], b[j + 1..];
      assert b == l + [x] + r;
      assert multiset(l + r) == multiset(b) - multiset{x};
      SumByPermutation(a[..n], l + r, f);
      SumByAppend(l, [x], f);
      SumByAppend(l, r, f);
      SumByAppend(l + [x], r, f);
      assert SumBy([x], f) == f(x) by {
        assert [x][..0] == [];
      }
    }
  }

  /** `s` listed by non-increasing `key` (`orderBy: { key: 'desc' }`). */
  predicate Descending<T>(s: seq<T>, key: T -> int) {
    forall i, j :: 0 <= i < j < |s| ==> key(s[i]) >= key(s[j])
  }

  function InsertDescending<T>(x: T, s: seq<T>, key: T -> int): (r: seq<T>)
    requires Descending(s, key)
    ensures Descending(r, key)
    ensures multiset(r) == multiset(s) + multiset{x}
    ensures |r| == |s| + 1
  {
    if s == [] || key(x) >= key(s[0]) then
      PrependDescending(x, s, key);
      [x] + s
    else
      var rest := InsertDescending(x, s[1..], key);
      assert s == [s[0]] + s[1..];
      HeadBoundsInsertion(x, s, key, rest);
      PrependDescending(s[0], rest, key);
      [s[0]] + rest
  }

  /** A head no smaller than anything after it keeps a descending list descending. */
  lemma PrependDescending<T>(y: T, rest: seq<T>, key: T -> int)
    requires Descending(rest, key)
    requires forall z :: z in rest ==> key(y) >= key(z)
    ensures Descending([y] + rest, key)
  {
    var r := [y] + rest;
    forall i, j | 0 <= i < j < |r| ensures key(r[i]) >= key(r[j]) {
      assert r[j] == rest[j - 1];
      if i > 0 {
        assert r[i] == rest[i - 1];
      }
    }
  }

  /** The head of a descending list bounds what inserting a smaller element into its tail gives. */
  lemma HeadBoundsInsertion<T>(x: T, s: seq<T>, key: T -> int, rest: seq<T>)
    requires Descending(s, key) && s != [] && key(x) < key(s[0])
    requires multiset(rest) == multiset(s[1..]) + multiset{x}
    ensures forall z :: z in rest ==> key(s[0]) >= key(z)
  {
    forall z | z in rest ensures key(s[0]) >= key(z) {
      assert z in multiset(rest);
      if z != x {
        assert z in multiset(s[1..]);
        var i :| 0 <= i < |s[1..]| && s[1..][i] == z;
        assert s[i + 1] == z;
      }
    }
  }

  /** Insertion sort by non-increasing key: a descending permutation of `s`. */
  function SortDescending<T>(s: seq<T>, key: T -> int): (r: seq<T>)
    ensures Descending(r, key)
    ensures multiset(r) == multiset(s)
  {
    if s == [] then []
    else
      assert s == [s[0]] + s[1..];
      InsertDescending(s[0], SortDescending(s[1..], key), key)
  }

  /** The first position whose element satisfies `p` (a `findUnique` / `findFirst`). */
  function IndexWhere<T>(s: seq<T>, p: T -> bool): (k: Option<nat>)
    ensures k.Some? <==> exists i :: 0 <= i < |s| && p(s[i])
    ensures k.Some? ==> k.value < |s| && p(s[k.value]) && forall i :: 0 <= i < k.value ==> !p(s[i])
  {
    if s == [] then None
    else if p(s[0]) then Some(0)
    else
      match IndexWhere(s[1..], p)
      case None =>
        assert forall i :: 1 <= i < |s| ==> s[i] == s[1..][i - 1];
        None
      case Some(k) =>
        assert forall i :: 1 <= i < k + 1 ==> s[i] == s[1..][i - 1];
        Some(k + 1)
  }

  /**
   * The elements satisfying `p` (a `where` clause): each one as often as it
   * occurs in `s`, and no other.
   */
  function Filter<T(!new)>(s: seq<T>, p: T -> bool): (r: seq<T>)
    ensures forall x :: multiset(r)[x] == if p(x) then multiset(s)[x] else 0
    ensures forall x :: x in r <==> x in s && p(x)
    ensures |r| <= |s|
  {
    if s == [] then []
    else
      var rest := Filter(s[1..], p);
      assert s == [s[0]] + s[1..];
      assert forall x :: x in s <==> x == s[0] || x in s[1..];
      if p(s[0]) then [s[0]] + rest else rest
  }
}
