/**
 * Ordering operations over tables: `sort_values`, `nlargest` / `nsmallest`
 * followed by `head(n)`, and `idxmax` / `idxmin`. Every ordering is by a real
 * sort key. pandas' default sort is an unstable quicksort, so nothing here
 * promises an order among rows with equal keys: only sortedness, that the
 * rows are a permutation of the input, and which rows make the cut.
 */
module Sorting {
  import opened Common

  /** Keys are non-decreasing along `s`. */
  predicate Ascending<T>(s: seq<T>, key: T -> real) {
    forall i, j :: 0 <= i < j < |s| ==> key(s[i]) <= key(s[j])
  }

  /** Keys are non-increasing along `s`. */
  predicate Descending<T>(s: seq<T>, key: T -> real) {
    forall i, j :: 0 <= i < j < |s| ==> key(s[i]) >= key(s[j])
  }

  function Insert<T>(x: T, s: seq<T>, key: T -> real): (r: seq<T>)
    requires Ascending(s, key)
    ensures Ascending(r, key)
    ensures multiset(r) == multiset(s) + multiset{x}
    ensures |r| == |s| + 1
  {
    if s == [] then [x]
    else if key(x) <= key(s[0]) then [x] + s
    else
      assert s == [s[0]] + s[1..];
      var rest := Insert(x, s[1..], key);
      HeadBelowRest(x, s, rest, key);
      AscendingCons(s[0], rest, key);
      [s[0]] + rest
  }

  /** The head of an ascending sequence is no larger than anything inserted after it. */
  lemma HeadBelowRest<T>(x: T, s: seq<T>, rest: seq<T>, key: T -> real)
    requires Ascending(s, key) && |s| > 0 && key(s[0]) < key(x)
    requires multiset(rest) == multiset(s[1..]) + multiset{x}
    ensures forall y :: y in rest ==> key(s[0]) <= key(y)
  {
    forall y | y in rest
      ensures key(s[0]) <= key(y)
    {
      assert y in multiset(rest);
      if y != x {
        assert y in multiset(s[1..]);
        var k :| 0 <= k < |s[1..]| && s[1..][k] == y;
        assert s[k + 1] == y;
      }
    }
  }

  /** Putting a row no larger than any other in front keeps a sequence ascending. */
  lemma AscendingCons<T>(a: T, rest: seq<T>, key: T -> real)
    requires Ascending(rest, key)
    requires forall y :: y in rest ==> key(a) <= key(y)
    ensures Ascending([a] + rest, key)
  {
    var r := [a] + rest;
    forall i, j | 0 <= i < j < |r| ensures key(r[i]) <= key(r[j]) {
      assert r[j] == rest[j - 1] && r[j] in rest;
      if i > 0 {
        assert r[i] == rest[i - 1];
      }
    }
  }

  /** `sort_values(ascending=True)` on a real sort key. */
  function SortBy<T>(s: seq<T>, key: T -> real): (r: seq<T>)
    ensures Ascending(r, key)
    ensures multiset(r) == multiset(s)
    ensures |r| == |s|
  {
    if s == [] then []
    else
      assert s == [s[0]] + s[1..];
      Insert(s[0], SortBy(s[1..], key), key)
  }

  function Negated<T>(key: T -> real): T -> real {
    x => -key(x)
  }

  /** `sort_values(ascending=False)` on a real sort key. */
  function SortDescending<T>(s: seq<T>, key: T -> real): (r: seq<T>)
    ensures Descending(r, key)
    ensures multiset(r) == multiset(s)
    ensures |r| == |s|
  {
    var r := SortBy(s, Negated(key));
    assert forall i, j :: 0 <= i < j < |r| ==> Negated(key)(r[i]) <= Negated(key)(r[j]);
    r
  }

  /**
   * The `n` rows with the largest keys, largest first: pandas'
   * `sort_values(ascending=False).head(n)` and `nlargest(n)`.
   */
  function Largest<T>(s: seq<T>, key: T -> real, n: nat): (r: seq<T>)
    ensures |r| == if n <= |s| then n else |s|
    ensures multiset(r) <= multiset(s)
    ensures Descending(r, key)
    ensures forall x, y :: x in multiset(s) - multiset(r) && y in r ==> key(x) <= key(y)
  {
    var sorted := SortBy(s, Negated(key));
    var r := Take(sorted, n);
    Cut(sorted, Negated(key), n);
    r
  }

  /**
   * The `n` rows with the smallest keys, smallest first: pandas'
   * `sort_values(ascending=True).head(n)`.
   */
  function Smallest<T>(s: seq<T>, key: T -> real, n: nat): (r: seq<T>)
    ensures |r| == if n <= |s| then n else |s|
    ensures multiset(r) <= multiset(s)
    ensures Ascending(r, key)
    ensures forall x, y :: x in multiset(s) - multiset(r) && y in r ==> key(y) <= key(x)
  {
    var sorted := SortBy(s, key);
    var r := Take(sorted, n);
    Cut(sorted, key, n);
    r
  }

  /** Cutting an ascending sequence leaves only rows with keys at least the kept ones'. */
  lemma Cut<T>(sorted: seq<T>, key: T -> real, n: nat)
    requires Ascending(sorted, key)
    ensures multiset(Take(sorted, n)) <= multiset(sorted)
    ensures forall x, y :: x in multiset(sorted) - multiset(Take(sorted, n)) && y in Take(sorted, n)
              ==> key(y) <= key(x)
  {
    if n < |sorted| {
      var front := sorted[..n];
      var back := sorted[n..];
      assert Take(sorted, n) == front;
      assert sorted == front + back;
      assert multiset(sorted) == multiset(front) + multiset(back);
      assert multiset(sorted) - multiset(front) == multiset(back);
      forall x, y | x in multiset(sorted) - multiset(front) && y in front
        ensures key(y) <= key(x)
      {
        assert x in multiset(back);
        assert x in back;
        var i :| 0 <= i < |back| && back[i] == x;
        var j :| 0 <= j < |front| && front[j] == y;
        assert sorted[n + i] == x && sorted[j] == y;
      }
    } else {
      assert Take(sorted, n) == sorted;
      assert multiset(sorted) - multiset(sorted) == multiset{};
    }
  }

  /**
   * Position of the first row with the largest key: pandas' `idxmax`
   * on a default range index.
   */
  function ArgMax<T>(s: seq<T>, key: T -> real): (i: nat)
    requires |s| > 0
    ensures i < |s|
    ensures forall j :: 0 <= j < |s| ==> key(s[j]) <= key(s[i])
    ensures forall j :: 0 <= j < i ==> key(s[j]) < key(s[i])
  {
    if |s| == 1 then 0
    else
      var k := ArgMax(s[..|s| - 1], key);
      if key(s[|s| - 1]) > key(s[k]) then |s| - 1 else k
  }

  /**
   * Position of the first row with the smallest key: pandas' `idxmin`
   * on a default range index.
   */
  function ArgMin<T>(s: seq<T>, key: T -> real): (i: nat)
    requires |s| > 0
    ensures i < |s|
    ensures forall j :: 0 <= j < |s| ==> key(s[i]) <= key(s[j])
    ensures forall j :: 0 <= j < i ==> key(s[i]) < key(s[j])
  {
    if |s| == 1 then 0
    else
      var k := ArgMin(s[..|s| - 1], key);
      if key(s[|s| - 1]) < key(s[k]) then |s| - 1 else k
  }
}
