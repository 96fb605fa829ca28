/**
 * Table-level building blocks shared by every stage of the pipeline:
 * nullable cells, boolean-mask selection, group keys, sums and means.
 * A pandas column that may hold NaN/NaT is modelled as a sequence of
 * `Option` values; "skip nulls" aggregation is selection of the `Some` cells.
 */
module Common {

  /** A nullable cell: `None` plays the role of pandas' NaN / NaT / missing value. */
  datatype Option<T> = None | Some(value: T)

  /** No element occurs twice. */
  predicate Distinct<T(==)>(s: seq<T>) {
    forall i, j :: 0 <= i < j < |s| ==> s[i] != s[j]
  }

  /** The rows of `s` satisfying `p`, in their original order (a boolean-mask selection). */
  function Filter<T(!new)>(s: seq<T>, p: T -> bool): (r: seq<T>)
    ensures |r| <= |s|
    ensures forall x :: x in r <==> x in s && p(x)
    ensures forall x :: multiset(r)[x] == if p(x) then multiset(s)[x] else 0
  {
    if s == [] then []
    else
      assert s == [s[0]] + s[1..];
      if p(s[0]) then [s[0]] + Filter(s[1..], p) else Filter(s[1..], p)
  }

  /** The rows whose group key is `Some(k)`: one group of a pandas `groupby`. */
  function Group<T(!new), K(==)>(rows: seq<T>, key: T -> Option<K>, k: K): (g: seq<T>)
    ensures |g| <= |rows|
    ensures forall x :: x in g <==> x in rows && key(x) == Some(k)
  {
    Filter(rows, x => key(x) == Some(k))
  }

  /**
   * The distinct non-null group keys of `rows`, in order of first appearance.
   * pandas' `groupby` drops rows whose key is null, so these are exactly the
   * groups a `groupby(...).agg(...)` produces.
   */
  function Keys<T(!new), K(==,!new)>(rows: seq<T>, key: T -> Option<K>): (ks: seq<K>)
    ensures Distinct(ks)
    ensures forall k :: k in ks <==> exists x :: x in rows && key(x) == Some(k)
  {
    if rows == [] then []
    else
      var init := rows[..|rows| - 1];
      var last := rows[|rows| - 1];
      assert rows == init + [last];
      var ks := Keys(init, key);
      match key(last)
      case None => ks
      case Some(k) => if k in ks then ks else ks + [k]
  }

  /** The values a column function takes on the rows of a table. */
  function Image<T(==), U>(rows: seq<T>, f: T -> U): set<U> {
    set x | x in rows :: f(x)
  }

  /** A table has at least as many rows as a column has distinct values, and a non-empty one has some. */
  lemma {:induction false} ImageSize<T, U>(rows: seq<T>, f: T -> U)
    ensures |Image(rows, f)| <= |rows|
    ensures rows != [] ==> |Image(rows, f)| >= 1
  {
    if rows != [] {
      var init := rows[..|rows| - 1];
      var last := rows[|rows| - 1];
      assert rows == init + [last];
      ImageSize(init, f);
      assert Image(rows, f) == Image(init, f) + {f(last)};
    }
  }

  /** A sequence without repetitions has as many distinct elements as entries. */
  lemma {:induction false} DistinctSize<T>(s: seq<T>)
    requires Distinct(s)
    ensures |set x | x in s| == |s|
  {
    if s != [] {
      var init := s[..|s| - 1];
      var last := s[|s| - 1];
      assert s == init + [last];
      assert Distinct(init);
      DistinctSize(init);
      assert last !in init;
      assert (set x | x in s) == (set x | x in init) + {last};
    }
  }

  /** Sum of a real column (empty sum is 0, as in pandas). */
  function Sum(s: seq<real>): real {
    if s == [] then 0.0 else Sum(s[..|s| - 1]) + s[|s| - 1]
  }

  /** Sum of a count column. */
  function Total(s: seq<nat>): nat {
    if s == [] then 0 else Total(s[..|s| - 1]) + s[|s| - 1]
  }

  /** Every term within [lo, hi] puts the sum within [n*lo, n*hi]. */
  lemma {:induction false} SumBounds(s: seq<real>, lo: real, hi: real)
    requires forall i :: 0 <= i < |s| ==> lo <= s[i] <= hi
    ensures |s| as real * lo <= Sum(s) <= |s| as real * hi
  {
    if s != [] {
      SumBounds(s[..|s| - 1], lo, hi);
      assert lo <= s[|s| - 1] <= hi;
    }
  }

  /** `m` is the arithmetic mean of a non-empty `s`: `m` times the count is the sum. */
  predicate IsMean(m: real, s: seq<real>) {
    |s| > 0 && m * |s| as real == Sum(s)
  }

  /** The arithmetic mean of the non-null cells; pandas' mean of an empty column is NaN (None). */
  function Mean(s: seq<real>): (m: Option<real>)
    ensures m.Some? <==> |s| > 0
    ensures m.Some? ==> m.value * |s| as real == Sum(s)
    ensures m.Some? ==> IsMean(m.value, s)
  {
    if s == [] then None else Some(Sum(s) / |s| as real)
  }

  /** A mean lies between any lower and upper bound of its terms. */
  lemma MeanWithin(s: seq<real>, lo: real, hi: real)
    requires |s| > 0
    requires forall i :: 0 <= i < |s| ==> lo <= s[i] <= hi
    ensures lo <= Mean(s).value <= hi
  {
    SumBounds(s, lo, hi);
    var n := |s| as real;
    assert Mean(s).value == Sum(s) / n;
  }

  /** Any mean of bounded terms shares their bounds. */
  lemma BoundedMean(m: real, s: seq<real>, lo: real, hi: real)
    requires IsMean(m, s)
    requires forall i :: 0 <= i < |s| ==> lo <= s[i] <= hi
    ensures lo <= m <= hi
  {
    SumBounds(s, lo, hi);
    var n := |s| as real;
    assert m * n == Sum(s) && n > 0.0;
  }

  /** The values of the non-null cells of a column, in order. */
  function Present<T(!new)>(s: seq<Option<T>>): (r: seq<T>)
    ensures |r| <= |s|
    ensures forall x :: x in r <==> Some(x) in s
  {
    if s == [] then []
    else
      assert s == [s[0]] + s[1..];
      match s[0]
      case None => Present(s[1..])
      case Some(v) => [v] + Present(s[1..])
  }

  /** The first `n` rows (pandas' `head(n)`). */
  function Take<T>(s: seq<T>, n: nat): (r: seq<T>)
    ensures |r| == if n <= |s| then n else |s|
    ensures forall i :: 0 <= i < |r| ==> r[i] == s[i]
  {
    if n <= |s| then s[..n] else s
  }

  /**
   * Number of rows whose key is non-null and lies in `ks`.
   */
  function CountKeyed<T(!new), K(==)>(rows: seq<T>, key: T -> Option<K>, ks: seq<K>): nat {
    |Filter(rows, x => key(x).Some? && key(x).value in ks)|
  }

  /** The size of each key's group, in key order (pandas' `groupby(...).size()`). */
  function GroupSizes<T(!new), K(==)>(rows: seq<T>, key: T -> Option<K>, ks: seq<K>): (r: seq<nat>)
    ensures |r| == |ks|
    ensures forall i :: 0 <= i < |ks| ==> r[i] == |Group(rows, key, ks[i])|
  {
    if ks == [] then []
    else GroupSizes(rows, key, ks[..|ks| - 1]) + [|Group(rows, key, ks[|ks| - 1])|]
  }

  /**
   * Partition law of `groupby(...).size()`: over a list of distinct keys, the group
   * sizes add up to the number of rows whose key is one of them.
   */
  lemma {:induction false} GroupSizesAddUp<T(!new), K>(rows: seq<T>, key: T -> Option<K>, ks: seq<K>)
    requires Distinct(ks)
    ensures Total(GroupSizes(rows, key, ks)) == CountKeyed(rows, key, ks)
    decreases |ks|
  {
    if ks == [] {
      var f := Filter(rows, x => key(x).Some? && key(x).value in ks);
      assert forall x :: x !in f;
    } else {
      var init := ks[..|ks| - 1];
      var k := ks[|ks| - 1];
      assert ks == init + [k];
      assert Distinct(init);
      GroupSizesAddUp(rows, key, init);
      var sizes := GroupSizes(rows, key, ks);
      assert sizes[..|sizes| - 1] == GroupSizes(rows, key, init);
      assert k !in init;
      CountSplit(rows, key, init, k);
    }
  }

  /** Adding one new key to the list adds exactly that key's group. */
  lemma {:induction false} CountSplit<T(!new), K>(rows: seq<T>, key: T -> Option<K>, ks: seq<K>, k: K)
    requires k !in ks
    ensures CountKeyed(rows, key, ks + [k]) == CountKeyed(rows, key, ks) + |Group(rows, key, k)|
    decreases |rows|
  {
    if rows != [] {
      assert rows == [rows[0]] + rows[1..];
      CountSplit(rows[1..], key, ks, k);
      var x := rows[0];
      if key(x).Some? {
        assert key(x).value in ks + [k] <==> key(x).value in ks || key(x).value == k;
      }
    }
  }

  /** Selecting with two masks that agree on every row selects the same rows. */
  lemma {:induction false} FilterCongruent<T(!new)>(s: seq<T>, p: T -> bool, q: T -> bool)
    requires forall x :: x in s ==> p(x) == q(x)
    ensures Filter(s, p) == Filter(s, q)
  {
    if s != [] {
      assert s == [s[0]] + s[1..];
      FilterCongruent(s[1..], p, q);
    }
  }

  /** Number of rows whose key is non-null. */
  function CountPresent<T(!new), K>(rows: seq<T>, key: T -> Option<K>): nat {
    |Filter(rows, x => key(x).Some?)|
  }

  /** When no key is null, every row counts. */
  lemma CountPresentAll<T(!new), K>(rows: seq<T>, key: T -> Option<K>)
    requires forall x :: x in rows ==> key(x).Some?
    ensures CountPresent(rows, key) == |rows|
  {
    FilterKeepsAll(rows, x => key(x).Some?);
  }

  /**
   * Over a key list that covers every non-null key, the group sizes add up
   * to the number of rows with a non-null key: `groupby(...).size()` loses
   * exactly the rows whose key is null.
   */
  lemma GroupSizesCoverRows<T(!new), K>(rows: seq<T>, key: T -> Option<K>, ks: seq<K>)
    requires Distinct(ks)
    requires forall x :: x in rows && key(x).Some? ==> key(x).value in ks
    ensures Total(GroupSizes(rows, key, ks)) == CountPresent(rows, key)
  {
    GroupSizesAddUp(rows, key, ks);
    FilterCongruent(rows, x => key(x).Some? && key(x).value in ks, x => key(x).Some?);
  }

  /** Selecting with a mask every row satisfies keeps the whole table. */
  lemma {:induction false} FilterKeepsAll<T(!new)>(s: seq<T>, p: T -> bool)
    requires forall x :: x in s ==> p(x)
    ensures Filter(s, p) == s
  {
    if s != [] {
      assert s == [s[0]] + s[1..];
      FilterKeepsAll(s[1..], p);
    }
  }

  /** Two boolean masks can be applied in either order. */
  lemma {:induction false} FilterCommute<T(!new)>(s: seq<T>, p: T -> bool, q: T -> bool)
    ensures Filter(Filter(s, p), q) == Filter(Filter(s, q), p)
  {
    if s != [] {
      assert s == [s[0]] + s[1..];
      FilterCommute(s[1..], p, q);
      var x := s[0];
      assert Filter(s, p) == if p(x) then [x] + Filter(s[1..], p) else Filter(s[1..], p);
      assert Filter(s, q) == if q(x) then [x] + Filter(s[1..], q) else Filter(s[1..], q);
      if p(x) {
        assert ([x] + Filter(s[1..], p))[0] == x;
        assert ([x] + Filter(s[1..], p))[1..] == Filter(s[1..], p);
      }
      if q(x) {
        assert ([x] + Filter(s[1..], q))[0] == x;
        assert ([x] + Filter(s[1..], q))[1..] == Filter(s[1..], q);
      }
    }
  }

  /** Selecting rows and taking one group can be done in either order. */
  lemma GroupOfSelection<T(!new), K>(rows: seq<T>, key: T -> Option<K>, k: K, p: T -> bool)
    ensures Filter(Group(rows, key, k), p) == Group(Filter(rows, p), key, k)
  {
    FilterCommute(rows, x => key(x) == Some(k), p);
  }

  /** A real column computed row by row. */
  function Column<T>(rows: seq<T>, f: T -> real): (xs: seq<real>)
    ensures |xs| == |rows|
    ensures forall i :: 0 <= i < |rows| ==> xs[i] == f(rows[i])
  {
    seq(|rows|, i requires 0 <= i < |rows| => f(rows[i]))
  }

  /** Summing a difference column row by row is the difference of the sums. */
  lemma {:induction false} SumOfDifference(a: seq<real>, b: seq<real>, c: seq<real>)
    requires |a| == |b| == |c|
    requires forall i :: 0 <= i < |c| ==> c[i] == a[i] - b[i]
    ensures Sum(c) == Sum(a) - Sum(b)
  {
    if c != [] {
      var n := |c| - 1;
      SumOfDifference(a[..n], b[..n], c[..n]);
    }
  }

  /** A column of integers as numbers. */
  function AsReals(s: seq<int>): (r: seq<real>)
    ensures |r| == |s|
    ensures forall i :: 0 <= i < |s| ==> r[i] == s[i] as real
  {
    seq(|s|, i requires 0 <= i < |s| => s[i] as real)
  }

  /** The non-null values of an integer column over some rows, as numbers (what pandas aggregates). */
  function Values<T>(rows: seq<T>, f: T -> Option<int>): (xs: seq<real>)
    ensures |xs| <= |rows|
  {
    AsReals(Present(seq(|rows|, i requires 0 <= i < |rows| => f(rows[i]))))
  }

  /** A column with a value on every row keeps one number per row. */
  lemma ValuesOnEveryRow<T>(rows: seq<T>, f: T -> Option<int>)
    requires forall r :: r in rows ==> f(r).Some?
    ensures |Values(rows, f)| == |rows|
  {
    var col := seq(|rows|, i requires 0 <= i < |rows| => f(rows[i]));
    forall i | 0 <= i < |col| ensures col[i].Some? {
      assert rows[i] in rows;
    }
    PresentKeepsAll(col);
  }

  /** Every number of a column is the value of one of the rows. */
  lemma ValuesFromRows<T>(rows: seq<T>, f: T -> Option<int>, i: nat)
    requires i < |Values(rows, f)|
    ensures exists r :: r in rows && f(r).Some? && f(r).value as real == Values(rows, f)[i]
  {
    var col := seq(|rows|, i requires 0 <= i < |rows| => f(rows[i]));
    var p := Present(col);
    assert p[i] in p;
    assert Some(p[i]) in col;
    var j :| 0 <= j < |col| && col[j] == Some(p[i]);
    assert rows[j] in rows;
  }

  /** A column keeps one number per row whose cell is non-null. */
  lemma {:induction false} ValuesCount<T(!new)>(rows: seq<T>, f: T -> Option<int>)
    ensures |Values(rows, f)| == CountPresent(rows, f)
  {
    if rows != [] {
      var col := seq(|rows|, i requires 0 <= i < |rows| => f(rows[i]));
      var tail := rows[1..];
      assert col[1..] == seq(|tail|, i requires 0 <= i < |tail| => f(tail[i]));
      assert col == [col[0]] + col[1..];
      assert rows == [rows[0]] + tail;
      ValuesCount(tail, f);
    }
  }

  /** Bounds on a column's non-null cells bound every number taken from it. */
  lemma ValuesWithin<T>(rows: seq<T>, f: T -> Option<int>, lo: int, hi: int)
    requires forall r :: r in rows && f(r).Some? ==> lo <= f(r).value <= hi
    ensures forall i :: 0 <= i < |Values(rows, f)| ==> lo as real <= Values(rows, f)[i] <= hi as real
  {
    forall i | 0 <= i < |Values(rows, f)|
      ensures lo as real <= Values(rows, f)[i] <= hi as real
    {
      ValuesFromRows(rows, f, i);
    }
  }

  /** A column with no null cell loses nothing when nulls are skipped. */
  lemma {:induction false} PresentKeepsAll<T(!new)>(s: seq<Option<T>>)
    requires forall i :: 0 <= i < |s| ==> s[i].Some?
    ensures |Present(s)| == |s|
  {
    if s != [] {
      assert s == [s[0]] + s[1..];
      assert s[0].Some?;
      PresentKeepsAll(s[1..]);
    }
  }

  /** Every term at least `lo` puts the sum at least `n*lo`. */
  lemma {:induction false} SumAtLeast(s: seq<real>, lo: real)
    requires forall i :: 0 <= i < |s| ==> lo <= s[i]
    ensures |s| as real * lo <= Sum(s)
  {
    if s != [] {
      SumAtLeast(s[..|s| - 1], lo);
      assert lo <= s[|s| - 1];
    }
  }

  /** A mean is at least any lower bound of its terms. */
  lemma MeanAtLeast(s: seq<real>, lo: real)
    requires forall i :: 0 <= i < |s| ==> lo <= s[i]
    ensures Mean(s).Some? ==> lo <= Mean(s).value
  {
    if s != [] {
      SumAtLeast(s, lo);
      assert Mean(s).value == Sum(s) / |s| as real;
    }
  }

  /** Every term at most `hi` puts the sum at most `n*hi`. */
  lemma {:induction false} SumAtMost(s: seq<real>, hi: real)
    requires forall i :: 0 <= i < |s| ==> s[i] <= hi
    ensures Sum(s) <= |s| as real * hi
  {
    if s != [] {
      SumAtMost(s[..|s| - 1], hi);
      assert s[|s| - 1] <= hi;
    }
  }

  /** A mean is at most any upper bound of its terms. */
  lemma MeanAtMost(s: seq<real>, hi: real)
    requires forall i :: 0 <= i < |s| ==> s[i] <= hi
    ensures Mean(s).Some? ==> Mean(s).value <= hi
  {
    if s != [] {
      SumAtMost(s, hi);
      assert Mean(s).value == Sum(s) / |s| as real;
    }
  }

  /** Selection distributes over concatenation. */
  lemma {:induction false} FilterAppend<T(!new)>(s: seq<T>, t: seq<T>, p: T -> bool)
    ensures Filter(s + t, p) == Filter(s, p) + Filter(t, p)
  {
    if s == [] {
      assert s + t == t;
    } else {
      var x, st := s[0], s + t;
      assert st[0] == x && st[1..] == s[1..] + t;
      FilterAppend(s[1..], t, p);
      if p(x) {
        calc {
          Filter(st, p);
          [x] + Filter(s[1..] + t, p);
          [x] + (Filter(s[1..], p) + Filter(t, p));
          ([x] + Filter(s[1..], p)) + Filter(t, p);
        }
      } else {
        assert Filter(st, p) == Filter(s[1..] + t, p);
      }
    }
  }

  /** Two tables holding the same rows in another order have equally many rows passing a mask. */
  lemma FilterCountPermutation<T(!new)>(s: seq<T>, t: seq<T>, p: T -> bool)
    requires multiset(s) == multiset(t)
    ensures |Filter(s, p)| == |Filter(t, p)|
  {
    assert multiset(Filter(s, p)) == multiset(Filter(t, p));
    assert |multiset(Filter(s, p))| == |Filter(s, p)|;
    assert |multiset(Filter(t, p))| == |Filter(t, p)|;
  }

  /** When the first `k` rows pass a mask, at least `k` rows pass it. */
  lemma {:induction false} FilterPrefix<T(!new)>(s: seq<T>, p: T -> bool, k: nat)
    requires k <= |s|
    requires forall i :: 0 <= i < k ==> p(s[i])
    ensures |Filter(s, p)| >= k
  {
    if k > 0 {
      assert s == [s[0]] + s[1..];
      FilterPrefix(s[1..], p, k - 1);
    }
  }

  /** When the rows from position `k` on pass a mask, at least `|s| - k` rows pass it. */
  lemma FilterSuffix<T(!new)>(s: seq<T>, p: T -> bool, k: nat)
    requires k <= |s|
    requires forall i :: k <= i < |s| ==> p(s[i])
    ensures |Filter(s, p)| >= |s| - k
  {
    assert s == s[..k] + s[k..];
    FilterAppend(s[..k], s[k..], p);
    FilterKeepsAll(s[k..], p);
  }
}
