/**
 * pandas' `DataFrame.merge(right, how="left", on=key)`. The join emits, for
 * each left row in order, one row per matching right row (in right-table
 * order), or a single row with null right-hand columns when nothing matches.
 * Keys are compared with `==`; pandas also matches a null key with a null
 * key, which is what `Option` equality does for the nullable keys used here.
 */
module Join {
  import opened Common

  /** The right rows whose key is `k`. */
  function Matches<R(!new), K(==)>(right: seq<R>, rk: R -> K, k: K): (ms: seq<R>)
    ensures forall r :: r in ms <==> r in right && rk(r) == k
    ensures forall r :: multiset(ms)[r] == if rk(r) == k then multiset(right)[r] else 0
  {
    Filter(right, r => rk(r) == k)
  }

  /** Left row `l` paired with each of the right rows `ms`. */
  function Pair<L, R>(l: L, ms: seq<R>): (out: seq<(L, Option<R>)>)
    ensures |out| == |ms|
    ensures forall i :: 0 <= i < |ms| ==> out[i] == (l, Some(ms[i]))
  {
    if ms == [] then [] else [(l, Some(ms[0]))] + Pair(l, ms[1..])
  }

  /** The output block of a single left row. */
  function JoinRow<L, R(!new), K(==)>(l: L, right: seq<R>, lk: L -> K, rk: R -> K): seq<(L, Option<R>)> {
    var ms := Matches(right, rk, lk(l));
    if ms == [] then [(l, None)] else Pair(l, ms)
  }

  /** `m` is an admissible right-hand side for left row `l`: a match, or null when there is none. */
  ghost predicate Admissible<L, R(!new), K>(l: L, m: Option<R>, right: seq<R>, lk: L -> K, rk: R -> K) {
    match m
    case Some(r) => r in right && rk(r) == lk(l)
    case None => forall r :: r in right ==> rk(r) != lk(l)
  }

  /** The left join as (left row, matched right row or null) pairs. */
  function LeftJoin<L(!new), R(!new), K(==)>(left: seq<L>, right: seq<R>, lk: L -> K, rk: R -> K)
    : (out: seq<(L, Option<R>)>)
    ensures |out| >= |left|
    ensures forall o :: o in out ==> o.0 in left && Admissible(o.0, o.1, right, lk, rk)
    ensures forall l :: l in left && Matches(right, rk, lk(l)) == [] ==> (l, None) in out
    ensures forall l, r :: l in left && r in right && rk(r) == lk(l) ==> (l, Some(r)) in out
  {
    if left == [] then []
    else
      var l := left[0];
      var block := JoinRow(l, right, lk, rk);
      var rest := LeftJoin(left[1..], right, lk, rk);
      assert left == [l] + left[1..];
      JoinRowFacts(l, right, lk, rk);
      var out := block + rest;
      assert forall o :: o in out <==> o in block || o in rest;
      out
  }

  /** The output block of one left row: at least one row, all admissible, covering every match. */
  lemma JoinRowFacts<L, R(!new), K>(l: L, right: seq<R>, lk: L -> K, rk: R -> K)
    ensures |JoinRow(l, right, lk, rk)| >= 1
    ensures forall o :: o in JoinRow(l, right, lk, rk) ==> o.0 == l && Admissible(o.0, o.1, right, lk, rk)
    ensures Matches(right, rk, lk(l)) == [] ==> (l, None) in JoinRow(l, right, lk, rk)
    ensures forall r :: r in right && rk(r) == lk(l) ==> (l, Some(r)) in JoinRow(l, right, lk, rk)
  {
    var ms := Matches(right, rk, lk(l));
    var block := JoinRow(l, right, lk, rk);
    forall o | o in block
      ensures o.0 == l && Admissible(o.0, o.1, right, lk, rk)
    {
      if ms != [] {
        var i :| 0 <= i < |block| && block[i] == o;
        assert ms[i] in ms;
      }
    }
    forall r | r in right && rk(r) == lk(l)
      ensures (l, Some(r)) in block
    {
      assert r in ms;
      var i :| 0 <= i < |ms| && ms[i] == r;
      assert block[i] == (l, Some(r));
    }
  }

  /** Every left row survives: it heads at least one output row. */
  lemma EveryLeftRowSurvives<L(!new), R(!new), K>(left: seq<L>, right: seq<R>, lk: L -> K, rk: R -> K, l: L)
    requires l in left
    ensures exists m :: (l, m) in LeftJoin(left, right, lk, rk) && Admissible(l, m, right, lk, rk)
  {
    var ms := Matches(right, rk, lk(l));
    if ms == [] {
      assert (l, None) in LeftJoin(left, right, lk, rk);
    } else {
      assert ms[0] in ms;
      assert (l, Some(ms[0])) in LeftJoin(left, right, lk, rk);
    }
  }

  /**
   * Fan-out, exactly: a matching pair (l, r) occurs as often as l occurs on
   * the left times r occurs on the right, and never when the keys differ.
   */
  lemma {:induction false} JoinMultiplicity<L(!new), R(!new), K>(
    left: seq<L>, right: seq<R>, lk: L -> K, rk: R -> K, l: L, r: R)
    ensures multiset(LeftJoin(left, right, lk, rk))[(l, Some(r))]
            == if rk(r) == lk(l) then multiset(left)[l] * multiset(right)[r] else 0
  {
    var x := (l, Some(r));
    if left != [] {
      var l0 := left[0];
      var block := JoinRow(l0, right, lk, rk);
      var rest := LeftJoin(left[1..], right, lk, rk);
      assert left == [l0] + left[1..];
      var a := multiset(left[1..])[l];
      var b := multiset(right)[r];
      var c := multiset(left)[l];
      assert c == a + (if l == l0 then 1 else 0);
      assert LeftJoin(left, right, lk, rk) == block + rest;
      assert multiset(LeftJoin(left, right, lk, rk))[x] == multiset(block)[x] + multiset(rest)[x];
      JoinMultiplicity(left[1..], right, lk, rk, l, r);
      BlockMultiplicity(l0, right, lk, rk, l, r);
      if rk(r) == lk(l) {
        assert multiset(rest)[x] == a * b;
        if l == l0 {
          MulSucc(a, b);
          assert multiset(block)[x] == b;
        } else {
          assert multiset(block)[x] == 0;
        }
      }
    }
  }

  lemma MulSucc(a: int, b: int)
    ensures (a + 1) * b == a * b + b
  {
  }

  lemma BlockMultiplicity<L(!new), R(!new), K>(l0: L, right: seq<R>, lk: L -> K, rk: R -> K, l: L, r: R)
    ensures multiset(JoinRow(l0, right, lk, rk))[(l, Some(r))]
            == if l == l0 && rk(r) == lk(l) then multiset(right)[r] else 0
  {
    var ms := Matches(right, rk, lk(l0));
    if ms == [] {
      assert multiset(ms)[r] == 0;
    } else {
      PairMultiplicity(l0, ms, l, r);
    }
  }

  /** An unmatched left row yields one null-filled row per occurrence; a matched one yields none. */
  lemma {:induction false} NullFillMultiplicity<L(!new), R(!new), K>(
    left: seq<L>, right: seq<R>, lk: L -> K, rk: R -> K, l: L)
    ensures multiset(LeftJoin(left, right, lk, rk))[(l, None)]
            == if Matches(right, rk, lk(l)) == [] then multiset(left)[l] else 0
  {
    if left != [] {
      var l0 := left[0];
      var block := JoinRow(l0, right, lk, rk);
      var rest := LeftJoin(left[1..], right, lk, rk);
      assert left == [l0] + left[1..];
      assert multiset(left)[l] == multiset(left[1..])[l] + (if l == l0 then 1 else 0);
      assert LeftJoin(left, right, lk, rk) == block + rest;
      NullFillMultiplicity(left[1..], right, lk, rk, l);
      var ms := Matches(right, rk, lk(l0));
      PairHasNoNull(l0, ms, l);
    }
  }

  lemma {:induction false} PairMultiplicity<L, R>(l0: L, ms: seq<R>, l: L, r: R)
    ensures multiset(Pair(l0, ms))[(l, Some(r))] == if l == l0 then multiset(ms)[r] else 0
  {
    if ms != [] {
      assert ms == [ms[0]] + ms[1..];
      PairMultiplicity(l0, ms[1..], l, r);
      assert Pair(l0, ms) == [(l0, Some(ms[0]))] + Pair(l0, ms[1..]);
    }
  }

  lemma PairHasNoNull<L, R>(l0: L, ms: seq<R>, l: L)
    ensures multiset(Pair(l0, ms))[(l, None)] == 0
  {
    assert (l, None) !in Pair(l0, ms);
  }

  /** The right key identifies at most one right row. */
  predicate UniqueKeys<R, K(==)>(right: seq<R>, rk: R -> K) {
    forall i, j :: 0 <= i < |right| && 0 <= j < |right| && rk(right[i]) == rk(right[j]) ==> i == j
  }

  lemma {:induction false} AtMostOneMatch<R(!new), K>(right: seq<R>, rk: R -> K, k: K)
    requires UniqueKeys(right, rk)
    ensures |Matches(right, rk, k)| <= 1
  {
    if right != [] {
      var tail := right[1..];
      assert UniqueKeys(tail, rk) by {
        forall i, j | 0 <= i < |tail| && 0 <= j < |tail| && rk(tail[i]) == rk(tail[j])
          ensures i == j
        {
          assert rk(right[i + 1]) == rk(right[j + 1]);
        }
      }
      AtMostOneMatch(tail, rk, k);
      if rk(right[0]) == k {
        var rest := Matches(tail, rk, k);
        if rest != [] {
          assert false;
        }
      }
    }
  }

  /** With a unique right key the join neither adds nor drops rows. */
  lemma {:induction false} UniqueKeyJoinKeepsLength<L(!new), R(!new), K>(
    left: seq<L>, right: seq<R>, lk: L -> K, rk: R -> K)
    requires UniqueKeys(right, rk)
    ensures |LeftJoin(left, right, lk, rk)| == |left|
  {
    if left != [] {
      AtMostOneMatch(right, rk, lk(left[0]));
      UniqueKeyJoinKeepsLength(left[1..], right, lk, rk);
    }
  }

  /**
   * A left join followed by combining each (left row, right row or null)
   * pair into one output row with `fill`: the shape of every `merge` in the
   * pipeline, where the right table's columns are appended to the left's.
   */
  function JoinWith<L(!new), R(!new), K(==), O>(
    left: seq<L>, right: seq<R>, lk: L -> K, rk: R -> K, fill: (L, Option<R>) -> O): (out: seq<O>)
    ensures |out| == |LeftJoin(left, right, lk, rk)|
    ensures forall i :: 0 <= i < |out| ==>
              out[i] == fill(LeftJoin(left, right, lk, rk)[i].0, LeftJoin(left, right, lk, rk)[i].1)
    ensures forall o :: o in out ==> exists p :: p in LeftJoin(left, right, lk, rk) && o == fill(p.0, p.1)
    ensures forall p :: p in LeftJoin(left, right, lk, rk) ==> fill(p.0, p.1) in out
  {
    var pairs := LeftJoin(left, right, lk, rk);
    var out := seq(|pairs|, i requires 0 <= i < |pairs| => fill(pairs[i].0, pairs[i].1));
    assert forall i :: 0 <= i < |pairs| ==> out[i] == fill(pairs[i].0, pairs[i].1);
    out
  }

  /** Every row of `JoinWith` combines a left row with an admissible right-hand side. */
  lemma MergedRowsCombine<L(!new), R(!new), K, O>(
    left: seq<L>, right: seq<R>, lk: L -> K, rk: R -> K, fill: (L, Option<R>) -> O)
    ensures forall o :: o in JoinWith(left, right, lk, rk, fill) ==>
              exists l, m :: l in left && Admissible(l, m, right, lk, rk) && o == fill(l, m)
  {
    var out := JoinWith(left, right, lk, rk, fill);
    var pairs := LeftJoin(left, right, lk, rk);
    forall o | o in out
      ensures exists l, m :: l in left && Admissible(l, m, right, lk, rk) && o == fill(l, m)
    {
      var p :| p in pairs && o == fill(p.0, p.1);
      assert p.0 in left && Admissible(p.0, p.1, right, lk, rk);
    }
  }

  /** Every left row reaches the output of `JoinWith`. */
  lemma MergeKeepsLeftRows<L(!new), R(!new), K, O>(
    left: seq<L>, right: seq<R>, lk: L -> K, rk: R -> K, fill: (L, Option<R>) -> O)
    ensures forall l :: l in left ==>
              exists m :: Admissible(l, m, right, lk, rk) && fill(l, m) in JoinWith(left, right, lk, rk, fill)
  {
    var out := JoinWith(left, right, lk, rk, fill);
    var pairs := LeftJoin(left, right, lk, rk);
    forall l | l in left
      ensures exists m :: Admissible(l, m, right, lk, rk) && fill(l, m) in out
    {
      EveryLeftRowSurvives(left, right, lk, rk, l);
      var m :| (l, m) in pairs && Admissible(l, m, right, lk, rk);
      assert fill(l, m) in out;
    }
  }

  /** Every matching (left row, right row) pair reaches the output of `JoinWith`. */
  lemma MergeHasEveryMatch<L(!new), R(!new), K, O>(
    left: seq<L>, right: seq<R>, lk: L -> K, rk: R -> K, fill: (L, Option<R>) -> O)
    ensures forall l, r :: l in left && r in right && rk(r) == lk(l) ==>
              fill(l, Some(r)) in JoinWith(left, right, lk, rk, fill)
  {
    var out := JoinWith(left, right, lk, rk, fill);
    var pairs := LeftJoin(left, right, lk, rk);
    forall l, r | l in left && r in right && rk(r) == lk(l)
      ensures fill(l, Some(r)) in out
    {
      assert (l, Some(r)) in pairs;
    }
  }

  /** With a unique right key the join leaves every left row in its place, once. */
  lemma {:induction false} UniqueKeyJoinInPlace<L(!new), R(!new), K>(
    left: seq<L>, right: seq<R>, lk: L -> K, rk: R -> K)
    requires UniqueKeys(right, rk)
    ensures |LeftJoin(left, right, lk, rk)| == |left| &&
            forall i :: 0 <= i < |left| ==> LeftJoin(left, right, lk, rk)[i].0 == left[i]
  {
    if left != [] {
      var l := left[0];
      var block := JoinRow(l, right, lk, rk);
      var rest := LeftJoin(left[1..], right, lk, rk);
      UniqueKeyJoinRow(l, right, lk, rk);
      UniqueKeyJoinInPlace(left[1..], right, lk, rk);
      var out := LeftJoin(left, right, lk, rk);
      assert out == block + rest;
      forall i | 0 <= i < |left| ensures out[i].0 == left[i] {
        if i > 0 {
          assert out[i] == rest[i - 1];
        }
      }
    }
  }

  /** With a unique right key a left row's block is the row itself, once. */
  lemma UniqueKeyJoinRow<L, R(!new), K>(l: L, right: seq<R>, lk: L -> K, rk: R -> K)
    requires UniqueKeys(right, rk)
    ensures |JoinRow(l, right, lk, rk)| == 1 && JoinRow(l, right, lk, rk)[0].0 == l
  {
    AtMostOneMatch(right, rk, lk(l));
  }

  /**
   * What a left join keeps of its left rows. If every output row built from
   * left row `l` projects to `base(l)`, the projections of the output are
   * exactly the images of the left rows: nothing is lost and nothing new
   * appears, however many right rows each left row matched.
   */
  lemma JoinWithImage<L(!new), R(!new), K, O, P>(
    left: seq<L>, right: seq<R>, lk: L -> K, rk: R -> K, fill: (L, Option<R>) -> O,
    proj: O -> P, base: L -> P)
    requires forall l, m :: proj(fill(l, m)) == base(l)
    ensures Image(JoinWith(left, right, lk, rk, fill), proj) == Image(left, base)
  {
    var out := JoinWith(left, right, lk, rk, fill);
    var pairs := LeftJoin(left, right, lk, rk);
    forall b | b in Image(out, proj) ensures b in Image(left, base) {
      var o :| o in out && b == proj(o);
      var p :| p in pairs && o == fill(p.0, p.1);
      assert b == base(p.0);
    }
    forall b | b in Image(left, base) ensures b in Image(out, proj) {
      var l :| l in left && b == base(l);
      EveryLeftRowSurvives(left, right, lk, rk, l);
      var m :| (l, m) in pairs && Admissible(l, m, right, lk, rk);
      assert fill(l, m) in out;
      assert proj(fill(l, m)) == b;
    }
  }
}
