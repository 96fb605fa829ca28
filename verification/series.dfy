/**
 * Operations on the monthly sales series (main.py lines 148-205): the
 * centred three-month moving average, the quarterly rollup and each
 * month's percentage deviation from the mean.
 */
module Series {
  import opened Common
  import opened Calendar
  import opened Sales

  // ---- rolling(window=3, center=True).mean()

  /**
   * `Tendência`: entry `i` is the mean of entries i-1, i and i+1; the first
   * and last entries have no full window and are null (pandas requires a
   * full window by default).
   */
  function RollingMean3(xs: seq<real>): (t: seq<Option<real>>)
    ensures |t| == |xs|
    ensures forall i :: 0 <= i < |xs| ==> (t[i].Some? <==> 0 < i < |xs| - 1)
    ensures forall i :: 0 < i < |xs| - 1 ==> t[i] == Mean(xs[i - 1..i + 2])
  {
    var t := seq(|xs|, i requires 0 <= i < |xs| =>
               if 0 < i < |xs| - 1 then Some((xs[i - 1] + xs[i] + xs[i + 1]) / 3.0) else None);
    forall i | 0 < i < |xs| - 1 ensures t[i] == Mean(xs[i - 1..i + 2]) {
      assert xs[i - 1..i + 2] == [xs[i - 1], xs[i], xs[i + 1]];
      SumOfThree(xs[i - 1], xs[i], xs[i + 1]);
    }
    t
  }

  lemma SumOfThree(a: real, b: real, c: real)
    ensures Sum([a, b, c]) == a + b + c
  {
    assert [a][..0] == [];
    assert Sum([a]) == a;
    assert [a, b][..1] == [a];
    assert Sum([a, b]) == a + b;
    assert [a, b, c][..2] == [a, b];
  }

  /** A trend value lies between the smallest and the largest value of its window. */
  lemma TrendWithinWindow(xs: seq<real>, i: int, lo: real, hi: real)
    requires 0 < i < |xs| - 1
    requires lo <= xs[i - 1] <= hi && lo <= xs[i] <= hi && lo <= xs[i + 1] <= hi
    ensures lo <= RollingMean3(xs)[i].value <= hi
  {
    var w := xs[i - 1..i + 2];
    MeanWithin(w, lo, hi);
  }

  /** A constant series has a constant trend. */
  lemma ConstantTrend(xs: seq<real>, c: real)
    requires forall i :: 0 <= i < |xs| ==> xs[i] == c
    ensures forall i :: 0 < i < |xs| - 1 ==> RollingMean3(xs)[i] == Some(c)
  {
    forall i | 0 < i < |xs| - 1 ensures RollingMean3(xs)[i] == Some(c) {
      TrendWithinWindow(xs, i, c, c);
    }
  }

  // ---- quarterly rollup

  /** One row of `vendas_trimestre`. */
  datatype QuarterSales = QuarterSales(quarter: Quarter, orders: nat)

  /** Strictly increasing (year, quarter) keys. */
  predicate QuarterSorted(qs: seq<QuarterSales>) {
    forall i, j :: 0 <= i < j < |qs| ==> QuarterBefore(qs[i].quarter, qs[j].quarter)
  }

  /** Quarter `q` has an entry in the rollup. */
  predicate HasQuarter(qs: seq<QuarterSales>, q: Quarter) {
    exists i :: 0 <= i < |qs| && qs[i].quarter == q
  }

  /** Some month of the series falls in quarter `q`. */
  predicate CoversQuarter(sales: seq<MonthSales>, q: Quarter) {
    exists j :: 0 <= j < |sales| && QuarterOf(sales[j].month) == q
  }

  /** The orders a rollup records for quarter `q` (zero when it has no entry). */
  function Amount(qs: seq<QuarterSales>, q: Quarter): nat {
    if qs == [] then 0
    else (if qs[0].quarter == q then qs[0].orders else 0) + Amount(qs[1..], q)
  }

  /** Reference definition: the orders of the months of `sales` that fall in quarter `q`. */
  function QuarterTotal(sales: seq<MonthSales>, q: Quarter): nat {
    if sales == [] then 0
    else
      var last := sales[|sales| - 1];
      QuarterTotal(sales[..|sales| - 1], q) + (if QuarterOf(last.month) == q then last.orders else 0)
  }

  /** Sum of the order counts of a monthly series. */
  function MonthTotal(sales: seq<MonthSales>): nat {
    if sales == [] then 0 else MonthTotal(sales[..|sales| - 1]) + sales[|sales| - 1].orders
  }

  /** Sum of the order counts of a quarterly series. */
  function QuarterlyTotal(qs: seq<QuarterSales>): nat {
    if qs == [] then 0 else qs[0].orders + QuarterlyTotal(qs[1..])
  }

  /** `r` is `qs` with `n` more orders in quarter `q`, still sorted. */
  ghost predicate Adds(r: seq<QuarterSales>, qs: seq<QuarterSales>, q: Quarter, n: nat) {
    && QuarterSorted(r)
    && (forall p :: HasQuarter(r, p) <==> p == q || HasQuarter(qs, p))
    && (forall p :: Amount(r, p) == Amount(qs, p) + (if p == q then n else 0))
    && QuarterlyTotal(r) == QuarterlyTotal(qs) + n
  }

  /** Adds `n` orders to quarter `q`, creating its entry in order if it is new. */
  function AddToQuarter(q: Quarter, n: nat, qs: seq<QuarterSales>): (r: seq<QuarterSales>)
    requires QuarterSorted(qs)
    ensures QuarterSorted(r)
    ensures forall p :: HasQuarter(r, p) <==> p == q || HasQuarter(qs, p)
    ensures forall p :: Amount(r, p) == Amount(qs, p) + (if p == q then n else 0)
    ensures QuarterlyTotal(r) == QuarterlyTotal(qs) + n
  {
    if qs == [] then
      assert Amount([QuarterSales(q, n)], q) == n;
      [QuarterSales(q, n)]
    else if qs[0].quarter == q then
      MergeIntoHead(q, n, qs);
      [QuarterSales(q, qs[0].orders + n)] + qs[1..]
    else if QuarterBefore(q, qs[0].quarter) then
      PrependQuarter(q, n, qs);
      [QuarterSales(q, n)] + qs
    else
      var rest := AddToQuarter(q, n, qs[1..]);
      KeepHead(q, n, qs, rest);
      [qs[0]] + rest
  }

  /** Quarter `q` already heads the rollup: its entry grows by `n`. */
  lemma MergeIntoHead(q: Quarter, n: nat, qs: seq<QuarterSales>)
    requires QuarterSorted(qs) && qs != [] && qs[0].quarter == q
    ensures Adds([QuarterSales(q, qs[0].orders + n)] + qs[1..], qs, q, n)
  {
    var r := [QuarterSales(q, qs[0].orders + n)] + qs[1..];
    assert r[1..] == qs[1..];
    assert forall i :: 0 <= i < |r| ==> r[i].quarter == qs[i].quarter;
    forall p ensures HasQuarter(r, p) <==> HasQuarter(qs, p) {
      if i :| 0 <= i < |qs| && qs[i].quarter == p {
        assert r[i].quarter == p;
      }
      if i :| 0 <= i < |r| && r[i].quarter == p {
        assert qs[i].quarter == p;
      }
    }
  }

  /** Quarter `q` comes before every entry: it gets a new first entry. */
  lemma PrependQuarter(q: Quarter, n: nat, qs: seq<QuarterSales>)
    requires QuarterSorted(qs) && qs != [] && QuarterBefore(q, qs[0].quarter)
    ensures Adds([QuarterSales(q, n)] + qs, qs, q, n)
  {
    var r := [QuarterSales(q, n)] + qs;
    assert r[1..] == qs;
    forall j | 0 <= j < |qs| ensures QuarterBefore(q, qs[j].quarter) {
      if j > 0 {
        assert QuarterBefore(qs[0].quarter, qs[j].quarter);
      }
    }
    forall p ensures HasQuarter(r, p) <==> p == q || HasQuarter(qs, p) {
      if i :| 0 <= i < |qs| && qs[i].quarter == p {
        assert r[i + 1].quarter == p;
      }
      if i :| 0 <= i < |r| && r[i].quarter == p && i > 0 {
        assert qs[i - 1].quarter == p;
      }
      if p == q {
        assert r[0].quarter == p;
      }
    }
  }

  /** Quarter `q` comes after the first entry: the first entry stays and `q` goes into the rest. */
  lemma KeepHead(q: Quarter, n: nat, qs: seq<QuarterSales>, rest: seq<QuarterSales>)
    requires QuarterSorted(qs) && qs != [] && qs[0].quarter != q && !QuarterBefore(q, qs[0].quarter)
    requires Adds(rest, qs[1..], q, n)
    ensures Adds([qs[0]] + rest, qs, q, n)
  {
    var r := [qs[0]] + rest;
    assert r[1..] == rest;
    forall p | HasQuarter(qs[1..], p)
      ensures QuarterBefore(qs[0].quarter, p)
    {
      var i :| 0 <= i < |qs[1..]| && qs[1..][i].quarter == p;
      assert qs[1..][i] == qs[i + 1];
    }
    forall i | 0 <= i < |rest| ensures QuarterBefore(qs[0].quarter, rest[i].quarter) {
      assert HasQuarter(rest, rest[i].quarter);
    }
    forall p ensures HasQuarter(r, p) <==> p == q || HasQuarter(qs, p) {
      if i :| 0 <= i < |qs| && qs[i].quarter == p && i > 0 {
        assert qs[1..][i - 1].quarter == p;
      }
      if HasQuarter(rest, p) {
        var i :| 0 <= i < |rest| && rest[i].quarter == p;
        assert r[i + 1].quarter == p;
      }
      if i :| 0 <= i < |r| && r[i].quarter == p && i > 0 {
        assert rest[i - 1].quarter == p;
      }
      if p == qs[0].quarter {
        assert r[0].quarter == p;
      }
    }
    forall i, j | 0 <= i < j < |r| ensures QuarterBefore(r[i].quarter, r[j].quarter) {
      assert r[j] == rest[j - 1];
      if i > 0 {
        assert r[i] == rest[i - 1];
      }
    }
    forall p ensures Amount(r, p) == Amount(qs, p) + (if p == q then n else 0) {
      assert Amount(r, p) == (if qs[0].quarter == p then qs[0].orders else 0) + Amount(rest, p);
    }
    assert QuarterlyTotal(r) == qs[0].orders + QuarterlyTotal(rest);
  }

  /**
   * `sales_by_month.groupby(["Ano", "Trimestre"]).agg({"Pedidos": "sum"})`:
   * one entry per quarter that contains a month of the series, in
   * chronological order, holding the orders of that quarter's months.
   */
  function QuarterlyRollup(sales: seq<MonthSales>): (qs: seq<QuarterSales>)
    ensures QuarterSorted(qs)
    ensures forall p :: HasQuarter(qs, p) <==> CoversQuarter(sales, p)
    ensures forall p :: Amount(qs, p) == QuarterTotal(sales, p)
    ensures QuarterlyTotal(qs) == MonthTotal(sales)
  {
    if sales == [] then []
    else
      var init := sales[..|sales| - 1];
      var last := sales[|sales| - 1];
      var qs := AddToQuarter(QuarterOf(last.month), last.orders, QuarterlyRollup(init));
      forall p ensures HasQuarter(qs, p) <==> CoversQuarter(sales, p) {
        if j :| 0 <= j < |sales| && QuarterOf(sales[j].month) == p && j < |sales| - 1 {
          assert QuarterOf(init[j].month) == p;
        }
        if j :| 0 <= j < |init| && QuarterOf(init[j].month) == p {
          assert sales[j] == init[j];
        }
      }
      qs
  }

  /** In a sorted rollup the entry of a quarter holds exactly its amount. */
  lemma {:induction false} AmountAt(qs: seq<QuarterSales>, i: int)
    requires QuarterSorted(qs)
    requires 0 <= i < |qs|
    ensures Amount(qs, qs[i].quarter) == qs[i].orders
  {
    var q := qs[i].quarter;
    if i == 0 {
      AmountAbsent(qs[1..], q);
    } else {
      assert QuarterSorted(qs[1..]);
      assert qs[1..][i - 1] == qs[i];
      AmountAt(qs[1..], i - 1);
    }
  }

  /** A quarter earlier than every entry has no amount. */
  lemma {:induction false} AmountAbsent(qs: seq<QuarterSales>, q: Quarter)
    requires forall i :: 0 <= i < |qs| ==> QuarterBefore(q, qs[i].quarter)
    ensures Amount(qs, q) == 0
  {
    if qs != [] {
      AmountAbsent(qs[1..], q);
    }
  }

  /** Each quarter's entry is the sum of its months' orders. */
  lemma QuarterEntriesAreSums(sales: seq<MonthSales>)
    ensures forall i :: 0 <= i < |QuarterlyRollup(sales)| ==>
              QuarterlyRollup(sales)[i].orders == QuarterTotal(sales, QuarterlyRollup(sales)[i].quarter)
  {
    var qs := QuarterlyRollup(sales);
    forall i | 0 <= i < |qs| ensures qs[i].orders == QuarterTotal(sales, qs[i].quarter) {
      AmountAt(qs, i);
    }
  }

  // ---- deviation from the mean

  /** `(x - m) / m * 100` for every entry. */
  function Scaled(xs: seq<real>, m: real): (d: seq<real>)
    requires m != 0.0
    ensures |d| == |xs|
    ensures forall i :: 0 <= i < |xs| ==> d[i] == (xs[i] - m) / m * 100.0
  {
    seq(|xs|, i requires 0 <= i < |xs| => (xs[i] - m) / m * 100.0)
  }

  /**
   * `Variação_vs_média`: each month's percentage deviation from the mean
   * of the series. A zero mean makes pandas divide by zero, which is
   * `None` here; an empty series gives an empty column.
   */
  function Deviations(xs: seq<real>): (d: Option<seq<real>>)
    ensures d.None? <==> |xs| > 0 && Sum(xs) == 0.0
    ensures d.Some? ==> |d.value| == |xs|
    ensures d.Some? && |xs| > 0 ==>
              forall i :: 0 <= i < |xs| ==> d.value[i] * Mean(xs).value == (xs[i] - Mean(xs).value) * 100.0
  {
    if xs == [] then Some([])
    else
      var m := Mean(xs).value;
      assert m * |xs| as real == Sum(xs);
      if m == 0.0 then None else Some(Scaled(xs, m))
  }

  /** `a * x + b` for every entry. */
  function Affine(xs: seq<real>, a: real, b: real): (ys: seq<real>)
    ensures |ys| == |xs|
    ensures forall i :: 0 <= i < |xs| ==> ys[i] == a * xs[i] + b
  {
    seq(|xs|, i requires 0 <= i < |xs| => a * xs[i] + b)
  }

  /** Summing commutes with an affine map. */
  lemma {:induction false} AffineSum(xs: seq<real>, a: real, b: real)
    ensures Sum(Affine(xs, a, b)) == a * Sum(xs) + b * |xs| as real
  {
    if xs != [] {
      var init := xs[..|xs| - 1];
      var x := xs[|xs| - 1];
      var ys := Affine(xs, a, b);
      var front := Affine(init, a, b);
      forall i | 0 <= i < |init| ensures ys[..|ys| - 1][i] == front[i] {
        assert init[i] == xs[i];
      }
      assert ys[..|ys| - 1] == front;
      AffineSum(init, a, b);
      var k := |init| as real;
      var si := Sum(init);
      assert a * (si + x) + b * (k + 1.0) == (a * si + b * k) + (a * x + b);
    }
  }

  /** The deviation formula is the affine map `x * (100 / m) - 100`. */
  lemma ScaledIsAffine(xs: seq<real>, m: real)
    requires m != 0.0
    ensures Scaled(xs, m) == Affine(xs, 100.0 / m, -100.0)
  {
    forall i | 0 <= i < |xs| ensures Scaled(xs, m)[i] == Affine(xs, 100.0 / m, -100.0)[i] {
      DeviationFormula(xs[i], m);
    }
  }

  lemma DeviationFormula(x: real, m: real)
    requires m != 0.0
    ensures (x - m) / m * 100.0 == 100.0 / m * x + -100.0
  {
  }

  /** The deviations from the mean cancel out. */
  lemma DeviationsSumToZero(xs: seq<real>)
    requires Deviations(xs).Some?
    ensures Sum(Deviations(xs).value) == 0.0
  {
    if xs != [] {
      var m := Mean(xs).value;
      var n := |xs| as real;
      assert Deviations(xs).value == Scaled(xs, m);
      ScaledIsAffine(xs, m);
      AffineSum(xs, 100.0 / m, -100.0);
      CancelOut(m, n, Sum(xs));
    }
  }

  lemma CancelOut(m: real, n: real, s: real)
    requires m != 0.0
    requires m * n == s
    ensures 100.0 / m * s + -100.0 * n == 0.0
  {
  }

  /** With a positive mean, deviations rank the months exactly as their counts do. */
  lemma DeviationsKeepOrder(xs: seq<real>, i: int, j: int)
    requires 0 <= i < |xs| && 0 <= j < |xs|
    requires Sum(xs) > 0.0
    ensures xs[i] <= xs[j] <==> Deviations(xs).value[i] <= Deviations(xs).value[j]
  {
    var m := Mean(xs).value;
    PositiveFactor(m, |xs| as real, Sum(xs));
    assert Deviations(xs).value == Scaled(xs, m);
    ScaledKeepsOrder(xs, m, i, j);
  }

  /** A positive reference value keeps the order of the entries it scales. */
  lemma ScaledKeepsOrder(xs: seq<real>, m: real, i: int, j: int)
    requires 0 <= i < |xs| && 0 <= j < |xs|
    requires m > 0.0
    ensures xs[i] <= xs[j] <==> Scaled(xs, m)[i] <= Scaled(xs, m)[j]
  {
    ScaledIsAffine(xs, m);
    var c := 100.0 / m;
    PositiveRatio(m);
    assert Scaled(xs, m)[i] == c * xs[i] + -100.0;
    assert Scaled(xs, m)[j] == c * xs[j] + -100.0;
    ScaleMonotone(xs[i], xs[j], c);
  }

  lemma PositiveFactor(m: real, n: real, s: real)
    requires n > 0.0 && m * n == s && s > 0.0
    ensures m > 0.0
  {
  }

  lemma ScaleMonotone(a: real, b: real, c: real)
    requires c > 0.0
    ensures a <= b <==> c * a + -100.0 <= c * b + -100.0
  {
  }

  lemma PositiveRatio(m: real)
    requires m > 0.0
    ensures 100.0 / m > 0.0
  {
  }
}
