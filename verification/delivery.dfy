/**
 * Delivery times and delays (main.py section 2.a). Only rows with a
 * delivery time take part: both the delivery date and the purchase date
 * must be present. Over them the model computes the overall statistics,
 * the late statistics per category and per purchase month, and the
 * ranking of categories by late rate.
 *
 * As in the code, `total_entregas` counts rows of `order_full` (one per
 * order item, review and payment match), not distinct orders.
 */
module Delivery {
  import opened Common
  import opened Calendar
  import opened Records
  import opened Derived
  import opened Sorting

  /** `delivery_time.notnull()`: both dates the difference needs are present. */
  predicate HasDeliveryTime(r: FactRow)
    ensures HasDeliveryTime(r) <==> DeliveryTime(r).Some?
  {
    r.Delivered().Some? && r.Purchase().Some?
  }

  /** `entregas_validas`: the rows whose delivery time is not null. */
  function ValidDeliveries(rows: seq<FactRow>): (v: seq<FactRow>)
    ensures |v| <= |rows|
    ensures forall r :: r in v <==> r in rows && r.Delivered().Some? && r.Purchase().Some?
  {
    Filter(rows, HasDeliveryTime)
  }

  /** Number of late rows: `atraso_entrega.sum()`. */
  function LateCount(rows: seq<FactRow>): (n: nat)
    ensures n <= |rows|
  {
    |Filter(rows, IsLate)|
  }

  /** `rate` is `late` out of `total` as a percentage. */
  predicate IsRate(rate: real, late: nat, total: nat) {
    0.0 <= rate <= 100.0 && rate * total as real == late as real * 100.0
  }

  /**
   * `late / total * 100`, a percentage of late deliveries. It is 0 exactly
   * when none is late and 100 exactly when all are.
   */
  function Rate(late: nat, total: nat): (rate: real)
    requires late <= total && total > 0
    ensures IsRate(rate, late, total)
    ensures rate == 0.0 <==> late == 0
    ensures rate == 100.0 <==> late == total
  {
    var n, l := total as real, late as real;
    var rate := l * 100.0 / n;
    assert rate * n == l * 100.0;
    RateFacts(rate, l, n);
    rate
  }

  /** What `rate * n == l * 100` says about `rate` when `0 <= l <= n` and `n > 0`. */
  lemma RateFacts(rate: real, l: real, n: real)
    requires 0.0 <= l <= n && n > 0.0
    requires rate * n == l * 100.0
    ensures 0.0 <= rate <= 100.0
    ensures rate == 0.0 <==> l == 0.0
    ensures rate == 100.0 <==> l == n
  {
    CancelAtMost(0.0, rate, n);
    CancelAtMost(rate, 100.0, n);
    if l == 0.0 {
      Cancel(rate, 0.0, n);
    }
    if l == n {
      Cancel(rate, 100.0, n);
    }
  }

  lemma Cancel(a: real, b: real, n: real)
    requires n > 0.0 && a * n == b * n
    ensures a == b
  {
    assert (a - b) * n == 0.0;
  }

  lemma CancelAtMost(a: real, b: real, n: real)
    requires n > 0.0 && a * n <= b * n
    ensures a <= b
  {
    assert (b - a) * n >= 0.0;
  }

  // ---- overall statistics

  /** `tempo_medio_entrega`, `porcentagem_atrasos` and `atraso_medio`; NaN is `None`. */
  datatype Overview = Overview(meanTime: Option<real>, lateShare: Option<real>, meanDelay: Option<real>)

  /**
   * The overall delivery statistics. The late share of an empty table is
   * 0/0, which is NaN; the mean delay is taken over the late deliveries only
   * and is NaN when there is none.
   */
  function Overall(rows: seq<FactRow>): (o: Overview)
    ensures var v := ValidDeliveries(rows);
      && (o.meanTime.Some? <==> v != [])
      && (o.meanTime.Some? ==> IsMean(o.meanTime.value, Values(v, DeliveryTime)))
      && (o.lateShare.Some? <==> v != [])
      && (o.lateShare.Some? ==> IsRate(o.lateShare.value, LateCount(v), |v|))
      && (o.meanDelay.Some? <==> exists r :: r in v && IsLate(r))
      && (o.meanDelay.Some? ==> IsMean(o.meanDelay.value, Values(Filter(v, IsLate), DaysLate)))
      && (o.meanDelay.Some? ==> o.meanDelay.value >= 0.0)
  {
    var v := ValidDeliveries(rows);
    var late := Filter(v, IsLate);
    ValuesOnEveryRow(v, DeliveryTime);
    forall r | r in late ensures DaysLate(r).Some? {
      LateAgreesWithDaysLate(r);
    }
    ValuesOnEveryRow(late, DaysLate);
    var delays := Values(late, DaysLate);
    forall i | 0 <= i < |delays| ensures 0.0 <= delays[i] {
      ValuesFromRows(late, DaysLate, i);
      var r :| r in late && DaysLate(r).Some? && DaysLate(r).value as real == delays[i];
      LateAgreesWithDaysLate(r);
    }
    MeanAtLeast(delays, 0.0);
    assert (exists r :: r in v && IsLate(r)) ==> late != [];
    Overview(
      Mean(Values(v, DeliveryTime)),
      if v == [] then None else Some(Rate(LateCount(v), |v|)),
      Mean(delays))
  }

  // ---- per category

  /** One row of `atrasos_por_categoria`. */
  datatype CategoryDelays = CategoryDelays(category: string, total: nat, late: nat, meanTime: real, rate: real)

  function CategoryRate(c: CategoryDelays): real { c.rate }

  /** The category column of `atrasos_por_categoria`. */
  function DelayCategories(t: seq<CategoryDelays>): (cs: seq<string>)
    ensures |cs| == |t|
    ensures forall i :: 0 <= i < |t| ==> cs[i] == t[i].category
  {
    seq(|t|, i requires 0 <= i < |t| => t[i].category)
  }

  /** The `total_entregas` column of a delay table. */
  function CategoryTotals(t: seq<CategoryDelays>): (ns: seq<nat>)
    ensures |ns| == |t|
    ensures forall i :: 0 <= i < |t| ==> ns[i] == t[i].total
  {
    seq(|t|, i requires 0 <= i < |t| => t[i].total)
  }

  /** The late statistics of the valid deliveries of category `c`. */
  function CategoryDelayEntry(v: seq<FactRow>, c: string): (e: CategoryDelays)
    requires forall r :: r in v ==> HasDeliveryTime(r)
    requires exists r :: r in v && CategoryOf(r) == Some(c)
    ensures var g := Group(v, CategoryOf, c);
      && e.category == c
      && e.total == |g| >= 1
      && e.late == LateCount(g) <= e.total
      && IsMean(e.meanTime, Values(g, DeliveryTime))
      && IsRate(e.rate, e.late, e.total)
  {
    var g := Group(v, CategoryOf, c);
    var r :| r in v && CategoryOf(r) == Some(c);
    assert r in g;
    forall x | x in g ensures DeliveryTime(x).Some? {
      assert HasDeliveryTime(x);
    }
    ValuesOnEveryRow(g, DeliveryTime);
    CategoryDelays(c, |g|, LateCount(g), Mean(Values(g, DeliveryTime)).value, Rate(LateCount(g), |g|))
  }

  /**
   * `atrasos_por_categoria`: per English category of the valid deliveries,
   * the number of rows, the number of late ones, the mean delivery time and
   * the late rate in percent. Rows with no English category drop out.
   */
  function DelaysByCategory(rows: seq<FactRow>): (t: seq<CategoryDelays>)
    ensures var v := ValidDeliveries(rows);
      && Distinct(DelayCategories(t))
      && (forall c :: c in DelayCategories(t) <==> exists r :: r in v && CategoryOf(r) == Some(c))
      && forall i :: 0 <= i < |t| ==>
           var g := Group(v, CategoryOf, t[i].category);
           && t[i].total == |g| >= 1
           && t[i].late == LateCount(g) <= t[i].total
           && IsMean(t[i].meanTime, Values(g, DeliveryTime))
           && IsRate(t[i].rate, t[i].late, t[i].total)
  {
    var v := ValidDeliveries(rows);
    var cs := Keys(v, CategoryOf);
    forall i | 0 <= i < |cs| ensures exists r :: r in v && CategoryOf(r) == Some(cs[i]) {
      assert cs[i] in cs;
    }
    var t := seq(|cs|, i requires 0 <= i < |cs| => CategoryDelayEntry(v, cs[i]));
    assert DelayCategories(t) == cs;
    t
  }

  /**
   * The category totals add up to the valid deliveries that have an English
   * category: grouping loses only the rows with a null category.
   */
  lemma CategoryTotalsAddUp(rows: seq<FactRow>)
    ensures Total(CategoryTotals(DelaysByCategory(rows))) == CountPresent(ValidDeliveries(rows), CategoryOf)
  {
    var v := ValidDeliveries(rows);
    var t := DelaysByCategory(rows);
    var cs := DelayCategories(t);
    assert CategoryTotals(t) == GroupSizes(v, CategoryOf, cs);
    forall x | x in v && CategoryOf(x).Some? ensures CategoryOf(x).value in cs {
    }
    GroupSizesCoverRows(v, CategoryOf, cs);
  }

  /** `top_categorias_atraso`: the ten categories with the highest late rate. */
  function TopLateCategories(rows: seq<FactRow>): (top: seq<CategoryDelays>)
    ensures var t := DelaysByCategory(rows);
      && |top| == (if 10 <= |t| then 10 else |t|)
      && multiset(top) <= multiset(t)
      && Descending(top, CategoryRate)
      && forall x, y :: x in multiset(t) - multiset(top) && y in top ==> x.rate <= y.rate
  {
    Largest(DelaysByCategory(rows), CategoryRate, 10)
  }

  /** `analise_atrasos`: every category, highest late rate first. */
  function LateRanking(rows: seq<FactRow>): (ranked: seq<CategoryDelays>)
    ensures multiset(ranked) == multiset(DelaysByCategory(rows))
    ensures forall i, j :: 0 <= i < j < |ranked| ==> ranked[i].rate >= ranked[j].rate
  {
    var r := SortDescending(DelaysByCategory(rows), CategoryRate);
    RatesDescend(r);
    r
  }

  /** Descending by `CategoryRate` is descending by late rate. */
  lemma RatesDescend(r: seq<CategoryDelays>)
    requires Descending(r, CategoryRate)
    ensures forall i, j :: 0 <= i < j < |r| ==> r[i].rate >= r[j].rate
  {
    forall i, j | 0 <= i < j < |r| ensures r[i].rate >= r[j].rate {
      assert CategoryRate(r[i]) >= CategoryRate(r[j]);
    }
  }

  // ---- per purchase month

  /** One row of `atrasos_por_mes`. */
  datatype MonthDelays = MonthDelays(month: Month, total: nat, late: nat, rate: real)

  /** The month column of `atrasos_por_mes`. */
  function DelayMonths(t: seq<MonthDelays>): (ms: seq<Month>)
    ensures |ms| == |t|
    ensures forall i :: 0 <= i < |t| ==> ms[i] == t[i].month
  {
    seq(|t|, i requires 0 <= i < |t| => t[i].month)
  }

  function MonthTotals(t: seq<MonthDelays>): (ns: seq<nat>)
    ensures |ns| == |t|
    ensures forall i :: 0 <= i < |t| ==> ns[i] == t[i].total
  {
    seq(|t|, i requires 0 <= i < |t| => t[i].total)
  }

  function MonthLates(t: seq<MonthDelays>): (ns: seq<nat>)
    ensures |ns| == |t|
    ensures forall i :: 0 <= i < |t| ==> ns[i] == t[i].late
  {
    seq(|t|, i requires 0 <= i < |t| => t[i].late)
  }

  /** The late statistics of the valid deliveries bought in month `m`. */
  function MonthDelayEntry(v: seq<FactRow>, m: Month): (e: MonthDelays)
    requires exists r :: r in v && PurchaseMonth(r) == Some(m)
    ensures var g := Group(v, PurchaseMonth, m);
      && e.month == m
      && e.total == |g| >= 1
      && e.late == LateCount(g) <= e.total
      && IsRate(e.rate, e.late, e.total)
  {
    var g := Group(v, PurchaseMonth, m);
    var r :| r in v && PurchaseMonth(r) == Some(m);
    assert r in g;
    MonthDelays(m, |g|, LateCount(g), Rate(LateCount(g), |g|))
  }

  /**
   * `atrasos_por_mes`: per purchase month of the valid deliveries, in
   * chronological order, the number of rows, of late ones and the late rate.
   */
  function DelaysByMonth(rows: seq<FactRow>): (t: seq<MonthDelays>)
    ensures var v := ValidDeliveries(rows);
      && Chronological(DelayMonths(t))
      && (forall m :: m in DelayMonths(t) <==> exists r :: r in v && PurchaseMonth(r) == Some(m))
      && forall i :: 0 <= i < |t| ==>
           var g := Group(v, PurchaseMonth, t[i].month);
           && t[i].total == |g| >= 1
           && t[i].late == LateCount(g) <= t[i].total
           && IsRate(t[i].rate, t[i].late, t[i].total)
  {
    var v := ValidDeliveries(rows);
    var ms := SortedMonths(v, PurchaseMonth);
    forall i | 0 <= i < |ms| ensures exists r :: r in v && PurchaseMonth(r) == Some(ms[i]) {
      assert ms[i] in ms;
    }
    var t := seq(|ms|, i requires 0 <= i < |ms| => MonthDelayEntry(v, ms[i]));
    assert DelayMonths(t) == ms;
    t
  }

  /** Every valid delivery has a purchase date, hence a purchase month. */
  lemma ValidRowsHaveMonths(s: seq<FactRow>)
    requires forall r :: r in s ==> HasDeliveryTime(r)
    ensures CountPresent(s, PurchaseMonth) == |s|
  {
    CountPresentAll(s, PurchaseMonth);
  }

  /** The monthly totals add up to all valid deliveries. */
  lemma MonthTotalsAddUp(rows: seq<FactRow>)
    ensures Total(MonthTotals(DelaysByMonth(rows))) == |ValidDeliveries(rows)|
  {
    var v := ValidDeliveries(rows);
    var t := DelaysByMonth(rows);
    var ms := DelayMonths(t);
    ChronologicalDistinct(ms);
    assert MonthTotals(t) == GroupSizes(v, PurchaseMonth, ms);
    forall x | x in v && PurchaseMonth(x).Some? ensures PurchaseMonth(x).value in ms {
    }
    GroupSizesCoverRows(v, PurchaseMonth, ms);
    ValidRowsHaveMonths(v);
  }

  /**
   * The monthly late counts add up to all late deliveries, so the overall
   * late share is the total-weighted mean of the monthly late rates.
   */
  lemma MonthLatesAddUp(rows: seq<FactRow>)
    ensures Total(MonthLates(DelaysByMonth(rows))) == LateCount(ValidDeliveries(rows))
  {
    var v := ValidDeliveries(rows);
    var t := DelaysByMonth(rows);
    var ms := DelayMonths(t);
    var late := Filter(v, IsLate);
    ChronologicalDistinct(ms);
    forall i | 0 <= i < |ms| ensures t[i].late == |Group(late, PurchaseMonth, ms[i])| {
      GroupOfSelection(v, PurchaseMonth, ms[i], IsLate);
    }
    assert MonthLates(t) == GroupSizes(late, PurchaseMonth, ms);
    forall x | x in late && PurchaseMonth(x).Some? ensures PurchaseMonth(x).value in ms {
    }
    GroupSizesCoverRows(late, PurchaseMonth, ms);
    ValidRowsHaveMonths(late);
  }
}
