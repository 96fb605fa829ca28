/**
 * Profitability per category (main.py section 4.a): per English category
 * of `order_full`, the net profit, the number of rows sold, the revenue,
 * the mean profit margin and the mean profit per sale, and the ten
 * categories with the highest mean profit per sale.
 */
module Profit {
  import opened Common
  import opened Records
  import opened Derived
  import opened Sorting

  /** Length of the profitability ranking. */
  const TopCount: nat := 10

  /** One row of `lucro_por_categoria`. */
  datatype CategoryProfit = CategoryProfit(
    category: string,
    profit: real,
    sales: nat,
    revenue: real,
    meanMargin: Option<real>,
    meanProfit: real)

  function PriceOf(r: FactRow): real { r.Price() }

  function FreightOf(r: FactRow): real { r.Freight() }

  /** The non-null profit margins of some rows: the cells `mean` averages. */
  function Margins(rows: seq<FactRow>): (ms: seq<real>)
    ensures forall m :: m in ms <==> exists r :: r in rows && ProfitMargin(r) == Some(m)
  {
    var col := seq(|rows|, i requires 0 <= i < |rows| => ProfitMargin(rows[i]));
    forall r | r in rows ensures ProfitMargin(r) in col {
      var i :| 0 <= i < |rows| && rows[i] == r;
      assert col[i] == ProfitMargin(r);
    }
    Present(col)
  }

  /** Some margin is defined exactly when some row has a non-zero price. */
  lemma MarginsPresent(rows: seq<FactRow>)
    ensures Margins(rows) != [] <==> exists r :: r in rows && r.Price() != 0.0
  {
    var ms := Margins(rows);
    if ms != [] {
      assert ms[0] in ms;
      var r :| r in rows && ProfitMargin(r) == Some(ms[0]);
    }
    if r :| r in rows && r.Price() != 0.0 {
      assert ProfitMargin(r).value in ms;
    }
  }

  /** The profit figures of the rows of category `c`. */
  function ProfitEntry(rows: seq<FactRow>, c: string): (e: CategoryProfit)
    requires exists r :: r in rows && CategoryOf(r) == Some(c)
    ensures var g := Group(rows, CategoryOf, c);
      && e.category == c
      && e.sales == |g| >= 1
      && e.revenue == Sum(Column(g, PriceOf))
      && e.profit == e.revenue - Sum(Column(g, FreightOf))
      && IsMean(e.meanProfit, Column(g, NetProfit))
      && (e.meanMargin.Some? <==> exists r :: r in g && r.Price() != 0.0)
      && (e.meanMargin.Some? ==> IsMean(e.meanMargin.value, Margins(g)))
  {
    var g := Group(rows, CategoryOf, c);
    var r :| r in rows && CategoryOf(r) == Some(c);
    assert r in g;
    var profits := Column(g, NetProfit);
    SumOfDifference(Column(g, PriceOf), Column(g, FreightOf), profits);
    MarginsPresent(g);
    CategoryProfit(c, Sum(profits), |g|, Sum(Column(g, PriceOf)), Mean(Margins(g)), Mean(profits).value)
  }

  /** The category column of a profit table. */
  function ProfitCategories(t: seq<CategoryProfit>): (cs: seq<string>)
    ensures |cs| == |t|
    ensures forall i :: 0 <= i < |t| ==> cs[i] == t[i].category
  {
    seq(|t|, i requires 0 <= i < |t| => t[i].category)
  }

  /** The `vendas` column of a profit table. */
  function SalesColumn(t: seq<CategoryProfit>): (ns: seq<nat>)
    ensures |ns| == |t|
    ensures forall i :: 0 <= i < |t| ==> ns[i] == t[i].sales
  {
    seq(|t|, i requires 0 <= i < |t| => t[i].sales)
  }

  /**
   * `lucro_por_categoria`: one entry per English category, with the net
   * profit being the revenue less the freight, and the mean profit per sale
   * the net profit spread over the category's rows.
   */
  function ProfitByCategory(rows: seq<FactRow>): (t: seq<CategoryProfit>)
    ensures Distinct(ProfitCategories(t))
    ensures forall c :: c in ProfitCategories(t) <==> exists r :: r in rows && CategoryOf(r) == Some(c)
    ensures forall i :: 0 <= i < |t| ==>
              var g := Group(rows, CategoryOf, t[i].category);
              && t[i].sales == |g| >= 1
              && t[i].revenue == Sum(Column(g, PriceOf))
              && t[i].profit == t[i].revenue - Sum(Column(g, FreightOf))
              && IsMean(t[i].meanProfit, Column(g, NetProfit))
              && (t[i].meanMargin.Some? <==> exists r :: r in g && r.Price() != 0.0)
              && (t[i].meanMargin.Some? ==> IsMean(t[i].meanMargin.value, Margins(g)))
  {
    var cs := Keys(rows, CategoryOf);
    forall i | 0 <= i < |cs| ensures exists r :: r in rows && CategoryOf(r) == Some(cs[i]) {
      assert cs[i] in cs;
    }
    var t := seq(|cs|, i requires 0 <= i < |cs| => ProfitEntry(rows, cs[i]));
    assert ProfitCategories(t) == cs;
    t
  }

  /** The mean profit per sale is the net profit divided by the number of sales. */
  lemma MeanProfitIsProfitPerSale(rows: seq<FactRow>)
    ensures forall x :: x in ProfitByCategory(rows) ==> x.meanProfit * x.sales as real == x.profit
  {
    var t := ProfitByCategory(rows);
    forall x | x in t ensures x.meanProfit * x.sales as real == x.profit {
      var i :| 0 <= i < |t| && t[i] == x;
      EntryProfitPerSale(x, Column(Group(rows, CategoryOf, x.category), NetProfit));
    }
  }

  lemma EntryProfitPerSale(x: CategoryProfit, profits: seq<real>)
    requires x.sales == |profits|
    requires IsMean(x.meanProfit, profits)
    requires x.profit == Sum(profits)
    ensures x.meanProfit * x.sales as real == x.profit
  {
  }

  /** The sales counts add up to the rows with an English category. */
  lemma SalesAddUp(rows: seq<FactRow>)
    ensures Total(SalesColumn(ProfitByCategory(rows))) == CountPresent(rows, CategoryOf)
  {
    var t := ProfitByCategory(rows);
    var cs := ProfitCategories(t);
    assert SalesColumn(t) == GroupSizes(rows, CategoryOf, cs);
    forall x | x in rows && CategoryOf(x).Some? ensures CategoryOf(x).value in cs {
    }
    GroupSizesCoverRows(rows, CategoryOf, cs);
  }

  /**
   * When every price is positive and no freight is negative, no category's
   * mean margin exceeds 100%.
   */
  lemma MarginsAtMostAHundred(rows: seq<FactRow>)
    requires forall r :: r in rows ==> r.Price() > 0.0 && r.Freight() >= 0.0
    ensures forall x :: x in ProfitByCategory(rows) && x.meanMargin.Some? ==> x.meanMargin.value <= 100.0
  {
    var t := ProfitByCategory(rows);
    forall x | x in t && x.meanMargin.Some? ensures x.meanMargin.value <= 100.0 {
      var i :| 0 <= i < |t| && t[i] == x;
      var g := Group(rows, CategoryOf, x.category);
      var ms := Margins(g);
      forall k | 0 <= k < |ms| ensures ms[k] <= 100.0 {
        assert ms[k] in ms;
        var r :| r in g && ProfitMargin(r) == Some(ms[k]);
      }
      MeanAtMost(ms, 100.0);
    }
  }

  function MeanProfitKey(x: CategoryProfit): real { x.meanProfit }

  /** `top_lucratividade`: the ten categories with the highest mean profit per sale. */
  function TopProfitable(rows: seq<FactRow>): (top: seq<CategoryProfit>)
    ensures var t := ProfitByCategory(rows);
      && |top| == (if TopCount <= |t| then TopCount else |t|)
      && multiset(top) <= multiset(t)
      && Descending(top, MeanProfitKey)
      && forall x, y :: x in multiset(t) - multiset(top) && y in top ==> x.meanProfit <= y.meanProfit
  {
    Largest(ProfitByCategory(rows), MeanProfitKey, TopCount)
  }
}
