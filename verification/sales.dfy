/**
 * Sales volume (main.py section 1.b): distinct orders per purchase month,
 * per (month, category) and per category, the seasonality statistics of
 * the monthly series and the five categories with most orders. Volume is
 * `nunique` of `order_id`, so the review and payment fan-out of
 * `order_full` does not inflate it.
 */
module Sales {
  import opened Common
  import opened Calendar
  import opened Records
  import opened Join
  import opened FactTable
  import opened Derived
  import opened Sorting

  /** `nunique` of `order_id` over some rows: the number of different order ids among them. */
  function DistinctOrders(rows: seq<FactRow>): (n: nat)
    ensures n == |set r | r in rows :: r.OrderId()|
    ensures n <= |rows|
    ensures rows != [] ==> n >= 1
  {
    ImageSize(rows, RowOrder);
    assert Image(rows, RowOrder) == set r | r in rows :: r.OrderId();
    |Image(rows, RowOrder)|
  }

  /**
   * The count agrees with listing the order ids once each: any list without
   * repetitions holding exactly the order ids of the rows is `n` long.
   */
  lemma DistinctOrdersCountIds(rows: seq<FactRow>, ids: seq<string>)
    requires Distinct(ids)
    requires forall k :: k in ids <==> exists r :: r in rows && r.OrderId() == k
    ensures DistinctOrders(rows) == |ids|
  {
    DistinctSize(ids);
    assert (set k | k in ids) == Image(rows, RowOrder);
  }

  /**
   * Joining reviews and payments fans rows out but brings no new order id
   * and loses none, so the distinct-order count of `order_full` is that of
   * the rows before those joins.
   */
  lemma DistinctOrdersIgnoreFanOut(rows: seq<FactRow>, reviews: seq<Review>, payments: seq<Payment>)
    ensures DistinctOrders(WithPayments(WithReviews(rows, reviews), payments)) == DistinctOrders(rows)
  {
    var mid := WithReviews(rows, reviews);
    JoinWithImage(rows, reviews, RowOrder, ReviewKey, AddReview, RowOrder, RowOrder);
    JoinWithImage(mid, payments, RowOrder, PaymentKey, AddPayment, RowOrder, RowOrder);
  }

  /** The order ids of the rows bought in month `m`. */
  function OrdersInMonth(rows: seq<FactRow>, m: Month): set<string> {
    set r | r in rows && PurchaseMonth(r) == Some(m) :: r.OrderId()
  }

  /** One row of `sales_by_month`: a month and its number of distinct orders. */
  datatype MonthSales = MonthSales(month: Month, orders: nat)

  /**
   * `order_full.groupby("purchase_month").agg({"order_id": "nunique"})`:
   * the months that occur, in chronological order, each with the number of
   * distinct orders bought in it. Rows with no purchase date drop out.
   */
  function MonthlySales(rows: seq<FactRow>): (sales: seq<MonthSales>)
    ensures Chronological(Months(sales))
    ensures forall m :: m in Months(sales) <==> exists r :: r in rows && PurchaseMonth(r) == Some(m)
    ensures forall i :: 0 <= i < |sales| ==>
              sales[i].orders == |OrdersInMonth(rows, sales[i].month)|
              && 1 <= sales[i].orders <= |Group(rows, PurchaseMonth, sales[i].month)|
  {
    var ms := SortedMonths(rows, PurchaseMonth);
    var sales := seq(|ms|, i requires 0 <= i < |ms| => MonthEntry(rows, ms[i]));
    assert Months(sales) == ms;
    forall i | 0 <= i < |sales|
      ensures 1 <= sales[i].orders
    {
      assert ms[i] in ms;
    }
    sales
  }

  /** The `sales_by_month` entry of month `m`. */
  function MonthEntry(rows: seq<FactRow>, m: Month): (s: MonthSales)
    ensures s.month == m
    ensures s.orders == |OrdersInMonth(rows, m)|
    ensures s.orders <= |Group(rows, PurchaseMonth, m)|
    ensures (exists r :: r in rows && PurchaseMonth(r) == Some(m)) ==> s.orders >= 1
  {
    var g := Group(rows, PurchaseMonth, m);
    assert Image(g, RowOrder) == OrdersInMonth(rows, m);
    assert forall r :: r in rows && PurchaseMonth(r) == Some(m) ==> r in g;
    MonthSales(m, DistinctOrders(g))
  }

  /** The month column of a monthly series. */
  function Months(sales: seq<MonthSales>): (ms: seq<Month>)
    ensures |ms| == |sales|
    ensures forall i :: 0 <= i < |sales| ==> ms[i] == sales[i].month
  {
    seq(|sales|, i requires 0 <= i < |sales| => sales[i].month)
  }

  /** The order-count column of a monthly series, as numbers. */
  function Counts(sales: seq<MonthSales>): (xs: seq<real>)
    ensures |xs| == |sales|
    ensures forall i :: 0 <= i < |sales| ==> xs[i] == sales[i].orders as real
  {
    seq(|sales|, i requires 0 <= i < |sales| => sales[i].orders as real)
  }

  /**
   * The monthly counts are blind to the review and payment joins: running
   * them on the rows before those joins gives the same series. Counting
   * rows instead of distinct orders would not have this property, since an
   * order with two reviews or two payments appears on several rows.
   */
  lemma MonthlySalesIgnoreFanOut(rows: seq<FactRow>, reviews: seq<Review>, payments: seq<Payment>)
    ensures MonthlySales(WithPayments(WithReviews(rows, reviews), payments)) == MonthlySales(rows)
  {
    FanOutAddsNoNewRows(rows, reviews, payments);
    SameBaseRowsSameSales(rows, WithPayments(WithReviews(rows, reviews), payments));
  }

  /** The monthly series depends only on the rows up to their review and payment columns. */
  lemma SameBaseRowsSameSales(rows: seq<FactRow>, out: seq<FactRow>)
    requires BaseRows(out) == BaseRows(rows)
    ensures MonthlySales(out) == MonthlySales(rows)
  {
    forall m ensures (exists r :: r in out && PurchaseMonth(r) == Some(m))
                     <==> (exists r :: r in rows && PurchaseMonth(r) == Some(m))
    {
      if r :| r in out && PurchaseMonth(r) == Some(m) {
        CarriedRow(out, rows, r);
      }
      if r :| r in rows && PurchaseMonth(r) == Some(m) {
        CarriedRow(rows, out, r);
      }
    }
    var a := MonthlySales(out);
    var b := MonthlySales(rows);
    ChronologicalUnique(Months(a), Months(b));
    forall i | 0 <= i < |a| ensures a[i] == b[i] {
      assert Months(a)[i] == Months(b)[i];
      SameOrdersInMonth(rows, out, a[i].month);
    }
  }

  /** Two tables with the same rows up to their review and payment columns have the same orders in every month. */
  lemma SameOrdersInMonth(rows: seq<FactRow>, out: seq<FactRow>, m: Month)
    requires BaseRows(out) == BaseRows(rows)
    ensures OrdersInMonth(out, m) == OrdersInMonth(rows, m)
  {
    forall id | id in OrdersInMonth(out, m) ensures id in OrdersInMonth(rows, m) {
      var r :| r in out && PurchaseMonth(r) == Some(m) && r.OrderId() == id;
      CarriedRow(out, rows, r);
    }
    forall id | id in OrdersInMonth(rows, m) ensures id in OrdersInMonth(out, m) {
      var r :| r in rows && PurchaseMonth(r) == Some(m) && r.OrderId() == id;
      CarriedRow(rows, out, r);
    }
  }

  /** A row of one table has a counterpart with the same order and purchase month in the other. */
  lemma CarriedRow(src: seq<FactRow>, dst: seq<FactRow>, r: FactRow)
    requires BaseRows(src) == BaseRows(dst) && r in src
    ensures exists r' :: r' in dst && PurchaseMonth(r') == PurchaseMonth(r) && r'.OrderId() == r.OrderId()
  {
    assert WithoutFanOut(r) in BaseRows(dst);
    var r' :| r' in dst && WithoutFanOut(r') == WithoutFanOut(r);
    assert PurchaseMonth(r') == PurchaseMonth(r);
  }

  /** Applied to the whole join chain: `sales_by_month` is already determined by `order_items_orders`. */
  lemma MonthlySalesOfFactTable(products: seq<Product>, translations: seq<Translation>, items: seq<OrderItem>,
                                orders: seq<Order>, reviews: seq<Review>, payments: seq<Payment>)
    ensures MonthlySales(BuildFactTable(products, translations, items, orders, reviews, payments))
            == MonthlySales(ItemsWithOrders(products, translations, items, orders))
  {
    MonthlySalesIgnoreFanOut(ItemsWithOrders(products, translations, items, orders), reviews, payments);
  }

  // ---- seasonality statistics of the monthly series

  /** `pedidos_medio`, `pedidos_max`, `pedidos_min`, `mes_maior_venda`, `mes_menor_venda`. */
  datatype Seasonality = Seasonality(mean: real, max: nat, min: nat, peak: Month, valley: Month)

  function OrdersKey(s: MonthSales): real { s.orders as real }

  /** Entry `i` holds the largest count and no earlier entry reaches it (what `idxmax` picks). */
  predicate FirstMax(sales: seq<MonthSales>, i: int) {
    0 <= i < |sales|
    && (forall j :: 0 <= j < |sales| ==> sales[j].orders <= sales[i].orders)
    && (forall j :: 0 <= j < i ==> sales[j].orders < sales[i].orders)
  }

  /** Entry `i` holds the smallest count and no earlier entry reaches it (what `idxmin` picks). */
  predicate FirstMin(sales: seq<MonthSales>, i: int) {
    0 <= i < |sales|
    && (forall j :: 0 <= j < |sales| ==> sales[i].orders <= sales[j].orders)
    && (forall j :: 0 <= j < i ==> sales[i].orders < sales[j].orders)
  }

  /**
   * The seasonality figures of a monthly series. On an empty series pandas'
   * `idxmax` raises, which is `None` here. The peak (valley) is the first
   * month reaching the maximum (minimum), as `idxmax` (`idxmin`) returns the
   * first such label.
   */
  function SeasonalityOf(sales: seq<MonthSales>): (st: Option<Seasonality>)
    ensures st.Some? <==> |sales| > 0
    ensures st.Some? ==> exists i :: 0 <= i < |sales| && FirstMax(sales, i) && sales[i].orders == st.value.max && sales[i].month == st.value.peak
    ensures st.Some? ==> exists i :: 0 <= i < |sales| && FirstMin(sales, i) && sales[i].orders == st.value.min && sales[i].month == st.value.valley
    ensures st.Some? ==> st.value.min as real <= st.value.mean <= st.value.max as real
    ensures st.Some? ==> Some(st.value.mean) == Mean(Counts(sales))
  {
    if sales == [] then None
    else
      var hi := Peak(sales);
      var lo := Valley(sales);
      var mean := MeanOrders(sales, sales[lo].orders, sales[hi].orders);
      var st := Seasonality(mean, sales[hi].orders, sales[lo].orders, sales[hi].month, sales[lo].month);
      assert FirstMax(sales, hi) && sales[hi].orders == st.max && sales[hi].month == st.peak;
      assert FirstMin(sales, lo) && sales[lo].orders == st.min && sales[lo].month == st.valley;
      Some(st)
  }

  /** `Pedidos.idxmax()`. */
  function Peak(sales: seq<MonthSales>): (i: nat)
    requires |sales| > 0
    ensures FirstMax(sales, i)
  {
    ArgMax(sales, OrdersKey)
  }

  /** `Pedidos.idxmin()`. */
  function Valley(sales: seq<MonthSales>): (i: nat)
    requires |sales| > 0
    ensures FirstMin(sales, i)
  {
    ArgMin(sales, OrdersKey)
  }

  /** `Pedidos.mean()`, between any bounds of the counts. */
  function MeanOrders(sales: seq<MonthSales>, lo: nat, hi: nat): (mean: real)
    requires |sales| > 0
    requires forall i :: 0 <= i < |sales| ==> lo <= sales[i].orders <= hi
    ensures lo as real <= mean <= hi as real
    ensures Some(mean) == Mean(Counts(sales))
  {
    var xs := Counts(sales);
    MeanWithin(xs, lo as real, hi as real);
    Mean(xs).value
  }

  // ---- by category

  /** A category (or a month and category) with its number of distinct orders. */
  datatype CategorySales = CategorySales(category: string, orders: nat)

  /** The order ids of the rows of category `c`. */
  function OrdersInCategory(rows: seq<FactRow>, c: string): set<string> {
    set r | r in rows && r.English() == Some(c) :: r.OrderId()
  }

  /**
   * `order_full.groupby("product_category_name_english").agg({"order_id": "nunique"})`:
   * one entry per category that occurs, with its distinct orders. Rows
   * without an English category drop out.
   */
  function CategoryTotals(rows: seq<FactRow>): (totals: seq<CategorySales>)
    ensures forall c :: (exists i :: 0 <= i < |totals| && totals[i].category == c)
                        <==> exists r :: r in rows && r.English() == Some(c)
    ensures forall i, j :: 0 <= i < j < |totals| ==> totals[i].category != totals[j].category
    ensures forall i :: 0 <= i < |totals| ==>
              totals[i].orders == |OrdersInCategory(rows, totals[i].category)|
              && 1 <= totals[i].orders <= |Group(rows, CategoryOf, totals[i].category)|
  {
    var cs := Keys(rows, CategoryOf);
    var totals := seq(|cs|, i requires 0 <= i < |cs| => CategoryEntry(rows, cs[i]));
    CategoryTotalsFacts(rows, totals);
    totals
  }

  /** The facts `CategoryTotals` promises, for a table holding the entry of each category key in turn. */
  lemma CategoryTotalsFacts(rows: seq<FactRow>, totals: seq<CategorySales>)
    requires |totals| == |Keys(rows, CategoryOf)|
    requires forall i :: 0 <= i < |totals| ==> totals[i] == CategoryEntry(rows, Keys(rows, CategoryOf)[i])
    ensures forall c :: (exists i :: 0 <= i < |totals| && totals[i].category == c)
                        <==> exists r :: r in rows && r.English() == Some(c)
    ensures forall i, j :: 0 <= i < j < |totals| ==> totals[i].category != totals[j].category
    ensures forall i :: 0 <= i < |totals| ==>
              totals[i].orders == |OrdersInCategory(rows, totals[i].category)|
              && 1 <= totals[i].orders <= |Group(rows, CategoryOf, totals[i].category)|
  {
    var cs := Keys(rows, CategoryOf);
    forall c ensures (exists i :: 0 <= i < |totals| && totals[i].category == c)
                     <==> exists r :: r in rows && r.English() == Some(c)
    {
      CategoryCoverage(rows, totals, c);
    }
    forall i | 0 <= i < |totals| ensures 1 <= totals[i].orders {
      assert cs[i] in cs;
    }
  }

  /** A table built key by key from the categories has an entry for exactly the categories that occur. */
  lemma CategoryCoverage(rows: seq<FactRow>, totals: seq<CategorySales>, c: string)
    requires |totals| == |Keys(rows, CategoryOf)|
    requires forall i :: 0 <= i < |totals| ==> totals[i].category == Keys(rows, CategoryOf)[i]
    ensures (exists i :: 0 <= i < |totals| && totals[i].category == c)
            <==> exists r :: r in rows && r.English() == Some(c)
  {
    var cs := Keys(rows, CategoryOf);
    if r :| r in rows && r.English() == Some(c) {
      assert CategoryOf(r) == Some(c);
      var i :| 0 <= i < |cs| && cs[i] == c;
      assert totals[i].category == c;
    }
    if i :| 0 <= i < |totals| && totals[i].category == c {
      assert cs[i] in cs;
      var r :| r in rows && CategoryOf(r) == Some(c);
    }
  }

  /** The `top_categorias` entry of category `c`, with at least one order when the category occurs. */
  function CategoryEntry(rows: seq<FactRow>, c: string): (s: CategorySales)
    ensures s.category == c
    ensures s.orders == |OrdersInCategory(rows, c)|
    ensures s.orders <= |Group(rows, CategoryOf, c)|
    ensures (exists r :: r in rows && CategoryOf(r) == Some(c)) ==> s.orders >= 1
  {
    var g := Group(rows, CategoryOf, c);
    assert Image(g, RowOrder) == OrdersInCategory(rows, c);
    assert forall r :: r in rows && CategoryOf(r) == Some(c) ==> r in g;
    CategorySales(c, DistinctOrders(g))
  }

  function SalesKey(c: CategorySales): real { c.orders as real }

  /** The category column of a table of category counts. */
  function Categories(s: seq<CategorySales>): (cs: seq<string>)
    ensures |cs| == |s|
    ensures forall i :: 0 <= i < |s| ==> cs[i] == s[i].category
  {
    seq(|s|, i requires 0 <= i < |s| => s[i].category)
  }

  /**
   * `top_categorias`: the five categories with most distinct orders, most
   * first (`nlargest(5, "order_id")`). Every category left out has at most
   * as many orders as every category kept; fewer than five categories are
   * all kept.
   */
  function TopCategories(rows: seq<FactRow>): (top: seq<CategorySales>)
    ensures |top| == if 5 <= |CategoryTotals(rows)| then 5 else |CategoryTotals(rows)|
    ensures multiset(top) <= multiset(CategoryTotals(rows))
    ensures Descending(top, SalesKey)
    ensures forall x, y :: x in multiset(CategoryTotals(rows)) - multiset(top) && y in top ==> x.orders <= y.orders
  {
    Largest(CategoryTotals(rows), SalesKey, 5)
  }

  /** A (month, category) group key; null when either part is null. */
  function MonthCategory(r: FactRow): Option<(Month, string)> {
    match (PurchaseMonth(r), r.English())
    case (Some(m), Some(c)) => Some((m, c))
    case _ => None
  }

  /** One row of `vendas_categoria_mes`. */
  datatype MonthCategorySales = MonthCategorySales(month: Month, category: string, orders: nat)

  /** The order ids of the rows of month `m` and category `c`. */
  function OrdersInMonthCategory(rows: seq<FactRow>, m: Month, c: string): set<string> {
    set r | r in rows && PurchaseMonth(r) == Some(m) && r.English() == Some(c) :: r.OrderId()
  }

  /** Some row was bought in month `m` in category `c`. */
  predicate SoldIn(rows: seq<FactRow>, m: Month, c: string) {
    exists r :: r in rows && PurchaseMonth(r) == Some(m) && r.English() == Some(c)
  }

  /** Some entry of `sales` is the one of month `m` and category `c`. */
  predicate HasPair(sales: seq<MonthCategorySales>, m: Month, c: string) {
    exists i :: 0 <= i < |sales| && sales[i].month == m && sales[i].category == c
  }

  /**
   * `order_full.groupby(["purchase_month", "product_category_name_english"])
   * .agg({"order_id": "nunique"})`: one entry per (month, category) pair that
   * occurs, with its distinct orders; a row missing either key drops out.
   */
  function CategoryMonthSales(rows: seq<FactRow>): (sales: seq<MonthCategorySales>)
    ensures forall m, c :: HasPair(sales, m, c) <==> SoldIn(rows, m, c)
    ensures forall i, j :: 0 <= i < j < |sales| ==> (sales[i].month, sales[i].category) != (sales[j].month, sales[j].category)
    ensures forall i :: 0 <= i < |sales| ==>
              sales[i].orders == |OrdersInMonthCategory(rows, sales[i].month, sales[i].category)|
              && 1 <= sales[i].orders <= |Group(rows, MonthCategory, (sales[i].month, sales[i].category))|
  {
    var sales := MonthCategoryEntries(rows, Keys(rows, MonthCategory));
    CategoryMonthFacts(rows, sales);
    sales
  }

  /** The facts `CategoryMonthSales` promises, for a table holding the entry of each key in turn. */
  lemma CategoryMonthFacts(rows: seq<FactRow>, sales: seq<MonthCategorySales>)
    requires |sales| == |Keys(rows, MonthCategory)|
    requires forall i :: 0 <= i < |sales| ==>
               sales[i] == MonthCategoryEntry(rows, Keys(rows, MonthCategory)[i].0, Keys(rows, MonthCategory)[i].1)
    ensures forall m, c :: HasPair(sales, m, c) <==> SoldIn(rows, m, c)
    ensures forall i, j :: 0 <= i < j < |sales| ==> (sales[i].month, sales[i].category) != (sales[j].month, sales[j].category)
    ensures forall i :: 0 <= i < |sales| ==>
              sales[i].orders == |OrdersInMonthCategory(rows, sales[i].month, sales[i].category)|
              && 1 <= sales[i].orders <= |Group(rows, MonthCategory, (sales[i].month, sales[i].category))|
  {
    var ks := Keys(rows, MonthCategory);
    assert forall i :: 0 <= i < |sales| ==> sales[i].month == ks[i].0 && sales[i].category == ks[i].1;
    CategoryMonthCoverage(rows, ks, sales);
    CategoryMonthDistinct(ks, sales);
    forall i | 0 <= i < |sales|
      ensures sales[i].orders == |OrdersInMonthCategory(rows, sales[i].month, sales[i].category)|
      ensures 1 <= sales[i].orders <= |Group(rows, MonthCategory, (sales[i].month, sales[i].category))|
    {
      KeyEntryFacts(rows, ks[i], sales[i]);
    }
  }

  /** A table built key by key from the (month, category) keys covers exactly the pairs that occur. */
  lemma CategoryMonthCoverage(rows: seq<FactRow>, ks: seq<(Month, string)>, sales: seq<MonthCategorySales>)
    requires ks == Keys(rows, MonthCategory)
    requires |sales| == |ks|
    requires forall i :: 0 <= i < |ks| ==> sales[i].month == ks[i].0 && sales[i].category == ks[i].1
    ensures forall m, c :: HasPair(sales, m, c) <==> SoldIn(rows, m, c)
  {
    forall m, c ensures HasPair(sales, m, c) <==> SoldIn(rows, m, c) {
      PairCoverage(rows, ks, sales, m, c);
    }
  }

  /** The coverage of `CategoryMonthCoverage` for one (month, category) pair. */
  lemma PairCoverage(rows: seq<FactRow>, ks: seq<(Month, string)>, sales: seq<MonthCategorySales>, m: Month, c: string)
    requires ks == Keys(rows, MonthCategory)
    requires |sales| == |ks|
    requires forall i :: 0 <= i < |ks| ==> sales[i].month == ks[i].0 && sales[i].category == ks[i].1
    ensures HasPair(sales, m, c) <==> SoldIn(rows, m, c)
  {
    MonthCategoryKey(rows, m, c);
    EntryForKey(ks, sales, m, c);
  }

  /** Distinct keys give entries with distinct (month, category) pairs. */
  lemma CategoryMonthDistinct(ks: seq<(Month, string)>, sales: seq<MonthCategorySales>)
    requires Distinct(ks)
    requires |sales| == |ks|
    requires forall i :: 0 <= i < |ks| ==> sales[i].month == ks[i].0 && sales[i].category == ks[i].1
    ensures forall i, j :: 0 <= i < j < |sales| ==> (sales[i].month, sales[i].category) != (sales[j].month, sales[j].category)
  {
    forall i, j | 0 <= i < j < |sales|
      ensures (sales[i].month, sales[i].category) != (sales[j].month, sales[j].category)
    {
      assert ks[i] != ks[j];
    }
  }

  /** The entry of a key that occurs counts at least one order. */
  lemma KeyEntryFacts(rows: seq<FactRow>, k: (Month, string), s: MonthCategorySales)
    requires k in Keys(rows, MonthCategory)
    requires s == MonthCategoryEntry(rows, k.0, k.1)
    ensures s.orders == |OrdersInMonthCategory(rows, s.month, s.category)|
    ensures 1 <= s.orders <= |Group(rows, MonthCategory, (s.month, s.category))|
  {
    MonthCategoryKey(rows, k.0, k.1);
  }

  /** An entry list built key by key has an entry for a pair exactly when the pair is a key. */
  lemma EntryForKey(ks: seq<(Month, string)>, sales: seq<MonthCategorySales>, m: Month, c: string)
    requires |sales| == |ks|
    requires forall i :: 0 <= i < |ks| ==> sales[i].month == ks[i].0 && sales[i].category == ks[i].1
    ensures (exists i :: 0 <= i < |sales| && sales[i].month == m && sales[i].category == c) <==> (m, c) in ks
  {
    if (m, c) in ks {
      var i :| 0 <= i < |ks| && ks[i] == (m, c);
      assert sales[i].month == m && sales[i].category == c;
    }
    if i :| 0 <= i < |sales| && sales[i].month == m && sales[i].category == c {
      assert ks[i] == (m, c);
    }
  }

  /** The entries of the given (month, category) keys, in key order. */
  function MonthCategoryEntries(rows: seq<FactRow>, ks: seq<(Month, string)>): (sales: seq<MonthCategorySales>)
    ensures |sales| == |ks|
    ensures forall i :: 0 <= i < |ks| ==> sales[i] == MonthCategoryEntry(rows, ks[i].0, ks[i].1)
  {
    seq(|ks|, i requires 0 <= i < |ks| => MonthCategoryEntry(rows, ks[i].0, ks[i].1))
  }

  /** A (month, category) key occurs exactly when some row has that month and category. */
  lemma MonthCategoryKey(rows: seq<FactRow>, m: Month, c: string)
    ensures (m, c) in Keys(rows, MonthCategory)
            <==> exists r :: r in rows && PurchaseMonth(r) == Some(m) && r.English() == Some(c)
  {
    forall r ensures MonthCategory(r) == Some((m, c)) <==> PurchaseMonth(r) == Some(m) && r.English() == Some(c) {
    }
  }

  /** The `vendas_categoria_mes` entry of month `m` and category `c`. */
  function MonthCategoryEntry(rows: seq<FactRow>, m: Month, c: string): (s: MonthCategorySales)
    ensures s.month == m && s.category == c
    ensures s.orders == |OrdersInMonthCategory(rows, m, c)|
    ensures s.orders <= |Group(rows, MonthCategory, (m, c))|
    ensures (exists r :: r in rows && PurchaseMonth(r) == Some(m) && r.English() == Some(c)) ==> s.orders >= 1
  {
    var g := Group(rows, MonthCategory, (m, c));
    assert forall r :: r in g <==> r in rows && PurchaseMonth(r) == Some(m) && r.English() == Some(c);
    assert Image(g, RowOrder) == OrdersInMonthCategory(rows, m, c);
    assert forall r :: r in rows && PurchaseMonth(r) == Some(m) && r.English() == Some(c) ==> r in g;
    MonthCategorySales(m, c, DistinctOrders(g))
  }
}
