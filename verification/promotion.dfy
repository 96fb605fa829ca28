/**
 * Promotion candidates (main.py section 5.b, second part): the mean price
 * and the sales of every (purchase month, category) pair, the category with
 * most sales, its monthly prices next to the new customers of each month,
 * and the months whose mean price lies strictly below the lower quartile
 * of those prices.
 */
module Promotion {
  import opened Common
  import opened Calendar
  import opened Records
  import opened Join
  import opened Derived
  import opened Sorting
  import opened Sales
  import opened Customers

  // ---- monthly prices

  /** One row of `preco_mensal`. */
  datatype MonthlyPrice = MonthlyPrice(month: Month, category: string, meanPrice: real, sales: nat)

  function PriceOf(r: FactRow): real { r.Price() }

  /** The price figures of the rows of month `k.0` and category `k.1`. */
  function PriceEntry(rows: seq<FactRow>, k: (Month, string)): (e: MonthlyPrice)
    requires exists r :: r in rows && MonthCategory(r) == Some(k)
    ensures var g := Group(rows, MonthCategory, k);
      && e.month == k.0 && e.category == k.1
      && e.sales == |g| >= 1
      && IsMean(e.meanPrice, Column(g, PriceOf))
  {
    var g := Group(rows, MonthCategory, k);
    var r :| r in rows && MonthCategory(r) == Some(k);
    assert r in g;
    MonthlyPrice(k.0, k.1, Mean(Column(g, PriceOf)).value, |g|)
  }

  function PriceKey(x: MonthlyPrice): (Month, string) { (x.month, x.category) }

  /** The (month, category) column of a price table. */
  function PriceKeys(t: seq<MonthlyPrice>): (ks: seq<(Month, string)>)
    ensures |ks| == |t|
    ensures forall i :: 0 <= i < |t| ==> ks[i] == PriceKey(t[i])
  {
    seq(|t|, i requires 0 <= i < |t| => PriceKey(t[i]))
  }

  /**
   * `preco_mensal`: per (purchase month, English category) pair that occurs,
   * the mean price and the number of rows. A row missing either key drops out.
   */
  function MonthlyPrices(rows: seq<FactRow>): (t: seq<MonthlyPrice>)
    ensures Distinct(PriceKeys(t))
    ensures forall k :: k in PriceKeys(t) <==> exists r :: r in rows && MonthCategory(r) == Some(k)
    ensures forall i :: 0 <= i < |t| ==>
              var g := Group(rows, MonthCategory, PriceKey(t[i]));
              && t[i].sales == |g| >= 1
              && IsMean(t[i].meanPrice, Column(g, PriceOf))
  {
    var ks := Keys(rows, MonthCategory);
    forall i | 0 <= i < |ks| ensures exists r :: r in rows && MonthCategory(r) == Some(ks[i]) {
      assert ks[i] in ks;
    }
    var t := seq(|ks|, i requires 0 <= i < |ks| => PriceEntry(rows, ks[i]));
    forall i | 0 <= i < |t|
      ensures var g := Group(rows, MonthCategory, PriceKey(t[i]));
              t[i].sales == |g| >= 1 && IsMean(t[i].meanPrice, Column(g, PriceOf))
    {
      assert t[i] == PriceEntry(rows, ks[i]) && PriceKey(t[i]) == ks[i];
    }
    assert PriceKeys(t) == ks;
    t
  }

  /** A (month, category) pair has a price entry exactly when some row was bought in that month in that category. */
  lemma PriceKeysByMonthAndCategory(rows: seq<FactRow>, m: Month, c: string)
    ensures (m, c) in PriceKeys(MonthlyPrices(rows))
            <==> exists r :: r in rows && PurchaseMonth(r) == Some(m) && r.English() == Some(c)
  {
    MonthCategoryKey(rows, m, c);
  }

  // ---- the highlighted category

  function InCategory(c: string): MonthlyPrice -> bool {
    (x: MonthlyPrice) => x.category == c
  }

  function SalesColumn(t: seq<MonthlyPrice>): (ns: seq<nat>)
    ensures |ns| == |t|
    ensures forall i :: 0 <= i < |t| ==> ns[i] == t[i].sales
  {
    seq(|t|, i requires 0 <= i < |t| => t[i].sales)
  }

  /** `preco_mensal.groupby("product_category_name_english")["vendas"].sum()` for category `c`. */
  function CategorySales(t: seq<MonthlyPrice>, c: string): nat {
    Total(SalesColumn(Filter(t, InCategory(c))))
  }

  function CategoryName(x: MonthlyPrice): Option<string> { Some(x.category) }

  function SalesRank(t: seq<MonthlyPrice>): string -> real {
    c => CategorySales(t, c) as real
  }

  /**
   * `categoria_destaque`: a category with the largest summed sales. The
   * code takes the first index of a descending sort, which fails on an
   * empty table; that is `None` here.
   */
  function Highlight(t: seq<MonthlyPrice>): (h: Option<string>)
    ensures h.Some? <==> t != []
    ensures h.Some? ==> exists i :: 0 <= i < |t| && t[i].category == h.value
    ensures h.Some? ==> forall i :: 0 <= i < |t| ==> CategorySales(t, t[i].category) <= CategorySales(t, h.value)
  {
    if t == [] then None
    else
      var cs := Keys(t, CategoryName);
      assert t[0].category in cs by {
        assert CategoryName(t[0]) == Some(t[0].category);
      }
      var i := ArgMax(cs, SalesRank(t));
      assert cs[i] in cs;
      RankedFirst(t, cs, i);
      Some(cs[i])
  }

  /** The category ranked first by summed sales beats every category of the table. */
  lemma RankedFirst(t: seq<MonthlyPrice>, cs: seq<string>, i: nat)
    requires cs == Keys(t, CategoryName) && i < |cs|
    requires forall k :: 0 <= k < |cs| ==> SalesRank(t)(cs[k]) <= SalesRank(t)(cs[i])
    ensures forall j :: 0 <= j < |t| ==> CategorySales(t, t[j].category) <= CategorySales(t, cs[i])
  {
    forall j | 0 <= j < |t| ensures CategorySales(t, t[j].category) <= CategorySales(t, cs[i]) {
      var c := t[j].category;
      assert t[j] in t && CategoryName(t[j]) == Some(c);
      assert c in cs;
      var k :| 0 <= k < |cs| && cs[k] == c;
      assert SalesRank(t)(c) <= SalesRank(t)(cs[i]);
    }
  }

  // ---- the marketing table

  /** One row of `dados_marketing` before flagging: a month's price figures and its new customers. */
  datatype MarketingRow = MarketingRow(price: MonthlyPrice, newCustomers: Option<nat>)

  function PriceMonth(x: MonthlyPrice): Month { x.month }

  function CustomersMonth(x: MonthCustomers): Month { x.month }

  function AddNewCustomers(x: MonthlyPrice, n: Option<MonthCustomers>): MarketingRow {
    MarketingRow(x, if n.Some? then Some(n.value.customers) else None)
  }

  function PriceRow(x: MarketingRow): MonthlyPrice { x.price }

  function SamePrice(x: MonthlyPrice): MonthlyPrice { x }

  /**
   * `preco_categoria.merge(novos_clientes_por_mes, on="purchase_month", how="left")`.
   * Both sides render months as "YYYY-MM", so comparing the strings is
   * comparing the months.
   */
  function WithNewCustomers(prices: seq<MonthlyPrice>, newcomers: seq<MonthCustomers>): (out: seq<MarketingRow>)
    ensures |out| >= |prices|
    ensures Image(out, PriceRow) == Image(prices, SamePrice)
    ensures forall x :: x in out ==>
              (x.newCustomers.Some? <==> exists n :: n in newcomers && n.month == x.price.month)
    ensures forall x :: x in out && x.newCustomers.Some? ==>
              exists n :: n in newcomers && n.month == x.price.month && n.customers == x.newCustomers.value
  {
    JoinWithImage(prices, newcomers, PriceMonth, CustomersMonth, AddNewCustomers, PriceRow, SamePrice);
    MergedRowsCombine(prices, newcomers, PriceMonth, CustomersMonth, AddNewCustomers);
    var out := JoinWith(prices, newcomers, PriceMonth, CustomersMonth, AddNewCustomers);
    forall x | x in out
      ensures x.newCustomers.Some? <==> exists n :: n in newcomers && n.month == x.price.month
      ensures x.newCustomers.Some? ==>
                exists n :: n in newcomers && n.month == x.price.month && n.customers == x.newCustomers.value
    {
      var y, m :| y in prices && Admissible(y, m, newcomers, PriceMonth, CustomersMonth) && x == AddNewCustomers(y, m);
    }
    out
  }

  /**
   * The new-customer table has one row per month, so the merge keeps one
   * row per price row.
   */
  lemma MergeKeepsMonths(prices: seq<MonthlyPrice>, firsts: seq<CustomerOrder>)
    ensures |WithNewCustomers(prices, NewCustomersByMonth(firsts))| == |prices|
  {
    MergeKeepsMonthsInPlace(prices, firsts);
  }

  /** The new-customer merge leaves every price row in its place. */
  lemma MergeKeepsMonthsInPlace(prices: seq<MonthlyPrice>, firsts: seq<CustomerOrder>)
    ensures |WithNewCustomers(prices, NewCustomersByMonth(firsts))| == |prices| &&
            forall i :: 0 <= i < |prices| ==> WithNewCustomers(prices, NewCustomersByMonth(firsts))[i].price == prices[i]
  {
    var newcomers := NewCustomersByMonth(firsts);
    var ms := CustomerMonths(newcomers);
    ChronologicalDistinct(ms);
    forall i, j | 0 <= i < |newcomers| && 0 <= j < |newcomers| && CustomersMonth(newcomers[i]) == CustomersMonth(newcomers[j])
      ensures i == j
    {
      assert ms[i] == ms[j];
    }
    UniqueKeyJoinInPlace(prices, newcomers, PriceMonth, CustomersMonth);
    var out := WithNewCustomers(prices, newcomers);
    var pairs := LeftJoin(prices, newcomers, PriceMonth, CustomersMonth);
    forall i | 0 <= i < |prices| ensures out[i].price == prices[i] {
      assert out[i] == AddNewCustomers(pairs[i].0, pairs[i].1);
    }
  }

  // ---- the lower quartile

  function Self(x: real): real { x }

  /** Exactly one of every four, rounded down: `(n - 1) * 0.25` splits into this and a fraction. */
  function QuartileIndex(n: nat): (lo: nat)
    requires n > 0
    ensures lo < n
    ensures 4 * lo <= n - 1 < 4 * lo + 4
  {
    (n - 1) / 4
  }

  /** A point on the segment from `a` to `b`. */
  lemma Interpolate(a: real, b: real, f: real)
    requires a <= b && 0.0 <= f <= 1.0
    ensures a <= a + f * (b - a) <= b
  {
    assert f * (b - a) <= 1.0 * (b - a);
  }

  /** The position `(n - 1) * 0.25` splits into `QuartileIndex(n)`, its floor, and `QuartileFraction(n)`. */
  lemma QuartilePosition(n: nat)
    requires n > 0
    ensures QuartileIndex(n) == ((n - 1) as real * 0.25).Floor
    ensures QuartileIndex(n) as real + QuartileFraction(n) == (n - 1) as real * 0.25
  {
    var lo := QuartileIndex(n);
    var h := (n - 1) as real * 0.25;
    assert 4 * lo <= n - 1 < 4 * lo + 4;
    assert lo as real <= h < lo as real + 1.0;
  }

  /** `s` holds the values of `xs` in ascending order. */
  predicate SortedOf(s: seq<real>, xs: seq<real>) {
    |s| == |xs| && multiset(s) == multiset(xs) && Ascending(s, Self)
  }

  /** A multiset has one ascending arrangement. */
  lemma {:induction false} SortedUnique(a: seq<real>, b: seq<real>)
    requires multiset(a) == multiset(b) && Ascending(a, Self) && Ascending(b, Self)
    ensures a == b
    decreases |a|
  {
    if a == [] {
      assert |multiset(b)| == |b|;
    } else {
      SameLeast(a, b);
      SameTails(a, b);
      AscendingTail(a);
      AscendingTail(b);
      SortedUnique(a[1..], b[1..]);
      assert a == [a[0]] + a[1..] && b == [b[0]] + b[1..];
    }
  }

  /** Two ascending arrangements of one multiset start with the same, least, value. */
  lemma SameLeast(a: seq<real>, b: seq<real>)
    requires multiset(a) == multiset(b) && Ascending(a, Self) && Ascending(b, Self)
    requires a != []
    ensures b != [] && a[0] == b[0]
  {
    assert a[0] in multiset(b);
    var j :| 0 <= j < |b| && b[j] == a[0];
    assert b[0] in multiset(a);
    var k :| 0 <= k < |a| && a[k] == b[0];
    assert Self(b[0]) <= Self(b[j]) && Self(a[0]) <= Self(a[k]);
  }

  /** Dropping the same first value from two arrangements of one multiset leaves one multiset. */
  lemma SameTails(a: seq<real>, b: seq<real>)
    requires multiset(a) == multiset(b) && a != [] && b != [] && a[0] == b[0]
    ensures multiset(a[1..]) == multiset(b[1..])
  {
    assert a == [a[0]] + a[1..] && b == [b[0]] + b[1..];
    assert multiset(a) == multiset{a[0]} + multiset(a[1..]);
    assert multiset(b) == multiset{b[0]} + multiset(b[1..]);
    assert multiset(a[1..]) == multiset(a) - multiset{a[0]};
    assert multiset(b[1..]) == multiset(b) - multiset{b[0]};
  }

  lemma AscendingTail(a: seq<real>)
    requires a != [] && Ascending(a, Self)
    ensures Ascending(a[1..], Self)
  {
    forall i, j | 0 <= i < j < |a[1..]| ensures Self(a[1..][i]) <= Self(a[1..][j]) {
      assert Self(a[i + 1]) <= Self(a[j + 1]);
    }
  }

  /**
   * `Series.quantile(0.25)` with linear interpolation: at position
   * `h = (n - 1) * 0.25` of the sorted values, between the values at
   * positions floor(h) and floor(h) + 1. Empty input gives NaN (`None`).
   */
  function LowerQuartile(xs: seq<real>): (q: Option<real>)
    ensures q.Some? <==> xs != []
    ensures q.Some? ==> exists i :: 0 <= i < |xs| && xs[i] <= q.value
    ensures q.Some? ==> exists j :: 0 <= j < |xs| && q.value <= xs[j]
    ensures q.Some? ==>
              var lo := QuartileIndex(|xs|);
              && |Filter(xs, AtMost(q.value))| >= lo + 1
              && |Filter(xs, AtLeast(q.value))| >= |xs| - lo - 1
  {
    if xs == [] then None
    else
      var s := SortBy(xs, Self);
      var lo := QuartileIndex(|xs|);
      var q := Interpolated(s, lo, QuartileFraction(|xs|));
      QuartileSplits(xs, s, lo, if lo + 1 < |s| then lo + 1 else lo, q);
      Some(q)
  }

  /**
   * The lower quartile is the linear interpolation at position
   * `(n - 1) * 0.25` of ANY ascending arrangement `s` of the values: all
   * such arrangements are equal, so ties do not matter.
   */
  lemma QuartileOfAnyArrangement(xs: seq<real>, s: seq<real>)
    requires xs != [] && SortedOf(s, xs)
    ensures LowerQuartile(xs) == Some(Interpolated(s, QuartileIndex(|xs|), QuartileFraction(|xs|)))
  {
    SortedUnique(SortBy(xs, Self), s);
  }

  /** The fractional part of `(n - 1) * 0.25`. */
  function QuartileFraction(n: nat): (f: real)
    requires n > 0
    ensures 0.0 <= f < 1.0
  {
    (n - 1) as real / 4.0 - QuartileIndex(n) as real
  }

  /** The value a fraction `f` of the way from position `lo` to the next one of a sorted sequence. */
  function Interpolated(s: seq<real>, lo: nat, f: real): (q: real)
    requires Ascending(s, Self) && lo < |s| && 0.0 <= f < 1.0
    ensures s[lo] <= q <= s[if lo + 1 < |s| then lo + 1 else lo]
  {
    if lo + 1 < |s| then
      assert Self(s[lo]) <= Self(s[lo + 1]);
      Interpolate(s[lo], s[lo + 1], f);
      s[lo] + f * (s[lo + 1] - s[lo])
    else
      s[lo]
  }

  function AtMost(q: real): real -> bool { x => x <= q }

  function AtLeast(q: real): real -> bool { x => x >= q }

  /**
   * In a sorted rearrangement `s` of `xs`, a value between the entries at
   * positions `lo` and `hi` (`hi` is `lo` or `lo + 1`) has at least
   * `lo + 1` values at or below it and at least `|xs| - lo - 1` at or above
   * it, and both an input value below it and one above it.
   */
  lemma QuartileSplits(xs: seq<real>, s: seq<real>, lo: nat, hi: nat, q: real)
    requires multiset(s) == multiset(xs) && Ascending(s, Self)
    requires lo <= hi < |s| && hi <= lo + 1
    requires s[lo] <= q <= s[hi]
    ensures |Filter(xs, AtMost(q))| >= lo + 1
    ensures |Filter(xs, AtLeast(q))| >= |xs| - lo - 1
    ensures exists i :: 0 <= i < |xs| && xs[i] <= q
    ensures exists j :: 0 <= j < |xs| && q <= xs[j]
  {
    SameLength(s, xs);
    SplitBelow(xs, s, lo, q);
    SplitAbove(xs, s, hi, lo + 1, q);
    assert s[lo] in multiset(xs) && s[hi] in multiset(xs);
    assert s[lo] in xs && s[hi] in xs;
  }

  lemma SameLength(s: seq<real>, xs: seq<real>)
    requires multiset(s) == multiset(xs)
    ensures |s| == |xs|
  {
    assert |multiset(s)| == |s|;
    assert |multiset(xs)| == |xs|;
  }

  /** Everything up to position `lo` of a sorted rearrangement lies at or below `s[lo]`. */
  lemma SplitBelow(xs: seq<real>, s: seq<real>, lo: nat, q: real)
    requires multiset(s) == multiset(xs) && Ascending(s, Self)
    requires lo < |s| && s[lo] <= q
    ensures |Filter(xs, AtMost(q))| >= lo + 1
  {
    forall i | 0 <= i < lo + 1 ensures AtMost(q)(s[i]) {
      assert Self(s[i]) <= Self(s[lo]);
    }
    FilterPrefix(s, AtMost(q), lo + 1);
    FilterCountPermutation(s, xs, AtMost(q));
  }

  /** Everything from position `hi` of a sorted rearrangement lies at or above `s[hi]`. */
  lemma SplitAbove(xs: seq<real>, s: seq<real>, hi: nat, k: nat, q: real)
    requires multiset(s) == multiset(xs) && Ascending(s, Self)
    requires hi < |s| && hi <= k <= |s| && q <= s[hi]
    ensures |Filter(xs, AtLeast(q))| >= |s| - k
  {
    forall i | k <= i < |s| ensures AtLeast(q)(s[i]) {
      assert Self(s[hi]) <= Self(s[i]);
    }
    FilterSuffix(s, AtLeast(q), k);
    FilterCountPermutation(s, xs, AtLeast(q));
  }

  // ---- the campaign

  /** `dados_marketing` with its `promocao` column and the threshold `limiar_promocao`. */
  datatype Campaign = Campaign(category: string, data: seq<MarketingRow>, threshold: real, promotion: seq<bool>)

  function MeanPriceOf(x: MarketingRow): real { x.price.meanPrice }

  /**
   * A campaign table holds months of its own category only, its threshold
   * is the lower quartile of their mean prices, and a month is flagged
   * exactly when its mean price is strictly below the threshold.
   */
  predicate Consistent(r: Campaign) {
    && r.data != [] && |r.promotion| == |r.data|
    && (forall x :: x in r.data ==> x.price.category == r.category)
    && Some(r.threshold) == LowerQuartile(Column(r.data, MeanPriceOf))
    && (forall i :: 0 <= i < |r.data| ==> (r.promotion[i] <==> r.data[i].price.meanPrice < r.threshold))
  }

  /** `preco_categoria`: the monthly prices of category `c`. */
  function Chosen(t: seq<MonthlyPrice>, c: string): (chosen: seq<MonthlyPrice>)
    ensures forall x :: x in chosen <==> x in t && x.category == c
    ensures forall x :: multiset(chosen)[x] == if x.category == c then multiset(t)[x] else 0
  {
    Filter(t, InCategory(c))
  }

  /**
   * The campaign's rows are the price rows of its category in `t`, every
   * one of them once and in table order, so the threshold is taken over all
   * of that category's months.
   */
  predicate CoversCategory(r: Campaign, t: seq<MonthlyPrice>) {
    var chosen := Chosen(t, r.category);
    |r.data| == |chosen| && forall i :: 0 <= i < |r.data| ==> r.data[i].price == chosen[i]
  }

  /** The `promocao` column: a month is flagged when its mean price is strictly below the threshold. */
  function Flags(data: seq<MarketingRow>, threshold: real): (flags: seq<bool>)
    ensures |flags| == |data|
    ensures forall i :: 0 <= i < |data| ==> (flags[i] <==> data[i].price.meanPrice < threshold)
  {
    seq(|data|, i requires 0 <= i < |data| => data[i].price.meanPrice < threshold)
  }

  /** The campaign table of category `c`, which occurs in the price table. */
  function CampaignFor(t: seq<MonthlyPrice>, c: string, firsts: seq<CustomerOrder>): (r: Campaign)
    requires exists i :: 0 <= i < |t| && t[i].category == c
    ensures r.category == c
    ensures Consistent(r)
    ensures CoversCategory(r, t)
  {
    Flagged(c, MarketingData(t, c, firsts))
  }

  /**
   * The campaign over the marketing rows `data` of category `c`: the lower
   * quartile of their mean prices as threshold, and the strict-below flags.
   */
  function Flagged(c: string, data: seq<MarketingRow>): (r: Campaign)
    requires data != [] && forall x :: x in data ==> x.price.category == c
    ensures r.category == c && r.data == data
    ensures Consistent(r)
  {
    var q := LowerQuartile(Column(data, MeanPriceOf)).value;
    Campaign(c, data, q, Flags(data, q))
  }

  /**
   * `dados_marketing` before flagging: the price rows of category `c`, in
   * table order, each next to the new customers of its month.
   */
  function MarketingData(t: seq<MonthlyPrice>, c: string, firsts: seq<CustomerOrder>): (data: seq<MarketingRow>)
    requires exists i :: 0 <= i < |t| && t[i].category == c
    ensures data != []
    ensures forall x :: x in data ==> x.price.category == c
    ensures |data| == |Chosen(t, c)| && forall i :: 0 <= i < |data| ==> data[i].price == Chosen(t, c)[i]
  {
    var chosen := Chosen(t, c);
    var i :| 0 <= i < |t| && t[i].category == c;
    assert t[i] in chosen;
    MergeKeepsMonthsInPlace(chosen, firsts);
    var data := WithNewCustomers(chosen, NewCustomersByMonth(firsts));
    RowsInPlace(chosen, c, data);
    data
  }

  /** Rows holding, place by place, price rows of category `c` are all of category `c`. */
  lemma RowsInPlace(chosen: seq<MonthlyPrice>, c: string, data: seq<MarketingRow>)
    requires forall x :: x in chosen ==> x.category == c
    requires |data| == |chosen| && forall i :: 0 <= i < |data| ==> data[i].price == chosen[i]
    ensures forall x :: x in data ==> x.price.category == c
  {
    forall x | x in data ensures x.price.category == c {
      var k :| 0 <= k < |data| && data[k] == x;
      assert chosen[k] in chosen;
    }
  }

  /** Some (month, category) group exists exactly when some row has both a purchase month and a category. */
  lemma PricesExist(rows: seq<FactRow>)
    ensures MonthlyPrices(rows) != [] <==> exists x :: x in rows && MonthCategory(x).Some?
  {
    var t := MonthlyPrices(rows);
    if x :| x in rows && MonthCategory(x).Some? {
      assert MonthCategory(x).value in PriceKeys(t);
    }
    if t != [] {
      assert PriceKeys(t)[0] in PriceKeys(t);
    }
  }

  /**
   * The promotion analysis over `order_full` and the first orders. There is
   * none when no row has both a purchase month and a category, where the
   * code fails to pick a highlighted category.
   */
  function Promote(rows: seq<FactRow>, firsts: seq<CustomerOrder>): (r: Option<Campaign>)
    ensures r.Some? <==> exists x :: x in rows && MonthCategory(x).Some?
    ensures r.Some? ==>
              var t := MonthlyPrices(rows);
              forall i :: 0 <= i < |t| ==> CategorySales(t, t[i].category) <= CategorySales(t, r.value.category)
    ensures r.Some? ==> Consistent(r.value) && CoversCategory(r.value, MonthlyPrices(rows))
  {
    PricesExist(rows);
    PromoteOn(MonthlyPrices(rows), firsts)
  }

  /** The promotion analysis over a price table; `None` exactly when the table is empty. */
  function PromoteOn(t: seq<MonthlyPrice>, firsts: seq<CustomerOrder>): (r: Option<Campaign>)
    ensures r.Some? <==> t != []
    ensures r.Some? ==> Consistent(r.value)
    ensures r.Some? ==> CoversCategory(r.value, t)
    ensures r.Some? ==> forall i :: 0 <= i < |t| ==> CategorySales(t, t[i].category) <= CategorySales(t, r.value.category)
  {
    match Highlight(t)
    case None => None
    case Some(c) => Some(CampaignFor(t, c, firsts))
  }

  /**
   * The month with the highest mean price is never a promotion month: the
   * lower quartile never exceeds the largest value it is taken over.
   */
  lemma DearestMonthNotPromoted(t: seq<MonthlyPrice>, firsts: seq<CustomerOrder>, i: nat)
    requires PromoteOn(t, firsts).Some?
    requires var d := PromoteOn(t, firsts).value.data;
             i < |d| && forall j :: 0 <= j < |d| ==> d[j].price.meanPrice <= d[i].price.meanPrice
    ensures !PromoteOn(t, firsts).value.promotion[i]
  {
    DearestNotFlagged(PromoteOn(t, firsts).value, i);
  }

  /** In a consistent campaign the month with the highest mean price is not flagged. */
  lemma DearestNotFlagged(c: Campaign, i: nat)
    requires Consistent(c)
    requires i < |c.data| && forall j :: 0 <= j < |c.data| ==> c.data[j].price.meanPrice <= c.data[i].price.meanPrice
    ensures !c.promotion[i]
  {
    var prices := Column(c.data, MeanPriceOf);
    var q := LowerQuartile(prices);
    assert q == Some(c.threshold);
    var j :| 0 <= j < |prices| && q.value <= prices[j];
    assert prices[j] == c.data[j].price.meanPrice <= c.data[i].price.meanPrice;
    assert c.promotion[i] <==> c.data[i].price.meanPrice < c.threshold;
  }
}
