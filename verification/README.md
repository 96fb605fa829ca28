# Brazilian e-commerce analysis, modelled in Dafny

This project models the data pipeline of `main.py`, a pandas script that
analyses the Olist Brazilian e-commerce dataset. The script has six stages:

- It reads seven CSV tables (orders, order items, products, the category
  translation, reviews, payments and customers).
- It joins them into one fact table, `order_full`: one row per order item,
  fanned out by the order's reviews and payments.
- From that table it derives the purchase month, the delivery time, the
  late flag, the days late, the net profit and the profit margin.
- It aggregates the table:
  - orders per month, with the month's seasonality figures, a three-month
    rolling trend, a quarterly rollup and each month's deviation from the
    mean;
  - distinct orders per category and per (month, category);
  - delivery statistics overall, per category and per month;
  - the mean review score and review count of each product;
  - profit per category;
  - new customers per month;
  - the mean price per (month, category).
- It ranks the results: the top categories, the top late categories, the
  best and worst rated products, and the most profitable categories.
- It flags the promotion months of the best-selling category: the months
  whose mean price is strictly below the lower quartile (the 25% quantile).

The model replaces each pandas table with a Dafny sequence of records.
Timestamps are whole seconds since the Unix epoch, with `None` for a
missing cell (`NaT`/`NaN`). Monetary values and means are `real`.

Modules follow the script's structure:

| module | file | models |
|---|---|---|
| `Common` | common.dfy | option type, filter, group-by, distinct keys, sums and means |
| `Calendar` | calendar.dfy | proleptic Gregorian months, `to_period("M")`, quarters |
| `Records` | records.dfy | the seven input tables and the fact row |
| `Join` | join.dfy | `merge(..., how="left")` with its row multiplicities |
| `FactTable` | fact_table.dfy | the merge chain that builds `order_full` |
| `Derived` | derived.dfy | the derived columns of `order_full` |
| `Sorting` | sorting.dfy | `sort_values`, `nlargest`, `head`, `idxmax`, `idxmin` |
| `Sales` | sales.dfy | orders per month and per category, seasonality figures |
| `Series` | series.dfy | rolling trend, quarterly rollup, deviation from the mean |
| `Delivery` | delivery.dfy | delivery times, late shares and late rates |
| `Ratings` | ratings.dfy | product ratings and the best and worst ten |
| `Profit` | profit.dfy | profit per category and the ten most profitable |
| `Customers` | customers.dfy | first orders and new customers per month |
| `Promotion` | promotion.dfy | monthly prices, highlighted category, promotion flags |

Two places where the model follows the code rather than the documented intent:

- The delivery tables count `total_entregas` with `("order_id", "count")`.
  That counts fact rows, not distinct orders, so an order with two items
  counts twice. The model counts rows, as the code does.
- Review counts per product are taken on `order_full`. There, a review is
  repeated once per payment of its order. The model keeps that inflation.

## Model

| member | source | states |
|---|---|---|
| `Join.LeftJoin` | main.py:33-43 | every left row survives; each output row pairs a left row with a matching right row or with null when nothing matches; every matching pair appears |
| `Join.EveryLeftRowSurvives` | main.py:36-43 | each left row appears in the output with an admissible partner |
| `Join.JoinMultiplicity` | main.py:36-43 | a matched pair occurs as often as the product of its left and right multiplicities |
| `Join.NullFillMultiplicity` | main.py:36-43 | a null-filled row occurs exactly as often as its left row, and only when no right row matches |
| `Join.AtMostOneMatch` | main.py:36-43 | with unique right keys, a key matches at most one right row |
| `Join.UniqueKeyJoinKeepsLength` | main.py:36-43 | with unique right keys, a left join adds no rows |
| `Join.UniqueKeyJoinInPlace` | main.py:36-43 | with unique right keys, the i-th joined pair holds the i-th left row |
| `Join.JoinWith` | main.py:33-43 | the filled output has one row per joined pair and holds exactly the filled pairs |
| `Join.JoinWithImage` | main.py:33-43 | projecting the filled rows back to their left part gives exactly the left rows |
| `Join.MergedRowsCombine` | main.py:33-43 | every merged row combines a left row with an admissible partner |
| `Join.MergeKeepsLeftRows` | main.py:33-43 | every left row appears in the merge, combined with an admissible partner |
| `Join.MergeHasEveryMatch` | main.py:33-43 | every left row combined with each of its matching right rows appears in the merge |
| `FactTable.MergeProducts` | main.py:33-35 | every product survives; an English name is present only when the translation table has it, and absent only when no translation matches |
| `FactTable.ItemsWithProducts` | main.py:36 | every order item survives, with each product row whose id matches |
| `FactTable.WithOrders` | main.py:37 | every output row carries a matching order, or null when none matches; every input row appears with an admissible order; every (row, matching order) pair appears |
| `FactTable.WithReviews` | main.py:38-40 | every output row carries a matching review, or null when none matches; every input row appears with an admissible review; every (row, matching review) pair appears |
| `FactTable.WithPayments` | main.py:41-43 | every output row carries a matching payment, or null when none matches; every input row appears with an admissible payment; every (row, matching payment) pair appears |
| `FactTable.OrdersKeepItems` | main.py:37 | the order merge neither loses nor invents order items |
| `FactTable.ReviewsKeepItems` | main.py:38-40 | the review merge neither loses nor invents order items |
| `FactTable.PaymentsKeepItems` | main.py:41-43 | the payment merge neither loses nor invents order items |
| `FactTable.EveryItemSurvives` | main.py:33-43 | `order_full` has at least one row per order item and covers exactly the input items |
| `FactTable.UniqueKeysGiveOneRowPerItem` | main.py:33-43 | with one row per key in every right table, `order_full` has exactly one row per order item |
| `FactTable.FanOutAddsNoNewRows` | main.py:38-43 | apart from the review and payment cells, the review and payment merges only duplicate rows |
| `Calendar.MonthOf` | main.py:44 | a timestamp falls within the calendar month it is assigned to |
| `Calendar.MonthOfUnique` | main.py:44 | a month containing a timestamp is the month assigned to it |
| `Calendar.YearLength` | main.py:44 | a year has 366 days when it is a leap year and 365 otherwise |
| `Calendar.MonthLength` | main.py:44 | consecutive months start exactly a month's length of days apart |
| `Calendar.BeforeIsChronological` | main.py:44 | month order by (year, month) agrees with order by start day |
| `Calendar.SortedMonths` | main.py:47-49 | the grouped months are in chronological order and are exactly the months that occur |
| `Calendar.ChronologicalUnique` | main.py:47-49 | two chronological month lists with the same members are equal |
| `Calendar.QuarterOf` | main.py:177-179 | a month's quarter has the same year and the quarter holding the month |
| `Calendar.QuarterMonotone` | main.py:177-183 | a later month never lies in an earlier quarter |
| `Derived.MonthBucket` | main.py:44 | a timestamp has a purchase month exactly when it is present, and it lies within that month |
| `Derived.DayDiff` | main.py:209-211 | the whole-day difference exists when both dates do and is the floor of the difference in days |
| `Derived.Later` | main.py:212-215 | the late flag is set exactly when both dates exist and delivery is after the estimate; a missing date is never late |
| `Derived.LateAgreesWithDaysLate` | main.py:212-219 | a late row has a non-negative `dias_atraso`; a row at least one day past the estimate is late |
| `Derived.ProfitMargin` | main.py:331-335 | a margin exists exactly for a non-zero price, and times the price it is a hundred times the net profit |
| `Sorting.SortBy` | main.py:303 | the sort result is a permutation of the input in ascending key order |
| `Sorting.SortDescending` | main.py:303 | the sort result is a permutation of the input in descending key order |
| `Sorting.Largest` | main.py:117 | the `n` rows kept are a sub-multiset in descending order, and no dropped row has a larger key |
| `Sorting.Smallest` | main.py:324-326 | the `n` rows kept are a sub-multiset in ascending order, and no dropped row has a smaller key |
| `Sorting.ArgMax` | main.py:57 | the position holds the largest key, and no earlier position holds it |
| `Sorting.ArgMin` | main.py:58 | the position holds the smallest key, and no earlier position holds it |
| `Sales.DistinctOrders` | main.py:48 | `nunique` is the size of the set of order ids of the rows, at most the number of rows and at least one for a non-empty table |
| `Sales.DistinctOrdersCountIds` | main.py:48 | any duplicate-free list of exactly the rows' order ids is as long as the `nunique` count |
| `Sales.DistinctOrdersIgnoreFanOut` | main.py:38-48 | the review and payment merges leave the number of distinct orders unchanged |
| `Sales.MonthlySales` | main.py:47-50 | one chronological entry per purchase month that occurs, counting the distinct orders of that month |
| `Sales.MonthlySalesIgnoreFanOut` | main.py:38-48 | the review and payment merges do not change the monthly order counts |
| `Sales.MonthlySalesOfFactTable` | main.py:33-48 | the monthly counts of `order_full` equal those of the item, product and order join alone |
| `Sales.SeasonalityOf` | main.py:54-58 | on a non-empty table: the mean of the counts, the maximum and minimum with their first months, and min ≤ mean ≤ max |
| `Sales.CategoryTotals` | main.py:113-116 | one entry per English category that occurs, with its distinct orders |
| `Sales.TopCategories` | main.py:113-119 | the five categories with the most distinct orders, most first; no dropped category has more orders |
| `Sales.CategoryMonthSales` | main.py:105-110 | one entry per (month, category) that occurs, with the distinct orders placed in it |
| `Series.RollingMean3` | main.py:148-151 | the centred three-month trend exists everywhere except at both ends and is the mean of its window |
| `Series.TrendWithinWindow` | main.py:149-151 | the trend lies within the bounds of the three counts it averages |
| `Series.ConstantTrend` | main.py:149-151 | a constant series has itself as its trend |
| `Series.QuarterlyRollup` | main.py:177-183 | quarters in order, exactly the quarters covered, each with the sum of its months, adding up to the grand total |
| `Series.QuarterEntriesAreSums` | main.py:181-183 | each quarterly entry is the sum of the orders of its months |
| `Series.Deviations` | main.py:203-205 | each month's deviation from the mean, in percent; undefined when the mean is zero |
| `Series.DeviationsSumToZero` | main.py:203-205 | the deviations add up to zero |
| `Series.DeviationsKeepOrder` | main.py:203-205 | with a positive mean, deviations order the months as their counts do |
| `Delivery.ValidDeliveries` | main.py:221 | the valid deliveries are exactly the rows with both a delivery date and a purchase date |
| `Delivery.Rate` | main.py:225-227 | the rate is `late * 100 / total`, between 0 and 100, and 0 or 100 exactly when none or all are late |
| `Delivery.Overall` | main.py:221-230 | mean delivery time and late share when a delivery is valid; the mean delay of late deliveries, non-negative, when one is late |
| `Delivery.DelaysByCategory` | main.py:251-262 | one entry per category of the valid rows, with its row count, late count, mean delivery time and late rate |
| `Delivery.CategoryTotalsAddUp` | main.py:251-259 | the per-category totals add up to the valid rows that have a category |
| `Delivery.TopLateCategories` | main.py:264 | the ten categories with the highest late rate, highest first; no dropped category has a higher rate |
| `Delivery.LateRanking` | main.py:303 | the saved table is a permutation of the per-category table in descending late rate |
| `Delivery.DelaysByMonth` | main.py:280-290 | one chronological entry per purchase month of the valid rows, with its row count, late count and late rate |
| `Delivery.ValidRowsHaveMonths` | main.py:280-282 | every valid delivery has a purchase month |
| `Delivery.MonthTotalsAddUp` | main.py:283-287 | the monthly totals add up to the number of valid deliveries |
| `Delivery.MonthLatesAddUp` | main.py:283-287 | the monthly late counts add up to the late valid deliveries |
| `Ratings.ProductRatings` | main.py:307-314 | one entry per product, with the number of its reviewed rows and their mean score, null when it has none |
| `Ratings.MeansStayOnScale` | main.py:307-314 | with scores from 1 to 5, every mean score lies between 1 and 5 |
| `Ratings.WithCategories` | main.py:315-319 | every rating survives the category merge unchanged; an attached English name is that of a product row with the rating's product id, and no name is attached when no product row has that id |
| `Ratings.UniqueProductsKeepRatings` | main.py:315-319 | with one product row per id, the category merge adds no rows |
| `Ratings.Eligible` | main.py:320 | exactly the products with at least ten reviews |
| `Ratings.Rank` | main.py:321-326 | the ten eligible products with the best means, best first, and the ten with the worst, worst first |
| `Ratings.ReportShape` | main.py:327 | the report has at most twenty rows, each with at least ten reviews and a mean |
| `Ratings.EligibleHaveMeans` | main.py:320-326 | every eligible product has a mean score |
| `Profit.ProfitByCategory` | main.py:331-349 | one entry per category: revenue, profit as revenue less freight, sales, mean margin when some price is non-zero, mean profit per row |
| `Profit.MarginsPresent` | main.py:333-335 | some margin exists exactly when some row has a non-zero price |
| `Profit.MeanProfitIsProfitPerSale` | main.py:347-349 | `lucro_medio` times `vendas` is `lucro_total` |
| `Profit.SalesAddUp` | main.py:337-346 | the sales counts add up to the rows that have a category |
| `Profit.MarginsAtMostAHundred` | main.py:333-343 | with positive prices and non-negative freight, no mean margin exceeds 100% |
| `Profit.TopProfitable` | main.py:350-352 | the ten categories with the highest mean profit, highest first; no dropped category has a higher one |
| `Customers.OrdersWithCustomers` | main.py:356 | every order survives the customer merge unchanged; a row has a unique customer id exactly when some customer row has its customer id, and the id it has is that customer's |
| `Customers.UniqueCustomersKeepOrders` | main.py:356 | with one customer row per id, the merge adds no rows |
| `Customers.FirstOrders` | main.py:357-359 | one row per unique customer, taken from the input, with no earlier order of that customer |
| `Customers.OneFirstOrderPerCustomer` | main.py:357-359 | each customer of the input has exactly one first order |
| `Customers.FirstOrdersCountCustomers` | main.py:357-359 | there are as many first orders as distinct unique customer ids |
| `Customers.NewCustomersByMonth` | main.py:360-365 | one chronological entry per month with a first order, counting the first orders of that month |
| `Customers.NewCustomersAddUp` | main.py:363-365 | the monthly counts add up to the dated first orders |
| `Promotion.MonthlyPrices` | main.py:370-374 | one entry per (month, category) that occurs, with its row count and mean price |
| `Promotion.PriceKeysByMonthAndCategory` | main.py:370-374 | a (month, category) pair has a price entry exactly when some row was bought in that month in that category |
| `Promotion.Highlight` | main.py:375-380 | a category present in the table whose total sales no other category exceeds |
| `Promotion.RankedFirst` | main.py:375-380 | the first category of the descending sales ranking has the largest sales |
| `Promotion.WithNewCustomers` | main.py:385-387 | every price row survives the new-customer merge unchanged; a row has a new-customer count exactly when that month has an entry, and the count is that entry's |
| `Promotion.MergeKeepsMonths` | main.py:385-387 | the new-customer merge adds no rows |
| `Promotion.MergeKeepsMonthsInPlace` | main.py:385-387 | the new-customer merge adds no rows and keeps each price row in its place |
| `Promotion.LowerQuartile` | main.py:388 | the 25% quantile exists exactly for a non-empty column; it lies between the values, at least ⌊(n-1)/4⌋+1 values are at or below it and the rest at or above |
| `Promotion.QuartileOfAnyArrangement` | main.py:388 | the quantile is, for any ascending arrangement of the values, the value at position ⌊(n-1)/4⌋ plus the fractional part of (n-1)/4 times the gap to the next value |
| `Promotion.QuartilePosition` | main.py:388 | the quantile position is the floor of (n-1)·0.25, and position plus fraction is exactly (n-1)·0.25 |
| `Promotion.SortedUnique` | main.py:388 | a multiset has exactly one ascending arrangement, so the quantile does not depend on how ties are sorted |
| `Promotion.QuartileSplits` | main.py:388 | a value between the two neighbouring order statistics splits the data as the quantile does |
| `Promotion.Flags` | main.py:389 | a month is flagged exactly when its mean price is strictly below the threshold |
| `Promotion.CampaignFor` | main.py:381-389 | exactly the price rows of the chosen category, in table order, with the lower quartile of their prices as threshold and the strict-below flags |
| `Promotion.MarketingData` | main.py:381-387 | one marketing row per price row of the category, in table order, holding that price row |
| `Promotion.Flagged` | main.py:388-389 | the threshold is the lower quartile of the rows' mean prices and a row is flagged exactly when its price is below it |
| `Promotion.Promote` | main.py:370-389 | an analysis exists exactly when some row has both a month and a category; its category sells the most, it holds exactly that category's price rows in table order, and its threshold is their lower quartile with the strict-below flags |
| `Promotion.PromoteOn` | main.py:375-389 | on a non-empty price table: the best-selling category, exactly its price rows in table order, the quartile threshold and the flags |
| `Promotion.DearestMonthNotPromoted` | main.py:388-389 | the month with the highest mean price is never flagged |

## Left out

- Reading the CSV files, parsing dates and writing the result CSVs are not modelled. The tables are inputs and the results are returned values.
- Every plot and figure (matplotlib, seaborn), including the per-category line plot that filters the top-five categories (main.py:121-137), is not modelled.
- pandas' float64 arithmetic is modelled with exact reals, so rounding is not modelled.
- Timestamps are whole seconds, so sub-second precision is not modelled.
- pandas' default sort is unstable. The model does not promise any order among rows with equal keys. `FirstOrders` keeps the first order met among orders placed at the same instant.
- groupby sorts its keys. The model emits category keys, (month, category) keys and product keys in first-appearance order, and states their membership and uniqueness instead. Month keys are emitted in chronological order, as pandas does.
- Derived.ProfitMargin: for a zero price the code divides by zero and gets an infinite or NaN margin. An infinite margin would then propagate into the category mean. The model gives no margin and leaves that row out of the mean.
- Series.Deviations: when the mean is zero the code divides by zero. The model returns `None`.
- Sales.SeasonalityOf: on an empty table the code raises, because `idxmax` of an empty series fails. The model returns `None`.
- Promotion.Highlight: on an empty table the code raises, because `index[0]` of an empty index fails. The model returns `None`.
- Customers.FirstOrders: the row order of `first_orders` after the sort is not modelled, only its contents.
- The `Mês` and `purchase_month` string conversions (main.py:51, 177, 291, 366-368, 384) are not modelled, because months are kept as (year, month) values.
- Sales.TopCategories: when distinct-order counts tie at the cut-off, which categories are kept is not pinned down. pandas keeps the alphabetically first, because groupby sorts the keys and `nlargest` keeps the first tied row; the model keeps categories in first-appearance order. Only that no dropped category has more orders is stated.
- Ratings.Rank: when mean scores tie at the cut-off, which rows are kept is not pinned down. Only that no dropped row has a better key is stated.
- Profit.TopProfitable: when mean profits tie at the cut-off, which rows are kept is not pinned down. Only that no dropped row has a better key is stated.
- Delivery.TopLateCategories: when late rates tie at the cut-off, which rows are kept is not pinned down. Only that no dropped row has a better key is stated.
