/**
 * The join chain that builds `order_full` (one row per order item, fanned
 * out by every matching review and payment):
 *   products ⟕ translations        on the Portuguese category name
 *   items    ⟕ products_merged     on product_id
 *            ⟕ orders              on order_id
 *            ⟕ reviews             on order_id
 *            ⟕ payments            on order_id
 * Each stage appends the right table's columns; a row that found no match
 * gets null in them. No stage drops or deduplicates a row.
 */
module FactTable {
  import opened Common
  import opened Records
  import opened Join

  // ---- step 1: products with their English category name

  function ProductCategory(p: Product): Option<string> { p.category }

  function TranslationKey(t: Translation): Option<string> { Some(t.category) }

  function AddEnglish(p: Product, t: Option<Translation>): ProductInfo {
    ProductInfo(p.productId, p.category, if t.Some? then Some(t.value.english) else None)
  }

  /** `products.merge(product_category_translation, how="left", on="product_category_name")`. */
  function MergeProducts(products: seq<Product>, translations: seq<Translation>): (infos: seq<ProductInfo>)
    ensures |infos| >= |products|
    ensures forall i :: i in infos ==> Product(i.productId, i.category) in products
    ensures forall i :: i in infos && i.english.Some? ==>
              i.category.Some? && Translation(i.category.value, i.english.value) in translations
    ensures forall i :: i in infos && i.english.None? ==>
              forall t :: t in translations ==> Some(t.category) != i.category
    ensures forall p :: p in products ==> exists i :: i in infos && Product(i.productId, i.category) == p
  {
    var infos := JoinWith(products, translations, ProductCategory, TranslationKey, AddEnglish);
    var pairs := LeftJoin(products, translations, ProductCategory, TranslationKey);
    forall i | i in infos
      ensures Product(i.productId, i.category) in products
      ensures i.english.Some? ==> i.category.Some? && Translation(i.category.value, i.english.value) in translations
      ensures i.english.None? ==> forall t :: t in translations ==> Some(t.category) != i.category
    {
      var pr :| pr in pairs && i == AddEnglish(pr.0, pr.1);
      assert pr.0 == Product(i.productId, i.category);
    }
    forall p | p in products
      ensures exists i :: i in infos && Product(i.productId, i.category) == p
    {
      EveryLeftRowSurvives(products, translations, ProductCategory, TranslationKey, p);
      var m :| (p, m) in pairs && Admissible(p, m, translations, ProductCategory, TranslationKey);
      assert AddEnglish(p, m) in infos;
    }
    infos
  }

  // ---- step 2: order items with their product's categories

  function ItemProduct(it: OrderItem): string { it.productId }

  function InfoProduct(p: ProductInfo): string { p.productId }

  /** A fact row for an item and its product (or none), with every later column null. */
  function AddProduct(it: OrderItem, p: Option<ProductInfo>): FactRow {
    FactRow(it, p, None, None, None)
  }

  /** `order_items.merge(products_merged, on="product_id", how="left")`. */
  function ItemsWithProducts(items: seq<OrderItem>, infos: seq<ProductInfo>): (rows: seq<FactRow>)
    ensures |rows| >= |items|
    ensures forall o :: o in rows ==>
              o.item in items && o.order.None? && o.review.None? && o.payment.None?
              && Admissible(o.item, o.product, infos, ItemProduct, InfoProduct)
    ensures forall it :: it in items ==> exists o :: o in rows && o.item == it
    ensures forall it, p :: it in items && p in infos && p.productId == it.productId ==>
              AddProduct(it, Some(p)) in rows
  {
    var rows := JoinWith(items, infos, ItemProduct, InfoProduct, AddProduct);
    var pairs := LeftJoin(items, infos, ItemProduct, InfoProduct);
    forall it | it in items
      ensures exists o :: o in rows && o.item == it
    {
      EveryLeftRowSurvives(items, infos, ItemProduct, InfoProduct, it);
      var m :| (it, m) in pairs && Admissible(it, m, infos, ItemProduct, InfoProduct);
      assert AddProduct(it, m) in rows;
    }
    forall it, p | it in items && p in infos && p.productId == it.productId
      ensures AddProduct(it, Some(p)) in rows
    {
      assert (it, Some(p)) in pairs;
    }
    rows
  }

  // ---- steps 3 to 5: orders, reviews and payments, all keyed by order_id

  function RowOrder(r: FactRow): string { r.OrderId() }

  function OrderKey(o: Order): string { o.orderId }

  function ReviewKey(v: Review): string { v.orderId }

  function PaymentKey(p: Payment): string { p.orderId }

  function AddOrder(r: FactRow, o: Option<Order>): FactRow { r.(order := o) }

  function AddReview(r: FactRow, v: Option<Review>): FactRow { r.(review := v) }

  function AddPayment(r: FactRow, p: Option<Payment>): FactRow { r.(payment := p) }

  /** `order_items_products.merge(orders, on="order_id", how="left")`. */
  function WithOrders(rows: seq<FactRow>, orders: seq<Order>): (out: seq<FactRow>)
    ensures |out| >= |rows|
    ensures forall o :: o in out ==> Admissible(o, o.order, orders, RowOrder, OrderKey)
    ensures forall r :: r in rows ==> exists m :: Admissible(r, m, orders, RowOrder, OrderKey) && AddOrder(r, m) in out
    ensures forall r, d :: r in rows && d in orders && OrderKey(d) == RowOrder(r) ==> AddOrder(r, Some(d)) in out
  {
    MergeKeepsLeftRows(rows, orders, RowOrder, OrderKey, AddOrder);
    MergeHasEveryMatch(rows, orders, RowOrder, OrderKey, AddOrder);
    var out := JoinWith(rows, orders, RowOrder, OrderKey, AddOrder);
    var pairs := LeftJoin(rows, orders, RowOrder, OrderKey);
    forall o | o in out
      ensures Admissible(o, o.order, orders, RowOrder, OrderKey)
    {
      var pr :| pr in pairs && o == AddOrder(pr.0, pr.1);
    }
    out
  }

  /** `order_full.merge(reviews[["order_id", "review_score"]], on="order_id", how="left")`. */
  function WithReviews(rows: seq<FactRow>, reviews: seq<Review>): (out: seq<FactRow>)
    ensures |out| >= |rows|
    ensures forall o :: o in out ==> Admissible(o, o.review, reviews, RowOrder, ReviewKey)
    ensures forall r :: r in rows ==> exists m :: Admissible(r, m, reviews, RowOrder, ReviewKey) && AddReview(r, m) in out
    ensures forall r, v :: r in rows && v in reviews && ReviewKey(v) == RowOrder(r) ==> AddReview(r, Some(v)) in out
  {
    MergeKeepsLeftRows(rows, reviews, RowOrder, ReviewKey, AddReview);
    MergeHasEveryMatch(rows, reviews, RowOrder, ReviewKey, AddReview);
    var out := JoinWith(rows, reviews, RowOrder, ReviewKey, AddReview);
    var pairs := LeftJoin(rows, reviews, RowOrder, ReviewKey);
    forall o | o in out
      ensures Admissible(o, o.review, reviews, RowOrder, ReviewKey)
    {
      var pr :| pr in pairs && o == AddReview(pr.0, pr.1);
    }
    out
  }

  /** `order_full.merge(payments[["order_id", "payment_value"]], on="order_id", how="left")`. */
  function WithPayments(rows: seq<FactRow>, payments: seq<Payment>): (out: seq<FactRow>)
    ensures |out| >= |rows|
    ensures forall o :: o in out ==> Admissible(o, o.payment, payments, RowOrder, PaymentKey)
    ensures forall r :: r in rows ==> exists m :: Admissible(r, m, payments, RowOrder, PaymentKey) && AddPayment(r, m) in out
    ensures forall r, p :: r in rows && p in payments && PaymentKey(p) == RowOrder(r) ==> AddPayment(r, Some(p)) in out
  {
    MergeKeepsLeftRows(rows, payments, RowOrder, PaymentKey, AddPayment);
    MergeHasEveryMatch(rows, payments, RowOrder, PaymentKey, AddPayment);
    var out := JoinWith(rows, payments, RowOrder, PaymentKey, AddPayment);
    var pairs := LeftJoin(rows, payments, RowOrder, PaymentKey);
    forall o | o in out
      ensures Admissible(o, o.payment, payments, RowOrder, PaymentKey)
    {
      var pr :| pr in pairs && o == AddPayment(pr.0, pr.1);
    }
    out
  }

  // ---- the whole chain

  /** The rows before the review and payment joins (`order_items_orders`). */
  function ItemsWithOrders(products: seq<Product>, translations: seq<Translation>,
                           items: seq<OrderItem>, orders: seq<Order>): seq<FactRow> {
    WithOrders(ItemsWithProducts(items, MergeProducts(products, translations)), orders)
  }

  /** `order_full`. */
  function BuildFactTable(products: seq<Product>, translations: seq<Translation>, items: seq<OrderItem>,
                          orders: seq<Order>, reviews: seq<Review>, payments: seq<Payment>): seq<FactRow> {
    WithPayments(WithReviews(ItemsWithOrders(products, translations, items, orders), reviews), payments)
  }

  function ItemOf(r: FactRow): OrderItem { r.item }

  function Identity(it: OrderItem): OrderItem { it }

  /** The order items a table's rows carry. */
  function Items(rows: seq<FactRow>): set<OrderItem> {
    Image(rows, ItemOf)
  }

  /** The order, review and payment joins neither lose nor invent an order item. */
  lemma OrdersKeepItems(rows: seq<FactRow>, orders: seq<Order>)
    ensures Items(WithOrders(rows, orders)) == Items(rows)
  {
    JoinWithImage(rows, orders, RowOrder, OrderKey, AddOrder, ItemOf, ItemOf);
  }

  lemma ReviewsKeepItems(rows: seq<FactRow>, reviews: seq<Review>)
    ensures Items(WithReviews(rows, reviews)) == Items(rows)
  {
    JoinWithImage(rows, reviews, RowOrder, ReviewKey, AddReview, ItemOf, ItemOf);
  }

  lemma PaymentsKeepItems(rows: seq<FactRow>, payments: seq<Payment>)
    ensures Items(WithPayments(rows, payments)) == Items(rows)
  {
    JoinWithImage(rows, payments, RowOrder, PaymentKey, AddPayment, ItemOf, ItemOf);
  }

  /**
   * Every order item reaches `order_full` and no other item appears in it;
   * the table has at least as many rows as there are order items.
   */
  lemma EveryItemSurvives(products: seq<Product>, translations: seq<Translation>, items: seq<OrderItem>,
                          orders: seq<Order>, reviews: seq<Review>, payments: seq<Payment>)
    ensures |BuildFactTable(products, translations, items, orders, reviews, payments)| >= |items|
    ensures Items(BuildFactTable(products, translations, items, orders, reviews, payments))
            == Image(items, Identity)
  {
    var infos := MergeProducts(products, translations);
    var s2 := ItemsWithProducts(items, infos);
    var s3 := WithOrders(s2, orders);
    var s4 := WithReviews(s3, reviews);
    OrdersKeepItems(s2, orders);
    ReviewsKeepItems(s3, reviews);
    PaymentsKeepItems(s4, payments);
    JoinWithImage(items, infos, ItemProduct, InfoProduct, AddProduct, ItemOf, Identity);
  }

  /**
   * With unique keys on every right-hand table (one row per product and per
   * order, at most one review and one payment per order) `order_full` has
   * exactly one row per order item.
   */
  lemma UniqueKeysGiveOneRowPerItem(products: seq<Product>, translations: seq<Translation>,
                                    items: seq<OrderItem>, orders: seq<Order>,
                                    reviews: seq<Review>, payments: seq<Payment>)
    requires UniqueKeys(MergeProducts(products, translations), InfoProduct)
    requires UniqueKeys(orders, OrderKey)
    requires UniqueKeys(reviews, ReviewKey)
    requires UniqueKeys(payments, PaymentKey)
    ensures |BuildFactTable(products, translations, items, orders, reviews, payments)| == |items|
  {
    var infos := MergeProducts(products, translations);
    var s2 := ItemsWithProducts(items, infos);
    var s3 := WithOrders(s2, orders);
    var s4 := WithReviews(s3, reviews);
    UniqueKeyJoinKeepsLength(items, infos, ItemProduct, InfoProduct);
    UniqueKeyJoinKeepsLength(s2, orders, RowOrder, OrderKey);
    UniqueKeyJoinKeepsLength(s3, reviews, RowOrder, ReviewKey);
    UniqueKeyJoinKeepsLength(s4, payments, RowOrder, PaymentKey);
  }

  /** A fact row without the columns the review and payment joins add. */
  function WithoutFanOut(r: FactRow): FactRow {
    r.(review := None, payment := None)
  }

  /** The rows of a table with the review and payment columns cleared. */
  function BaseRows(rows: seq<FactRow>): set<FactRow> {
    Image(rows, WithoutFanOut)
  }

  /**
   * The review and payment joins only multiply rows: the rows they produce,
   * ignoring the two columns they add, are exactly the rows they received.
   * So any measure that depends only on the set of those rows (such as a
   * count of distinct orders per purchase month) is unaffected by the fan-out.
   */
  lemma FanOutAddsNoNewRows(rows: seq<FactRow>, reviews: seq<Review>, payments: seq<Payment>)
    ensures BaseRows(WithPayments(WithReviews(rows, reviews), payments)) == BaseRows(rows)
  {
    var s4 := WithReviews(rows, reviews);
    JoinWithImage(rows, reviews, RowOrder, ReviewKey, AddReview, WithoutFanOut, WithoutFanOut);
    JoinWithImage(s4, payments, RowOrder, PaymentKey, AddPayment, WithoutFanOut, WithoutFanOut);
  }
}
