/**
 * The dataset's entities, as already-parsed records. Only the columns the
 * analysis reads are kept. Timestamps are seconds since 1970-01-01 and may
 * be missing (NaT); ids and category names are strings.
 */
module Records {
  import opened Common

  /** A row of the orders table, with its four parsed timestamps. */
  datatype Order = Order(
    orderId: string,
    customerId: string,
    purchase: Option<int>,
    approved: Option<int>,
    delivered: Option<int>,
    estimated: Option<int>)

  /** A row of the order-items table: one product line of an order. */
  datatype OrderItem = OrderItem(orderId: string, productId: string, price: real, freight: real)

  /** A row of the products table; the Portuguese category name may be missing. */
  datatype Product = Product(productId: string, category: Option<string>)

  /** A row of the category-translation table. */
  datatype Translation = Translation(category: string, english: string)

  /** `reviews[["order_id", "review_score"]]`. */
  datatype Review = Review(orderId: string, score: int)

  /** `payments[["order_id", "payment_value"]]`. */
  datatype Payment = Payment(orderId: string, value: real)

  /** A row of the customers table: one customer id per order, one unique id per person. */
  datatype Customer = Customer(customerId: string, uniqueId: string)

  /** `products_merged`: a product with its English category name when one is known. */
  datatype ProductInfo = ProductInfo(productId: string, category: Option<string>, english: Option<string>)

  /**
   * A row of `order_full`: one order item together with the row each left
   * join matched for it: its product (with English category), its order,
   * one of its order's reviews and one of its order's payments. A join that
   * found no match leaves `None`, which stands for that table's columns all
   * being null in the merged frame.
   */
  datatype FactRow = FactRow(
    item: OrderItem,
    product: Option<ProductInfo>,
    order: Option<Order>,
    review: Option<Review>,
    payment: Option<Payment>)
  {
    function OrderId(): string { item.orderId }
    function ProductId(): string { item.productId }
    function Price(): real { item.price }
    function Freight(): real { item.freight }

    /** `product_category_name_english`. */
    function English(): Option<string> {
      if product.Some? then product.value.english else None
    }

    /** `order_purchase_timestamp`. */
    function Purchase(): Option<int> {
      if order.Some? then order.value.purchase else None
    }

    /** `order_delivered_customer_date`. */
    function Delivered(): Option<int> {
      if order.Some? then order.value.delivered else None
    }

    /** `order_estimated_delivery_date`. */
    function Estimated(): Option<int> {
      if order.Some? then order.value.estimated else None
    }

    /** `review_score`. */
    function ReviewScore(): Option<int> {
      if review.Some? then Some(review.value.score) else None
    }
  }

  /** A row of `orders_customers`: an order with its customer's unique id when known. */
  datatype CustomerOrder = CustomerOrder(order: Order, uniqueId: Option<string>)
}
