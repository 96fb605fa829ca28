/**
 * New customers per month (main.py section 5.b, first part): every order
 * with its customer's unique id, the first order of each unique customer,
 * and the number of first orders placed in each purchase month.
 *
 * `drop_duplicates` treats a null unique id as one more value, so all
 * orders with no known customer share one first order, as here.
 */
module Customers {
  import opened Common
  import opened Calendar
  import opened Records
  import opened Join
  import opened Derived

  // ---- the customer merge

  function OrderCustomer(o: Order): string { o.customerId }

  function CustomerKey(c: Customer): string { c.customerId }

  function AddCustomer(o: Order, c: Option<Customer>): CustomerOrder {
    CustomerOrder(o, if c.Some? then Some(c.value.uniqueId) else None)
  }

  function OrderOf(x: CustomerOrder): Order { x.order }

  function SameOrder(o: Order): Order { o }

  /**
   * `orders.merge(customers, on="customer_id", how="left")`: every order
   * survives, with the unique id of its customer (null when the customer
   * id is unknown).
   */
  function OrdersWithCustomers(orders: seq<Order>, customers: seq<Customer>): (out: seq<CustomerOrder>)
    ensures |out| >= |orders|
    ensures Image(out, OrderOf) == Image(orders, SameOrder)
    ensures forall x :: x in out ==>
              (x.uniqueId.Some? <==> exists c :: c in customers && c.customerId == x.order.customerId)
    ensures forall x :: x in out && x.uniqueId.Some? ==>
              exists c :: c in customers && c.customerId == x.order.customerId && c.uniqueId == x.uniqueId.value
  {
    JoinWithImage(orders, customers, OrderCustomer, CustomerKey, AddCustomer, OrderOf, SameOrder);
    MergedRowsCombine(orders, customers, OrderCustomer, CustomerKey, AddCustomer);
    var out := JoinWith(orders, customers, OrderCustomer, CustomerKey, AddCustomer);
    forall x | x in out
      ensures x.uniqueId.Some? <==> exists c :: c in customers && c.customerId == x.order.customerId
      ensures x.uniqueId.Some? ==>
                exists c :: c in customers && c.customerId == x.order.customerId && c.uniqueId == x.uniqueId.value
    {
      var o, m :| o in orders && Admissible(o, m, customers, OrderCustomer, CustomerKey) && x == AddCustomer(o, m);
    }
    out
  }

  /** With one customers row per customer id, the merge adds no rows. */
  lemma UniqueCustomersKeepOrders(orders: seq<Order>, customers: seq<Customer>)
    requires UniqueKeys(customers, CustomerKey)
    ensures |OrdersWithCustomers(orders, customers)| == |orders|
  {
    UniqueKeyJoinKeepsLength(orders, customers, OrderCustomer, CustomerKey);
  }

  // ---- first orders

  /**
   * `a` sorts no later than `b` in `sort_values("order_purchase_timestamp")`,
   * which puts null timestamps last.
   */
  predicate NoLater(a: Option<int>, b: Option<int>) {
    b.None? || (a.Some? && a.value <= b.value)
  }

  /** The unique-id column. */
  function Ids(f: seq<CustomerOrder>): (ids: seq<Option<string>>)
    ensures |ids| == |f|
    ensures forall i :: 0 <= i < |f| ==> ids[i] == f[i].uniqueId
  {
    seq(|f|, i requires 0 <= i < |f| => f[i].uniqueId)
  }

  /** Position of the row of customer `u`, if there is one. */
  function Find(f: seq<CustomerOrder>, u: Option<string>): (i: Option<nat>)
    ensures i.Some? ==> i.value < |f| && f[i.value].uniqueId == u
    ensures i.None? ==> forall x :: x in f ==> x.uniqueId != u
  {
    if f == [] then None
    else if f[|f| - 1].uniqueId == u then Some(|f| - 1)
    else
      var i := Find(f[..|f| - 1], u);
      assert forall x :: x in f ==> x in f[..|f| - 1] || x == f[|f| - 1];
      i
  }

  /** The first-order table is a valid result for the rows `seen`. */
  predicate FirstOrdersOf(f: seq<CustomerOrder>, seen: seq<CustomerOrder>) {
    && Distinct(Ids(f))
    && (forall x :: x in f ==> x in seen)
    && (forall y :: y in seen ==> y.uniqueId in Ids(f))
    && (forall x, y :: x in f && y in seen && y.uniqueId == x.uniqueId ==> NoLater(x.order.purchase, y.order.purchase))
  }

  /** Take one more order into account: it replaces its customer's row only when strictly earlier. */
  function Offer(f: seq<CustomerOrder>, seen: seq<CustomerOrder>, y: CustomerOrder): (g: seq<CustomerOrder>)
    requires FirstOrdersOf(f, seen)
    ensures FirstOrdersOf(g, seen + [y])
  {
    match Find(f, y.uniqueId)
    case None =>
      NewCustomer(f, seen, y);
      f + [y]
    case Some(i) =>
      if NoLater(f[i].order.purchase, y.order.purchase) then
        KnownCustomer(f, seen, y, i);
        f
      else
        EarlierOrder(f, seen, y, i);
        f[i := y]
  }

  /** An order of a customer not met before becomes that customer's row. */
  lemma NewCustomer(f: seq<CustomerOrder>, seen: seq<CustomerOrder>, y: CustomerOrder)
    requires FirstOrdersOf(f, seen)
    requires forall x :: x in f ==> x.uniqueId != y.uniqueId
    ensures FirstOrdersOf(f + [y], seen + [y])
  {
    var g := f + [y];
    assert Ids(g) == Ids(f) + [y.uniqueId];
    assert y.uniqueId !in Ids(f);
    assert forall x :: x in g <==> x in f || x == y;
    assert forall x :: x in seen + [y] <==> x in seen || x == y;
  }

  /** An order no earlier than its customer's row leaves the table as it is. */
  lemma KnownCustomer(f: seq<CustomerOrder>, seen: seq<CustomerOrder>, y: CustomerOrder, i: nat)
    requires FirstOrdersOf(f, seen)
    requires i < |f| && f[i].uniqueId == y.uniqueId
    requires NoLater(f[i].order.purchase, y.order.purchase)
    ensures FirstOrdersOf(f, seen + [y])
  {
    assert Ids(f)[i] == y.uniqueId;
    assert forall x :: x in seen + [y] <==> x in seen || x == y;
  }

  /** An order strictly earlier than its customer's row takes that row's place. */
  lemma EarlierOrder(f: seq<CustomerOrder>, seen: seq<CustomerOrder>, y: CustomerOrder, i: nat)
    requires FirstOrdersOf(f, seen)
    requires i < |f| && f[i].uniqueId == y.uniqueId
    requires !NoLater(f[i].order.purchase, y.order.purchase)
    ensures FirstOrdersOf(f[i := y], seen + [y])
  {
    var all := seen + [y];
    var g := f[i := y];
    assert forall x :: x in all <==> x in seen || x == y;
    assert Ids(g) == Ids(f);
    forall x | x in g ensures x in all {
      var k :| 0 <= k < |g| && g[k] == x;
      if k != i {
        assert f[k] in f;
      }
    }
    forall x, z | x in g && z in all && z.uniqueId == x.uniqueId
      ensures NoLater(x.order.purchase, z.order.purchase)
    {
      var k :| 0 <= k < |g| && g[k] == x;
      if k != i {
        assert f[k] in f;
      } else if z != y {
        assert f[i] in f;
      }
    }
    forall z | z in all ensures z.uniqueId in Ids(g) {
      if z != y {
        assert z.uniqueId in Ids(f);
      }
      assert Ids(g)[i] == y.uniqueId;
    }
  }

  /**
   * `first_orders`: one order per unique customer id, the earliest by
   * purchase timestamp. Between orders placed at the same instant pandas'
   * unstable sort may keep either; this keeps the first met.
   */
  function FirstOrders(rows: seq<CustomerOrder>): (f: seq<CustomerOrder>)
    ensures FirstOrdersOf(f, rows)
  {
    if rows == [] then []
    else
      var init := rows[..|rows| - 1];
      assert rows == init + [rows[|rows| - 1]];
      Offer(FirstOrders(init), init, rows[|rows| - 1])
  }

  /** The first-order table has exactly one row per unique customer of the input. */
  lemma OneFirstOrderPerCustomer(rows: seq<CustomerOrder>, u: Option<string>)
    requires exists y :: y in rows && y.uniqueId == u
    ensures exists i :: 0 <= i < |FirstOrders(rows)| && FirstOrders(rows)[i].uniqueId == u
    ensures forall i, j ::
              (0 <= i < |FirstOrders(rows)| && 0 <= j < |FirstOrders(rows)|
               && FirstOrders(rows)[i].uniqueId == u && FirstOrders(rows)[j].uniqueId == u) ==> i == j
  {
    var f := FirstOrders(rows);
    var y :| y in rows && y.uniqueId == u;
    assert u in Ids(f);
    var i :| 0 <= i < |f| && Ids(f)[i] == u;
    forall i, j | 0 <= i < |f| && 0 <= j < |f| && f[i].uniqueId == u && f[j].uniqueId == u
      ensures i == j
    {
      assert Ids(f)[i] == Ids(f)[j];
    }
  }

  function CustomerOf(x: CustomerOrder): Option<string> { x.uniqueId }

  /** There are as many first orders as distinct unique ids among the orders. */
  lemma FirstOrdersCountCustomers(rows: seq<CustomerOrder>)
    ensures |FirstOrders(rows)| == |Image(rows, CustomerOf)|
  {
    var f := FirstOrders(rows);
    DistinctSize(Ids(f));
    IdsAreCustomers(f, rows);
    assert (set u | u in Ids(f)) == Image(rows, CustomerOf);
  }

  /** A valid first-order table holds the unique ids of the orders seen, and no others. */
  lemma IdsAreCustomers(f: seq<CustomerOrder>, rows: seq<CustomerOrder>)
    requires FirstOrdersOf(f, rows)
    ensures forall u :: u in Ids(f) <==> u in Image(rows, CustomerOf)
  {
    forall u ensures u in Ids(f) <==> u in Image(rows, CustomerOf) {
      if u in Ids(f) {
        var i :| 0 <= i < |f| && Ids(f)[i] == u;
        assert f[i] in rows;
      }
      if u in Image(rows, CustomerOf) {
        var y :| y in rows && CustomerOf(y) == u;
      }
    }
  }

  // ---- new customers per month

  function FirstMonth(x: CustomerOrder): Option<Month> {
    MonthBucket(x.order.purchase)
  }

  /** One row of `novos_clientes_por_mes`. */
  datatype MonthCustomers = MonthCustomers(month: Month, customers: nat)

  function CustomerMonths(t: seq<MonthCustomers>): (ms: seq<Month>)
    ensures |ms| == |t|
    ensures forall i :: 0 <= i < |t| ==> ms[i] == t[i].month
  {
    seq(|t|, i requires 0 <= i < |t| => t[i].month)
  }

  function NewCounts(t: seq<MonthCustomers>): (ns: seq<nat>)
    ensures |ns| == |t|
    ensures forall i :: 0 <= i < |t| ==> ns[i] == t[i].customers
  {
    seq(|t|, i requires 0 <= i < |t| => t[i].customers)
  }

  /**
   * `first_orders.groupby("purchase_month").size()`: in chronological order,
   * every month some first order was placed in, with the number of first
   * orders placed in it.
   */
  function NewCustomersByMonth(firsts: seq<CustomerOrder>): (t: seq<MonthCustomers>)
    ensures Chronological(CustomerMonths(t))
    ensures forall m :: m in CustomerMonths(t) <==> exists x :: x in firsts && FirstMonth(x) == Some(m)
    ensures forall i :: 0 <= i < |t| ==> 1 <= t[i].customers == |Group(firsts, FirstMonth, t[i].month)|
  {
    var ms := SortedMonths(firsts, FirstMonth);
    var t := seq(|ms|, i requires 0 <= i < |ms| => MonthCustomers(ms[i], |Group(firsts, FirstMonth, ms[i])|));
    assert CustomerMonths(t) == ms;
    forall i | 0 <= i < |t| ensures 1 <= t[i].customers {
      assert ms[i] in ms;
      var x :| x in firsts && FirstMonth(x) == Some(ms[i]);
      assert x in Group(firsts, FirstMonth, ms[i]);
    }
    t
  }

  /**
   * The monthly counts add up to the first orders that have a purchase
   * date: every dated unique customer is counted once, in the month of
   * their first order.
   */
  lemma NewCustomersAddUp(firsts: seq<CustomerOrder>)
    ensures Total(NewCounts(NewCustomersByMonth(firsts))) == CountPresent(firsts, FirstMonth)
  {
    var t := NewCustomersByMonth(firsts);
    var ms := CustomerMonths(t);
    ChronologicalDistinct(ms);
    assert NewCounts(t) == GroupSizes(firsts, FirstMonth, ms);
    forall x | x in firsts && FirstMonth(x).Some? ensures FirstMonth(x).value in ms {
    }
    GroupSizesCoverRows(firsts, FirstMonth, ms);
  }
}
