/**
 * Row-wise derived columns of `order_full`: the purchase month, delivery
 * durations and the late flag, net profit and profit margin. Each is a
 * total function of one row; a null input date makes a duration null and
 * makes the late flag false, as pandas' NaT arithmetic and comparisons do.
 */
module Derived {
  import opened Common
  import opened Calendar
  import opened Records

  /** `Series.dt.to_period("M")`: NaT stays NaT. */
  function MonthBucket(t: Option<int>): (m: Option<Month>)
    ensures m.Some? <==> t.Some?
    ensures m.Some? ==> Valid(m.value) && StartSecond(m.value) <= t.value < StartSecond(Next(m.value))
  {
    match t
    case None => None
    case Some(s) => Some(MonthOf(s))
  }

  /** `order_full["purchase_month"]`. */
  function PurchaseMonth(r: FactRow): Option<Month> {
    MonthBucket(r.Purchase())
  }

  /**
   * `(a - b).dt.days`: the whole days in a timestamp difference. pandas
   * floors (a difference of minus one second is -1 day); NaT on either side
   * gives NaT.
   */
  function DayDiff(a: Option<int>, b: Option<int>): (d: Option<int>)
    ensures d.Some? <==> a.Some? && b.Some?
    ensures d.Some? ==> d.value * SecondsPerDay <= a.value - b.value < (d.value + 1) * SecondsPerDay
  {
    if a.Some? && b.Some? then Some((a.value - b.value) / SecondsPerDay) else None
  }

  /** `product_category_name_english` as a group key. */
  function CategoryOf(r: FactRow): Option<string> { r.English() }

  /** `delivery_time`: days from purchase to delivery. */
  function DeliveryTime(r: FactRow): Option<int> {
    DayDiff(r.Delivered(), r.Purchase())
  }

  /** `dias_atraso`: days from the estimated to the actual delivery date. */
  function DaysLate(r: FactRow): Option<int> {
    DayDiff(r.Delivered(), r.Estimated())
  }

  /** pandas' `>` on datetimes: any comparison involving NaT is false. */
  function Later(a: Option<int>, b: Option<int>): (later: bool)
    ensures later <==> a.Some? && b.Some? && a.value > b.value
    ensures a.None? || b.None? ==> !later
  {
    match (a, b)
    case (Some(x), Some(y)) => x > y
    case _ => false
  }

  /** `atraso_entrega`: delivered strictly after the estimated date. */
  function IsLate(r: FactRow): bool {
    Later(r.Delivered(), r.Estimated())
  }

  /**
   * The late flag and the delay in days agree: a late delivery has a
   * non-negative delay (zero when it is less than a day late), a delay of at
   * least one day is late, and an on-time delivery has no positive delay.
   */
  lemma LateAgreesWithDaysLate(r: FactRow)
    ensures IsLate(r) ==> DaysLate(r).Some? && DaysLate(r).value >= 0
    ensures DaysLate(r).Some? && DaysLate(r).value >= 1 ==> IsLate(r)
    ensures DaysLate(r).Some? && !IsLate(r) ==> DaysLate(r).value <= 0
  {
    var d := DaysLate(r);
    if d.Some? {
      var diff := r.Delivered().value - r.Estimated().value;
      assert d.value * SecondsPerDay <= diff < (d.value + 1) * SecondsPerDay;
    }
  }

  /** `lucro_liquido`. */
  function NetProfit(r: FactRow): real {
    r.Price() - r.Freight()
  }

  /**
   * `porcentagem_lucro`: net profit as a percentage of the price. The
   * division is undefined for a zero price, which gives null here.
   */
  function ProfitMargin(r: FactRow): (m: Option<real>)
    ensures m.Some? <==> r.Price() != 0.0
    ensures m.Some? ==> m.value * r.Price() == NetProfit(r) * 100.0
    ensures m.Some? && r.Price() > 0.0 && r.Freight() >= 0.0 ==> m.value <= 100.0
  {
    if r.Price() == 0.0 then None else Some(NetProfit(r) / r.Price() * 100.0)
  }
}
