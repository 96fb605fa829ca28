/**
 * Timestamps and month buckets. A timestamp is a whole number of seconds
 * since 1970-01-01T00:00:00 in the proleptic Gregorian calendar (pandas'
 * naive `datetime64`, at second resolution). `dt.to_period("M")` truncates a
 * timestamp to its calendar month, here a (year, month) pair; `dt.quarter`
 * and `dt.year` of the first day of a month give its (year, quarter).
 */
module Calendar {
  import opened Common

  const SecondsPerDay: int := 86400

  /** A calendar month; valid months have `1 <= month <= 12`. */
  datatype Month = Month(year: int, month: int)

  /** A calendar quarter; valid quarters have `1 <= quarter <= 4`. */
  datatype Quarter = Quarter(year: int, quarter: int)

  predicate Valid(m: Month) {
    1 <= m.month <= 12
  }

  predicate IsLeapYear(y: int) {
    y % 4 == 0 && (y % 100 != 0 || y % 400 == 0)
  }

  /** Leap years among 1 .. y-1 (floor division extends the count below year 1). */
  function LeapYearsBefore(y: int): int {
    (y - 1) / 4 - (y - 1) / 100 + (y - 1) / 400
  }

  /** Day number of January 1st of `y`, with 1970-01-01 as day 0. */
  function YearStart(y: int): int {
    365 * (y - 1970) + LeapYearsBefore(y) - LeapYearsBefore(1970)
  }

  /** Floor division by `n` steps up by one exactly at multiples of `n`. */
  lemma DivStep(y: int, n: int)
    requires n == 4 || n == 100 || n == 400
    ensures y / n - (y - 1) / n == if y % n == 0 then 1 else 0
  {
  }

  lemma LeapStep(y: int)
    ensures LeapYearsBefore(y + 1) - LeapYearsBefore(y) == if IsLeapYear(y) then 1 else 0
  {
    DivStep(y, 4);
    DivStep(y, 100);
    DivStep(y, 400);
  }

  /** A year has 366 days exactly when it is a leap year, otherwise 365. */
  lemma YearLength(y: int)
    ensures YearStart(y + 1) - YearStart(y) == if IsLeapYear(y) then 366 else 365
  {
    LeapStep(y);
  }

  function DaysInMonth(y: int, m: int): int
    requires 1 <= m <= 12
  {
    if m == 2 then (if IsLeapYear(y) then 29 else 28)
    else if m == 4 || m == 6 || m == 9 || m == 11 then 30
    else 31
  }

  /** Days of year `y` before the first day of month `m`. */
  function DaysBeforeMonth(y: int, m: int): int
    requires 1 <= m <= 12
  {
    var common := [0, 31, 59, 90, 120, 151, 181, 212, 243, 273, 304, 334][m - 1];
    if m > 2 && IsLeapYear(y) then common + 1 else common
  }

  /** Day number of the first day of month `m`. */
  function StartDay(m: Month): int
    requires Valid(m)
  {
    YearStart(m.year) + DaysBeforeMonth(m.year, m.month)
  }

  /** Timestamp of the first second of month `m`. */
  function StartSecond(m: Month): int
    requires Valid(m)
  {
    StartDay(m) * SecondsPerDay
  }

  /** The month after `m`. */
  function Next(m: Month): (r: Month)
    requires Valid(m)
    ensures Valid(r)
    ensures Index(r) == Index(m) + 1
  {
    if m.month == 12 then Month(m.year + 1, 1) else Month(m.year, m.month + 1)
  }

  /** Months counted from January of year 0. */
  function Index(m: Month): int {
    12 * m.year + m.month - 1
  }

  /** Each month starts `DaysInMonth` days after the previous one. */
  lemma MonthLength(m: Month)
    requires Valid(m)
    ensures StartDay(Next(m)) == StartDay(m) + DaysInMonth(m.year, m.month)
  {
    YearLength(m.year);
  }

  /** Index identifies a valid month. */
  lemma IndexInjective(a: Month, b: Month)
    requires Valid(a) && Valid(b) && Index(a) == Index(b)
    ensures a == b
  {
  }

  /** Month starts increase with the month index. */
  lemma {:induction false} StartDayIncreases(a: Month, b: Month)
    requires Valid(a) && Valid(b) && Index(a) < Index(b)
    ensures StartDay(Next(a)) <= StartDay(b)
    decreases Index(b) - Index(a)
  {
    var n := Next(a);
    if Index(n) == Index(b) {
      IndexInjective(n, b);
    } else {
      StartDayIncreases(n, b);
      MonthLength(n);
    }
  }

  /** The year containing day `d`, searching upward from year `y`. */
  function YearUp(d: int, y: int): (r: int)
    requires YearStart(y) <= d
    ensures YearStart(r) <= d < YearStart(r + 1)
    decreases d - YearStart(y)
  {
    YearLength(y);
    if YearStart(y + 1) <= d then YearUp(d, y + 1) else y
  }

  /** The year containing day `d`, searching downward from year `y`. */
  function YearDown(d: int, y: int): (r: int)
    requires d < YearStart(y + 1)
    ensures YearStart(r) <= d < YearStart(r + 1)
    decreases YearStart(y + 1) - d
  {
    YearLength(y);
    if YearStart(y) <= d then y else YearDown(d, y - 1)
  }

  /** The first day after month `m` of year `y`. */
  function MonthEnd(y: int, m: int): int
    requires 1 <= m <= 12
  {
    if m == 12 then YearStart(y + 1) else YearStart(y) + DaysBeforeMonth(y, m + 1)
  }

  /** The month of year `y` containing day `d`, searching down from month `m`. */
  function MonthWithin(y: int, d: int, m: int): (r: int)
    requires 1 <= m <= 12
    requires YearStart(y) <= d < MonthEnd(y, m)
    ensures 1 <= r <= m
    ensures YearStart(y) + DaysBeforeMonth(y, r) <= d < MonthEnd(y, r)
    decreases m
  {
    if YearStart(y) + DaysBeforeMonth(y, m) <= d then m else MonthWithin(y, d, m - 1)
  }

  /** The calendar month containing day number `d`. */
  function MonthOfDay(d: int): (r: Month)
    ensures Valid(r)
    ensures StartDay(r) <= d < StartDay(Next(r))
  {
    var y := if d >= 0 then YearUp(d, 1970) else YearDown(d, 1969);
    Month(y, MonthWithin(y, d, 12))
  }

  /**
   * `Timestamp.to_period("M")`: the calendar month containing timestamp `t`,
   * that is, the month whose first second is at or before `t` and whose
   * successor's first second is after `t`.
   */
  function MonthOf(t: int): (r: Month)
    ensures Valid(r)
    ensures StartSecond(r) <= t < StartSecond(Next(r))
  {
    var d := t / SecondsPerDay;
    var r := MonthOfDay(d);
    assert d * SecondsPerDay <= t < (d + 1) * SecondsPerDay;
    r
  }

  /** The bracket of `MonthOf` pins the month down: there is only one such month. */
  lemma MonthOfUnique(t: int, m: Month)
    requires Valid(m)
    requires StartSecond(m) <= t < StartSecond(Next(m))
    ensures MonthOf(t) == m
  {
    var r := MonthOf(t);
    if Index(r) < Index(m) {
      StartDayIncreases(r, m);
      assert false;
    } else if Index(m) < Index(r) {
      StartDayIncreases(m, r);
      assert false;
    } else {
      IndexInjective(r, m);
    }
  }

  /** Chronological order of months (pandas' `Period` ordering). */
  predicate Before(a: Month, b: Month) {
    a.year < b.year || (a.year == b.year && a.month < b.month)
  }

  /** Strictly increasing in time: how `groupby` orders month keys. */
  predicate Chronological(ms: seq<Month>) {
    forall i, j :: 0 <= i < j < |ms| ==> Before(ms[i], ms[j])
  }

  /** Inserts a new month into a chronological list. */
  function InsertMonth(m: Month, ms: seq<Month>): (r: seq<Month>)
    requires Chronological(ms) && m !in ms
    ensures Chronological(r)
    ensures |r| == |ms| + 1
    ensures forall x :: x in r <==> x == m || x in ms
  {
    if ms == [] then [m]
    else if Before(m, ms[0]) then [m] + ms
    else
      var rest := InsertMonth(m, ms[1..]);
      assert forall x :: x in ms[1..] ==> Before(ms[0], x);
      [ms[0]] + rest
  }

  /**
   * The distinct non-null months of a column, in chronological order: the
   * keys of `groupby` on a monthly period column.
   */
  function SortedMonths<T(!new)>(rows: seq<T>, month: T -> Option<Month>): (ms: seq<Month>)
    ensures Chronological(ms)
    ensures forall m :: m in ms <==> exists x :: x in rows && month(x) == Some(m)
  {
    if rows == [] then []
    else
      var init := rows[..|rows| - 1];
      var last := rows[|rows| - 1];
      assert rows == init + [last];
      var ms := SortedMonths(init, month);
      match month(last)
      case None => ms
      case Some(m) => if m in ms then ms else InsertMonth(m, ms)
  }

  /** A chronological list has no repeated month. */
  lemma ChronologicalDistinct(ms: seq<Month>)
    requires Chronological(ms)
    ensures Distinct(ms)
  {
  }

  /** A chronological list is determined by the months it holds. */
  lemma {:induction false} ChronologicalUnique(a: seq<Month>, b: seq<Month>)
    requires Chronological(a) && Chronological(b)
    requires forall m :: m in a <==> m in b
    ensures a == b
    decreases |a|
  {
    assert a != [] ==> a[0] in b;
    assert b != [] ==> b[0] in a;
    if a != [] && b != [] {
      var x, y := a[0], b[0];
      assert x == y || Before(y, x);
      assert x == y || Before(x, y);
      forall m ensures m in a[1..] <==> m in b[1..] {
        if m in a[1..] {
          assert Before(a[0], m);
          assert m in b;
        }
        if m in b[1..] {
          assert Before(b[0], m);
          assert m in a;
        }
      }
      ChronologicalUnique(a[1..], b[1..]);
      assert a == [a[0]] + a[1..];
      assert b == [b[0]] + b[1..];
    }
  }

  /** For valid months, `Before` is the order of their first days. */
  lemma BeforeIsChronological(a: Month, b: Month)
    requires Valid(a) && Valid(b)
    ensures Before(a, b) <==> StartDay(a) < StartDay(b)
  {
    if Before(a, b) {
      StartDayIncreases(a, b);
      MonthLength(a);
      assert DaysInMonth(a.year, a.month) > 0;
    } else if Before(b, a) {
      StartDayIncreases(b, a);
      MonthLength(b);
      assert DaysInMonth(b.year, b.month) > 0;
    } else {
      assert a == b;
    }
  }

  /** `dt.year` and `dt.quarter` of the month's first day. */
  function QuarterOf(m: Month): (q: Quarter)
    ensures q.year == m.year
    ensures Valid(m) ==> 1 <= q.quarter <= 4 && 3 * (q.quarter - 1) < m.month <= 3 * q.quarter
  {
    Quarter(m.year, (m.month - 1) / 3 + 1)
  }

  /** Order of (year, quarter) keys, as `groupby(["Ano", "Trimestre"])` sorts them. */
  predicate QuarterBefore(a: Quarter, b: Quarter) {
    a.year < b.year || (a.year == b.year && a.quarter < b.quarter)
  }

  /** Later months never fall in earlier quarters. */
  lemma QuarterMonotone(a: Month, b: Month)
    requires Before(a, b)
    ensures QuarterOf(a) == QuarterOf(b) || QuarterBefore(QuarterOf(a), QuarterOf(b))
  {
  }
}
