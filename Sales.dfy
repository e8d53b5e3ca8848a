/** One line of the Bee Cycle transaction dataset and the calendar dates it
    carries. The dataset is read once and never changed; here it is simply a
    `seq<Transaction>`. */
module Sales {

  /** A calendar date. The order date column holds whole days (time of day is
      not modelled). */
  datatype Date = Date(year: int, month: int, day: int)

  function DaysInMonth(year: int, month: int): int
  {
    if month == 2 then (if (year % 4 == 0 && year % 100 != 0) || year % 400 == 0 then 29 else 28)
    else if month == 4 || month == 6 || month == 9 || month == 11 then 30
    else 31
  }

  /** A date of the Gregorian calendar, as every order date is once loaded. */
  predicate ValidDate(d: Date)
  {
    1 <= d.month <= 12 && 1 <= d.day <= DaysInMonth(d.year, d.month)
  }

  /** Chronological order on dates: a is on or before b. It is reflexive,
      an earlier year always comes first, and a later year never does. */
  predicate OnOrBefore(a: Date, b: Date): (r: bool)
    ensures a == b ==> r
    ensures a.year < b.year ==> r
    ensures r ==> a.year <= b.year
  {
    a.year < b.year
    || (a.year == b.year && a.month < b.month)
    || (a.year == b.year && a.month == b.month && a.day <= b.day)
  }

  /** The calendar month of a date as the number YYYYMM; it stands for the
      period string "YYYY-MM" that the trend chart groups by. */
  function MonthKey(d: Date): (k: int)
    ensures 1 <= d.month <= 12 ==> k / 100 == d.year && k % 100 == d.month
  {
    d.year * 100 + d.month
  }

  /** Chronological order is total and transitive. */
  lemma OnOrBeforeTotal(a: Date, b: Date)
    ensures OnOrBefore(a, b) || OnOrBefore(b, a)
    ensures OnOrBefore(a, b) && OnOrBefore(b, a) ==> a == b
  {
  }

  lemma OnOrBeforeTransitive(a: Date, b: Date, c: Date)
    requires OnOrBefore(a, b) && OnOrBefore(b, c)
    ensures OnOrBefore(a, c)
  {
  }

  /** Two valid dates share a month key exactly when they fall in the same
      calendar month, and a later date never has a smaller month key. */
  lemma MonthKeyFaithful(a: Date, b: Date)
    requires ValidDate(a) && ValidDate(b)
    ensures MonthKey(a) == MonthKey(b) <==> a.year == b.year && a.month == b.month
    ensures OnOrBefore(a, b) ==> MonthKey(a) <= MonthKey(b)
  {
    if a.year < b.year {
      assert MonthKey(a) <= a.year * 100 + 12 < (a.year + 1) * 100 + 1 <= MonthKey(b);
    } else if b.year < a.year {
      assert MonthKey(b) <= b.year * 100 + 12 < (b.year + 1) * 100 + 1 <= MonthKey(a);
    }
  }

  /** One order line. Field names follow the dataset's columns. */
  datatype Transaction = Transaction(
    orderDetailId: int,
    orderDate: Date,
    category: string,
    productName: string,
    quantity: nat,
    totalPriceRupiah: int,
    gender: string)

  // The columns, as functions, so that they can be passed to the column
  // operations of Frames and Grouping.

  function OrderId(t: Transaction): int { t.orderDetailId }
  function Price(t: Transaction): int { t.totalPriceRupiah }
  function Quantity(t: Transaction): int { t.quantity }
  function ProductName(t: Transaction): string { t.productName }
  function Gender(t: Transaction): string { t.gender }

  /** The `year_month` column: the order date's year and month, recoverable
      from the key. */
  function YearMonth(t: Transaction): (k: int)
    ensures 1 <= t.orderDate.month <= 12 ==> k / 100 == t.orderDate.year && k % 100 == t.orderDate.month
  {
    MonthKey(t.orderDate)
  }
}
