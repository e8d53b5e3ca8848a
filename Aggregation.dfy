/** What the dashboard computes from the filtered view (app.py lines 87-90,
    102-103, 110 and 117): four KPIs, revenue per calendar month, the ten
    best-selling products and the number of lines per customer gender. */
module Aggregation {
  import opened Frames
  import opened Grouping
  import opened Sales

  // ---------------------------------------------------------------- KPIs

  /** `filtered_df['totalprice_rupiah'].sum()`. */
  function TotalSales(view: seq<Transaction>): (r: int)
    ensures view == [] ==> r == 0
    ensures (forall i :: 0 <= i < |view| ==> view[i].totalPriceRupiah >= 0) ==> r >= 0
  {
    SumOfNonNegative(view, Price);
    SumOf(view, Price)
  }

  /** `filtered_df['order_detail_id'].nunique()`: the number of distinct order
      ids; never more than the number of lines, and 0 only for no lines. */
  function TotalOrders(view: seq<Transaction>): (n: nat)
    ensures n <= |view|
    ensures n == 0 <==> view == []
  {
    |Distinct(view, OrderId)|
  }

  /** `filtered_df['quantity'].sum()`: quantities are never negative, so
      neither is their sum. */
  function TotalQuantity(view: seq<Transaction>): (q: int)
    ensures q >= 0
    ensures view == [] ==> q == 0
  {
    SumOfNonNegative(view, Quantity);
    SumOf(view, Quantity)
  }

  /** `total_sales / total_orders if total_orders else 0`: true division,
      guarded against a zero count of orders. */
  function AverageOrderValue(totalSales: int, totalOrders: nat): (r: real)
    ensures totalOrders == 0 ==> r == 0.0
    ensures totalOrders != 0 ==> r * (totalOrders as real) == totalSales as real
    ensures totalSales >= 0 ==> r >= 0.0
  {
    if totalOrders != 0 then (totalSales as real) / (totalOrders as real) else 0.0
  }

  datatype Kpis = Kpis(totalSales: int, totalOrders: nat, totalQuantity: int, averageOrderValue: real)

  /** The four metrics of the KPI row. An empty view gives all four as 0. */
  function ComputeKpis(view: seq<Transaction>): (k: Kpis)
    ensures view == [] ==> k.totalSales == 0 && k.totalOrders == 0 && k.totalQuantity == 0 && k.averageOrderValue == 0.0
    ensures 0 <= k.totalOrders <= |view| && k.totalQuantity >= 0
    ensures k.totalOrders != 0 ==> k.averageOrderValue == (k.totalSales as real) / (k.totalOrders as real)
  {
    var sales := TotalSales(view);
    var orders := TotalOrders(view);
    Kpis(sales, orders, TotalQuantity(view), AverageOrderValue(sales, orders))
  }

  /** Additivity of total sales: for any split of the view by a mask and its
      complement, the two parts' totals add up to the view's. */
  lemma TotalSalesAdditive(view: seq<Transaction>, keep: Transaction -> bool)
    ensures TotalSales(Where(view, keep)) + TotalSales(Where(view, Not(keep))) == TotalSales(view)
  {
    SumOfPartition(view, Price, keep);
  }

  /** The same holds for the total quantity. */
  lemma TotalQuantityAdditive(view: seq<Transaction>, keep: Transaction -> bool)
    ensures TotalQuantity(Where(view, keep)) + TotalQuantity(Where(view, Not(keep))) == TotalQuantity(view)
  {
    SumOfPartition(view, Quantity, keep);
  }

  /** When every line has its own order id, there are as many orders as
      lines. */
  lemma {:induction false} DistinctIdsCount(view: seq<Transaction>)
    requires forall i, j :: 0 <= i < j < |view| ==> view[i].orderDetailId != view[j].orderDetailId
    ensures TotalOrders(view) == |view|
    decreases |view|
  {
    if view != [] {
      var init := view[..|view| - 1];
      var last := OrderId(view[|view| - 1]);
      forall i, j | 0 <= i < j < |init| ensures init[i].orderDetailId != init[j].orderDetailId {
        assert init[i] == view[i] && init[j] == view[j];
      }
      DistinctIdsCount(init);
      forall j | 0 <= j < |init| ensures OrderId(init[j]) != last {
        assert init[j] == view[j];
      }
      assert last !in Distinct(init, OrderId);
    }
  }

  // ------------------------------------------------------- monthly trend

  /** The derived `year_month` column, its distinct values in ascending order
      (the order `groupby` gives its keys). */
  function Months(view: seq<Transaction>): (ms: seq<int>)
    ensures StrictlyAscending(ms)
    ensures forall m :: m in ms <==> m in Distinct(view, YearMonth)
  {
    var column := Column(view, YearMonth);
    var ms := SortedDistinct(column);
    assert forall m :: m in column <==> m in Distinct(view, YearMonth) by {
      forall m ensures m in column <==> m in Distinct(view, YearMonth) {
        if m in column {
          var i :| 0 <= i < |column| && column[i] == m;
          assert YearMonth(view[i]) == m;
        }
        if m in Distinct(view, YearMonth) {
          var i :| 0 <= i < |view| && YearMonth(view[i]) == m;
          assert column[i] == m;
        }
      }
    }
    ms
  }

  /** `groupby('year_month')['totalprice_rupiah'].sum()`: one row per calendar
      month present in the view, months strictly ascending, each with the
      total price of the view's lines in that month. */
  function MonthlyTrend(view: seq<Transaction>): (rows: seq<Row<int>>)
    ensures StrictlyAscending(Keys(rows))
    ensures forall m :: m in Keys(rows) <==> m in Distinct(view, YearMonth)
    ensures forall i :: 0 <= i < |rows| ==> rows[i].total == TotalSales(Where(view, Is(YearMonth, rows[i].key)))
  {
    var ms := Months(view);
    GroupTotalsKeys(view, ms, YearMonth, Price);
    GroupTotals(view, ms, YearMonth, Price)
  }

  /** The monthly revenues add up to the total sales of the view. */
  lemma MonthlyTrendSumsToTotalSales(view: seq<Transaction>)
    ensures TotalOf(MonthlyTrend(view)) == TotalSales(view)
  {
    var ms := Months(view);
    StrictlyAscendingHasNoDuplicates(ms);
    forall i | 0 <= i < |view| ensures YearMonth(view[i]) in ms {
      assert YearMonth(view[i]) in Distinct(view, YearMonth);
    }
    GroupTotalsSum(view, ms, YearMonth, Price);
  }

  // -------------------------------------------------------- top products

  /** How many products the ranking keeps (`head(10)`). */
  const TOP_N: nat := 10

  /** `groupby('product_name')['quantity'].sum()`: the products of the view,
      each with its total quantity. The model lists them in order of first
      appearance; that choice only decides the order among equal totals once
      `SortByTotal` has ranked them. */
  function ProductTotals(view: seq<Transaction>): (rows: seq<Row<string>>)
    ensures |rows| == |Distinct(view, ProductName)|
    ensures DistinctKeys(rows)
    ensures forall p :: p in Keys(rows) <==> p in Distinct(view, ProductName)
    ensures forall i :: 0 <= i < |rows| ==> rows[i].total == SumOf(Where(view, Is(ProductName, rows[i].key)), Quantity)
  {
    GroupBy(view, ProductName, Quantity)
  }

  /** `sort_values(ascending=False).head(10)`: at most ten products, by
      descending total quantity. */
  function TopProducts(view: seq<Transaction>): (top: seq<Row<string>>)
    ensures |top| <= TOP_N
    ensures NonIncreasing(top)
  {
    Head(SortByTotal(ProductTotals(view)), TOP_N)
  }

  /** Every row of the ranking is a product of the view with its true total
      quantity, no product is ranked twice, and the ranking has ten rows, or
      one per product when the view has fewer than ten products. */
  lemma TopProductsAreProductTotals(view: seq<Transaction>)
    ensures var top := TopProducts(view);
      && |top| == (if |Distinct(view, ProductName)| < TOP_N then |Distinct(view, ProductName)| else TOP_N)
      && DistinctKeys(top)
      && forall i :: 0 <= i < |top| ==>
           top[i].key in Distinct(view, ProductName)
           && top[i].total == SumOf(Where(view, Is(ProductName, top[i].key)), Quantity)
  {
    var rows := ProductTotals(view);
    var top := TopProducts(view);
    RankingRows(rows, TOP_N);
    forall i | 0 <= i < |top|
      ensures top[i].key in Distinct(view, ProductName)
      ensures top[i].total == SumOf(Where(view, Is(ProductName, top[i].key)), Quantity)
    {
      KeyOfRow(rows, top[i]);
    }
  }

  /** No product the ranking leaves out sold more than the last product it
      keeps; if any product is left out, all ten places are taken. */
  lemma TopProductsNoneLeftOutLarger(view: seq<Transaction>, p: string)
    requires p in Distinct(view, ProductName)
    requires forall i :: 0 <= i < |TopProducts(view)| ==> TopProducts(view)[i].key != p
    ensures |TopProducts(view)| == TOP_N
    ensures SumOf(Where(view, Is(ProductName, p)), Quantity) <= TopProducts(view)[TOP_N - 1].total
  {
    var rows := ProductTotals(view);
    var top := TopProducts(view);
    assert top == Head(SortByTotal(rows), TOP_N);
    assert p in Keys(rows);
    var j :| 0 <= j < |Keys(rows)| && Keys(rows)[j] == p;
    forall i | 0 <= i < |top| ensures top[i] != rows[j] {
      assert top[i].key != rows[j].key;
    }
    RankingLeavesOutSmaller(rows, TOP_N, j);
    assert rows[j].total == SumOf(Where(view, Is(ProductName, p)), Quantity);
  }

  // ------------------------------------------------------ gender counts

  /** `filtered_df['gender'].value_counts()`: one row per gender present in the
      view with its number of lines, ordered by descending count. */
  function GenderCounts(view: seq<Transaction>): (rows: seq<Row<string>>)
    ensures NonIncreasing(rows)
  {
    SortByTotal(GroupBy(view, Gender, One))
  }

  /** Each gender of the view has exactly one row, and no other value has
      one. */
  lemma GenderCountsKeys(view: seq<Transaction>)
    ensures DistinctKeys(GenderCounts(view))
    ensures forall g :: g in Keys(GenderCounts(view)) <==> g in Distinct(view, Gender)
  {
    var grouped := GroupBy(view, Gender, One);
    SortByTotalDistinct(grouped);
    SortByTotalKeys(grouped);
  }

  /** Every count is the number of lines of that gender, and is positive. */
  lemma GenderCountsAreCounts(view: seq<Transaction>)
    ensures forall i :: 0 <= i < |GenderCounts(view)| ==>
              GenderCounts(view)[i].total == |Where(view, Is(Gender, GenderCounts(view)[i].key))| > 0
  {
    var grouped := GroupBy(view, Gender, One);
    var rows := GenderCounts(view);
    forall i | 0 <= i < |rows| ensures rows[i].total == |Where(view, Is(Gender, rows[i].key))| > 0 {
      SortedMember(grouped, rows[i]);
      KeyOfRow(grouped, rows[i]);
      PresentKeyCount(view, Gender, rows[i].key);
    }
  }

  /** The gender counts add up to the number of lines in the view. */
  lemma GenderCountsSum(view: seq<Transaction>)
    ensures TotalOf(GenderCounts(view)) == |view|
  {
    GroupBySum(view, Gender, One);
    SumOfOneIsLength(view);
    SortByTotalTotal(GroupBy(view, Gender, One));
  }
}
