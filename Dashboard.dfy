/** One full run of the page for given sidebar values (app.py lines 68-117):
    filter the dataset, then compute every figure and chart table from the same
    view. */
module Dashboard {
  import opened Frames
  import opened Grouping
  import opened Sales
  import opened Filter
  import opened Aggregation

  /** Everything the page shows apart from formatting: the KPI row, the trend
      chart's table, the product bar chart's table and the gender pie's table. */
  datatype Report = Report(
    view: seq<Transaction>,
    kpis: Kpis,
    trend: seq<Row<int>>,
    topProducts: seq<Row<string>>,
    genderCounts: seq<Row<string>>)

  /** The page for one choice of criteria. The widgets agree with one another:
      the monthly revenues add up to the total-sales KPI, the gender counts add
      up to the number of lines shown, which bounds the number of orders, and
      the bar chart has at most ten bars. */
  function Render(ds: seq<Transaction>, c: Criteria): (r: Report)
    ensures r.view == FilteredView(ds, c)
    ensures TotalOf(r.trend) == r.kpis.totalSales
    ensures TotalOf(r.genderCounts) == |r.view|
    ensures r.kpis.totalOrders <= TotalOf(r.genderCounts)
    ensures |r.topProducts| <= TOP_N
  {
    var view := FilteredView(ds, c);
    MonthlyTrendSumsToTotalSales(view);
    GenderCountsSum(view);
    Report(view, ComputeKpis(view), MonthlyTrend(view), TopProducts(view), GenderCounts(view))
  }

  /** With no line selected the page degrades to zero figures and empty
      charts instead of failing. */
  lemma EmptyViewReport(ds: seq<Transaction>, c: Criteria)
    requires FilteredView(ds, c) == []
    ensures var r := Render(ds, c);
      && r.kpis == Kpis(0, 0, 0, 0.0)
      && r.trend == [] && r.topProducts == [] && r.genderCounts == []
  {
    var r := Render(ds, c);
    assert |Distinct(r.view, YearMonth)| == 0;
  }

  /** An empty category selection and a start date after the end date both
      give that degraded page. */
  lemma NoCategoriesReport(ds: seq<Transaction>, c: Criteria)
    requires c.categories == {}
    ensures Render(ds, c).kpis == Kpis(0, 0, 0, 0.0)
  {
    NoCategoriesSelectNothing(ds, c);
    EmptyViewReport(ds, c);
  }

  lemma InvertedRangeReport(ds: seq<Transaction>, c: Criteria)
    requires !OnOrBefore(c.startDate, c.endDate)
    ensures Render(ds, c).kpis == Kpis(0, 0, 0, 0.0)
  {
    InvertedRangeSelectsNothing(ds, c);
    EmptyViewReport(ds, c);
  }

  // ------------------------------------------------------------ scenario

  /** Three lines: two Roadster bikes in January 2024 (one for a man, one for
      a woman) and chains for a man in February 2024. */
  function ScenarioData(): seq<Transaction>
  {
    [ Transaction(1, Date(2024, 1, 5), "Bike", "Roadster", 2, 1000000, "M"),
      Transaction(2, Date(2024, 1, 20), "Bike", "Roadster", 1, 500000, "F"),
      Transaction(3, Date(2024, 2, 1), "Parts", "Chain", 5, 100000, "M") ]
  }

  /** Only the bikes, over the whole date range, for every product. */
  function BikesOnly(): Criteria
  {
    Criteria(Date(2024, 1, 5), Date(2024, 2, 1), {"Bike"}, ALL_PRODUCTS)
  }

  /** The two bike lines of the scenario. */
  function BikeLines(): seq<Transaction>
  {
    [ Transaction(1, Date(2024, 1, 5), "Bike", "Roadster", 2, 1000000, "M"),
      Transaction(2, Date(2024, 1, 20), "Bike", "Roadster", 1, 500000, "F") ]
  }

  /** Selecting the bikes keeps the first two lines. */
  lemma BikesOnlyView()
    ensures FilteredView(ScenarioData(), BikesOnly()) == BikeLines()
  {
    var ds := ScenarioData();
    var m := DateCategoryMask(BikesOnly());
    assert m(ds[0]) && m(ds[1]) && !m(ds[2]);
    var s2 := [ds[2]];
    assert s2[1..] == [];
    assert Where(s2, m) == [];
    var s1 := [ds[1], ds[2]];
    assert s1[1..] == s2;
    assert Where(s1, m) == [ds[1]];
    assert ds[1..] == s1;
  }

  /** The KPI row for two lines with different order ids. */
  lemma TwoLinesKpis(v: seq<Transaction>)
    requires |v| == 2 && OrderId(v[0]) != OrderId(v[1])
    ensures var sales := Price(v[0]) + Price(v[1]);
      ComputeKpis(v) == Kpis(sales, 2, Quantity(v[0]) + Quantity(v[1]), sales as real / 2.0)
  {
    assert v[1..][0] == v[1] && v[1..][1..] == [];
    assert SumOf(v[1..], Price) == Price(v[1]);
    assert SumOf(v[1..], Quantity) == Quantity(v[1]);
    DistinctIdsCount(v);
  }

  /** The KPI row for the bike lines. */
  lemma BikeLinesKpis()
    ensures ComputeKpis(BikeLines()) == Kpis(1500000, 2, 3, 750000.0)
  {
    TwoLinesKpis(BikeLines());
  }

  /** Two lines of one month: one point, their summed price. */
  lemma TwoLinesOneMonth(v: seq<Transaction>)
    requires |v| == 2 && YearMonth(v[0]) == YearMonth(v[1])
    ensures MonthlyTrend(v) == [Row(YearMonth(v[0]), Price(v[0]) + Price(v[1]))]
  {
    var m := YearMonth(v[0]);
    var column := Column(v, YearMonth);
    assert column == [m, m];
    assert column[1..] == [m] && column[1..][1..] == [];
    assert SortedDistinct(column[1..]) == [m];
    assert Months(v) == [m];
    WhereAll(v, Is(YearMonth, m));
    assert v[1..][0] == v[1] && v[1..][1..] == [];
    assert SumOf(v[1..], Price) == Price(v[1]);
    assert [m][1..] == [];
  }

  /** The trend chart for the bike lines: one point, January 2024. */
  lemma BikeLinesTrend()
    ensures MonthlyTrend(BikeLines()) == [Row(202401, 1500000)]
  {
    TwoLinesOneMonth(BikeLines());
  }

  /** Two lines of one product: one bar, their summed quantity. */
  lemma TwoLinesOneProduct(v: seq<Transaction>)
    requires |v| == 2 && ProductName(v[0]) == ProductName(v[1])
    ensures TopProducts(v) == [Row(ProductName(v[0]), Quantity(v[0]) + Quantity(v[1]))]
  {
    var p := ProductName(v[0]);
    assert v[..1] == [v[0]];
    assert v[..1][..0] == [];
    assert FirstAppearance(v[..1], ProductName) == [p];
    assert FirstAppearance(v, ProductName) == [p];
    WhereAll(v, Is(ProductName, p));
    assert v[1..][0] == v[1] && v[1..][1..] == [];
    assert SumOf(v[1..], Quantity) == Quantity(v[1]);
    var rows := ProductTotals(v);
    assert Keys(rows) == [p];
    assert rows == [Row(p, Quantity(v[0]) + Quantity(v[1]))];
    assert rows[1..] == [];
    assert SortByTotal(rows) == rows;
  }

  /** The product chart for the bike lines: one bar, three Roadsters. */
  lemma BikeLinesTopProducts()
    ensures TopProducts(BikeLines()) == [Row("Roadster", 3)]
  {
    TwoLinesOneProduct(BikeLines());
  }

  /** Two lines of different genders: the genders in order of first
      appearance, and the lines of each. */
  lemma TwoGenders(v: seq<Transaction>)
    requires |v| == 2 && Gender(v[0]) != Gender(v[1])
    ensures FirstAppearance(v, Gender) == [Gender(v[0]), Gender(v[1])]
    ensures Where(v, Is(Gender, Gender(v[0]))) == v[..1]
    ensures Where(v, Is(Gender, Gender(v[1]))) == v[1..]
  {
    assert v[..1] == [v[0]];
    assert v[..1][..0] == [];
    assert FirstAppearance(v[..1], Gender) == [Gender(v[0])];
    var tail := v[1..];
    assert tail == [v[1]] && tail[1..] == [];
    assert Where(tail, Is(Gender, Gender(v[0]))) == [];
    assert Where(tail, Is(Gender, Gender(v[1]))) == tail;
  }

  /** Two lines of different genders: one line per gender, in order of first
      appearance. */
  lemma TwoGenderGroups(v: seq<Transaction>)
    requires |v| == 2 && Gender(v[0]) != Gender(v[1])
    ensures GroupBy(v, Gender, One) == [Row(Gender(v[0]), 1), Row(Gender(v[1]), 1)]
  {
    var rows := GroupBy(v, Gender, One);
    TwoGenders(v);
    SumOfOneIsLength(v[..1]);
    SumOfOneIsLength(v[1..]);
    assert Keys(rows) == [Gender(v[0]), Gender(v[1])];
    assert rows[0].key == Gender(v[0]) && rows[1].key == Gender(v[1]);
  }

  /** Two lines of different genders: a tie, kept in order of first
      appearance. */
  lemma TwoGenderCounts(v: seq<Transaction>)
    requires |v| == 2 && Gender(v[0]) != Gender(v[1])
    ensures GenderCounts(v) == [Row(Gender(v[0]), 1), Row(Gender(v[1]), 1)]
  {
    var rows := GroupBy(v, Gender, One);
    TwoGenderGroups(v);
    assert rows[1..] == [rows[1]] && rows[1..][1..] == [];
    assert SortByTotal(rows[1..]) == [rows[1]];
    assert InsertByTotal(rows[0], [rows[1]]) == [rows[0]] + [rows[1]];
  }

  /** The gender pie for the bike lines: one man, one woman, in that order. */
  lemma BikeLinesGenderCounts()
    ensures GenderCounts(BikeLines()) == [Row("M", 1), Row("F", 1)]
  {
    TwoGenderCounts(BikeLines());
  }

  /** The whole page for the bikes: 1,500,000 rupiah in two orders of three
      items, 750,000 per order, all in January 2024, all Roadsters, one line
      each for men and women. */
  lemma BikesOnlyReport()
    ensures var r := Render(ScenarioData(), BikesOnly());
      && r.kpis == Kpis(1500000, 2, 3, 750000.0)
      && r.trend == [Row(202401, 1500000)]
      && r.topProducts == [Row("Roadster", 3)]
      && r.genderCounts == [Row("M", 1), Row("F", 1)]
  {
    BikesOnlyView();
    BikeLinesKpis();
    BikeLinesTrend();
    BikeLinesTopProducts();
    BikeLinesGenderCounts();
  }
}
