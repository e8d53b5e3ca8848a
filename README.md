# Bee Cycle sales dashboard — a verified model of its computations

The dashboard (`app.py`) loads the Bee Cycle transaction dataset, lets the user
pick a date window, a set of categories and one product (or "All") in the
sidebar, and shows for the selected lines:

- four KPIs (total sales, number of distinct orders, total quantity, average
  order value);
- revenue per calendar month;
- the ten best-selling products by quantity;
- the number of lines per customer gender.

This project models that computation in Dafny as pure functions over a
sequence of transactions, and proves what each figure means.

Modules:

- `Sales` — the `Transaction` record (one order line, with the dataset's
  columns), calendar `Date`s with their chronological order, and the YYYYMM
  month key that stands for the `to_period('M')` string.
- `Frames` — the dataframe operations the page relies on, stated over
  sequences of rows:
  - boolean-mask selection (`Where`), which keeps the row order;
  - column sums (`SumOf`);
  - the set of distinct values of a column (`Distinct`), whose size is
    `nunique()`.
- `Grouping` — `groupby(...).sum()` over an explicit list of group keys:
  - keys sorted ascending for the month trend; for the product and gender
    rankings the model lists the keys in order of first appearance, a choice
    that only decides the order among equal totals after the sort;
  - `sort_values(ascending=False)` as a stable insertion sort on the totals;
  - `head(n)`;
  - `value_counts()`, modelled as a group count followed by the same sort.
- `Filter` — the sidebar filter: a date window inclusive at both ends, category
  membership, and an optional exact product match, where "All" disables the
  product test.
- `Aggregation` — the KPIs, the monthly trend, the top-10 products and the
  gender counts, each computed from the filtered view.
- `Dashboard` — one full run of the page as a pure function
  `Render(dataset, criteria)`. It also holds a three-line example, proved
  figure by figure: two Roadster bike lines in January 2024 and one chain line
  in February 2024. Selecting only the Bike category over the whole date range
  gives 1,500,000 rupiah, 2 orders, 3 items, 750,000 per order, one month, one
  product and one line per gender.

The dataset is a parameter (`seq<Transaction>`), and so are the sidebar values
(`Criteria`).

Two facts about the code that shape the model:

- `value_counts()` sorts by descending count, so `GenderCounts` is sorted
  (app.py:117).
- An empty category selection selects nothing, as `isin([])` does
  (`NoCategoriesSelectNothing`).

## Model

| member | source | states |
|---|---|---|
| `Sales.OnOrBefore` | app.py:69-70 | the timestamp comparison of the date bounds: every date is on or before itself, an earlier year always comes first and a later year never does |
| `Sales.OnOrBeforeTotal` | app.py:69-70 | the order used for the date bounds is total, and two dates each on or before the other are equal |
| `Sales.MonthKey` | app.py:102 | for a month between 1 and 12 the key gives back the year (key div 100) and the month (key mod 100) |
| `Sales.YearMonth` | app.py:102 | the `year_month` column of a line: its order date's year and month are recoverable from the key |
| `Sales.MonthKeyFaithful` | app.py:102 | two valid dates get the same month key exactly when they fall in the same year and month, and a later date never gets a smaller key |
| `Frames.Where` | app.py:68-72 | a mask selection keeps only rows satisfying the mask, is no longer than its input, and holds exactly the input rows that satisfy it |
| `Frames.WhereIsSubsequence` | app.py:68-72 | a mask selection keeps its rows in the dataset's order |
| `Frames.WhereMultiplicity` | app.py:68-72 | a kept row appears as often as in the input, a dropped row not at all |
| `Frames.WhereWhere` | app.py:68-76 | applying a second mask to a selection equals applying the conjunction of both masks once |
| `Frames.SumOf` | app.py:87 | `.sum()` of a column: 0 for no rows and the single entry for one row (further properties in the lemmas below) |
| `Frames.SumOfPartition` | app.py:87 | the sums over a mask and over its complement add up to the sum over all rows |
| `Frames.SumOfNonNegative` | app.py:89 | a column without negative entries has a non-negative sum |
| `Frames.SumOfOneIsLength` | app.py:117 | counting rows by summing the constant one gives the number of rows |
| `Frames.Distinct` | app.py:88 | the distinct values are exactly the values some row takes; there are no more of them than rows, and none only for no rows |
| `Filter.DateCategoryMask` | app.py:68-72 | a line passes the first mask exactly when it is selected with the product set to "All", and every selected line passes it |
| `Filter.ProductMask` | app.py:76 | for a chosen product, a line is selected exactly when it passes the first mask and this one |
| `Filter.FilteredView` | app.py:68-76 | the view holds exactly the dataset lines within both date bounds, in a selected category and, unless "All", of the chosen product |
| `Filter.FilteredViewIsSelection` | app.py:68-76 | the two-step filter equals one mask of all three tests |
| `Filter.FilteredViewIsSubsequence` | app.py:68-76 | the view keeps the dataset's order |
| `Filter.FilteredViewMultiplicity` | app.py:68-76 | a selected line keeps all of its copies, any other line has none |
| `Filter.AllProductsKeepsDateCategoryView` | app.py:75-76 | with "All" the product step leaves the date-and-category view unchanged |
| `Filter.ProductNarrowsAllView` | app.py:75-76 | choosing a product narrows the "All" view to that product's lines |
| `Filter.NoCategoriesSelectNothing` | app.py:71 | an empty category selection gives an empty view |
| `Filter.InvertedRangeSelectsNothing` | app.py:69-70 | a start date after the end date gives an empty view |
| `Filter.FilterIdempotent` | app.py:68-76 | filtering the view again with the same criteria changes nothing |
| `Aggregation.TotalSales` | app.py:87 | the sum over no lines is 0, and non-negative prices give a non-negative total |
| `Aggregation.TotalSalesAdditive` | app.py:87 | for any split of the view by a mask and its complement, the two total sales add up to the view's |
| `Aggregation.TotalOrders` | app.py:88 | the order count is at most the number of lines, and 0 exactly when the view is empty |
| `Aggregation.DistinctIdsCount` | app.py:88 | when every line has its own order id, the order count equals the number of lines |
| `Aggregation.TotalQuantity` | app.py:89 | the total quantity is never negative, and 0 for an empty view |
| `Aggregation.TotalQuantityAdditive` | app.py:89 | total quantity is additive over a mask and its complement |
| `Aggregation.AverageOrderValue` | app.py:90 | 0 when there are no orders; otherwise the average times the order count is the total sales; never negative for non-negative sales |
| `Aggregation.ComputeKpis` | app.py:87-90 | an empty view gives four zeros; the order count is bounded by the lines; the average is sales divided by orders whenever there is an order |
| `Aggregation.Months` | app.py:102-103 | the month keys are strictly ascending and are exactly the months present in the view |
| `Aggregation.MonthlyTrend` | app.py:102-103 | one row per month present, months strictly ascending, each with the total sales of that month's lines |
| `Aggregation.MonthlyTrendSumsToTotalSales` | app.py:102-103 | the monthly revenues add up to the total-sales KPI |
| `Aggregation.ProductTotals` | app.py:110 | one row per product of the view, no product twice, the keys exactly the products present, each with the summed quantity of that product's lines |
| `Aggregation.TopProducts` | app.py:110 | at most ten rows, by non-increasing quantity |
| `Aggregation.TopProductsAreProductTotals` | app.py:110 | ten rows, or one per product when there are fewer; no product twice; each row is a product of the view with its summed quantity |
| `Aggregation.TopProductsNoneLeftOutLarger` | app.py:110 | a product missing from the ranking sold no more than the tenth, and then the ranking is full |
| `Aggregation.GenderCounts` | app.py:117 | rows by non-increasing count |
| `Aggregation.GenderCountsKeys` | app.py:117 | one row per gender present in the view, no other rows, no gender twice |
| `Aggregation.GenderCountsAreCounts` | app.py:117 | each count is the number of lines of that gender, and is positive |
| `Aggregation.GenderCountsSum` | app.py:117 | the gender counts add up to the number of lines in the view |
| `Grouping.GroupTotals` | app.py:103 | one row per given key, in the given order, each with the sum of the measure over that key's lines |
| `Grouping.GroupTotalsSum` | app.py:103 | when every line's key is among distinct group keys, the group totals add up to the column sum |
| `Grouping.FirstAppearance` | app.py:110 | the group keys have no repetition and are exactly the values the key column takes |
| `Grouping.GroupBy` | app.py:110 | one row per distinct value (listed in order of first appearance, the model's choice for ordering ties later), none twice, each total the sum over that key's lines |
| `Grouping.GroupBySum` | app.py:110 | the groups partition the data: their totals add up to the column sum |
| `Grouping.GroupByCounts` | app.py:117 | a count per key is the size of that key's group, and is positive |
| `Grouping.PresentKeyCount` | app.py:117 | a key that occurs has a non-empty group whose count is its size |
| `Grouping.SortedDistinct` | app.py:103 | `groupby` keys: strictly ascending and exactly the values of the column |
| `Grouping.InsertByTotal` | app.py:110 | inserting into a descending ranking keeps it descending and adds exactly one row |
| `Grouping.SortByTotal` | app.py:110 | the result is ordered by non-increasing total and is a permutation of the input |
| `Grouping.SortedMember` | app.py:110 | sorting neither adds nor drops a row |
| `Grouping.SortByTotalTotal` | app.py:110 | sorting keeps the grand total |
| `Grouping.SortByTotalDistinct` | app.py:110 | sorting rows with distinct keys keeps them distinct |
| `Grouping.SortByTotalKeys` | app.py:117 | sorting keeps the set of keys |
| `Grouping.Head` | app.py:110 | `head(n)`: the first n rows, or all rows when there are fewer |
| `Grouping.RankingRows` | app.py:110 | the first n of a ranking are rows of the input with no key twice |
| `Grouping.RankingLeavesOutSmaller` | app.py:110 | a row outside the first n has a total no larger than the n-th, and then there are n rows |
| `Dashboard.Render` | app.py:68-117 | the page for given criteria shows the filtered view; the monthly revenues add up to the total-sales KPI; the gender counts add up to the lines shown and bound the order count; at most ten product bars |
| `Dashboard.EmptyViewReport` | app.py:86-117 | with no line selected, the KPIs are all 0 and the three charts are empty |
| `Dashboard.NoCategoriesReport` | app.py:71-90 | an empty category selection gives zero KPIs |
| `Dashboard.InvertedRangeReport` | app.py:69-90 | a start date after the end date gives zero KPIs |
| `Dashboard.BikesOnlyView` | app.py:68-76 | in the scenario, selecting "Bike" keeps the two bike lines |
| `Dashboard.TwoLinesKpis` | app.py:87-90 | KPIs for two lines with different order ids: summed price and quantity, 2 orders, sales over 2 |
| `Dashboard.BikeLinesKpis` | app.py:87-90 | the scenario's KPIs: 1,500,000, 2, 3 and 750,000 |
| `Dashboard.TwoLinesOneMonth` | app.py:102-103 | two lines in one month give one trend point with their summed price |
| `Dashboard.BikeLinesTrend` | app.py:102-103 | the scenario's trend: January 2024 with 1,500,000 |
| `Dashboard.TwoLinesOneProduct` | app.py:110 | two lines of one product give one bar with their summed quantity |
| `Dashboard.BikeLinesTopProducts` | app.py:110 | the scenario's ranking: Roadster with 3 |
| `Dashboard.TwoGenders` | app.py:117 | for two lines of different genders, the genders in order of first appearance and the lines of each |
| `Dashboard.TwoGenderGroups` | app.py:117 | two lines of different genders give one group of one line per gender |
| `Dashboard.TwoGenderCounts` | app.py:117 | two lines of different genders give a tie of ones, in order of first appearance |
| `Dashboard.BikeLinesGenderCounts` | app.py:117 | the scenario's gender counts: M with 1, then F with 1 |
| `Dashboard.BikesOnlyReport` | app.py:68-117 | the whole scenario page: all KPIs, the trend, the ranking and the gender counts |

## Left out

- Loading (app.py:21-28): reading the CSV file, parsing dates and caching are
  I/O. The dataset is a parameter of every function.
- Page configuration and sidebar widgets (app.py:12-17, 32-64): these are user
  interface. The choices they yield are the `Criteria` parameter, and the
  lists the widgets offer are not modelled.
- Rendering (app.py:82-83, 93-97, 101, 104-105, 109, 111-112, 116, 118-120,
  124-125): titles, number formatting, charts and the data table are output
  only. The "n transactions" line shows `|Render(ds, c).view|`.
- Time of day: dates are whole days. If the order date column carried a time,
  the code's comparison with midnight of the end date would leave out that
  day's later lines. The model cannot show this.
- Missing values: pandas drops NaN keys in `groupby`, `value_counts` and
  `nunique`. The model has no missing values.
- Aggregation.TotalSales: prices are integer rupiah; floating-point summation
  of a float column is not modelled.
- Aggregation.TotalSales, Aggregation.TotalQuantity, Frames.SumOf: pandas sums
  an int64 column with silent wrap-around past 2^63 - 1, while the model's
  `int` is unbounded. Realistic rupiah totals stay far below that bound.
- Aggregation.AverageOrderValue: exact real division stands for Python's float
  division, so rounding is not modelled.
- Sales.MonthKey: the "YYYY-MM" period string is modelled by the number
  YYYYMM. Both sort the same for four-digit years, and `MonthKeyFaithful`
  shows the key identifies the month.
- Aggregation.TopProducts: the order among products with equal quantity is
  not stated. pandas `groupby` sorts names and its default sort is not stable.
  The model ranks ties by first appearance, and the contracts claim nothing
  about it.
- Aggregation.GenderCounts: the order among genders with equal counts is not
  stated in its contract. The two-line scenario lemmas rely on the model's
  first-appearance order for ties.
- The `year_month` column added to the view in place (app.py:102) is a derived
  function (`YearMonth`), not a mutation of the view.
