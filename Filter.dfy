/** The filter the sidebar drives (app.py lines 68-76): a date window and a
    category selection applied as one boolean mask, then, unless the product
    selection is the sentinel "All", a second mask on the product name. */
module Filter {
  import opened Frames
  import opened Sales

  /** The product-selection entry that means "no restriction on the product". */
  const ALL_PRODUCTS: string := "All"

  /** The values chosen in the sidebar: start and end date, the selected
      categories (possibly none) and the selected product or ALL_PRODUCTS. */
  datatype Criteria = Criteria(startDate: Date, endDate: Date, categories: set<string>, product: string)

  /** The first mask: start <= order date <= end, both bounds included, and the
      category among the selected ones. */
  function DateCategoryMask(c: Criteria): (m: Transaction -> bool)
    ensures forall t :: m(t) <==> Selected(c.(product := ALL_PRODUCTS), t)
    ensures forall t :: Selected(c, t) ==> m(t)
  {
    (t: Transaction) => OnOrBefore(c.startDate, t.orderDate) && OnOrBefore(t.orderDate, c.endDate) && t.category in c.categories
  }

  /** The second mask: the product name equals the selected one. For a chosen
      product it is exactly what the first mask leaves to test. */
  function ProductMask(product: string): (m: Transaction -> bool)
    ensures forall c: Criteria, t :: c.product == product && product != ALL_PRODUCTS ==> (Selected(c, t) <==> DateCategoryMask(c)(t) && m(t))
  {
    (t: Transaction) => t.productName == product
  }

  /** The three tests a line must pass to be shown. */
  predicate Selected(c: Criteria, t: Transaction)
  {
    && OnOrBefore(c.startDate, t.orderDate)
    && OnOrBefore(t.orderDate, c.endDate)
    && t.category in c.categories
    && (c.product == ALL_PRODUCTS || t.productName == c.product)
  }

  function SelectedMask(c: Criteria): Transaction -> bool
  {
    (t: Transaction) => Selected(c, t)
  }

  /** `filtered_df`: the lines of the dataset that pass all three tests. */
  function FilteredView(ds: seq<Transaction>, c: Criteria): (view: seq<Transaction>)
    ensures |view| <= |ds|
    ensures forall t :: t in view <==> t in ds && Selected(c, t)
  {
    var masked := Where(ds, DateCategoryMask(c));
    if c.product != ALL_PRODUCTS then Where(masked, ProductMask(c.product)) else masked
  }

  /** The two-stage filter is the single mask of the three tests. */
  lemma FilteredViewIsSelection(ds: seq<Transaction>, c: Criteria)
    ensures FilteredView(ds, c) == Where(ds, SelectedMask(c))
  {
    if c.product != ALL_PRODUCTS {
      WhereWhere(ds, DateCategoryMask(c), ProductMask(c.product), SelectedMask(c));
    } else {
      assert forall t :: DateCategoryMask(c)(t) == SelectedMask(c)(t);
      MasksAgree(ds, DateCategoryMask(c), SelectedMask(c));
    }
  }

  /** Masks that agree on every line select the same lines. */
  lemma {:induction false} MasksAgree(s: seq<Transaction>, p: Transaction -> bool, q: Transaction -> bool)
    requires forall t :: p(t) == q(t)
    ensures Where(s, p) == Where(s, q)
  {
    if s != [] {
      MasksAgree(s[1..], p, q);
    }
  }

  /** The view keeps the dataset's order: it is a subsequence of it. */
  lemma FilteredViewIsSubsequence(ds: seq<Transaction>, c: Criteria)
    ensures IsSubsequence(FilteredView(ds, c), ds)
  {
    FilteredViewIsSelection(ds, c);
    WhereIsSubsequence(ds, SelectedMask(c));
  }

  /** A line that passes the tests appears in the view as often as in the
      dataset; one that fails them does not appear at all. */
  lemma FilteredViewMultiplicity(ds: seq<Transaction>, c: Criteria, t: Transaction)
    ensures multiset(FilteredView(ds, c))[t] == if Selected(c, t) then multiset(ds)[t] else 0
  {
    FilteredViewIsSelection(ds, c);
    WhereMultiplicity(ds, SelectedMask(c), t);
  }

  /** With the product selection "All" the view is the date-and-category
      selection, unchanged. */
  lemma AllProductsKeepsDateCategoryView(ds: seq<Transaction>, c: Criteria)
    requires c.product == ALL_PRODUCTS
    ensures FilteredView(ds, c) == Where(ds, DateCategoryMask(c))
  {
  }

  /** An empty category selection selects no line, as `isin([])` keeps
      nothing. */
  lemma NoCategoriesSelectNothing(ds: seq<Transaction>, c: Criteria)
    requires c.categories == {}
    ensures FilteredView(ds, c) == []
  {
    FilteredViewIsSelection(ds, c);
    WhereNone(ds, SelectedMask(c));
  }

  /** A start date after the end date is not rejected; it selects no line. */
  lemma InvertedRangeSelectsNothing(ds: seq<Transaction>, c: Criteria)
    requires !OnOrBefore(c.startDate, c.endDate)
    ensures FilteredView(ds, c) == []
  {
    var v := FilteredView(ds, c);
    if v != [] {
      assert v[0] in v;
      OnOrBeforeTransitive(c.startDate, v[0].orderDate, c.endDate);
    }
  }

  /** Filtering the view again with the same criteria changes nothing. */
  lemma FilterIdempotent(ds: seq<Transaction>, c: Criteria)
    ensures FilteredView(FilteredView(ds, c), c) == FilteredView(ds, c)
  {
    var view := FilteredView(ds, c);
    FilteredViewIsSelection(ds, c);
    FilteredViewIsSelection(view, c);
    WhereWhere(ds, SelectedMask(c), SelectedMask(c), SelectedMask(c));
  }

  /** Choosing one product narrows the "All" view to the lines of that
      product. */
  lemma ProductNarrowsAllView(ds: seq<Transaction>, c: Criteria)
    requires c.product != ALL_PRODUCTS
    ensures FilteredView(ds, c) == Where(FilteredView(ds, c.(product := ALL_PRODUCTS)), ProductMask(c.product))
  {
  }
}
