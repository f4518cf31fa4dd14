/** The category page (`renderCategoryTransactions` in src/classes/type.ts):
    the current-month records of one category, taken from the list the list
    page last showed (`allTransactions`), their total and their grouping by
    date. The date label is a parameter. */
module CategoryPage {
  import opened Common
  import opened Records
  import opened Storage
  import opened Insights

  /** The records of `category` in the month of `now`, in input order. */
  function CategoryRecords(ts: seq<Task>, category: string, now: Date): (r: seq<Task>)
    ensures forall t :: t in r <==> t in ts && t.category == category && InMonth(t, now)
    ensures SubseqOf(r, ts)
    ensures forall t {:trigger multiset(r)[t]} :: multiset(r)[t] == if t.category == category && InMonth(t, now) then multiset(ts)[t] else 0
  {
    Filter(ts, (t: Task) => t.category == category && InMonth(t, now))
  }

  /** The group label of a record, from the label of its date. */
  function DateOf(dateKey: Date -> string): Task -> string {
    (t: Task) => dateKey(t.createdAt)
  }

  datatype CategoryView =
    | InvalidCategory                                   // "Invalid category. Go back"
    | NoSavedTransactions                               // "No transactions found."
    | NoneForCategory(category: string, total: Cents)   // "No transactions for this category."
    | CategoryListing(category: string, total: Cents, groups: seq<Group<string, Task>>)
    | CategoryListingFailed(category: string, total: Cents)   // `task.amount.toFixed` on a null amount throws

  /** The page for the URL parameter `category` (`None` when absent). The
      heading and the total are set before the list is rendered. */
  function RenderCategory(category: Option<string>, store: Store, now: Date, dateKey: Date -> string): (v: CategoryView)
    ensures v.InvalidCategory? <==> category.None? || category.value == []
    ensures v.NoSavedTransactions? <==>
              category.Some? && category.value != [] && ListAt(store, AllTransactionsKey).None?
    ensures !v.InvalidCategory? && !v.NoSavedTransactions? ==>
              var shown := CategoryRecords(StoredList(store, AllTransactionsKey), category.value, now);
              && v.category == category.value
              && v.total == Spend(shown)
              && (v.NoneForCategory? <==> |shown| == 0)
              && (v.CategoryListingFailed? <==> exists t :: t in shown && t.amount.None?)
              && (v.CategoryListing? ==> Partitions(v.groups, shown, DateOf(dateKey)))
    ensures v.NoneForCategory? ==> v.total == 0
  {
    match category
    case None => InvalidCategory
    case Some(c) =>
      if c == [] then InvalidCategory
      else match ListAt(store, AllTransactionsKey)
        case None => NoSavedTransactions
        case Some(all) =>
          var shown := CategoryRecords(all, c, now);
          var total := Spend(shown);
          if |shown| == 0 then NoneForCategory(c, total)
          else if exists t :: t in shown && t.amount.None? then CategoryListingFailed(c, total)
          else CategoryListing(c, total, GroupBy(shown, DateOf(dateKey)))
  }

  /** The category page selects the same records as that category's entry
      of the insights breakdown. */
  lemma {:induction false} CategoryRecordsAreBreakdownGroup(ts: seq<Task>, category: string, now: Date)
    ensures CategoryRecords(ts, category, now) == KeyedBy(CurrentMonth(ts, now), CategoryOf, category)
    decreases |ts|
  {
    if |ts| > 0 {
      CategoryRecordsAreBreakdownGroup(ts[1..], category, now);
      var month := CurrentMonth(ts, now);
      var rest := CurrentMonth(ts[1..], now);
      if InMonth(ts[0], now) {
        assert month == [ts[0]] + rest;
        assert month[1..] == rest;
      } else {
        assert month == rest;
      }
    }
  }

  /** When `allTransactions` holds the stored records (the list page showed
      every record), the page of a (named) category of the breakdown lists
      records and shows that category's breakdown total. */
  lemma CategoryTotalMatchesBreakdown(store: Store, now: Date, dateKey: Date -> string, i: int)
    requires ListAt(store, AllTransactionsKey) == Some(LoadTasks(store))
    requires 0 <= i < |CategoryTotals(LoadTasks(store), now)|
    requires CategoryTotals(LoadTasks(store), now)[i].category != []
    ensures var ct := CategoryTotals(LoadTasks(store), now)[i];
            var v := RenderCategory(Some(ct.category), store, now, dateKey);
            !v.InvalidCategory? && !v.NoSavedTransactions? && !v.NoneForCategory? && v.total == ct.total
  {
    var ts := LoadTasks(store);
    var cts := CategoryTotals(ts, now);
    var ct := cts[i];
    CategoryRecordsAreBreakdownGroup(ts, ct.category, now);
    assert HasTotal(cts, ct.category);
    var t :| t in CurrentMonth(ts, now) && t.category == ct.category;
    assert t in CategoryRecords(ts, ct.category, now);
  }
}
