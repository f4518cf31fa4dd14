/** The list page (src/classes/seeall.ts): which stored list it shows, and
    `renderTransactions`, which groups the records under a date label, pairs
    each with its position in the shown list (the id of its link) and keeps
    the shown list under `allTransactions` for the category page. The date
    label ("Today", "Yesterday", or month and year) is a parameter. */
module SeeAll {
  import opened Common
  import opened Records
  import opened Storage
  import opened Insights
  import Filter

  /** A record with its position in the shown list. */
  datatype Entry = Entry(index: nat, task: Task)

  /** `tasks.forEach((task, index) => ...)`. */
  function Enumerate(tasks: seq<Task>): (es: seq<Entry>)
    ensures |es| == |tasks|
    ensures forall i :: 0 <= i < |es| ==> es[i] == Entry(i, tasks[i])
  {
    seq(|tasks|, i requires 0 <= i < |tasks| => Entry(i, tasks[i]))
  }

  /** The group label of an entry, from the label of its record's date. */
  function LabelOf(dateLabel: Date -> string): Entry -> string {
    (e: Entry) => dateLabel(e.task.createdAt)
  }

  /** Positions strictly increase along the list. */
  predicate Ascending(es: seq<Entry>) {
    forall i, j :: 0 <= i < j < |es| ==> es[i].index < es[j].index
  }

  /** Deleting entries keeps positions increasing. */
  lemma {:induction false} SubseqAscending(a: seq<Entry>, b: seq<Entry>)
    requires SubseqOf(a, b) && Ascending(b)
    ensures Ascending(a)
    decreases |b|
  {
    if |a| > 0 {
      assert Ascending(b[1..]);
      if a[0] == b[0] && SubseqOf(a[1..], b[1..]) {
        SubseqAscending(a[1..], b[1..]);
        SubseqOfMembers(a[1..], b[1..]);
        forall j | 0 < j < |a|
          ensures a[0].index < a[j].index
        {
          assert a[j] in a[1..];
          var m :| 0 <= m < |b[1..]| && b[1..][m] == a[j];
          assert b[m + 1] == a[j];
        }
      } else {
        SubseqAscending(a, b[1..]);
      }
    }
  }

  /** The facts about the date groups of a shown list: they partition its
      entries, each entry carries its record's true position, and each group
      lists its entries in the order of the list. */
  lemma GroupedEntries(tasks: seq<Task>, dateLabel: Date -> string)
    ensures var gs := GroupBy(Enumerate(tasks), LabelOf(dateLabel));
            && Partitions(gs, Enumerate(tasks), LabelOf(dateLabel))
            && (forall i, j :: 0 <= i < |gs| && 0 <= j < |gs[i].members| ==>
                  gs[i].members[j].index < |tasks| && tasks[gs[i].members[j].index] == gs[i].members[j].task)
            && (forall i :: 0 <= i < |gs| ==> Ascending(gs[i].members))
  {
    var es := Enumerate(tasks);
    var gs := GroupBy(es, LabelOf(dateLabel));
    forall i | 0 <= i < |gs|
      ensures Ascending(gs[i].members)
      ensures forall j :: 0 <= j < |gs[i].members| ==>
                gs[i].members[j].index < |tasks| && tasks[gs[i].members[j].index] == gs[i].members[j].task
    {
      SubseqAscending(gs[i].members, es);
      forall j | 0 <= j < |gs[i].members|
        ensures gs[i].members[j].index < |tasks| && tasks[gs[i].members[j].index] == gs[i].members[j].task
      {
        assert gs[i].members[j] in es;
      }
    }
  }

  /** The groups of a shown list under "Today", "Yesterday", or month and
      year, as the date label gives them. */
  function DateGroups(tasks: seq<Task>, dateLabel: Date -> string): (gs: seq<Group<string, Entry>>)
    ensures Partitions(gs, Enumerate(tasks), LabelOf(dateLabel))
    ensures forall i, j :: 0 <= i < |gs| && 0 <= j < |gs[i].members| ==>
              gs[i].members[j].index < |tasks| && tasks[gs[i].members[j].index] == gs[i].members[j].task
    ensures forall i :: 0 <= i < |gs| ==> Ascending(gs[i].members)
  {
    GroupedEntries(tasks, dateLabel);
    GroupBy(Enumerate(tasks), LabelOf(dateLabel))
  }

  datatype Listing =
    | NothingToList(filtered: bool)              // "No filtered/available transactions found."
    | Listed(groups: seq<Group<string, Entry>>)
    | ListingFailed                              // `task.amount.toFixed` on a null amount throws

  datatype Rendered = Rendered(listing: Listing, store: Store)

  /** `renderTransactions(tasks, isFiltered)`. A non-empty list is written to
      `allTransactions` before the sections are rendered; rendering a record
      whose amount is null throws. */
  function RenderTransactions(tasks: seq<Task>, isFiltered: bool, store: Store, dateLabel: Date -> string): (r: Rendered)
    ensures r.listing.NothingToList? <==> |tasks| == 0
    ensures |tasks| == 0 ==> r == Rendered(NothingToList(isFiltered), store)
    ensures |tasks| > 0 ==> r.store == store[AllTransactionsKey := TaskList(tasks)]
    ensures r.listing.ListingFailed? <==> exists t :: t in tasks && t.amount.None?
    ensures r.listing.Listed? ==> r.listing.groups == DateGroups(tasks, dateLabel)
    ensures WellFormed(store) ==> WellFormed(r.store)
  {
    if |tasks| == 0 then Rendered(NothingToList(isFiltered), store)
    else
      var stored := store[AllTransactionsKey := TaskList(tasks)];
      if exists t :: t in tasks && t.amount.None? then Rendered(ListingFailed, stored)
      else Rendered(Listed(DateGroups(tasks, dateLabel)), stored)
  }

  /** The list the page shows: search results after a search, filter results
      after a filter, otherwise every record; a missing key gives []. */
  function SourceList(store: Store, search: bool, filtered: bool): (r: seq<Task>)
    ensures search ==> r == StoredList(store, SearchResultsKey)
    ensures !search && filtered ==> r == StoredList(store, FilteredResultsKey)
    ensures !search && !filtered ==> r == LoadTasks(store)
  {
    if search then StoredList(store, SearchResultsKey)
    else if filtered then StoredList(store, FilteredResultsKey)
    else LoadTasks(store)
  }

  /** The redirect after a search shows exactly the search results. */
  lemma SearchRedirectShowsResults(raw: string, store: Store, filtered: bool)
    ensures var r := Filter.Search(raw, store);
            r.ShowSearchResults? ==> SourceList(r.store, true, filtered) == r.results
  {
  }

  /** The redirect after applying a filter shows exactly the filter results. */
  lemma FilterRedirectShowsResults(c: Filter.Criteria, store: Store)
    ensures var r := Filter.ApplyFilter(c, store);
            r.ShowFilterResults? ==> SourceList(r.store, false, true) == r.results
  {
  }

  datatype SeeAllView = SeeAllView(listing: Listing, store: Store, alert: bool)

  /** Rendering writes only `allTransactions`, which no budget figure reads. */
  lemma RenderKeepsBudgetState(tasks: seq<Task>, isFiltered: bool, store: Store, dateLabel: Date -> string)
    ensures var r := RenderTransactions(tasks, isFiltered, store, dateLabel);
            && LoadTasks(r.store) == LoadTasks(store)
            && BudgetOf(r.store) == BudgetOf(store)
            && LatchOf(r.store) == LatchOf(store)
            && (|tasks| > 0 ==> StoredList(r.store, AllTransactionsKey) == tasks)
  {
  }

  /** The budget display update touches no list. */
  lemma SyncKeepsList(store: Store, now: Date, key: string)
    requires key != NotificationKey
    ensures StoredList(UpdateBudgetDisplay(store, now).store, key) == StoredList(store, key)
  {
    var after := UpdateBudgetDisplay(store, now).store;
    assert key in after <==> key in store;
    assert key in store ==> after[key] == store[key];
  }

  /** The list page's own load handler: render the chosen list, then update
      the budget display (skipped when rendering threw). */

  function SeeAllPage(search: bool, filtered: bool, store: Store, now: Date, dateLabel: Date -> string): (p: SeeAllView)
    ensures p.listing == RenderTransactions(SourceList(store, search, filtered), search || filtered, store, dateLabel).listing
    ensures SameExcept(store, p.store, {AllTransactionsKey, NotificationKey})
    ensures |SourceList(store, search, filtered)| > 0 ==>
              StoredList(p.store, AllTransactionsKey) == SourceList(store, search, filtered)
    ensures p.listing.ListingFailed? ==> !p.alert && LatchOf(p.store) == LatchOf(store)
    ensures !p.listing.ListingFailed? ==>
              var s := Step(LatchOf(store), RemainingBudget(store, now), BudgetOf(store));
              p.alert == s.alert && LatchOf(p.store) == s.next
    ensures WellFormed(store) ==> WellFormed(p.store)
  {
    var rendered := RenderTransactions(SourceList(store, search, filtered), search || filtered, store, dateLabel);
    RenderKeepsBudgetState(SourceList(store, search, filtered), search || filtered, store, dateLabel);
    SyncKeepsList(rendered.store, now, AllTransactionsKey);
    if rendered.listing.ListingFailed? then SeeAllView(rendered.listing, rendered.store, false)
    else
      var synced := UpdateBudgetDisplay(rendered.store, now);
      SeeAllView(rendered.listing, synced.store, synced.alert)
  }

  /** The budget display update leaves the shown list and the budget figures
      as they were. */
  lemma SyncKeepsPageInputs(store: Store, now: Date, search: bool, filtered: bool)
    ensures var after := UpdateBudgetDisplay(store, now).store;
            && SourceList(after, search, filtered) == SourceList(store, search, filtered)
            && BudgetOf(after) == BudgetOf(store)
            && RemainingBudget(after, now) == RemainingBudget(store, now)
  {
    var after := UpdateBudgetDisplay(store, now).store;
    SyncKeepsList(store, now, TasksKey);
    SyncKeepsList(store, now, SearchResultsKey);
    SyncKeepsList(store, now, FilteredResultsKey);
    assert BudgetKey in after <==> BudgetKey in store;
    assert BudgetKey in store ==> after[BudgetKey] == store[BudgetKey];
  }

  /** What the list shows does not depend on the rest of the store. */
  lemma ListingIgnoresStore(tasks: seq<Task>, isFiltered: bool, a: Store, b: Store, dateLabel: Date -> string)
    ensures RenderTransactions(tasks, isFiltered, a, dateLabel).listing == RenderTransactions(tasks, isFiltered, b, dateLabel).listing
  {
  }

  /** The whole load of the list page. seeall.ts imports insights.js, whose
      load listener is registered first and updates the budget display on
      the stored records; the list page's own handler runs after it. The
      latch therefore runs even when rendering throws, and the handler's
      second run changes nothing. */
  function SeeAllLoad(search: bool, filtered: bool, store: Store, now: Date, dateLabel: Date -> string): (p: SeeAllView)
    ensures p.listing == RenderTransactions(SourceList(store, search, filtered), search || filtered, store, dateLabel).listing
    ensures SameExcept(store, p.store, {AllTransactionsKey, NotificationKey})
    ensures |SourceList(store, search, filtered)| > 0 ==>
              StoredList(p.store, AllTransactionsKey) == SourceList(store, search, filtered)
    ensures var s := Step(LatchOf(store), RemainingBudget(store, now), BudgetOf(store));
            p.alert == s.alert && LatchOf(p.store) == s.next
    ensures !SeeAllPage(search, filtered, UpdateBudgetDisplay(store, now).store, now, dateLabel).alert
    ensures WellFormed(store) ==> WellFormed(p.store)
  {
    var first := UpdateBudgetDisplay(store, now);
    var tasks := SourceList(store, search, filtered);
    SyncKeepsPageInputs(store, now, search, filtered);
    ListingIgnoresStore(tasks, search || filtered, first.store, store, dateLabel);
    StepSettles(LatchOf(store), RemainingBudget(store, now), BudgetOf(store));
    var page := SeeAllPage(search, filtered, first.store, now, dateLabel);
    SeeAllView(page.listing, page.store, first.alert || page.alert)
  }
}
