/** Browser local storage as a map from key to value, and the readers the
    pages share (`loadTasksFromLocalStorage` in src/index.ts and the inline
    `localStorage.getItem(...)` calls). JSON encoding is abstracted away: a
    stored list is kept as the list itself. */
module Storage {
  import opened Common
  import opened Records

  /** What the tracker writes under its keys: a JSON list of records, the
      budget as a two-decimal string (kept as its value in cents), or the
      literal "true" of the notification flag. */
  datatype Value = TaskList(tasks: seq<Task>) | BudgetText(cents: Cents) | Marker(text: string)

  type Store = map<string, Value>

  const TasksKey: string := "tasks"
  const BudgetKey: string := "monthlyBudget"
  const NotificationKey: string := "notificationSent"
  const SearchResultsKey: string := "searchResults"
  const FilteredResultsKey: string := "filteredResults"
  const AllTransactionsKey: string := "allTransactions"

  predicate IsListKey(key: string) {
    key == TasksKey || key == SearchResultsKey || key == FilteredResultsKey || key == AllTransactionsKey
  }

  /** Every key holds the kind of value the tracker writes under it. */
  ghost predicate WellFormed(store: Store) {
    && (forall key :: key in store && IsListKey(key) ==> store[key].TaskList?)
    && (BudgetKey in store ==> store[BudgetKey].BudgetText?)
    && (NotificationKey in store ==> store[NotificationKey] == Marker("true"))
  }

  /** The list stored under `key`, or `None` when the key is absent. */
  function ListAt(store: Store, key: string): (r: Option<seq<Task>>)
    ensures key !in store ==> r.None?
    ensures WellFormed(store) && IsListKey(key) && key in store ==> r == Some(store[key].tasks)
  {
    if key in store && store[key].TaskList? then Some(store[key].tasks) else None
  }

  /** `JSON.parse(localStorage.getItem(key) || "[]")`. */
  function StoredList(store: Store, key: string): (r: seq<Task>)
    ensures key !in store ==> r == []
    ensures ListAt(store, key).Some? ==> r == ListAt(store, key).value
  {
    match ListAt(store, key)
    case Some(ts) => ts
    case None => []
  }

  /** `loadTasksFromLocalStorage`: the stored list, or [] when the `tasks`
      key is absent. */
  function LoadTasks(store: Store): (r: seq<Task>)
    ensures TasksKey !in store ==> r == []
    ensures WellFormed(store) && TasksKey in store ==> r == store[TasksKey].tasks
  {
    StoredList(store, TasksKey)
  }

  /** `parseFloat(localStorage.getItem("monthlyBudget") || "0")`: a missing
      budget reads as 0. */
  function BudgetOf(store: Store): (r: Cents)
    ensures BudgetKey !in store ==> r == 0
    ensures WellFormed(store) && BudgetKey in store ==> r == store[BudgetKey].cents
  {
    if BudgetKey in store && store[BudgetKey].BudgetText? then store[BudgetKey].cents else 0
  }

  /** The flag `notificationSent` is set. */
  predicate NotificationSent(store: Store) {
    NotificationKey in store
  }

  /** The two stores agree on every key outside `keys`. */
  ghost predicate SameExcept(a: Store, b: Store, keys: set<string>) {
    forall key :: key !in keys ==> (key in a <==> key in b) && (key in a ==> a[key] == b[key])
  }
}
