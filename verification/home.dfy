/** The add-expense form of the home page (`addTaskButton` in
    src/classes/home.ts): validation, the category image, construction of the
    record, prepending it to the list, re-rendering and saving. */
module Home {
  import opened Common
  import opened Text
  import opened Records
  import opened Storage
  import opened Insights
  import opened Index

  /** The four inputs. `date` is `None` for an empty date field; `amount` is
      `parseFloat` of the amount field, `None` when that is NaN. */
  datatype ExpenseForm = ExpenseForm(category: string, description: string, date: Option<Date>, amount: Option<Cents>)

  /** Some character of `s` is not white space. */
  predicate HasText(s: string) {
    exists i :: 0 <= i < |s| && !IsWhite(s[i])
  }

  /** The validation of the form. A NaN amount passes: `NaN <= 0` is false. */
  function FormValid(f: ExpenseForm): (b: bool)
    ensures b <==>
              && f.category != []
              && HasText(f.description)
              && f.date.Some?
              && (f.amount.None? || f.amount.value > 0)
  {
    && f.category != []
    && Trim(f.description) != []
    && f.date.Some?
    && !(f.amount.Some? && f.amount.value <= 0)
  }

  const KnownCategories: set<string> := {"Food", "Entertainment", "Transport", "Groceries"}

  /** The picture of a category: one of its own for the four known
      categories, a shared default for every other. */
  function ImageFor(category: string): (path: string)
    ensures category in KnownCategories <==> path != "img/default.png"
  {
    if category == "Food" then "img/food.png"
    else if category == "Entertainment" then "img/entertainment.png"
    else if category == "Transport" then "img/transport.png"
    else if category == "Groceries" then "img/groceries.png"
    else "img/default.png"
  }

  /** The icon paths built from the lower-cased names of the four known
      categories. */
  lemma FoodIconPath()
    ensures "img/" + Lower("Food") + ".png" == "img/food.png"
  {
  }

  lemma EntertainmentIconPath()
    ensures "img/" + Lower("Entertainment") + ".png" == "img/entertainment.png"
  {
  }

  lemma TransportIconPath()
    ensures "img/" + Lower("Transport") + ".png" == "img/transport.png"
  {
  }

  lemma GroceriesIconPath()
    ensures "img/" + Lower("Groceries") + ".png" == "img/groceries.png"
  {
  }

  /** The picture of a known category is the icon the insights breakdown
      derives from the lower-cased category name. */
  lemma ImageMatchesBreakdownIcon(category: string)
    requires category in KnownCategories
    ensures ImageFor(category) == "img/" + Lower(category) + ".png"
  {
    if category == "Food" {
      FoodIconPath();
    } else if category == "Entertainment" {
      EntertainmentIconPath();
    } else if category == "Transport" {
      TransportIconPath();
    } else {
      GroceriesIconPath();
    }
  }

  /** The record a valid form produces. */
  function NewTask(f: ExpenseForm): (t: Task)
    requires f.date.Some?
    ensures t.category == f.category && t.createdAt == f.date.value && t.amount == f.amount
    ensures t.description == Words(Trim(f.description))
    ensures t.image == ImageFor(f.category)
  {
    Task(f.category, Words(Trim(f.description)), f.date.value, f.amount, ImageFor(f.category))
  }

  datatype AddOutcome =
    | FillAllFields              // "Please fill all fields correctly."
    | Added(view: HomeView, alert: bool)

  /** The page's list, the store and what the user sees after a click. */
  datatype AddResult = AddResult(tasks: seq<Task>, store: Store, outcome: AddOutcome)

  /** The click handler: `tasks` is the list the page loaded. On a valid form
      the new record goes to the front, the home list is re-rendered and the
      whole list is saved. */
  function AddExpense(tasks: seq<Task>, f: ExpenseForm, store: Store, now: Date): (r: AddResult)
    ensures r.outcome.FillAllFields? <==> !FormValid(f)
    ensures r.outcome.FillAllFields? ==> r.tasks == tasks && r.store == store
    ensures r.outcome.Added? ==>
              && r.tasks == [NewTask(f)] + tasks
              && LoadTasks(r.store) == r.tasks
              && r.outcome.view == LatestFive(r.tasks)
              && SameExcept(store, r.store, {TasksKey, NotificationKey})
    ensures r.outcome.Added? ==>
              var s := Step(LatchOf(store), RemainingBudget(store[TasksKey := TaskList(r.tasks)], now), BudgetOf(store));
              r.outcome.alert == s.alert && LatchOf(r.store) == s.next
    ensures WellFormed(store) ==> WellFormed(r.store)
  {
    if !FormValid(f) then AddResult(tasks, store, FillAllFields)
    else
      var updated := [NewTask(f)] + tasks;
      var view := LatestFive(updated);
      var saved := SaveTasks(store, updated, now);
      AddResult(updated, saved.store, Added(view, saved.alert))
  }

  /** The amount check lets a non-numeric amount through: the record is
      added with a missing amount, which every total reads as 0. */
  lemma NonNumericAmountAccepted(tasks: seq<Task>, category: string, description: string, d: Date, store: Store, now: Date)
    requires category != [] && Trim(description) != []
    ensures var r := AddExpense(tasks, ExpenseForm(category, description, Some(d), None), store, now);
            r.outcome.Added? && r.tasks[0].amount.None? && AmountOf(r.tasks[0]) == 0
  {
  }

  /** Two successful adds leave the later record first, then the earlier
      one, then the original list. */
  lemma {:induction false} AddsStackNewestFirst(tasks: seq<Task>, f: ExpenseForm, g: ExpenseForm, store: Store, now: Date)
    requires FormValid(f) && FormValid(g)
    ensures var first := AddExpense(tasks, f, store, now);
            var second := AddExpense(first.tasks, g, first.store, now);
            second.tasks == [NewTask(g), NewTask(f)] + tasks
            && LoadTasks(second.store) == second.tasks
  {
    assert [NewTask(g)] + ([NewTask(f)] + tasks) == [NewTask(g), NewTask(f)] + tasks;
  }

  /** A record added in the current month raises the month's spend by its
      amount. */
  lemma AddedRecordCounts(tasks: seq<Task>, f: ExpenseForm, store: Store, now: Date)
    requires FormValid(f) && f.date.value.month == now.month && f.date.value.year == now.year
    ensures var r := AddExpense(tasks, f, store, now);
            MonthSpend(r.tasks, now) == AmountOf(NewTask(f)) + MonthSpend(tasks, now)
  {
    MonthSpendOfPrepended(NewTask(f), tasks, now);
  }
}
