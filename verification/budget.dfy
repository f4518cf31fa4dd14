/** The budget page (src/classes/adjustbudget.ts): saving and deleting the
    monthly budget, as transitions of the `monthlyBudget` key and their effect
    on the low-budget alert. */
module BudgetPage {
  import opened Common
  import opened Records
  import opened Storage
  import opened Insights

  datatype SaveOutcome =
    | EnterValidAmount                            // "Please enter a valid amount to save."
    | BudgetSaved(store: Store, warned: bool)     // then "Monthly budget saved: ..."

  /** The save button. `field` is the input's value in cents, `None` when
      the field is empty. The notifier is called with the new budget as both
      remaining and total amount. */
  function SaveBudget(store: Store, field: Option<Cents>): (r: SaveOutcome)
    ensures r.EnterValidAmount? <==> field.None?
    ensures r.BudgetSaved? ==>
              && r.store == store[BudgetKey := BudgetText(field.value)]
              && BudgetOf(r.store) == field.value
              && SameExcept(store, r.store, {BudgetKey})
              && NotificationSent(r.store) == NotificationSent(store)
              && (r.warned <==> field.value <= 0)
    ensures r.BudgetSaved? && WellFormed(store) ==> WellFormed(r.store)
  {
    match field
    case None => EnterValidAmount
    case Some(v) => BudgetSaved(store[BudgetKey := BudgetText(v)], Warns(v, v))
  }

  /** Saving a budget leaves a set alert flag set, even when the new budget
      is far above the month's spend: only the next display update clears
      it. */
  lemma SaveLeavesLatchAlone(store: Store, v: Cents)
    requires NotificationSent(store)
    ensures v > 0 ==> !SaveBudget(store, Some(v)).warned
    ensures LatchOf(SaveBudget(store, Some(v)).store) == Alerted
  {
  }

  /** The delete button: remove the budget, then update the budget display. */
  function DeleteBudget(store: Store, now: Date): (r: Synced)
    ensures BudgetKey !in r.store && BudgetOf(r.store) == 0
    ensures SameExcept(store, r.store, {BudgetKey, NotificationKey})
    ensures r.remaining == RemainingBudget(store - {BudgetKey}, now)
    ensures r.remaining == if MonthSpend(LoadTasks(store), now) < 0 then -MonthSpend(LoadTasks(store), now) else 0
    ensures var s := Step(LatchOf(store), r.remaining, 0);
            r.alert == s.alert && LatchOf(r.store) == s.next
    ensures WellFormed(store) ==> WellFormed(r.store)
  {
    var removed := store - {BudgetKey};
    assert LoadTasks(removed) == LoadTasks(store);
    assert LatchOf(removed) == LatchOf(store);
    UpdateBudgetDisplay(removed, now)
  }

  /** With no negative amounts, deleting the budget leaves nothing remaining,
      raises no alert and leaves the alert flag as it was: a flag set before
      the delete is not cleared. */
  lemma DeleteKeepsFlag(store: Store, now: Date)
    requires AllNonNegative(LoadTasks(store))
    ensures var r := DeleteBudget(store, now);
            && r.remaining == 0
            && !r.alert
            && NotificationSent(r.store) == NotificationSent(store)
  {
    var removed := store - {BudgetKey};
    assert LoadTasks(removed) == LoadTasks(store);
    assert LatchOf(removed) == LatchOf(store);
  }
}
