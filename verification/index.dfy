/** The home page script (src/index.ts): saving the record list, which
    re-runs the budget display, and the list of the five latest records with
    their links to the detail page. Loading is `Storage.LoadTasks`. */
module Index {
  import opened Common
  import opened Text
  import opened Records
  import opened Storage
  import opened Insights

  /** `saveTasksToLocalStorage`: write the list under `tasks`, then update
      the budget display and the remaining balance (both show
      `RemainingBudget` of the new store). */
  function SaveTasks(store: Store, tasks: seq<Task>, now: Date): (r: Synced)
    ensures LoadTasks(r.store) == tasks
    ensures r.remaining == RemainingBudget(store[TasksKey := TaskList(tasks)], now)
    ensures SameExcept(store, r.store, {TasksKey, NotificationKey})
    ensures var s := Step(LatchOf(store), r.remaining, BudgetOf(store));
            r.alert == s.alert && LatchOf(r.store) == s.next
    ensures WellFormed(store) ==> WellFormed(r.store)
  {
    var written := store[TasksKey := TaskList(tasks)];
    assert WellFormed(store) ==> WellFormed(written);
    assert LatchOf(written) == LatchOf(store) && BudgetOf(written) == BudgetOf(store);
    UpdateBudgetDisplay(written, now)
  }

  /** The remaining balance shown after a save never exceeds the budget when
      no amount of the new list is negative, and the stored list is read back
      unchanged. */
  lemma SaveThenLoad(store: Store, tasks: seq<Task>, now: Date)
    requires AllNonNegative(tasks) && BudgetOf(store) >= 0
    ensures LoadTasks(SaveTasks(store, tasks, now).store) == tasks
    ensures 0 <= SaveTasks(store, tasks, now).remaining <= BudgetOf(store)
  {
    var written := store[TasksKey := TaskList(tasks)];
    assert LoadTasks(written) == tasks;
    assert BudgetOf(written) == BudgetOf(store);
    RemainingAtMostBudget(written, now);
  }

  /** One entry of the home list: the link `content.html?id=<id>` around a
      record. */
  datatype Link = Link(id: string, task: Task)

  datatype HomeView =
    | NoTransactionsToDisplay    // "No transactions to display."
    | Latest(links: seq<Link>)

  const HomeListLength: nat := 5

  function Min(a: int, b: int): int {
    if a < b then a else b
  }

  /** `renderToDoList`: the first five records, each linked by its position
      in the list. */
  function LatestFive(tasks: seq<Task>): (v: HomeView)
    ensures v.NoTransactionsToDisplay? <==> |tasks| == 0
    ensures v.Latest? ==> |v.links| == Min(HomeListLength, |tasks|)
    ensures v.Latest? ==> forall i :: 0 <= i < |v.links| ==> v.links[i].task == tasks[i]
    ensures v.Latest? ==> forall i :: 0 <= i < |v.links| ==> ParseInt(v.links[i].id) == Some(i)
  {
    if |tasks| == 0 then NoTransactionsToDisplay
    else
      var n := Min(HomeListLength, |tasks|);
      var links := seq(n, i requires 0 <= i < n => Link(NatToString(i), tasks[i]));
      assert forall i :: 0 <= i < n ==> ParseInt(links[i].id) == Some(i) by {
        forall i | 0 <= i < n
          ensures ParseInt(links[i].id) == Some(i)
        {
          ParseIntOfNat(i, []);
          assert NatToString(i) + [] == NatToString(i);
        }
      }
      Latest(links)
  }

  /** The shown records are exactly the prefix of at most five, and no two
      links carry the same id. */
  lemma LatestFiveIsPrefix(tasks: seq<Task>)
    requires |tasks| > 0
    ensures var links := LatestFive(tasks).links;
            (forall i :: 0 <= i < |links| ==> links[i].task == tasks[..|links|][i])
            && |links| <= |tasks|
            && forall i, j :: 0 <= i < j < |links| ==> links[i].id != links[j].id
  {
    var links := LatestFive(tasks).links;
    forall i, j | 0 <= i < j < |links|
      ensures links[i].id != links[j].id
    {
      assert ParseInt(links[i].id) == Some(i);
      assert ParseInt(links[j].id) == Some(j);
    }
  }
}
