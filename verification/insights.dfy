/** The insights page (public/classes/insights.js): the current-month
    aggregates, the remaining budget, the low-budget alert latch, the
    per-category breakdown and the days left in the month. "Now" is a
    parameter. */
module Insights {
  import opened Common
  import opened Records
  import opened Storage

  // ---------------------------------------------------------------------------
  // Current-month spend and remaining budget
  // ---------------------------------------------------------------------------

  /** The records of the calendar month of `now`, in input order. */
  function CurrentMonth(ts: seq<Task>, now: Date): (r: seq<Task>)
    ensures forall t :: t in r <==> t in ts && InMonth(t, now)
    ensures SubseqOf(r, ts)
    ensures forall t {:trigger multiset(r)[t]} :: multiset(r)[t] == if InMonth(t, now) then multiset(ts)[t] else 0
  {
    Filter(ts, t => InMonth(t, now))
  }

  /** Total spent in the month of `now`; other months contribute nothing. */
  function MonthSpend(ts: seq<Task>, now: Date): (r: Cents)
    ensures AllNonNegative(ts) ==> r >= 0
    ensures (forall t :: t in ts ==> !InMonth(t, now)) ==> r == 0
  {
    var month := CurrentMonth(ts, now);
    assert |month| > 0 ==> month[0] in month;
    Spend(month)
  }

  /** A record from another month (or the same month of another year)
      leaves the month's spend unchanged; one from this month adds its amount. */
  lemma MonthSpendOfPrepended(t: Task, ts: seq<Task>, now: Date)
    ensures MonthSpend([t] + ts, now) == (if InMonth(t, now) then AmountOf(t) else 0) + MonthSpend(ts, now)
  {
    assert ([t] + ts)[1..] == ts;
  }

  /** `calculateRemainingBudget("monthlyBudget")`: the budget minus this
      month's spend, never below zero. */
  function RemainingBudget(store: Store, now: Date): (r: Cents)
    ensures r >= 0
    ensures r >= BudgetOf(store) - MonthSpend(LoadTasks(store), now)
    ensures r == 0 || r == BudgetOf(store) - MonthSpend(LoadTasks(store), now)
  {
    var spend := MonthSpend(LoadTasks(store), now);
    var left := BudgetOf(store) - spend;
    if left > 0 then left else 0
  }

  /** With a non-negative budget and non-negative amounts the remaining
      budget never exceeds the budget. */
  lemma RemainingAtMostBudget(store: Store, now: Date)
    requires BudgetOf(store) >= 0 && AllNonNegative(LoadTasks(store))
    ensures RemainingBudget(store, now) <= BudgetOf(store)
  {
  }

  /** Without a stored budget nothing remains, whatever was spent, as long
      as amounts are non-negative. */
  lemma NoBudgetNothingRemains(store: Store, now: Date)
    requires BudgetKey !in store && AllNonNegative(LoadTasks(store))
    ensures RemainingBudget(store, now) == 0
  {
  }

  // ---------------------------------------------------------------------------
  // Low-budget alert
  // ---------------------------------------------------------------------------

  /** `sendBudgetNotification(remaining, total)` warns when the remaining
      amount is at most 20 % of the total. */
  function Warns(remaining: Cents, total: Cents): (b: bool)
    ensures b <==> remaining <= total / 5
  {
    5 * remaining <= total
  }

  /** The two states of the `notificationSent` flag. */
  datatype Latch = Quiet | Alerted

  datatype LatchStep = LatchStep(next: Latch, alert: bool)

  function LatchOf(store: Store): Latch {
    if NotificationSent(store) then Alerted else Quiet
  }

  /** The flag logic of `updateBudgetDisplay`: alert and set the flag when
      the remaining budget is low but not zero and no alert was sent yet;
      clear the flag when the remaining budget is back above 20 %. */
  function Step(l: Latch, remaining: Cents, budget: Cents): (s: LatchStep)
    ensures s.alert <==> l == Quiet && 0 < remaining && 5 * remaining <= budget
    ensures s.alert ==> s.next == Alerted
    ensures l == Alerted ==> !s.alert
    ensures l == Alerted ==> (s.next == Quiet <==> 5 * remaining > budget)
    ensures l == Quiet && !s.alert ==> s.next == Quiet
    ensures remaining == 0 && budget >= 0 ==> s == LatchStep(l, false)
  {
    var fire := 5 * remaining <= budget && remaining > 0 && l == Quiet;
    var afterFire := if fire then Alerted else l;
    var next := if 5 * remaining > budget then Quiet else afterFire;
    LatchStep(next, fire && Warns(remaining, budget))
  }

  /** A second run on the same figures raises no alert and leaves the state
      where the first run put it. */
  lemma StepSettles(l: Latch, remaining: Cents, budget: Cents)
    ensures var s := Step(l, remaining, budget);
            Step(s.next, remaining, budget) == LatchStep(s.next, false)
  {
  }

  /** The alerts a sequence of successive remaining-budget values raises
      against a fixed budget, starting from latch state `l`. */
  function Alerts(l: Latch, rs: seq<Cents>, budget: Cents): (r: seq<bool>)
    ensures |r| == |rs|
    ensures forall i :: 0 <= i < |r| && r[i] ==> 0 < rs[i] && 5 * rs[i] <= budget
    ensures l == Alerted && |r| > 0 ==> !r[0]
    decreases |rs|
  {
    if |rs| == 0 then []
    else
      var s := Step(l, rs[0], budget);
      var rest := Alerts(s.next, rs[1..], budget);
      assert forall i :: 1 <= i < |rs| ==> ([s.alert] + rest)[i] == rest[i - 1] && rs[i] == rs[1..][i - 1];
      [s.alert] + rest
  }

  /** Once alerted, no alert comes before a recovery above 20 %. */
  lemma {:induction false} AlertedNeedsRecovery(rs: seq<Cents>, budget: Cents, j: int)
    requires 0 <= j < |rs| && Alerts(Alerted, rs, budget)[j]
    ensures exists k :: 0 <= k < j && 5 * rs[k] > budget
    decreases |rs|
  {
    var s := Step(Alerted, rs[0], budget);
    if 5 * rs[0] <= budget {
      assert j > 0;
      assert Alerts(Alerted, rs, budget)[j] == Alerts(s.next, rs[1..], budget)[j - 1];
      AlertedNeedsRecovery(rs[1..], budget, j - 1);
      var k :| 0 <= k < j - 1 && 5 * rs[1..][k] > budget;
      assert 5 * rs[k + 1] > budget;
    }
  }

  /** At most one alert per low-budget episode: between any two alerts the
      remaining budget has risen above 20 % of the budget. */
  lemma {:induction false} AlertsSeparatedByRecovery(l: Latch, rs: seq<Cents>, budget: Cents, i: int, j: int)
    requires 0 <= i < j < |rs|
    requires Alerts(l, rs, budget)[i] && Alerts(l, rs, budget)[j]
    ensures exists k :: i < k < j && 5 * rs[k] > budget
    decreases |rs|
  {
    var s := Step(l, rs[0], budget);
    assert Alerts(l, rs, budget)[j] == Alerts(s.next, rs[1..], budget)[j - 1];
    if i == 0 {
      AlertedNeedsRecovery(rs[1..], budget, j - 1);
      var k :| 0 <= k < j - 1 && 5 * rs[1..][k] > budget;
      assert 5 * rs[k + 1] > budget;
    } else {
      assert Alerts(l, rs, budget)[i] == Alerts(s.next, rs[1..], budget)[i - 1];
      AlertsSeparatedByRecovery(s.next, rs[1..], budget, i - 1, j - 1);
      var k :| i - 1 < k < j - 1 && 5 * rs[1..][k] > budget;
      assert 5 * rs[k + 1] > budget;
    }
  }

  /** A low, non-zero value inside the budget's last 20 %. */
  predicate Low(remaining: Cents, budget: Cents) {
    0 < remaining && 5 * remaining <= budget
  }

  /** Alert `i` of a run is alert `i - 1` of the run from the second value,
      started in the state the first value leaves; a value above 20 %
      always leaves the flag clear. */
  lemma AlertsOfTail(l: Latch, rs: seq<Cents>, budget: Cents, i: int)
    requires 1 <= i < |rs|
    ensures var s := Step(l, rs[0], budget);
            && Alerts(l, rs, budget)[i] == Alerts(s.next, rs[1..], budget)[i - 1]
            && (!Low(rs[0], budget) && l == Quiet ==> s.next == Quiet)
            && (5 * rs[0] > budget ==> s.next == Quiet)
  {
  }

  /** From a clear flag, the first low value raises an alert. */
  lemma {:induction false} QuietFirstLowAlerts(rs: seq<Cents>, budget: Cents, j: int)
    requires 0 <= j < |rs|
    requires forall m :: 0 <= m < j ==> !Low(rs[m], budget)
    requires Low(rs[j], budget)
    ensures Alerts(Quiet, rs, budget)[j]
    decreases |rs|
  {
    if j > 0 {
      assert !Low(rs[0], budget);
      AlertsOfTail(Quiet, rs, budget, j);
      assert forall m :: 0 <= m < j - 1 ==> rs[1..][m] == rs[m + 1];
      QuietFirstLowAlerts(rs[1..], budget, j - 1);
    }
  }

  /** After a recovery above 20 %, the first low value raises an alert
      again: together with `AlertsSeparatedByRecovery`, exactly one alert
      per low-budget episode. */
  lemma {:induction false} FirstLowAfterRecoveryAlerts(l: Latch, rs: seq<Cents>, budget: Cents, k: int, j: int)
    requires 0 <= k < j < |rs|
    requires 5 * rs[k] > budget
    requires forall m :: k < m < j ==> !Low(rs[m], budget)
    requires Low(rs[j], budget)
    ensures Alerts(l, rs, budget)[j]
    decreases |rs|
  {
    var s := Step(l, rs[0], budget);
    AlertsOfTail(l, rs, budget, j);
    if k == 0 {
      assert forall m :: 0 <= m < j - 1 ==> rs[1..][m] == rs[m + 1];
      QuietFirstLowAlerts(rs[1..], budget, j - 1);
    } else {
      assert forall m :: k - 1 < m < j - 1 ==> rs[1..][m] == rs[m + 1];
      FirstLowAfterRecoveryAlerts(s.next, rs[1..], budget, k - 1, j - 1);
    }
  }

  /** Example: budget 1000, spend 850 leaves 150 (15 %) and
      alerts once; a further 200 clamps the remainder to 0 and does not alert. */
  lemma LowBudgetScenario()
    ensures Alerts(Quiet, [15000, 0], 100000) == [true, false]
  {
  }

  /** What `updateBudgetDisplay` leaves behind: the store with the flag
      updated, whether it alerted, and the remaining budget it displayed. */
  datatype Synced = Synced(store: Store, alert: bool, remaining: Cents)

  function UpdateBudgetDisplay(store: Store, now: Date): (r: Synced)
    ensures r.remaining == RemainingBudget(store, now)
    ensures var s := Step(LatchOf(store), RemainingBudget(store, now), BudgetOf(store));
            r.alert == s.alert && LatchOf(r.store) == s.next
    ensures SameExcept(store, r.store, {NotificationKey})
    ensures WellFormed(store) ==> WellFormed(r.store)
  {
    var remaining := RemainingBudget(store, now);
    var budget := BudgetOf(store);
    var fire := 5 * remaining <= budget && remaining > 0 && !NotificationSent(store);
    var alert := fire && Warns(remaining, budget);
    var afterFire := if fire then store[NotificationKey := Marker("true")] else store;
    var after := if 5 * remaining > budget then afterFire - {NotificationKey} else afterFire;
    Synced(after, alert, remaining)
  }

  // ---------------------------------------------------------------------------
  // Per-category breakdown
  // ---------------------------------------------------------------------------

  datatype CategoryTotal = CategoryTotal(category: string, total: Cents)

  function Totals(cts: seq<CategoryTotal>): (r: seq<Cents>)
    ensures |r| == |cts| && forall i :: 0 <= i < |cts| ==> r[i] == cts[i].total
  {
    seq(|cts|, i requires 0 <= i < |cts| => cts[i].total)
  }

  function GroupSpends<K>(gs: seq<Group<K, Task>>): (r: seq<Cents>)
    ensures |r| == |gs| && forall i :: 0 <= i < |gs| ==> r[i] == Spend(gs[i].members)
  {
    seq(|gs|, i requires 0 <= i < |gs| => Spend(gs[i].members))
  }

  lemma PlaceSpends<K>(gs: seq<Group<K, Task>>, k: K, x: Task)
    ensures SumInts(GroupSpends(Place(gs, k, x))) == SumInts(GroupSpends(gs)) + AmountOf(x)
  {
    var i := IndexOfKey(gs, k);
    var r := Place(gs, k, x);
    assert Spend([x]) == AmountOf(x);
    if i < 0 {
      assert r == gs + [Group(k, [x])];
      assert GroupSpends(r) == GroupSpends(gs) + [AmountOf(x)];
      SumIntsSnoc(GroupSpends(gs), AmountOf(x));
    } else {
      SpendAppend(gs[i].members, [x]);
      assert r == gs[i := Group(k, gs[i].members + [x])];
      assert GroupSpends(r) == GroupSpends(gs)[i := Spend(gs[i].members) + AmountOf(x)];
      SumIntsUpdate(GroupSpends(gs), i, Spend(gs[i].members) + AmountOf(x));
    }
  }

  /** Grouping does not change the total: the group sums add up to the sum
      of the grouped list. */
  lemma {:induction false} GroupSpendsSum<K>(xs: seq<Task>, key: Task -> K)
    ensures SumInts(GroupSpends(GroupBy(xs, key))) == Spend(xs)
    decreases |xs|
  {
    if |xs| > 0 {
      var init := xs[..|xs| - 1];
      var x := xs[|xs| - 1];
      assert init + [x] == xs;
      GroupSpendsSum(init, key);
      SpendAppend(init, [x]);
      assert Spend([x]) == AmountOf(x);
      PlaceSpends(GroupBy(init, key), key(x), x);
    }
  }

  function TotalsOfGroups(gs: seq<Group<string, Task>>): (r: seq<CategoryTotal>)
    ensures |r| == |gs|
    ensures forall i :: 0 <= i < |gs| ==> r[i] == CategoryTotal(gs[i].key, Spend(gs[i].members))
  {
    seq(|gs|, i requires 0 <= i < |gs| => CategoryTotal(gs[i].key, Spend(gs[i].members)))
  }

  /** Some record of `xs` has category `c`. */
  ghost predicate Occurs(xs: seq<Task>, c: string) {
    exists t :: t in xs && t.category == c
  }

  /** Some entry of `cts` is for category `c`. */
  ghost predicate HasTotal(cts: seq<CategoryTotal>, c: string) {
    exists i :: 0 <= i < |cts| && cts[i].category == c
  }

  /** The keys of a partition by category are exactly the categories of
      the partitioned records. */
  lemma PartitionKeys(gs: seq<Group<string, Task>>, xs: seq<Task>, c: string)
    requires Partitions(gs, xs, CategoryOf)
    ensures HasKey(gs, c) <==> Occurs(xs, c)
  {
    if HasKey(gs, c) {
      var i :| 0 <= i < |gs| && gs[i].key == c;
      var t := gs[i].members[0];
      assert t in KeyedBy(xs, CategoryOf, gs[i].key);
    }
    if Occurs(xs, c) {
      var t :| t in xs && t.category == c;
      assert HasKey(gs, CategoryOf(t));
    }
  }

  /** What the totals of a partition of this month's records promise. */
  lemma TotalsOfPartition(gs: seq<Group<string, Task>>, month: seq<Task>)
    requires Partitions(gs, month, CategoryOf)
    requires SumInts(GroupSpends(gs)) == Spend(month)
    ensures var r := TotalsOfGroups(gs);
      && (forall i, j :: 0 <= i < j < |r| ==> r[i].category != r[j].category)
      && (forall i :: 0 <= i < |r| ==> r[i].total == Spend(KeyedBy(month, CategoryOf, r[i].category)))
      && (forall c :: HasTotal(r, c) <==> Occurs(month, c))
      && SumInts(Totals(r)) == Spend(month)
  {
    var r := TotalsOfGroups(gs);
    forall c
      ensures HasTotal(r, c) <==> Occurs(month, c)
    {
      PartitionKeys(gs, month, c);
      assert HasTotal(r, c) <==> HasKey(gs, c);
    }
    assert Totals(r) == GroupSpends(gs);
  }

  /** `categoryTotals` of `updateCategoryBreakdown` and `renderPieChart`:
      one entry per category of this month's records, in order of first
      appearance, each with the sum of that category's amounts. */
  function CategoryTotals(ts: seq<Task>, now: Date): (r: seq<CategoryTotal>)
    ensures forall i, j :: 0 <= i < j < |r| ==> r[i].category != r[j].category
    ensures forall i :: 0 <= i < |r| ==> r[i].total == Spend(KeyedBy(CurrentMonth(ts, now), CategoryOf, r[i].category))
    ensures forall c :: HasTotal(r, c) <==> Occurs(CurrentMonth(ts, now), c)
    ensures SumInts(Totals(r)) == MonthSpend(ts, now)
  {
    var month := CurrentMonth(ts, now);
    var gs := GroupBy(month, CategoryOf);
    GroupSpendsSum(month, CategoryOf);
    TotalsOfPartition(gs, month);
    TotalsOfGroups(gs)
  }

  datatype BreakdownView = NoTransactionsFound | Breakdown(totals: seq<CategoryTotal>)

  /** `updateCategoryBreakdown`: a message when there are no records at all,
      otherwise the category totals of the current month (possibly none). */
  function CategoryBreakdown(store: Store, now: Date): (r: BreakdownView)
    ensures r.NoTransactionsFound? <==> |LoadTasks(store)| == 0
    ensures r.Breakdown? ==> r.totals == CategoryTotals(LoadTasks(store), now)
  {
    var ts := LoadTasks(store);
    if |ts| == 0 then NoTransactionsFound else Breakdown(CategoryTotals(ts, now))
  }

  // ---------------------------------------------------------------------------
  // Days left in the month
  // ---------------------------------------------------------------------------

  predicate IsLeapYear(y: int) {
    y % 4 == 0 && (y % 100 != 0 || y % 400 == 0)
  }

  /** Length of month `m` (0 = January) of year `y` in the Gregorian calendar. */
  function DaysInMonth(y: int, m: int): (n: int)
    requires 0 <= m < 12
    ensures 28 <= n <= 31
    ensures n == 29 <==> m == 1 && IsLeapYear(y)
    ensures n == 28 <==> m == 1 && !IsLeapYear(y)
  {
    if m == 1 then (if IsLeapYear(y) then 29 else 28)
    else if m == 3 || m == 5 || m == 8 || m == 10 then 30
    else 31
  }

  /** The twelve months make up a year of 365 days, 366 in a leap year. */
  lemma YearLength(y: int)
    ensures DaysInMonth(y, 0) + DaysInMonth(y, 1) + DaysInMonth(y, 2) + DaysInMonth(y, 3)
          + DaysInMonth(y, 4) + DaysInMonth(y, 5) + DaysInMonth(y, 6) + DaysInMonth(y, 7)
          + DaysInMonth(y, 8) + DaysInMonth(y, 9) + DaysInMonth(y, 10) + DaysInMonth(y, 11)
          == if IsLeapYear(y) then 366 else 365
  {
  }

  predicate ValidDate(d: Date) {
    0 <= d.month < 12 && 1 <= d.day <= DaysInMonth(d.year, d.month)
  }

  /** `updateDaysLeft`: the last day of the month (`new Date(y, m + 1, 0)`)
      minus today's day of the month. */
  function DaysLeft(today: Date): (r: int)
    requires ValidDate(today)
    ensures 0 <= r <= 30
    ensures r == 0 <==> today.day == DaysInMonth(today.year, today.month)
    ensures r + today.day == DaysInMonth(today.year, today.month)
  {
    DaysInMonth(today.year, today.month) - today.day
  }

  /** Each day that passes within a month takes one day off the count. */
  lemma DaysLeftCountsDown(today: Date)
    requires ValidDate(today) && today.day < DaysInMonth(today.year, today.month)
    ensures ValidDate(today.(day := today.day + 1))
    ensures DaysLeft(today.(day := today.day + 1)) == DaysLeft(today) - 1
  {
  }
}
