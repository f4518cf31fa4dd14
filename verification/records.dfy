/** The expense record (`Task` in src/classes/list.ts) and the arithmetic
    every view does on it. Amounts are whole cents. */
module Records {
  import opened Common

  /** An amount of money in cents. Budgets are stored with two decimals and
      the entry form takes amounts to the cent, so cents are exact. */
  type Cents = int

  /** A local calendar date; `month` counts from 0 as `Date.getMonth` does. */
  datatype Date = Date(year: int, month: int, day: int)

  /** The chronological order of dates (the order of their ISO strings). */
  predicate DateLe(a: Date, b: Date) {
    a.year < b.year || (a.year == b.year && (a.month < b.month || (a.month == b.month && a.day <= b.day)))
  }

  /** `description: string | number`, possibly missing in stored data. */
  datatype Description = Words(text: string) | Figure(cents: Cents) | NoDescription

  /** One expense. `amount` is `None` when it is not a number: NaN in
      memory, `null` once the list has gone through JSON. */
  datatype Task = Task(category: string, description: Description, createdAt: Date, amount: Option<Cents>, image: string)

  /** The amount as arithmetic and comparisons see it: `task.amount || 0`,
      and `null`, which `+` and `>=` read as 0. */
  function AmountOf(t: Task): (a: Cents)
    ensures t.amount.None? ==> a == 0
    ensures t.amount.Some? ==> a == t.amount.value
  {
    match t.amount
    case Some(c) => c
    case None => 0
  }

  function CategoryOf(t: Task): string {
    t.category
  }

  /** The record falls in the calendar month of `now`: same month AND same year. */
  predicate InMonth(t: Task, now: Date) {
    t.createdAt.month == now.month && t.createdAt.year == now.year
  }

  /** Sum of the amounts of a list of records (`reduce((s, t) => s + t.amount, 0)`). */
  function Spend(ts: seq<Task>): (r: Cents)
    ensures |ts| == 0 ==> r == 0
    ensures AllNonNegative(ts) ==> r >= 0
    decreases |ts|
  {
    if |ts| == 0 then 0
    else
      assert ts[0] in ts;
      assert forall t :: t in ts[1..] ==> t in ts;
      AmountOf(ts[0]) + Spend(ts[1..])
  }

  predicate AllNonNegative(ts: seq<Task>) {
    forall t :: t in ts ==> AmountOf(t) >= 0
  }

  lemma {:induction false} SpendAppend(a: seq<Task>, b: seq<Task>)
    ensures Spend(a + b) == Spend(a) + Spend(b)
    decreases |a|
  {
    if |a| > 0 {
      assert (a + b)[1..] == a[1..] + b;
      SpendAppend(a[1..], b);
    } else {
      assert a + b == b;
    }
  }

}
