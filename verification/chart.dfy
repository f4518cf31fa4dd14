/** The data behind the insights pie chart (`renderPieChart` in
    src/classes/chart.ts): one slice per category of the current month and
    a final "Remaining Budget" slice. Drawing the chart is not modelled. */
module Chart {
  import opened Common
  import opened Records
  import opened Storage
  import opened Insights

  const RemainingLabel: string := "Remaining Budget"

  /** The `labels` and `data` arrays handed to the chart. */
  datatype PieData = PieData(labels: seq<string>, amounts: seq<Cents>)

  function Categories(cts: seq<CategoryTotal>): (r: seq<string>)
    ensures |r| == |cts| && forall i :: 0 <= i < |cts| ==> r[i] == cts[i].category
    ensures forall c :: c in r <==> HasTotal(cts, c)
    ensures (forall i, j :: 0 <= i < j < |cts| ==> cts[i].category != cts[j].category) ==> NoDuplicates(r)
  {
    var r := seq(|cts|, i requires 0 <= i < |cts| => cts[i].category);
    assert forall c :: c in r ==> HasTotal(cts, c);
    r
  }

  /** One slice per category total, in order, then the remaining budget. */
  function Slices(cts: seq<CategoryTotal>, remaining: Cents): (r: PieData)
    ensures |r.labels| == |r.amounts| == |cts| + 1
    ensures forall i :: 0 <= i < |cts| ==> r.labels[i] == cts[i].category && r.amounts[i] == cts[i].total
    ensures r.labels[|cts|] == RemainingLabel && r.amounts[|cts|] == remaining
    ensures r.labels[..|cts|] == Categories(cts) && r.amounts[..|cts|] == Totals(cts)
  {
    var r := PieData(Categories(cts) + [RemainingLabel], Totals(cts) + [remaining]);
    assert r.labels[..|cts|] == Categories(cts);
    assert r.amounts[..|cts|] == Totals(cts);
    r
  }

  function PieChartData(store: Store, now: Date): (r: PieData)
    ensures |r.labels| == |r.amounts| == |CategoryTotals(LoadTasks(store), now)| + 1
    ensures r.labels[|r.labels| - 1] == RemainingLabel
    ensures r.amounts[|r.amounts| - 1] == RemainingBudget(store, now) >= 0
    ensures SumInts(r.amounts[..|r.amounts| - 1]) == MonthSpend(LoadTasks(store), now)
    ensures NoDuplicates(r.labels[..|r.labels| - 1])
    ensures forall c :: c in r.labels[..|r.labels| - 1] <==> Occurs(CurrentMonth(LoadTasks(store), now), c)
    ensures var cts := CategoryTotals(LoadTasks(store), now);
            forall i :: 0 <= i < |r.labels| - 1 ==> r.labels[i] == cts[i].category && r.amounts[i] == cts[i].total
  {
    Slices(CategoryTotals(LoadTasks(store), now), RemainingBudget(store, now))
  }
}
