/** The detail page (`displayExpenseDetails` in src/classes/content.ts): the
    `id` URL parameter is read as a decimal integer and used as a position in
    the stored record list. */
module Detail {
  import opened Common
  import opened Text
  import opened Records
  import opened Storage
  import Index
  import SeeAll

  const NoDescriptionText: string := "Keine Beschreibung verfügbar"

  /** `selectedTask.description?.toString() ?? fallback`. */
  function DescriptionText(d: Description): (s: string)
    ensures d.NoDescription? ==> s == NoDescriptionText
    ensures d.Words? ==> s == d.text
    ensures d.Figure? ==> s == CentsToString(d.cents)
  {
    match d
    case Words(text) => text
    case Figure(c) => CentsToString(c)
    case NoDescription => NoDescriptionText
  }

  datatype DetailView =
    | MissingId                  // "No expense ID found in URL." (logged)
    | InvalidIndex               // "Invalid expense index." (logged)
    | Details(task: Task, description: string)

  /** The page for the URL parameter `id` (`None` when absent). */
  function ShowExpense(id: Option<string>, store: Store): (v: DetailView)
    ensures v.MissingId? <==> id.None? || id.value == []
    ensures v.Details? <==>
              && id.Some? && id.value != []
              && ParseInt(id.value).Some?
              && 0 <= ParseInt(id.value).value < |LoadTasks(store)|
    ensures v.Details? ==>
              && v.task == LoadTasks(store)[ParseInt(id.value).value]
              && v.description == DescriptionText(v.task.description)
  {
    match id
    case None => MissingId
    case Some(s) =>
      if s == [] then MissingId
      else
        var tasks := LoadTasks(store);
        match ParseInt(s)
        case None => InvalidIndex
        case Some(i) =>
          if i < 0 || i >= |tasks| then InvalidIndex
          else Details(tasks[i], DescriptionText(tasks[i].description))
  }

  /** The id of a link written from position `i` opens the record at
      position `i` of the stored list, or nothing when the stored list is
      shorter. */
  lemma {:induction false} PositionLinkResolves(i: nat, store: Store)
    ensures var v := ShowExpense(Some(NatToString(i)), store);
            (i < |LoadTasks(store)| ==> v.Details? && v.task == LoadTasks(store)[i])
            && (i >= |LoadTasks(store)| ==> v.InvalidIndex?)
  {
    ParseIntOfNat(i, []);
    assert NatToString(i) + [] == NatToString(i);
  }

  /** Every link of the home list opens the record it shows. */
  lemma HomeLinkOpensItsRecord(store: Store, k: int)
    requires Index.LatestFive(LoadTasks(store)).Latest?
    requires 0 <= k < |Index.LatestFive(LoadTasks(store)).links|
    ensures var link := Index.LatestFive(LoadTasks(store)).links[k];
            ShowExpense(Some(link.id), store) == Details(link.task, DescriptionText(link.task.description))
  {
    var link := Index.LatestFive(LoadTasks(store)).links[k];
    assert ParseInt(link.id) == Some(k);
  }

  /** A link of the list page carries the position in the list that page
      showed, but the detail page looks that position up in the stored
      records: after a search the two lists differ. Here the search kept
      only the second record, its link has id "0", and the detail page
      opens the first record. */
  lemma ListLinkResolvesAgainstStoredRecords(d: Date)
    ensures var food := Task("Food", NoDescription, d, Some(1250), "img/food.png");
            var rent := Task("Rent", NoDescription, d, Some(80000), "img/default.png");
            var store := map[TasksKey := TaskList([food, rent]), SearchResultsKey := TaskList([rent])];
            var shown := SeeAll.SourceList(store, true, false);
            var entry := SeeAll.Enumerate(shown)[0];
            && entry.task == rent
            && ShowExpense(Some(NatToString(entry.index)), store) == Details(food, NoDescriptionText)
  {
    var food := Task("Food", NoDescription, d, Some(1250), "img/food.png");
    var rent := Task("Rent", NoDescription, d, Some(80000), "img/default.png");
    var store := map[TasksKey := TaskList([food, rent]), SearchResultsKey := TaskList([rent])];
    assert SearchResultsKey in store && store[SearchResultsKey] == TaskList([rent]);
    assert SeeAll.SourceList(store, true, false) == [rent];
    assert LoadTasks(store) == [food, rent];
    PositionLinkResolves(0, store);
  }

  /** `parseInt` reads leading digits and ignores what follows, so an id
      such as "1abc" opens the record at position 1. */
  lemma TrailingTextIgnored(store: Store)
    requires |LoadTasks(store)| > 1
    ensures ShowExpense(Some("1abc"), store) == Details(LoadTasks(store)[1], DescriptionText(LoadTasks(store)[1].description))
  {
    ParseIntOfNat(1, "abc");
    assert NatToString(1) == "1";
  }
}
