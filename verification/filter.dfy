/** Selection over the stored records (src/classes/filter.ts): the text
    search, the list of selected categories of the filter panel, and the
    structured filter. Both selections store their result under their own key
    and send the browser to the list page; an alert instead of the redirect is
    an outcome value here. */
module Filter {
  import opened Common
  import opened Text
  import opened Records
  import opened Storage

  // ---------------------------------------------------------------------------
  // Text search
  // ---------------------------------------------------------------------------

  /** The query as the search button reads it: trimmed and lower-cased. */
  function NormalizeQuery(raw: string): (q: string)
    ensures q == [] <==> forall i {:trigger IsWhite(raw[i])} :: 0 <= i < |raw| ==> IsWhite(raw[i])
  {
    Lower(Trim(raw))
  }

  /** Whether record `t` matches query `q`: its lower-cased category contains
      the query, or its description is a string whose lower-cased form does,
      or its amount written in decimal does. The tests run in that order and
      stop at the first hit; reaching the amount test with a `null` amount
      throws, which is `None`. */
  function SearchMatch(t: Task, q: string): (r: Option<bool>)
    ensures r == Some(true) <==>
              || Contains(Lower(t.category), q)
              || (t.description.Words? && Contains(Lower(t.description.text), q))
              || (t.amount.Some? && Contains(CentsToString(t.amount.value), q))
    ensures r.None? <==>
              && !Contains(Lower(t.category), q)
              && !(t.description.Words? && Contains(Lower(t.description.text), q))
              && t.amount.None?
  {
    if Contains(Lower(t.category), q) then Some(true)
    else if t.description.Words? && Contains(Lower(t.description.text), q) then Some(true)
    else match t.amount
      case None => None
      case Some(c) => Some(Contains(CentsToString(c), q))
  }

  /** `t` is kept by the search for `q`. */
  predicate Hit(t: Task, q: string) {
    SearchMatch(t, q) == Some(true)
  }

  /** Testing `t` against `q` throws. */
  predicate Throws(t: Task, q: string) {
    SearchMatch(t, q).None?
  }

  /** A numeric description plays no part in the search: the record matches
      exactly as it would without a description. */
  lemma NumericDescriptionNeverMatches(t: Task, q: string)
    requires t.description.Figure?
    ensures SearchMatch(t, q) == SearchMatch(t.(description := NoDescription), q)
  {
  }

  /** The records the search keeps, by the shared filter. */
  function HitsOf(ts: seq<Task>, q: string): (r: seq<Task>)
    ensures forall t :: t in r <==> t in ts && Hit(t, q)
    ensures SubseqOf(r, ts)
    ensures forall t {:trigger multiset(r)[t]} :: multiset(r)[t] == if Hit(t, q) then multiset(ts)[t] else 0
  {
    Filter(ts, (t: Task) => Hit(t, q))
  }

  /** `tasks.filter(...)` with the search predicate: the matching records in
      order, or `None` when some record makes the predicate throw. */
  function SearchAll(ts: seq<Task>, q: string): (r: Option<seq<Task>>)
    ensures r.None? <==> exists t :: t in ts && Throws(t, q)
    ensures r.Some? ==> r.value == HitsOf(ts, q)
    decreases |ts|
  {
    if |ts| == 0 then Some([])
    else
      assert ts[0] in ts;
      assert forall t :: t in ts ==> t == ts[0] || t in ts[1..];
      match SearchMatch(ts[0], q)
      case None => None
      case Some(hit) =>
        match SearchAll(ts[1..], q)
        case None => None
        case Some(rest) =>
          if hit then
            assert ([ts[0]] + rest)[1..] == rest;
            Some([ts[0]] + rest)
          else Some(rest)
  }

  datatype SearchOutcome =
    | EnterSearchTerm            // "Please enter a search term."
    | SearchFailed               // the filter callback threw
    | NoMatchingTransactions     // "No matching transactions found."
    | ShowSearchResults(results: seq<Task>, store: Store)   // stored, then redirect to seeall.html?search=true

  /** What the click handler does with a non-empty query `q` and the stored
      records `ts`. */
  function SearchStored(q: string, ts: seq<Task>, store: Store): (r: SearchOutcome)
    ensures !r.EnterSearchTerm?
    ensures r.SearchFailed? <==> exists t :: t in ts && Throws(t, q)
    ensures r.NoMatchingTransactions? ==> forall t :: t in ts ==> !Hit(t, q) && !Throws(t, q)
    ensures r.ShowSearchResults? ==>
              && |r.results| > 0
              && r.results == HitsOf(ts, q)
              && (forall t :: t in r.results <==> t in ts && Hit(t, q))
              && r.store == store[SearchResultsKey := TaskList(r.results)]
  {
    match SearchAll(ts, q)
    case None => SearchFailed
    case Some(found) =>
      if |found| == 0 then
        NoMatchingTransactions
      else ShowSearchResults(found, store[SearchResultsKey := TaskList(found)])
  }

  /** The search button's click handler. */
  function Search(raw: string, store: Store): (r: SearchOutcome)
    ensures r.EnterSearchTerm? <==> NormalizeQuery(raw) == []
    ensures r.SearchFailed? <==>
              NormalizeQuery(raw) != [] && exists t :: t in LoadTasks(store) && Throws(t, NormalizeQuery(raw))
    ensures r.NoMatchingTransactions? ==>
              forall t :: t in LoadTasks(store) ==> !Hit(t, NormalizeQuery(raw)) && !Throws(t, NormalizeQuery(raw))
    ensures r.ShowSearchResults? ==>
              && |r.results| > 0
              && r.results == HitsOf(LoadTasks(store), NormalizeQuery(raw))
              && (forall t :: t in r.results <==> t in LoadTasks(store) && Hit(t, NormalizeQuery(raw)))
              && r.store == store[SearchResultsKey := TaskList(r.results)]
    ensures r.ShowSearchResults? && WellFormed(store) ==> WellFormed(r.store)
  {
    var q := NormalizeQuery(raw);
    if q == [] then EnterSearchTerm else SearchStored(q, LoadTasks(store), store)
  }

  /** The category "Food" contains the query "food". */
  lemma FoodRecordMatches(food: Task)
    requires food.category == "Food" && food.description.NoDescription?
    ensures SearchMatch(food, "food") == Some(true)
  {
    assert Lower("Food") == "food";
    assert "food" <= Lower("Food")[0..];
  }

  /** Neither "Transport" nor the amount 8 contains the query "food". */
  lemma TransportRecordMisses(transport: Task)
    requires transport.category == "Transport" && transport.description.NoDescription?
    requires transport.amount == Some(800)
    ensures SearchMatch(transport, "food") == Some(false)
  {
    assert Lower("Transport") == "transport";
    TransportLacksFood();
    EightLacksFood();
  }

  lemma TransportLacksFood()
    ensures !Contains("transport", "food")
  {
    forall i | 0 <= i <= 9
      ensures !("food" <= "transport"[i..])
    {
      assert "transport"[i..] == [] || "transport"[i] != 'f';
    }
  }

  /** 8 prints as "8", which does not contain "food". */
  lemma EightLacksFood()
    ensures CentsToString(800) == "8" && !Contains(CentsToString(800), "food")
  {
    EightText();
    assert !Contains("8", "food");
  }

  lemma EightText()
    ensures CentsToString(800) == "8"
  {
    assert NatToString(8) == "8";
    assert FractionText(0) == "";
  }

  /** Example: "food" against a Food record of 12.50 and a
      Transport record of 8 finds only the first. */
  lemma SearchScenario(d: Date)
    ensures var food := Task("Food", NoDescription, d, Some(1250), "img/food.png");
            var transport := Task("Transport", NoDescription, d, Some(800), "img/transport.png");
            SearchAll([food, transport], "food") == Some([food])
  {
    var food := Task("Food", NoDescription, d, Some(1250), "img/food.png");
    var transport := Task("Transport", NoDescription, d, Some(800), "img/transport.png");
    FoodRecordMatches(food);
    TransportRecordMisses(transport);
    assert ([food, transport])[1..] == [transport];
    assert SearchAll([transport], "food") == Some([]);
    assert [food] + [] == [food];
  }

  // ---------------------------------------------------------------------------
  // Selected categories of the filter panel
  // ---------------------------------------------------------------------------

  /** Choosing `value` in the category drop-down: appended when non-empty and
      not yet selected. */
  function SelectCategory(selected: seq<string>, value: string): (r: seq<string>)
    ensures NoDuplicates(selected) ==> NoDuplicates(r)
    ensures forall c :: c in r <==> c in selected || (c == value && value != [])
    ensures value != [] && value !in selected ==> r == selected + [value]
    ensures value == [] || value in selected ==> r == selected
  {
    if value != [] && value !in selected then selected + [value] else selected
  }

  /** Clicking the remove mark of the tag of `c`. */
  function RemoveCategory(selected: seq<string>, c: string): (r: seq<string>)
    ensures forall x :: x in r <==> x in selected && x != c
    ensures SubseqOf(r, selected)
    ensures NoDuplicates(selected) ==> NoDuplicates(r)
    decreases |selected|
  {
    if |selected| == 0 then []
    else
      var rest := RemoveCategory(selected[1..], c);
      if selected[0] != c then
        assert ([selected[0]] + rest)[1..] == rest;
        assert selected[0] !in selected[1..] <== NoDuplicates(selected);
        [selected[0]] + rest
      else rest
  }

  // ---------------------------------------------------------------------------
  // Structured filter
  // ---------------------------------------------------------------------------

  /** The filter panel's inputs; `None` is an empty field. */
  datatype Criteria = Criteria(categories: seq<string>, from: Option<Date>, to: Option<Date>,
                               min: Option<Cents>, max: Option<Cents>)

  /** Empty fields: the minimum defaults to 0. */
  function MinOf(c: Criteria): Cents {
    match c.min
    case Some(m) => m
    case None => 0
  }

  /** The four conditions of the filter, all required; an unset maximum is
      +Infinity. */
  function Keeps(c: Criteria, t: Task): (b: bool)
    ensures b && |c.categories| > 0 ==> t.category in c.categories
    ensures c.from.Some? && c.to.Some? && !DateLe(c.from.value, c.to.value) ==> !b
    ensures c.max.Some? && c.max.value < MinOf(c) ==> !b
    ensures c.min.None? && AmountOf(t) < 0 ==> !b
  {
    && (|c.categories| == 0 || t.category in c.categories)
    && (c.from.None? || DateLe(c.from.value, t.createdAt))
    && (c.to.None? || DateLe(t.createdAt, c.to.value))
    && MinOf(c) <= AmountOf(t)
    && (c.max.None? || AmountOf(t) <= c.max.value)
  }

  datatype FilterOutcome =
    | NoStoredTasks              // the `tasks` key is missing: logged, nothing else
    | NoFilterMatches            // "No matching transactions found."
    | ShowFilterResults(results: seq<Task>, store: Store)   // stored, then redirect to seeall.html?filtered=true

  /** The apply button's click handler. */
  function ApplyFilter(c: Criteria, store: Store): (r: FilterOutcome)
    ensures r.NoStoredTasks? <==> ListAt(store, TasksKey).None?
    ensures TasksKey !in store ==> r.NoStoredTasks?
    ensures r.NoFilterMatches? ==> forall t :: t in LoadTasks(store) ==> !Keeps(c, t)
    ensures r.ShowFilterResults? ==>
              && |r.results| > 0
              && SubseqOf(r.results, LoadTasks(store))
              && (forall t :: t in r.results <==> t in LoadTasks(store) && Keeps(c, t))
              && (forall t {:trigger multiset(r.results)[t]} :: multiset(r.results)[t] == if Keeps(c, t) then multiset(LoadTasks(store))[t] else 0)
              && r.store == store[FilteredResultsKey := TaskList(r.results)]
    ensures r.ShowFilterResults? && WellFormed(store) ==> WellFormed(r.store)
  {
    match ListAt(store, TasksKey)
    case None => NoStoredTasks
    case Some(ts) =>
      var found := Filter(ts, t => Keeps(c, t));
      if |found| == 0 then
        assert forall t :: t in ts ==> !Keeps(c, t);
        NoFilterMatches
      else ShowFilterResults(found, store[FilteredResultsKey := TaskList(found)])
  }

  const NoCriteria: Criteria := Criteria([], None, None, None, None)

  /** With every field empty the filter keeps exactly the records whose
      amount is not negative; when no amount is negative it keeps the whole
      stored list, in order. */
  lemma NoCriteriaKeepsNonNegative(store: Store)
    requires ListAt(store, TasksKey).Some? && |LoadTasks(store)| > 0
    ensures forall t :: Keeps(NoCriteria, t) <==> AmountOf(t) >= 0
    ensures AllNonNegative(LoadTasks(store)) ==> ApplyFilter(NoCriteria, store).ShowFilterResults?
    ensures AllNonNegative(LoadTasks(store)) ==> ApplyFilter(NoCriteria, store).results == LoadTasks(store)
  {
    var ts := LoadTasks(store);
    FilterKeepsAll(ts, t => Keeps(NoCriteria, t));
  }

  /** Example: no categories, amounts from 10 to 20 keep the
      Food record of 12.50 and drop the Transport record of 8. */
  lemma FilterScenario(d: Date)
    ensures var food := Task("Food", NoDescription, d, Some(1250), "img/food.png");
            var transport := Task("Transport", NoDescription, d, Some(800), "img/transport.png");
            var c := Criteria([], None, None, Some(1000), Some(2000));
            Keeps(c, food) && !Keeps(c, transport)
  {
  }
}
