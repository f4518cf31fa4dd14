# Expense tracker: the expense pipeline in Dafny

This project models the logic under the pages of a small client-side
expense tracker. The tracker keeps a list of expense records (`Task`:
category, description, date, amount, image) and a monthly budget in the
browser's local storage. Its pages do the following:

- add expenses to the front of the list;
- show the five latest records;
- list all records, or the results of a search or a filter, grouped under "Today", "Yesterday", or month and year;
- show one record by its position;
- show per-category totals and the data of a pie chart for the current month;
- alert once per low-budget episode (remaining budget at most 20 % of the budget).

The DOM code is left out. Every handler becomes a pure function from its
inputs and a `Store` to an outcome value. Alerts, messages and redirects are
constructors of that value. Local storage is `map<string, Value>`.

Modules, one per source file, on a shared base:

- `Common`: option type, filter, subsequence, sums and grouping-by-key. Grouping is the keyed-object `reduce`; it is proved to be a partition.
- `Text`: trimming, ASCII lower-casing, substring search, decimal rendering of integers and cents, and `parseInt`.
- `Records`: the record, amounts as whole cents, dates and sums.
- `Storage`: the store, its keys and the shared readers.
- `Insights`: current-month spend, remaining budget, the alert latch, category totals and days left (insights.js).
- `Chart`: the pie-chart data (chart.ts).
- `Filter`: search, category selection and the structured filter (filter.ts).
- `Index`: saving, and the home list (index.ts).
- `Home`: the add-expense form (home.ts).
- `SeeAll`: the list page (seeall.ts).
- `CategoryPage`: the category page (type.ts).
- `Detail`: the detail page (content.ts).
- `BudgetPage`: saving and deleting the budget (adjustbudget.ts).

Modelling choices:

- **Amounts and the 20 % test.** Amounts are integers (cents). The test `remaining <= budget * 0.2` becomes `5 * remaining <= budget`.
- **Missing amounts.** A non-numeric amount is `None`. It is `NaN` in memory and `null` after storage. Sums and comparisons read it as 0, which is what `|| 0`, `+ null` and `null >= x` do. Code that calls a method on it throws; that is a separate outcome (`SearchFailed`, `ListingFailed`, `CategoryListingFailed`).
- **Dates.** A date is `(year, month from 0, day)`, ordered lexicographically. This stands for the comparison of ISO strings.
- **"Now" and labels.** The current date is a parameter. So are the date labels of the list pages ("Today", "Yesterday", or month and year).

Behaviour of the code worth knowing before reading the contracts:

- **An empty filter is not the identity.** The minimum amount defaults to 0, so records with a negative amount are dropped (`Filter.NoCriteriaKeepsNonNegative`).
- **Deleting the budget does not clear the notification flag.** Delete only removes the budget and re-runs the display update. With budget 0 and no negative amounts nothing remains, so the flag is left as it was (`BudgetPage.DeleteKeepsFlag`).
- **A non-numeric amount is accepted.** The check `parseFloat(...) <= 0` is false for `NaN`, so such a record is added with a missing amount (`Home.NonNumericAmountAccepted`).

## Model

| member | source | states |
|---|---|---|
| Storage.LoadTasks | src/index.ts:8-11 | an absent `tasks` key loads as the empty list; otherwise the stored list is returned as stored |
| Storage.BudgetOf | public/classes/insights.js:5 | a missing budget key reads as 0; otherwise the stored budget |
| Insights.CurrentMonth | public/classes/insights.js:10-13 | the current-month records are exactly the input records of the same month AND year, in input order (a subsequence), each kept as many times as it occurs in the input |
| Insights.MonthSpendOfPrepended | public/classes/insights.js:10-14 | a record from another month (also the same month of another year) leaves the month's spend unchanged; one from this month adds its amount, a missing amount adding 0 |
| Records.AmountOf | public/classes/insights.js:14 | a missing amount (`NaN` or `null`) counts as 0; a present one counts as itself |
| Records.Spend | public/classes/insights.js:14 | an empty list totals 0; a list without negative amounts never totals below 0 |
| Insights.MonthSpend | public/classes/insights.js:10-14 | the month's spend is never negative without negative amounts, and is 0 when no record falls in the month of `now` |
| Insights.RemainingBudget | public/classes/insights.js:15 | the remaining budget is never negative; it is either 0 or budget minus this month's spend, and never below that difference |
| Insights.RemainingAtMostBudget | public/classes/insights.js:14-15 | with a non-negative budget and no negative amounts, the remaining budget is at most the budget |
| Insights.NoBudgetNothingRemains | public/classes/insights.js:5 | with no stored budget and no negative amounts nothing remains |
| Insights.Warns | public/classes/insights.js:18-23 | the notifier warns iff the remaining amount is at most a fifth of the total |
| Insights.Step | public/classes/insights.js:41-48 | the latch alerts iff the flag is unset and 0 < remaining ≤ 20 % of the budget, and then sets the flag; with the flag set it never alerts, and clears the flag exactly when remaining is above 20 %; for a non-negative budget, at remaining 0 nothing changes |
| Insights.StepSettles | public/classes/insights.js:41-48 | a second run of the latch on the same remaining budget and budget raises no alert and leaves the flag where the first run put it |
| Insights.Alerts | public/classes/insights.js:41-48 | run over successive remaining values, an alert is raised only at a value above 0 and at most 20 % of the budget; starting with the flag already set, the first value raises none (that the first low value of an episode does alert is `Insights.QuietFirstLowAlerts` and `Insights.FirstLowAfterRecoveryAlerts`) |
| Insights.AlertedNeedsRecovery | public/classes/insights.js:41-48 | once alerted, a later alert needs an earlier value above 20 % of the budget |
| Insights.AlertsSeparatedByRecovery | public/classes/insights.js:41-48 | between any two alerts the remaining budget rose above 20 %: at most one alert per low-budget episode (`Insights.QuietFirstLowAlerts` and `Insights.FirstLowAfterRecoveryAlerts` give at least one) |
| Insights.QuietFirstLowAlerts | public/classes/insights.js:41-45 | starting with the flag clear, the first value above 0 and at most 20 % of the budget raises an alert |
| Insights.FirstLowAfterRecoveryAlerts | public/classes/insights.js:41-48 | after a value above 20 %, whatever the flag was, the next value above 0 and at most 20 % raises an alert: with `AlertsSeparatedByRecovery`, exactly one alert per low-budget episode |
| Insights.LowBudgetScenario | public/classes/insights.js:41-45 | 150 left of 1000 alerts once; a following 0 raises no second alert |
| Insights.UpdateBudgetDisplay | public/classes/insights.js:25-49 | shows the remaining budget, alerts and moves the flag exactly as `Step` does, and changes no key other than `notificationSent` |
| Insights.GroupSpendsSum | public/classes/insights.js:82-90 | the totals of the groups of a grouping add up to the spend of the grouped records |
| Insights.CategoryTotals | public/classes/insights.js:77-90 | one total per category, categories distinct and exactly those of this month's records; each total is the spend of that category's current-month records; the totals sum to the month's spend |
| Insights.CategoryBreakdown | public/classes/insights.js:67-76 | an empty record list gives "no transactions"; otherwise the current-month category totals |
| Insights.DaysInMonth | public/classes/insights.js:153 | a month has 28 to 31 days; February has 29 days iff the year is a Gregorian leap year, otherwise 28 |
| Insights.YearLength | public/classes/insights.js:153 | the twelve month lengths add up to 365 days, or 366 in a leap year |
| Insights.DaysLeft | public/classes/insights.js:144-158 | days left plus today's day is the month's length, so the count lies in 0..30 and is 0 exactly on the last day |
| Insights.DaysLeftCountsDown | public/classes/insights.js:150-155 | each later day of the month lowers the count by one |
| Chart.PieChartData | src/classes/chart.ts:6-32 | labels and amounts have the same length, the number of categories plus one; slice i carries the name and the total of the i-th category of the insights breakdown; the last label is "Remaining Budget" with the remaining budget (≥ 0); the other labels are the distinct categories of this month; the other amounts sum to the month's spend |
| Chart.Slices | src/classes/chart.ts:16-28 | one slice per category total in order, each label paired with its own total, then the remaining-budget slice |
| Filter.NormalizeQuery | src/classes/filter.ts:14-19 | the query is empty iff the raw input is all whitespace |
| Filter.SearchMatch | src/classes/filter.ts:26-30 | a record matches iff its lower-cased category contains the query, or its description is text whose lower-cased form contains it, or its amount in decimal contains it; a null amount reached by the third test throws |
| Filter.NumericDescriptionNeverMatches | src/classes/filter.ts:28 | a numeric description plays no part: the record matches as it would with no description |
| Filter.SearchAll | src/classes/filter.ts:26-30 | the search fails iff some record throws; otherwise the result is exactly the shared filter of the records by the match test, duplicates and order included |
| Filter.SearchStored | src/classes/filter.ts:22-38 | with a non-empty query: the search fails iff some record throws; with no match nothing matched and nothing threw; otherwise the filtered matching records, duplicates and order included, are stored under `searchResults` |
| Filter.Search | src/classes/filter.ts:13-42 | an all-whitespace query is rejected and nothing is stored; a throw stores nothing; no match stores nothing; otherwise the non-empty filter of the stored records by the match test is stored under `searchResults` |
| Filter.HitsOf | src/classes/filter.ts:26-30 | the records kept by the search are exactly the matching ones, as an order-preserving subsequence, each kept as many times as it is stored |
| Filter.SearchScenario | src/classes/filter.ts:26-30 | "food" against a Food record of 12.50 and a Transport record of 8 keeps only the Food record |
| Filter.SelectCategory | src/classes/filter.ts:85-94 | a value is appended only when non-empty and not yet selected, so the list stays duplicate-free |
| Filter.RemoveCategory | src/classes/filter.ts:106-109 | removal deletes exactly that category, keeps the order of the rest and keeps the list duplicate-free |
| Filter.Keeps | src/classes/filter.ts:163-168 | a kept record is in a selected category when any is selected; an inverted date range or an amount range with maximum below the (defaulted) minimum keeps nothing; with no minimum a negative amount is dropped |
| Filter.ApplyFilter | src/classes/filter.ts:145-184 | an absent `tasks` key aborts without writing; otherwise the result is the order-preserving subsequence of the records meeting all four conditions, each kept as many times as it is stored; an empty result writes nothing; a non-empty one is stored under `filteredResults` and no other key changes |
| Filter.NoCriteriaKeepsNonNegative | src/classes/filter.ts:145-146 | with every field empty a record is kept iff its amount is not negative, so with no negative amounts the whole stored list comes back in order |
| Filter.FilterScenario | src/classes/filter.ts:164-168 | amounts 10 to 20 keep a record of 12.50 and drop one of 8 |
| Index.SaveTasks | src/index.ts:13-17 | after saving, loading returns exactly the saved list; the displayed remaining budget is that of the new store; the alert and the new flag follow `Step` from the old flag; only `tasks` and `notificationSent` change |
| Index.SaveThenLoad | src/index.ts:13-17 | the saved list is read back unchanged, and with no negative amounts the displayed remaining budget lies between 0 and the budget |
| Index.LatestFive | src/index.ts:29-42 | an empty list gives "no transactions"; otherwise exactly min(5, n) links, link i showing record i and carrying an id that parses back to i |
| Index.LatestFiveIsPrefix | src/index.ts:35-42 | the home list shows a prefix of the records and no two links share an id |
| Home.ImageFor | src/classes/home.ts:26-39 | the four known categories (Food, Entertainment, Transport, Groceries) get a picture of their own; every other category gets `img/default.png` |
| Home.ImageMatchesBreakdownIcon | public/classes/insights.js:104 | the picture a known category gets when added is the icon the insights breakdown builds from its lower-cased name, `img/<lower-case name>.png` |
| Home.NewTask | src/classes/home.ts:42-48 | the new record carries the category, the trimmed description, the date, the parsed amount and the mapped image |
| Home.AddExpense | src/classes/home.ts:20-59 | a form is rejected iff the category is empty, the trimmed description is empty, the date is missing or the amount is a number ≤ 0; a rejection changes nothing; otherwise the new record becomes element 0 with the old list unchanged behind it, the home list is re-rendered from that list and exactly that list is saved; the alert and the new flag follow `Step` from the old flag, with the remaining budget of the new list |
| Home.FormValid | src/classes/home.ts:20 | a form passes iff the category is non-empty, the description has a non-white character, the date is set and the amount is not a number ≤ 0 (so a missing amount passes) |
| Home.NonNumericAmountAccepted | src/classes/home.ts:20 | a non-numeric amount passes the check, and the record is added with a missing amount that totals read as 0 |
| Home.AddsStackNewestFirst | src/classes/home.ts:51-59 | two adds leave the later record first, then the earlier one, then the original list, as stored |
| Home.AddedRecordCounts | src/classes/home.ts:51 | a record added for the current month raises the month's spend by its amount |
| SeeAll.GroupedEntries | src/classes/seeall.ts:25-38 | the date groups partition the entries; every entry carries its record's true position in the shown list; within each group positions increase |
| SeeAll.DateGroups | src/classes/seeall.ts:25-38 | the groups under "Today", "Yesterday", or month and year partition the enumerated records by date label, every entry's position points at its record, and positions increase within each group |
| SeeAll.RenderKeepsBudgetState | src/classes/seeall.ts:41-42 | rendering writes only `allTransactions`: the records, the budget and the alert flag read the same afterwards, and a non-empty shown list reads back from `allTransactions` |
| SeeAll.RenderTransactions | src/classes/seeall.ts:5-64 | an empty list shows its message and changes nothing; a non-empty list is written to `allTransactions`; rendering fails iff some record has a null amount; otherwise the groups partition the entries, each id is a valid position holding its record, and ids increase within a group |
| SeeAll.SourceList | src/classes/seeall.ts:78-87 | the `search` flag selects `searchResults`, else the `filtered` flag selects `filteredResults`, else `tasks`; an absent key gives [] |
| SeeAll.SearchRedirectShowsResults | src/classes/seeall.ts:78-80 | after a successful search the list page shows exactly the stored search results |
| SeeAll.FilterRedirectShowsResults | src/classes/seeall.ts:81-83 | after a successful filter the list page shows exactly the stored filter results |
| SeeAll.SeeAllPage | src/classes/seeall.ts:69-95 | shows the chosen list, stores it under `allTransactions` when non-empty, then runs the alert latch unless rendering threw: the alert and the new flag follow `Step`, and a throw leaves the flag alone; only `allTransactions` and `notificationSent` change (this is the list page's own handler; the whole load is `SeeAll.SeeAllLoad`) |
| SeeAll.SeeAllLoad | public/classes/insights.js:136-137 | the list page's load: the insights listener's display update runs first and then the page's handler; the list shown is the handler's, the alert and the new flag follow one `Step` on the stored figures even when rendering throws, and the handler's own update raises no second alert |
| CategoryPage.CategoryRecords | src/classes/type.ts:40-47 | the shown records are exactly those of the chosen category in the current month and year, in input order, each kept as many times as it occurs in the input |
| CategoryPage.RenderCategory | src/classes/type.ts:10-92 | a missing or empty category is invalid; a missing `allTransactions` gives "no transactions"; otherwise the total is the spend of the shown records; an empty selection gives "none for this category" with total 0; rendering fails iff a shown record has a null amount; otherwise the date groups partition the shown records |
| CategoryPage.CategoryRecordsAreBreakdownGroup | src/classes/type.ts:36-47 | the category page selects exactly that category's group of the current-month breakdown |
| CategoryPage.CategoryTotalMatchesBreakdown | src/classes/type.ts:52-53 | when `allTransactions` holds the stored records, the page of a category from the breakdown lists records and shows that category's breakdown total |
| Detail.DescriptionText | src/classes/content.ts:53 | an absent description shows the fixed fallback text; text shows as is; a number shows in decimal |
| Detail.ShowExpense | src/classes/content.ts:5-29 | a missing or empty id aborts; a record is shown iff the id parses as an integer in 0..n-1 of the stored list, and it is the stored record at that position |
| Detail.PositionLinkResolves | src/classes/content.ts:14-24 | the id written for position i opens stored record i, or fails the bounds check when the stored list is shorter |
| Detail.HomeLinkOpensItsRecord | src/classes/content.ts:14-24 | every link of the home list opens the record it shows |
| Detail.ListLinkResolvesAgainstStoredRecords | src/classes/content.ts:14 | a list-page link after a search carries the position in the results, but opens the stored record at that position: here a different record |
| Detail.TrailingTextIgnored | src/classes/content.ts:17 | `parseInt` ignores text after the leading digits: "1abc" opens record 1 |
| BudgetPage.SaveBudget | src/classes/adjustbudget.ts:51-58 | an empty field is rejected and nothing changes; otherwise only `monthlyBudget` changes, `notificationSent` is untouched, and the save warns iff the new budget is ≤ 0 |
| BudgetPage.SaveLeavesLatchAlone | src/classes/adjustbudget.ts:14-24 | a positive budget never warns on save, and a set flag stays set |
| BudgetPage.DeleteBudget | src/classes/adjustbudget.ts:32-38 | the budget key is removed, then the display update runs: only `monthlyBudget` and `notificationSent` change, and the remaining budget is 0 unless the month's spend is negative; the alert and the new flag follow `Step` with a budget of 0 |
| BudgetPage.DeleteKeepsFlag | src/classes/adjustbudget.ts:33-36 | with no negative amounts a delete leaves nothing remaining, raises no alert and does not clear a set flag |
| Text.Trim | src/classes/filter.ts:14 | the result is a slice of the input with no whitespace at either end, cut only at whitespace, and is empty iff the input is all whitespace |
| Text.CentsToString | src/classes/filter.ts:29 | whole amounts print as their integer; a decimal point appears iff the amount has cents; a minus sign appears iff the amount is negative; after the optional sign come exactly the decimal digits of the magnitude's whole part (`NatToString`), and the text ends with `FractionText` of its cent part |
| Text.FractionText | src/classes/filter.ts:29 | no cents print nothing; otherwise a point and one or two digits, the last never 0 (1250 prints ".5", never ".50") |
| Text.FractionTextValue | src/classes/filter.ts:29 | the characters after the point are decimal digits; one digit counts tenths and two count hundredths of the cent part |
| Text.ParseIntOfCents | src/classes/filter.ts:29 | the printed amount reads back, under `parseInt`, as its whole part truncated toward zero |
| Text.ParseInt | src/classes/content.ts:17 | yields a number iff, after leading whitespace and an optional sign, the id starts with a digit |
| Text.ParseIntOfNat | src/classes/content.ts:17 | the decimal text of a natural number, followed by text that does not start with a digit, parses back to that number |
| Common.GroupBy | src/classes/type.ts:63-70 | keys are distinct, every group is non-empty and holds exactly the records of its key in input order, and every record's key has a group |
| Common.ElementInExactlyOneGroup | src/classes/type.ts:63-70 | every record lies in exactly one group |

## Left out

- Page rendering: the DOM, HTML strings, styling, and the wiring of event listeners. The filter panel's open/close handlers are left out too.
- The Chart.js call. Only the data handed to it is modelled.
- `updateBudgetProgress` (floating-point circle geometry) and `updateMonthName`. Both are display only.
- JSON encoding and `JSON.parse` errors. A stored list is kept as the list itself.
- `WellFormed` is an assumption about what each key holds; it is not enforced. Stores holding the wrong kind of value are modelled, but no contract speaks about them.
- Floating point:
  - Amounts are exact cents.
  - `toFixed(2)` rounding and the inexactness of `0.2` are not modelled.
  - A budget or amount with fractions of a cent is not representable.
  - The budget field's `parseFloat(...).toFixed(2)` is taken to yield the typed amount in cents.
  - A non-numeric but non-empty budget field is not modelled; a number input reports it as empty.
  - A non-numeric min or max filter field is not modelled.
- Date parsing and time zones. Dates are calendar triples. The day and date labels are parameters of the list and category pages.
- `parseInt` precision loss for ids longer than 15 digits.
- Case mapping: lower-casing covers ASCII letters only. Trimming and `parseInt` skip exactly the ECMAScript WhiteSpace and LineTerminator characters (`IsWhite`).
- The insights load listener (public/classes/insights.js:136-140) runs on every page that imports insights.js, directly or through src/index.ts. On the list page this is composed with the page's handler (`SeeAll.SeeAllLoad`). On the other pages that reach it, the extra display update it makes at load is not modelled: src/index.ts, src/classes/adjustbudget.ts and src/classes/chart.ts import it directly; src/classes/content.ts (the detail page) and src/classes/home.ts import it through src/index.ts. There the update can raise the alert and change `notificationSent`.
- Keys of plain objects:
  - JavaScript lists integer-like keys (a category named "12") first in `Object.keys`.
  - Inherited names such as "constructor" start from a non-zero value.
  - The model uses first-appearance order and fresh totals for every category.
- Common.GroupBy: the grouping is stated as a partition in first-appearance order. The display order of the sections is not stated separately.
- The unreachable `!selectedTask` check of the detail page. Stored records are never falsy.
- `public/classes/content.js` and `public/classes/home.js`: they are compiled copies of the TypeScript pages and are not modelled separately.
- The days-left count is modelled for valid calendar dates only.
