# Expense tracker: the store, its views and the expense record

This project models the in-memory core of a small Java expense tracker and proves
properties of it in Dafny. The core has four parts:

- `Category`: eleven expense kinds, each with a display name.
- `Expense`: a mutable record of date, category, amount and description.
- `ExpenseTracker`: a list of distinct expense objects kept ascending by date. It is
  changed only by `addExpense` and `deleteExpense`.
- `ExpenseTrackerView`: an immutable, date-sorted snapshot of expenses. It can be
  filtered by category or by an inclusive date range, cut to its first `n` elements,
  and copied out with `toList`.

Modules, one per file:

| module | file | models |
|---|---|---|
| `Results` | results.dfy | results and errors: `Ok(value)` or `Err(IllegalArgument)`, i.e. `IllegalArgumentException` |
| `Dates` | dates.dfy | a `LocalDate` as `(year, month, day)` with the order `compareTo` gives |
| `Categories` | categories.dfy | `model.Category` |
| `Seqs` | seqs.dfy | the order-preserving list operations: filter, `List.remove(Object)`, subsequences |
| `Expenses` | expenses.dfy | `model.Expense`, with objects as references into a heap |
| `Views` | views.dfy | `model.ExpenseTrackerView` |
| `Tracker` | tracker.dfy | `model.ExpenseTracker` |
| `Scenarios` | scenarios.dfy | several calls together: the tests' fixtures and how the console front end uses the store |

**Objects are references.** `Expense` overrides neither `equals` nor `compareTo`.
So every `contains` and `remove` on a list of expenses compares object identity, not
field values. The model keeps that distinction:

- An object is a `Ref`, a reference into a `Heap`. The heap maps each reference to the
  object's four fields.
- The tracker and the views hold sequences of references.
- A setter returns a new heap in which only that object's field has changed. Every
  list and view that holds the object then sees the change, as in Java.

**Notes on the code.**

- The class comment calls the tracker "a mutable list of unique expenses"
  (src/model/ExpenseTracker.java:20-22). `Expense` defines no `equals`, so uniqueness
  is by identity. The tests at src/tests/ExpenseTrackerTests.java:184-203 and
  src/tests/ExpenseTrackerTests.java:273-296 rely on this, and the model uses identity too.
- Every method body of `ExpenseTrackerView` only throws `AssertionError`. Its contract
  is taken from the class's REQUIRES/EFFECTS comments and from `ExpenseTrackerViewTests`.
  In particular, a list that is not ascending, a negative limit and an end date before
  the start all give `IllegalArgumentException`.
- `addExpense` calls `Collections.sort` on a class that is not `Comparable`, so the
  line does not compile as written. The sort key is taken from the view constructor's
  REQUIRES comment and from the out-of-order test: ascending by date. `Collections.sort`
  is stable, so the model sorts with a stable insertion sort, and a new expense lands
  after every existing expense with the same date.

## Model

| member | source | states |
|---|---|---|
| Categories.Values | src/model/Category.java:3-14 | exactly eleven constants, GROCERIES first and PAYMENT last, each present once |
| Categories.OrdinalIndexesValues | src/model/Category.java:4-14 | each constant sits in `values()` at its ordinal, its position in the declaration |
| Categories.NameInjective | src/model/Category.java:4-14 | no two constants share an identifier |
| Categories.DisplayName | src/model/Category.java:16-25 | the display name has the identifier's length and first character, the rest is lower-case, and upper-casing it gives back the identifier |
| Categories.DisplayNameValues | src/tests/CategoryTests.java:11-23 | the display names are "Groceries", "Transportation", … "Payment", as the tests assert |
| Categories.DisplayNameInjective | src/tests/CategoryTests.java:12-22 | distinct constants have distinct display names |
| Categories.FromName | src/model/Category.java:3-14 | `valueOf(s)` gives the constant whose identifier is `s` when there is one, and `IllegalArgumentException` exactly when there is none |
| Expenses.New | src/model/Expense.java:15-20 | the constructor makes a fresh object whose four getters return the arguments, with no validation; no other object changes |
| Expenses.SetDate | src/model/Expense.java:26-28 | after `setDate`, `getDate` returns the new date; the other fields and all other objects are unchanged |
| Expenses.SetCategory | src/model/Expense.java:34-36 | after `setCategory`, `getCategory` returns the new category; nothing else changes |
| Expenses.SetAmount | src/model/Expense.java:42-44 | any amount, zero or negative included, is stored as given; nothing else changes |
| Expenses.SetDescription | src/model/Expense.java:50-52 | any description, the empty one included, is stored as given; nothing else changes |
| Expenses.SetCategoryTwice | src/tests/ExpenseTests.java:61-66 | setters are last-write-wins: of two `setCategory` calls only the second is seen |
| Expenses.NewIsNotFieldEquality | src/model/Expense.java:8-65 | two objects built from the same arguments are two different objects with equal fields |
| Expenses.RenderFields | src/model/Expense.java:55-63 | `toString` joins the fields with tabs: the first three tab-separated fields are the date, the category's display name and the amount, and the rest is the description, whatever tabs it holds |
| Expenses.RenderFieldsTabFree | src/model/Expense.java:55-63 | with a description that holds no tab, `toString` has exactly four tab-separated fields: date, display name, amount and description, in that order |
| Seqs.FilterUnique | src/model/ExpenseTrackerView.java:15-19 | the filter is the only order-preserving selection of exactly the matching elements, each as often as in the input |
| Seqs.RemoveFirst | src/model/ExpenseTracker.java:52-54 | `List.remove(Object)` drops the first occurrence and keeps the rest in order; an absent element leaves the list as it is |
| Views.InOrder | src/model/ExpenseTrackerView.java:10-11 | comparing each element with the next decides exactly whether the whole list is ascending by date |
| Views.NewView | src/model/ExpenseTrackerView.java:8-13 | the constructor succeeds exactly on a list ascending by date, and `toList` then gives that list back; otherwise `IllegalArgumentException` |
| Views.FilterByCategory | src/model/ExpenseTrackerView.java:15-19 | exactly the elements of the category, each as often as in the receiver, in the receiver's order; a sorted view stays sorted |
| Views.FilterByDateRange | src/model/ExpenseTrackerView.java:21-26 | `IllegalArgumentException` exactly when the end is before the start; otherwise exactly the elements dated within the range, both ends included, each as often as in the receiver, in order and still sorted |
| Views.LimitToAmount | src/model/ExpenseTrackerView.java:28-33 | `IllegalArgumentException` exactly for a negative limit; otherwise a prefix of length `min(n, size)` |
| Views.LimitKeepsEarliest | src/model/ExpenseTrackerView.java:30 | on a sorted view the limit keeps the earliest elements in their order: a subsequence of the view, still sorted, with no kept element dated after a dropped one |
| Views.FilterByCategoryIdempotent | src/tests/ExpenseTrackerViewTests.java:202-208 | filtering by the same category twice is filtering once |
| Views.FilterByTwoCategoriesIsEmpty | src/tests/ExpenseTrackerViewTests.java:210-216 | filtering by one category and then by another leaves nothing |
| Views.CategoryAndDateFiltersCommute | src/tests/ExpenseTrackerViewTests.java:269-289 | the category filter and the date-range filter give the same view in either order |
| Views.FilterByCategoryUnique | src/model/ExpenseTrackerView.java:15-19 | any order-preserving selection of exactly the category's elements is the filter's result |
| Views.FilterByDateRangeUnique | src/model/ExpenseTrackerView.java:21-26 | any order-preserving selection of exactly the elements within the range, each as often as in the receiver, is the filter's result |
| Tracker.Empty | src/model/ExpenseTracker.java:25-29 | a new tracker is empty and satisfies the invariant |
| Tracker.SortByDate | src/model/ExpenseTracker.java:43-45 | the sort keeps exactly the same elements and leaves them ascending by date |
| Tracker.SortSortedIsIdentity | src/model/ExpenseTracker.java:45 | sorting a list that is already ascending changes nothing |
| Tracker.InsertPosition | src/model/ExpenseTracker.java:43-45 | adding one element to a sorted list and sorting puts it after every element dated on or before it and before every later one, with the others in their old order |
| Tracker.GetExpenses | src/model/ExpenseTracker.java:31-35 | the snapshot succeeds exactly when the list is sorted, which the invariant guarantees, and lists the tracker's elements in order |
| Tracker.AddExpense | src/model/ExpenseTracker.java:37-48 | `false` and no change exactly when the object is already present; otherwise `true`, and the list gains exactly that object and is sorted; the invariant (no object twice, ascending by date) is kept |
| Tracker.AddIsStableInsert | src/model/ExpenseTracker.java:39-47 | on a valid tracker, a successful add inserts the object after every same-date element and keeps the order of the others |
| Tracker.DeleteExpense | src/model/ExpenseTracker.java:50-54 | `true` exactly when the object is present; then only that object is removed and the rest keep their order; otherwise nothing changes; the invariant is kept |
| Tracker.AddAll | src/model/ExpenseTracker.java:84-93 | the effect of `load` on the list: `addExpense` on each element in order; afterwards the list holds exactly the old elements and the loaded ones, and the invariant is kept |
| Scenarios.EmptySnapshot | src/tests/ExpenseTrackerTests.java:101-106 | a new tracker's snapshot is empty |
| Scenarios.AddTwice | src/tests/ExpenseTrackerTests.java:169-182 | adding the same object twice gives `true`, then `false`, and the object is in the list once |
| Scenarios.DeleteTwice | src/tests/ExpenseTrackerTests.java:263-271 | deleting a present object gives `true` and one fewer element, and deleting it again gives `false` and no change |
| Scenarios.SnapshotIsolation | src/tests/ExpenseTrackerTests.java:108-118 | a delete after a snapshot leaves the snapshot at the old size, and the next snapshot is one smaller |
| Scenarios.SnapshotsShareObjects | src/tests/ExpenseTrackerTests.java:120-132 | two snapshots hold the same objects: an amount set through one is read through the other |
| Scenarios.AddIsByIdentity | src/tests/ExpenseTrackerTests.java:184-203 | two objects with equal fields are both accepted, and the list then holds two elements |
| Scenarios.DeleteIsByIdentity | src/tests/ExpenseTrackerTests.java:273-296 | deleting with an object whose fields equal the stored one's gives `false` and leaves the stored one in place |
| Scenarios.AddToEmpty | src/tests/ExpenseTrackerTests.java:134-146 | adding to a new tracker succeeds and gives the one-element list |
| Scenarios.AddOutOfOrder | src/tests/ExpenseTrackerTests.java:205-228 | adding the later expense first and the earlier second still lists them in date order, and the snapshot succeeds |
| Scenarios.AddNewAlwaysSucceeds | src/ui/Main.java:90-95 | the front end's add of a newly constructed object always returns `true`, so its "should be impossible" branch is unreachable; this holds for any tracker with no object twice, including one an in-place date edit left out of order, and the add leaves the tracker valid |
| Scenarios.DeleteListedAlwaysSucceeds | src/ui/Main.java:155-175 | the front end's delete of an element taken from a fresh listing always returns `true` |
| Scenarios.NonDateEditsKeepValid | src/ui/Main.java:133-148 | editing a stored expense's category, amount or description in place keeps the tracker valid |
| Scenarios.InPlaceDateEditBreaksListing | src/ui/Main.java:128-132 | editing a stored expense's date in place can leave the list out of order, so the next snapshot fails |
| Scenarios.EditDate | src/ui/Main.java:128-132 | a date edit done as delete, `setDate`, add keeps the tracker valid and the same objects, and the object has its new date |
| Scenarios.FixtureIsSorted | src/tests/ExpenseTrackerViewTests.java:101-111 | the five-expense fixture is ascending by date, so the view constructor accepts it |
| Scenarios.FixtureDining | src/tests/ExpenseTrackerViewTests.java:179-187 | filtering the fixture by DINING gives the Aug-11 and Aug-24 expenses, in that order |
| Scenarios.FixtureDiningInAugust | src/tests/ExpenseTrackerViewTests.java:302-307 | both dining expenses fall within August 2024, bounds included |
| Scenarios.FixtureFirst | src/tests/ExpenseTrackerViewTests.java:305-311 | limiting the August dining expenses to one leaves only the Aug-11 "McDonald's" expense |
| Scenarios.FixtureChain | src/tests/ExpenseTrackerViewTests.java:302-312 | on the fixture's view, filtering by DINING, then by August 2024, then limiting to one leaves exactly one expense, of category DINING, described "McDonald's" |

## Left out

- Saving and loading: Gson JSON, file I/O and the `LocalDate` adapter (src/model/ExpenseTracker.java:56-93) are not modelled. The effect of `load` on the list is modelled as `Tracker.AddAll`, with no parsing.
- `Loadable`, `Saveable` and `Persistent`: bodiless I/O interfaces.
- The console front end in src/ui/Main.java: menus, prompting, parsing and printing. Only its uses of the store are modelled: add, delete, and the in-place edits.
- `Expenses.Render`: rendering the date (`LocalDate.toString`) and the amount (the Canadian currency formatter) is library code. Both are passed in as functions, so "$120.00" and "-$20.00" are not reproduced.
- Null arguments, such as the view constructor test that passes `null`: the model has no null references.
- Categories.DisplayName: `String.toLowerCase()` (src/model/Category.java:20) lowers by the JVM's default locale. The model lowers ASCII letters only, which is what the tests expect (src/tests/CategoryTests.java:12-22). Under a Turkish or Azeri default locale the `I` after the first letter of six identifiers (GROCERIES, TRANSPORTATION, EDUCATION, UTILITIES, DINING and ENTERTAINMENT) would lower to a dotless `ı`, and that case is not modelled.
- `LocalDate` calendar validity: a date is three integers, and only their order is used.
- `BigDecimal`: an amount is an unscaled integer and a scale, stored and returned but never compared or rounded.
- `Views.ToList`: the copy `toList` makes is not a separate statement. Sequences are values, so nothing done to a returned list can reach the view, while the elements it shares are the same references.
- Concurrency: none in the source.

## Findings

| source | as written | input that shows it | evidently intended | confidence | as-written member | corrected member |
|---|---|---|---|---|---|---|
| src/ui/Main.java:128-132 | the date edit calls `setDate` directly on an expense that the tracker holds, bypassing the store | expenses dated 2025-01-01 and 2025-01-02; change the first one's date to 2025-02-01 | the tracker stays ascending by date, so that the next listing (src/ui/Main.java:100) does not end in `IllegalArgumentException` from the view constructor | not executed | Scenarios.InPlaceDateEditBreaksListing | Scenarios.EditDate |
