# Expense tracker: record store and monthly aggregation, modelled in Dafny

The expense tracker is a command-line program that keeps a list of expense
records (`id`, `amount`, `category`, `note`, `date`) in one data file. Adding
loads the whole list, appends, and writes the whole list back. Delete loads the
list and writes it back only when a record was removed; update does so
whenever the id is found, even when every answer is skipped. Listing, the monthly summary and export only load it. Clearing never
loads it and writes an empty list.
This project models the decision logic of that program, with every prompt
answer and clock reading passed in as a parameter:

- **Catalog** (`catalog.dfy`): the fixed seven categories, and the rule that a
  menu answer is accepted only when it is a digit string with value `n` in
  `1..7`, and then selects entry `n`.
- **Store** (`store.dfy`): class `ExpenseStore`, whose `records` field is the
  persisted list. `Add` appends a clock-stamped record. `Delete` keeps the
  records whose id differs and saves only if the list shrank. `Update` edits
  the first record with the id, with skip semantics for each field. `ClearAll`
  empties the list after the confirmation "YES". The pure functions behind
  them are `Without`, `FirstIndexOf`, `ApplyEdit` and `UpdateFirst`.
- **Summary** (`summary.dfy`): the monthly summary. It keeps the records of
  one year and month, sums their amounts, and keeps per-category totals in the
  order categories were first met (the order of a Python dict). The top
  category is the first one with the largest total. `TallyPeriod` is the loop,
  proved against the functions `Filtered`, `Total`, `CategoryKeys` and
  `CategorySums`.
- **View** (`view.dfy`): the listing order (a stable sort by date string,
  newest first) and the rows an export hands to the CSV writer.
- **Expense** and **Text** (`expense.dfy`, `text.dfy`): the record type, the
  clock reading, the `YYYY-MM-DD HH:MM:SS` date text, and the parts of
  Python's string handling that the program relies on (`isdigit`, `int`,
  `str`, `strip`, string `<=`).

Amounts are integers in the currency's smallest unit, so the sums are exact.

## Model

| member | source | states |
|---|---|---|
| `Catalog.ChooseByNumber` | expense_tracker.py:35-36 | a choice is accepted exactly when it is a digit string with value in 1..7; the result is then `CATEGORIES[n-1]`, so always a catalog entry |
| `Catalog.MenuLabelSelects` | expense_tracker.py:31-36 | typing the number the menu prints next to an entry selects that entry |
| `Catalog.ChoiceDeterminesNumber` | expense_tracker.py:7 | the catalog has no repeated entry, so the chosen category determines the number that was typed |
| `Text.DecimalValueOfToDecimal` | expense_tracker.py:31-35 | `int(str(n)) == n`: a printed menu number reads back as the same number |
| `Text.ToDecimalOfDecimalValue` | expense_tracker.py:169 | `str(int(s)) == s` for a digit string without a superfluous leading zero |
| `Text.StrLeqTotal` | expense_tracker.py:71 | any two date strings are comparable under Python's string order |
| `Text.StrLeqTransitive` | expense_tracker.py:71 | Python's string order is transitive |
| `Text.StrLeqReflexive` | expense_tracker.py:71 | every string is `<=` itself |
| `Text.StrLeqAntisymmetric` | expense_tracker.py:71 | two strings each `<=` the other are equal |
| `Expense.FormatDate` | expense_tracker.py:56 | a formatted clock reading is a date `strptime` accepts |
| `Expense.YearAtLeastOne` | expense_tracker.py:168 | a date the summary parses has a year of at least 1, as `datetime` requires |
| `Expense.FormatDateRoundTrip` | expense_tracker.py:56 | parsing a formatted date gives back the year, month, day, hour, minute and second of the clock reading |
| `Expense.MonthTextIsSlice` | expense_tracker.py:169 | `f"{d.month:02d}"` equals the date's month characters |
| `Store.ExpenseStore.Add` | expense_tracker.py:40-61 | adds nothing when the amount could not be read; otherwise appends exactly one record, built from the clock, at the end, leaving earlier records unchanged and in order; keeps the catalog and distinct-id invariant when the clock is later than every stored id |
| `Store.AddKeepsIdsDistinct` | expense_tracker.py:52 | a record stamped later than every stored one keeps the ids pairwise distinct |
| `Store.Without` | expense_tracker.py:97 | the kept records are exactly the stored records whose id differs, and the list never grows |
| `Store.WithoutShrinksIffPresent` | expense_tracker.py:97-101 | the length comparison detects a deletion exactly when some record has the id |
| `Store.WithoutAbsent` | expense_tracker.py:97-101 | an absent id leaves the list exactly as it was |
| `Store.WithoutDistributes` | expense_tracker.py:97 | deletion works record by record, so the kept records stay in stored order |
| `Store.WithoutRemovesAtMostOne` | expense_tracker.py:97 | with distinct ids a delete removes at most one record |
| `Store.WithoutKeepsIdsDistinct` | expense_tracker.py:97-103 | deleting keeps the ids pairwise distinct |
| `Store.ExpenseStore.Delete` | expense_tracker.py:84-104 | an empty store and a non-digit answer change nothing; otherwise the list becomes `Without(records, id)` exactly when some record has the id, and is untouched when none does; with distinct ids a deletion removes exactly one record |
| `Store.ApplyEdit` | expense_tracker.py:122-140 | id and date never change; the amount changes only when a new amount was read; the category only for an in-range menu number; the note only for a non-blank answer, each field independently; a catalog category stays a catalog category |
| `Store.ApplyEditIdempotent` | expense_tracker.py:122-140 | giving the same answers twice gives the same record as giving them once |
| `Store.FirstIndexOf` | expense_tracker.py:120-121 | finds no position exactly when no record has the id, and otherwise the first position with the id |
| `Store.UpdateFirst` | expense_tracker.py:120-144 | the edited list has the same length as the stored one |
| `Store.UpdateFirstKeepsIdsAndDates` | expense_tracker.py:120-144 | every position keeps its id and its date through an update |
| `Store.UpdateFirstAt` | expense_tracker.py:120-146 | the update edits the first record with the id and nothing else, and is the identity when no record has the id |
| `Store.UpdateFirstPointwise` | expense_tracker.py:120-146 | position by position: only the first match is edited and every other record is unchanged |
| `Store.UpdateFirstKeepsCatalog` | expense_tracker.py:135-136 | an update keeps every category in the catalog |
| `Store.ExpenseStore.Update` | expense_tracker.py:107-146 | an empty store, a non-digit answer or an absent id change nothing; otherwise the list becomes `UpdateFirst(records, id, edit)` |
| `Store.ExpenseStore.ClearAll` | expense_tracker.py:207-213 | the list becomes empty exactly when the answer is "YES", and is unchanged otherwise |
| `Summary.FilteredMembers` | expense_tracker.py:167-170 | the period's records are exactly the stored records whose parsed year and month match |
| `Summary.FilteredAppend` | expense_tracker.py:167-170 | filtering keeps the stored order of the records it keeps |
| `Summary.InPeriodBySlices` | expense_tracker.py:168-169 | for a year without a leading zero the period test compares the date's first four characters with the year and characters 6-7 with the month |
| `Summary.TotalAppend` | expense_tracker.py:171 | the total of two lists joined is the sum of their totals |
| `Summary.KeysMatchSums` | expense_tracker.py:171-172 | the dict's key order lists exactly the dict's keys, each once |
| `Summary.CategoryKeysExact` | expense_tracker.py:172 | the totals dict has a key exactly for the categories that occur, each once, and a key as soon as there is a record |
| `Summary.CategorySumIsCategoryTotal` | expense_tracker.py:172 | each category's total is the sum of the amounts of exactly that category's records |
| `Summary.CategoryTotalsSumToTotal` | expense_tracker.py:171-172 | the category totals add up to the overall total |
| `Summary.KeysOfPrefix` | expense_tracker.py:172 | dict keys are only ever appended: the keys of a prefix are a prefix of the keys |
| `Summary.KeysInFirstSeenOrder` | expense_tracker.py:172 | the keys are in first-met order: every occurrence of a later key's category is preceded by one of each earlier key's category |
| `Summary.TopIndex` | expense_tracker.py:185 | `max` over the dict picks a key whose total is at least every other total, and every key before it has a strictly smaller total |
| `Summary.TopCategoryIsFirstMaximum` | expense_tracker.py:185 | the top category's total is the largest; another category with an equal total was met only after the top one had been met |
| `Summary.TallyPeriod` | expense_tracker.py:163-172 | the loop yields the filtered records, their total, and the dict's keys and values as the specification functions define them |
| `Summary.MonthlySummary` | expense_tracker.py:149-186 | an empty store yields no summary; a blank year answer defaults to the year of the clock reading taken at the year prompt, a blank month answer to the month of the reading taken at the month prompt; no record in the period yields an empty period; otherwise the report holds the period's records, total, category totals and top category |
| `Summary.AddedExpenseInCurrentPeriod` | expense_tracker.py:155-172 | an expense added now joins the end of the records of a summary asked now with both answers blank, and its amount is added to the total |
| `View.Insert` | expense_tracker.py:71 | inserting adds exactly the one record to the multiset and puts either it or the old head first |
| `View.InsertKeepsDescending` | expense_tracker.py:71 | inserting into a list sorted newest first keeps it sorted |
| `View.SortByDateDesc` | expense_tracker.py:71 | the listing is a permutation of the records with dates non-increasing |
| `View.DescendingPairwise` | expense_tracker.py:71 | along the listing every later date is at most every earlier one |
| `View.InsertStable` | expense_tracker.py:71 | inserting keeps the relative order of records with the same date |
| `View.SortStable` | expense_tracker.py:71 | the sort is stable: records with the same date keep their stored order |
| `View.RowRoundTrip` | expense_tracker.py:200-202 | a data row holds the whole record (reading it back gives the record) and differs from the header |
| `View.ExportRows` | expense_tracker.py:190-202 | an empty store exports nothing; otherwise the header row and then one row per record, in stored order |

## Left out

- Loading and saving the data file, including the blanket `except` that turns an unreadable file into an empty list: `ExpenseStore.records` stands for the persisted list, and the constructor stands for a load.
- Prompts, printing, `divider`, the main menu loop, and the retry loop of `choose_category`: `Add` receives a category already chosen from the catalog, and the other operations receive the raw answers.
- The clock (`datetime.now()`): the millisecond id and the date-time reading are parameters. The monthly summary's year and month prompts each read the clock, so `MonthlySummary` takes the two readings as two parameters. The export file name is not modelled.
- Floating-point amounts: amounts are integers in the smallest currency unit. An amount that fails to parse is an absent `Option` value.
- CSV writing itself (quoting, number formatting): only the sequence of rows is modelled.
- Records are values. `Update` replaces one element of the list instead of assigning into a shared dict; nothing else in the program refers to the loaded dicts, so no aliasing is lost.
- `Catalog.ChooseByNumber`: only ASCII `0`-`9` count as digits. Python's `isdigit` also accepts other Unicode digits, and `int` then raises on some of them. Since Python 3.11 `int` also raises on digit strings longer than 4300 characters, where the model returns `None`.
- `Store.ExpenseStore.Delete`: the id answer is read with the same ASCII-only digit test. Python's `isdigit` and `int` also accept other decimal digits (full-width `"１２３"` reads as 123), where the model reports `InvalidId`; and since Python 3.11 `int` raises on digit strings longer than 4300 characters, which the model reads like any other.
- `Store.ExpenseStore.Update`: the same ASCII-only reading of the id answer as `Delete`, with the same two differences.
- `Summary.MonthlySummary`: requires every stored date in the fixed-width form the program writes: four-digit year of at least 1, two-digit fields within their own ranges, one space. `strptime` also accepts unpadded fields (`"2024-1-05 10:00:00"`), extra whitespace and non-ASCII digits; such dates are not modelled. Month lengths are not checked either, so a date such as 30 February is summarised where `strptime` raises.
- `Expense.FormatDate`: clock years are limited to 1000..9999, because how `%Y` pads smaller years depends on the platform.
- `Store.ExpenseStore.Add`: keeps ids distinct only when the clock is later than every stored id. The program itself never checks uniqueness.
- The model follows the code on three points. Adding cannot receive a category outside the catalog, so there is no validation error. A missing id on delete or update is a reported outcome, not an error. Ties for the top category go to the category first met in the period, which is the dict's insertion order, not the catalog order.
