# Budget manager expense store, in Dafny

A model of the core of a personal expense tracker: the `Expense` record and
its construction checks, the "expensive" flag, allocation of the lowest
free identifier, the total of the amounts, the append steps of the `add`
and `import-csv` commands, clearing the database, and the structure of the
report.

Files and modules:

- `expenses.dfy`, module `Expenses`: the `Expense` datatype, the construction
  checks (`Check`, `NewExpense`, with `ValidationError` in place of the
  `ValueError` exception), `IsExpensive` and its threshold 1000.
- `store.dfy`, module `Store`: `FindFreeId` (the scanning loop) and its
  specification `FreeId`; `Total`; `Added` and `Imported`, the functions that
  say what the in-memory list becomes after `add` and after an import, and
  the methods `AddExpense` and `ImportRows` that compute it as the source
  does; the well-formedness invariant (distinct identifiers, all at least 1,
  every expense valid) and the lemmas that the operations keep it.
- `reports.dfy`, module `Reports`: the report as a value, either
  `EmptyNotice` or `Table(lines, total)`, with one `Line` per expense and the
  `(!)` marker; `PrintReport` is the loop that builds the lines.
- `database.dfy`, module `Budget`: class `BudgetDatabase`, whose field
  `stored` is the list the database file holds and `saves` counts how often
  the file is written. Its methods are the commands: each loads the list,
  works on it, and writes it back only after it has succeeded.

Amounts are exact `real` numbers. CSV rows arrive already parsed as
`Row(amount, description)`. Validation failures are result values
(`Result`, `Outcome`) instead of process exits.

Two behaviours of the code worth stating plainly:

- The code tests only for the empty string (`budget_manager.py:21`), so a
  description made only of blanks is accepted; `Check` accepts `" "`.
- An invalid CSV row is not caught by `import_csv`. The exception ends the
  command before `save_expenses` runs. `ImportCsv` models this as
  `Rejected(error)` with the stored list and the save count unchanged.

## Model

| member | source | states |
|---|---|---|
| Expenses.Check | budget_manager.py:18-22 | a check fails exactly when amount <= 0 or the description is empty; the amount error is reported whenever amount <= 0, even if the description is empty too; the empty-description error is reported only for a positive amount |
| Expenses.NewExpense | budget_manager.py:12-22 | construction succeeds exactly when amount > 0 and the description is non-empty; the record then carries the given id, amount and description and is valid; a failure carries the first failed check |
| Expenses.ExpensiveMonotone | budget_manager.py:24-25 | the flag holds exactly when the amount is at least 1000, and is monotone in the amount |
| Expenses.Message | budget_manager.py:19-22 | the amount refusal's text begins "Amount cannot be zero or negative", the description refusal's "Description cannot be empty" |
| Expenses.MessageDistinct | budget_manager.py:19-22 | the two refusal texts differ, so the printed text determines which check failed |
| Expenses.IsExpensive | budget_manager.py:24-25 | an expense is flagged exactly when its amount is at least 1000 (the threshold at budget_manager.py:9) |
| Expenses.ZeroAmountRefused | tests_budget_manager.py:21-24 | amount 0 with description "Invalid expense" is refused with the amount error, whose text contains the phrase the test looks for |
| Expenses.ConstructionBoundaries | budget_manager.py:18-25 | boundary cases: a negative amount with an empty description reports the amount error; an empty description alone reports the description error; 0.01 and a blank description are accepted; 1000 is flagged and 999.99 is not |
| Store.FreeIdUnique | budget_manager.py:28-33 | the lowest free identifier of a set of used identifiers is unique |
| Store.FreeIdFrom | budget_manager.py:30-33 | scanning upward from a point below which every identifier is used ends at the lowest free identifier, which is at most one more than the number of used identifiers |
| Store.FreeId | budget_manager.py:28-33 | the result is at least 1, not an identifier of the list, every positive integer below it is one, and it is at most the list length plus one |
| Store.FindFreeId | budget_manager.py:28-33 | the loop returns the lowest positive integer not used as an identifier, at most the list length plus one, equal to `FreeId` |
| Store.FreeIdExamples | tests_budget_manager.py:77-81 | ids {1} give 2 and ids {1, 3} give 2, as the test checks; as a boundary case, no ids give 1 |
| Store.Total | budget_manager.py:55-57 | the sum of the amounts of valid expenses is non-negative, and positive when the list is not empty |
| Store.TotalAppend | budget_manager.py:55-57 | the total of a concatenation is the sum of the totals |
| Store.TotalExamples | tests_budget_manager.py:89-104 | the empty list totals 0; 10 + 20 gives 30; 100 + 200 + 300 gives 600 |
| Store.AddedSpec | budget_manager.py:99-109 | `add` succeeds exactly when the checks pass and otherwise reports the failed check; on success the list grows by one, the earlier entries are unchanged and the new entry has the lowest free identifier, which was unused |
| Store.AddedWellFormed | budget_manager.py:101-108 | `add` keeps identifiers distinct and positive and every expense valid |
| Store.AddedTotal | budget_manager.py:99-109 | after `add` the total is the old total plus the new amount |
| Store.AddExpense | budget_manager.py:100-108 | allocating, constructing and appending gives exactly the list `Added` describes, or its error |
| Store.ImportedFailure | budget_manager.py:138-152 | an import fails exactly when some row fails the checks, and then with the error of the first such row |
| Store.ImportedAppends | budget_manager.py:141-147 | a successful import keeps the old list as a prefix and appends one expense per row in row order; row i's expense has that row's amount and description and the lowest identifier free in the list holding the earlier rows |
| Store.ImportedWellFormed | budget_manager.py:141-147 | an import keeps identifiers distinct and positive and every expense valid |
| Store.ImportExample | budget_manager.py:141-147 | the two rows of the test file at tests_budget_manager.py:70 (25.0/Lunch, 50.0/Gasoline), imported into an empty list, get ids 1 and 2 and total 75 |
| Store.ImportRows | budget_manager.py:141-147 | the per-row loop, which recomputes the free identifier against the growing list, gives exactly the result `Imported` describes |
| Reports.LinesAt | budget_manager.py:76-83 | table line i shows expense i |
| Reports.ReportStructure | budget_manager.py:71-88 | the empty-database notice is given exactly for the empty list; otherwise there is one line per expense, in order, with its id, amount and description; the `(!)` marker is on exactly the lines whose amount is at least 1000 and the others have an empty marker; the total line is the given total |
| Reports.ReportLossless | budget_manager.py:76-83 | reading the expenses back from the table lines gives the original list |
| Reports.PrintReport | budget_manager.py:71-88 | the loop over the expenses produces exactly the report `ReportOf` describes |
| Budget.BudgetDatabase.Load | budget_manager.py:36-42 | the loaded list is the saved one, or empty when there is no database file |
| Budget.BudgetDatabase.Add | budget_manager.py:99-110 | on success the stored list is the old one plus the new expense with the lowest free identifier, and it is saved once; on a validation error the stored list and the save count are unchanged; well-formedness is kept |
| Budget.BudgetDatabase.ImportCsv | budget_manager.py:135-153 | all or nothing: the import succeeds exactly when every row passes the checks, and then one expense per row is appended in order and saved once; otherwise the error of the first bad row is returned and nothing is stored or saved; well-formedness is kept |
| Budget.BudgetDatabase.ClearDatabase | budget_manager.py:45-47 | the stored list becomes empty and the file is written once |
| Budget.BudgetDatabase.Report | budget_manager.py:113-117 | the report of the stored list with `Total` as its total; the notice exactly when the list is empty; a table's total equals the total of the expenses it lists |

## Left out

- The `click` command group, argument parsing and `sys.exit` exit codes (`budget_manager.py:91-157`): command-line glue. Errors are result values here.
- `pickle` loading and saving of the database file (`budget_manager.py:36-52`): opaque file I/O. The file is the `stored` field, and a save is an assignment to it plus a count in `saves`. Other I/O errors are not modelled.
- Reading the CSV file with `csv.DictReader` and `open`, including the "Bad file path" branch (`budget_manager.py:60-68`, `:139-140`, `:148-150`): I/O and a library call. That branch only leaves the store unchanged.
- `float(row['amount'])` and click's `float` conversion of arguments: a foreign number parser. A row that does not parse as a number is not modelled.
- IEEE-754 behaviour: rounding in `sum`, and a NaN amount passing the `<= 0` test. Amounts are exact reals.
- The fixed-width layout and two-decimal formatting of `print_report`: only the notice/lines/marker/total structure is modelled.
- The `input` confirmation of `clear-db` (`budget_manager.py:122-123`) and the `export-python` dump (`budget_manager.py:128-130`): user interface only.
- Messages printed on success (`:-) Added to database.` and the like). The refusal texts are kept in `Expenses.Message`.
