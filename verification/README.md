# Donor ledger: submission, change detection and summaries

This project models the logic underneath two Streamlit pages that keep a
donation ledger in `donor_data.csv`:

- the **donor page** (`donor_interface.py`) loads the table, checks whether
  the (name, e-mail) pair has donated before, appends one record and writes
  the whole table back;
- the **viewer page** (`user_interface.py`) keeps a per-session row cursor,
  reports the rows appended since the last refresh, shows totals and the
  number of distinct donors, and picks a donor's first row for a thank-you
  message.

The stored file is a field `file: Option<Table>` of the class
`DonorInterface.DonorStore` (`None` while the file does not exist). A `Table`
holds its column header as well as its rows, because the header matters on the
donor page. When the file is missing, `load_data` makes up an empty table whose
second column is `Name` (donor_interface.py:14). The repeat check and the new
record use `Donor_Name` (donor_interface.py:43, 51). On a fresh start the
check therefore raises `KeyError('Donor_Name')` and nothing is written. The
model keeps this behaviour as an explicit `Err(KeyError("Donor_Name"))`
outcome and does not fix it.

The session cursor is the field `rowCount` of `UserInterface.Viewer`.
`Refresh` reads the shared store. It moves the cursor only when rows come back.

Modules: `Table` (table.dfy) holds the shared record, table, form constraints
and error types. `DonorInterface` (donor_interface.dfy) models the donor page.
`UserInterface` (user_interface.dfy) models the viewer page.

Some behaviours of the code that a reader may not expect, kept as written:

- the empty-table fallback header says `Name`, not `Donor_Name`, so the first
  submission fails (see above);
- when the table has not grown, `check_for_new_rows` returns the current
  length, not the previous count. When the table has shrunk below the cursor,
  it reports no rows and does not fail. The caller ignores that count, so the
  cursor stays put;
- the mean of an empty table is pandas' NaN, modelled as `None`, not 0. The
  summary block is guarded by the session cursor being positive, not by the
  table being non-empty;
- invalid amounts and payment methods are not rejected by the code. The form
  widgets (minimum 1.0, a fixed select box, 50-character inputs) make them
  impossible. `Submit` takes this as its precondition.

## Model

| member | source | states |
|---|---|---|
| `DonorInterface.LoadData` | donor_interface.py:10-14 | a stored table is returned as it is; a missing file gives an empty table whose header is exactly `Donor_ID, Name, Email, Donation_Amount, Donation_Date, Payment_Method, Notes`, so it has `Name` and lacks `Donor_Name` |
| `DonorInterface.Any` | donor_interface.py:43 | the definition of `.any()`; its contract states that it is true exactly when some element of the mask is true (the property `RepeatCheck` builds on) |
| `DonorInterface.RepeatCheck` | donor_interface.py:43 | raises KeyError exactly when `Donor_Name` (looked up first) or `Email` is not a column; otherwise true iff some existing row matches both the name and the e-mail exactly |
| `DonorInterface.MergeColumns` | donor_interface.py:57 | the concatenated header keeps the old columns as a prefix, contains exactly the old columns and the new keys, and adds no duplicate |
| `DonorInterface.Concat` | donor_interface.py:57 | the new table is the old rows, unchanged and in order, followed by exactly the one new record; its header extends the old one with the record's keys |
| `DonorInterface.DonorStore.constructor` | donor_interface.py:7 | the store starts from whatever the file holds, or from no file |
| `DonorInterface.DonorStore.Submit` | donor_interface.py:35-60 | fails exactly when the repeat check raises, and then writes nothing; with no file it always fails with KeyError('Donor_Name'); on success greets a returning donor iff the pair was already present, and stores the loaded table followed by the new record |
| `DonorInterface.FreshStartFails` | donor_interface.py:10-43 | the repeat check on the fallback table raises KeyError('Donor_Name') |
| `DonorInterface.NewRecord` | donor_interface.py:49-56 | the definition of the record dict; its contract states that `Notes` is empty and that form input gives a form-valid row; the row `AppendedRecord` carries what the appended row holds |
| `DonorInterface.AppendedRecord` | donor_interface.py:49-57 | after a submission the table is one row longer, earlier rows are unchanged, and the last row carries the submitted ID, name, e-mail, amount, date and payment method with empty notes |
| `DonorInterface.RepeatAfterSubmit` | donor_interface.py:40-57 | once a submission is appended, the same (name, e-mail) pair is reported as a repeat by the in-memory table, whatever the header was before (see the CSV line under Left out for what a reload changes) |
| `DonorInterface.RepeatOthersUnchanged` | donor_interface.py:43-57 | a submission changes the repeat verdict of no other (name, e-mail) pair |
| `DonorInterface.RepeatAppend` | donor_interface.py:43 | a row that does not match the pair does not change whether the pair is a repeat |
| `DonorInterface.IdsStayDistinct` | donor_interface.py:37-57 | with an ID not already present, Donor_IDs stay pairwise distinct after the append |
| `DonorInterface.FormRowsStayValid` | donor_interface.py:25-57 | if every stored row came through the form, every row still does after a submission: amount at least 1.0, a listed payment method, short name and e-mail, no notes |
| `DonorInterface.ColumnsAfterSubmit` | donor_interface.py:49-57 | after an append the header has every record key and no duplicate, so the next repeat check cannot raise |
| `UserInterface.InitializeRowCount` | user_interface.py:17-22 | the starting count is the table's length, or 0 when the file is missing |
| `UserInterface.CheckForNewRows` | user_interface.py:25-37 | rows come back iff the file exists and has grown past the previous count; they are non-empty and are exactly the suffix after it; the count is the current length when the file exists and the previous count when it is missing |
| `UserInterface.NextCursor` | user_interface.py:74-80 | the cursor never decreases, changes only to the current table length, and catches up with any table at least as long as it |
| `UserInterface.Viewer.constructor` | user_interface.py:62-63 | a new session's cursor is the initial row count |
| `UserInterface.Viewer.Refresh` | user_interface.py:74-82 | returns the rows the cursor diff reports and moves the cursor only when rows come back |
| `UserInterface.InitialCursorSeesNothing` | user_interface.py:17-37 | a freshly started session reports no new rows |
| `UserInterface.SecondRefreshSeesNothing` | user_interface.py:25-80 | a second refresh with no append in between reports no new rows |
| `UserInterface.RefreshAfterSubmit` | user_interface.py:25-37 | after a stored submission, a cursor within the old table reports the rows past it followed by exactly the new record |
| `UserInterface.Total` | user_interface.py:87 | the definition of `Donation_Amount.sum()`; its contract states that non-negative amounts give a non-negative total; the rows `TotalConcat` and `TotalAtLeast` carry its other properties |
| `UserInterface.TotalConcat` | user_interface.py:87 | the total of two consecutive runs of rows is the sum of their totals |
| `UserInterface.TotalAtLeast` | user_interface.py:87 | if every row came through the form, the total is at least 1.0 per row |
| `UserInterface.Emails` | user_interface.py:88 | the set of distinct e-mails holds exactly the e-mails of the rows and is no larger than the number of rows |
| `UserInterface.UniqueDonors` | user_interface.py:88 | the unique-donor count is at most the number of rows and is zero only for an empty table |
| `UserInterface.UniqueDonorsAppend` | user_interface.py:88 | one more row raises the unique-donor count by one exactly when its e-mail is new |
| `UserInterface.Average` | user_interface.py:89 | the mean exists iff the table is non-empty, and the mean times the row count is the total |
| `UserInterface.SummaryPanel` | user_interface.py:85-89 | nothing is shown iff the cursor is zero; with a positive cursor it raises NameError('current_data') when the table was not loaded, else KeyError('Donation_Amount'), else KeyError('Email') for a missing column; otherwise the figures are exactly the total, the distinct-e-mail count and the mean of the rows |
| `UserInterface.SummaryExample` | user_interface.py:87-89 | amounts 10, 20, 30 with e-mails a, b, a give total 60, two unique donors and mean 20 |
| `UserInterface.DonorDetails` | user_interface.py:103 | the chosen row has the selected name and no earlier row has it; there is no row only when no row has the name |
| `UserInterface.DonorDetailsStable` | user_interface.py:103 | rows appended later never change the row found for a name that is already present |

## Left out

- outreach.py: it loads the CSV and hands questions to an external LLM agent. It has no logic of its own.
- The LLM calls `generate_thank_you_message`, `create_csv_agent` and `agent.run` (user_interface.py:13-14, 39-52, 127, 135). They are opaque third-party calls.
- The API-key environment assignment and the LLM construction (user_interface.py:10-14). `create_csv_agent` reads the CSV file each time the viewer page runs, before line 17. With the file missing, the page therefore stops there. The modelled missing-file branches of the viewer page can then be reached only if the file disappears after that point: `InitializeRowCount(None)`, `CheckForNewRows(None, _)` and the NameError of `SummaryPanel`.
- CSV parsing and writing by pandas: the file is an abstract `Option<Table>` and rows are fixed-field records, so what a store-and-reload changes is not modelled. `read_csv` reads back an empty cell, and any of its default missing-value strings (`NA`, `N/A`, `n/a`, `null`, `NULL`, `NaN`, `nan`, `#N/A` and the like), as NaN, which equals nothing. A column whose cells all look like numbers comes back numeric, and a number never equals the submitted text. A date cell comes back as text. Three members are affected. `RepeatAfterSubmit` holds for the reloaded table only when the name and e-mail survive the reload as the same text: a donor named `NA` or `""` is never greeted as returning, and neither is one named `42` when every stored name looks like a number. `DonorDetails` finds no row for a blank or NA-like name offered by the select box, and pandas raises IndexError there; a number-like name is offered as the reloaded value itself and is found. `UniqueDonors` counts two NA-like e-mails (say `""` and `n/a`) as two, while `unique()` sees one NaN.
- UUID generation (donor_interface.py:37): the ID is a parameter of `Submit`, and freshness is a hypothesis of `IdsStayDistinct`.
- Floating point: amounts are `real`, so there is no rounding in sums or in the mean. The `:.2f` formatting and the `int(donation_amount / 5)` impact text (user_interface.py:105) are left out.
- Streamlit rendering, messages, tabs and widgets. The widgets' limits appear only as the precondition of `Submit`. The displayed table (user_interface.py:67-71) appears only as the snapshot passed to `SummaryPanel`.
- `st.session_state` beyond the single integer cursor. A new session is the `Viewer` constructor.
- Concurrent writers racing load, append and save (last write wins). Every operation runs to completion on its own.
- UserInterface.DonorDetails: returns `None` where pandas would raise IndexError. That happens when the selected name matches no row. The select box offers only names from the column, but a blank name reloaded as NaN is offered and matches nothing (see the CSV line above). The `current_data.empty` guard and the select box itself (user_interface.py:98-100) are not modelled.
