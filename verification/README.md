# Clothes Ironing Tracker: record-table model

The ironing tracker keeps one table of intake entries. Each row holds who
handed clothes in, the date and time, a count for each of six garment
categories (shirts, pants, t-shirts, sarees, dresses, dry-clean
shirts/blazers), the derived `Total_Clothes` and a free-text
`Payment_Status`. The "Home" screen appends a new entry, built from the
intake form, with status "Pending". The "Update Data" screen selects the rows
of one date and sets the payment status of all of them at once. When no
stored table exists, the program starts from an empty table with the
eleven-column schema.

This Dafny project models that table logic as pure functions on
`seq<Record>`:

- `wrappers.dfy`: `Option`.
- `schema.dfy`: the categories, the eleven fields and their column names.
- `record.dfy`: the row, its derived-total invariant, entry construction, and the row as a column-to-cell dictionary.
- `table.dfy`: append, the date filter, the bulk payment-status update and their laws.
- `app.dfy`: the two screens' submit handlers and a session of submissions.

The payment status is free text as typed, so any string, not only
"Pending" or "Paid". Counts are not checked by the code, only bounded below
by the form widgets. There is no delete operation, no received-garment columns
and no record identity other than the row position.

A row's position in the sequence stands for its pandas index label. Every
table the program holds has index labels 0..n-1, because it was either read
from a file or built by a concatenation with `ignore_index=True`. Dates and
times are opaque strings compared by equality.

## Model

| member | source | states |
|---|---|---|
| Schema.FieldNamed | iron.py:11-13 | looking a header up gives a field carrying that header, and gives nothing only for a header outside the schema |
| Schema.ColumnsMatchFields | iron.py:11-13 | the fallback table's columns are the eleven field headers in order, every field has one, and no header repeats |
| Schema.FieldNamedRoundTrip | iron.py:11-13 | each field is recovered from its own header, so headers identify fields |
| Schema.CategoriesComplete | iron.py:35-40 | every garment category is one of the six counted on the intake form |
| Records.NewEntry | iron.py:35-57 | the new entry carries the entered name, date, time and counts; its total equals the sum over all categories; its status is "Pending"; the total is at least each count |
| Records.CategorySumUnfolds | iron.py:41 | the sum over all categories is the six-term sum the form computes |
| Records.SumOverBoundsEach | iron.py:35-41 | with non-negative counts, a sum over categories is at least each count in it |
| Records.SumOverZeroIff | iron.py:35-41 | a sum over categories is zero exactly when each of its counts is zero |
| Records.ConsistentTotalBounds | iron.py:41 | a row whose total is its category sum has a total at least every count, and that total is zero exactly when every count is zero |
| Records.WithStatus | iron.py:82 | replacing the status sets the Payment_Status cell, leaves every other cell equal and keeps the derived-total invariant both ways |
| Records.RowExtensionality | iron.py:45-57 | two rows equal in all eleven columns are the same row |
| Records.ToRow | iron.py:45-57 | the entry dictionary has exactly the fallback columns in order, and each cell is the row's value for that column |
| Records.RowRoundTrip | iron.py:45-57 | reading the dictionary of a row back gives the row |
| Records.RowRoundTripBack | iron.py:45-57 | a dictionary that reads back as a row is that row's dictionary |
| Table.EmptyTable | iron.py:10-14 | the fallback table has no rows and so satisfies the derived-total invariant |
| Table.Append | iron.py:58 | the result is one row longer, the old rows are an unchanged prefix, and the new entry is the last row |
| Table.AppendPreservesConsistency | iron.py:41-58 | appending a consistent entry to a consistent table gives a consistent table |
| Table.FilterByDate | iron.py:73 | the selection is no longer than the table and every selected row has the selected date |
| Table.MatchingPositions | iron.py:73 | the index labels kept by the date mask are increasing, in range, dated as selected, and include every matching position |
| Table.SelectsAtExtend | iron.py:73 | a selection from a prefix extended by a selection of later positions is a selection from the whole table |
| Table.FilterIsSubsequence | iron.py:73 | the selection is the table's subsequence at exactly the matching index labels, in original order |
| Table.FilterExactlyMatches | iron.py:73 | a row is selected exactly when it is a table row with the selected date |
| Table.FilterEmptyIff | iron.py:73-75 | the selection is empty exactly when no row has the selected date |
| Table.FilterConcat | iron.py:58-73 | filtering a concatenation is concatenating the filtered parts |
| Table.FilterAfterAppend | iron.py:58-73 | after an append, the date's selection gains the new entry exactly when the entry has that date |
| Table.SetPaymentStatus | iron.py:82 | the row count is kept; each row with the date gets the new status; no other column of any row changes; rows of other dates are identical |
| Table.SetPaymentStatusRow | iron.py:82 | each row after the update is the row with only its status replaced if it has the date, and unchanged otherwise |
| Table.SetPaymentStatusPreservesConsistency | iron.py:41-82 | the bulk update keeps every row's total equal to its category sum |
| Table.SetPaymentStatusLastWins | iron.py:82 | of two updates on the same date, the result is that of the later status alone |
| Table.SetPaymentStatusIdempotent | iron.py:82 | repeating an update leaves the table as the first update left it |
| Table.SetPaymentStatusUnchangedIff | iron.py:82 | the update leaves the table identical exactly when every row of the date already has that status |
| Table.SetPaymentStatusNoMatch | iron.py:75-82 | with no row of the date, the update leaves the table identical |
| Table.FilterAfterSetPaymentStatus | iron.py:73-82 | after the update, the date's selection is the old selection with the new status, and every other date's selection is unchanged |
| App.LoadData | iron.py:7-14 | with no stored table the program starts from the empty fallback table, otherwise from the stored one |
| App.SubmitIntake | iron.py:44-58 | a submitted intake appends, after the unchanged old rows, one "Pending" entry with the entered name, date, time and six counts and a total equal to their sum; without a submit the table is unchanged |
| App.SubmitStatusUpdate | iron.py:68-82 | the row count and every non-status cell are kept, rows of other dates are identical, and a submit gives every row of the date the entered status |
| App.StatusUpdateGuardsAreRedundant | iron.py:68-82 | the empty-table and empty-selection checks change nothing: a submitted update equals the bulk update, and no submit leaves the table alone |
| App.StepPreservesConsistency | iron.py:41-82 | one submitted form of either screen keeps every row consistent |
| App.RunPreservesConsistency | iron.py:41-82 | through any sequence of intakes and status updates, every row's total stays equal to its category sum |
| App.FreshTableStaysConsistent | iron.py:10-82 | starting from the empty fallback table, every session yields a consistent table |
| App.RunFrame | iron.py:58-82 | a session adds one row per intake and drops none; in the rows present at the start, only Payment_Status can change |

## Left out

- The Streamlit interface is not modelled: title, sidebar menu, forms, `st.dataframe`, the success/info/warning messages and the download button. It is presentation only. Each form's submit button becomes a `submitted` flag.
- The widgets are not modelled. `number_input` with `min_value=0` and `step=1` gives whole numbers from 0 up, so counts are `nat`. Nothing in the code validates counts, so there is no error path for negative counts. Streamlit's upper bound on integer inputs is not modelled, nor is pandas' 64-bit storage of the counts, because six form counts never reach either bound.
- Reading and writing `clothes_data.csv` (`pd.read_csv`, `to_csv`) is file I/O. It becomes the `stored` parameter of `App.LoadData`. A file that exists but cannot be parsed raises in the program, and that case is not modelled. The `@st.cache_data` memoisation of `load_data` is not modelled, and neither is the stale table the cache can serve after a save.
- Date and time formatting with `strftime` (`%Y-%m-%d`, `%I:%M %p`) is a library call. Dates and times are opaque strings.
- A stored table with columns other than the eleven of the schema is not modelled. Pandas would concatenate such a table with a new entry by taking the union of the columns. Every row of this model has exactly the schema's columns.
- Deleting rows is not modelled, nor are the returned-garment ("received") columns and their total, schema migration, or stable record identities. None of them appears in the program.
- Concurrent sessions writing the same file (the last writer wins) are not modelled.
- The row dictionary of `Records.ToRow` is an ordered sequence of (header, cell) pairs. Pandas' own cell types (for example, numbers read back from a file as 64-bit integers) are not modelled.
