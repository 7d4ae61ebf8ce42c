# Sales dashboard: filter and aggregate core

A Dafny model of the data path of a Streamlit sales dashboard (`app.py`). The
sheet of sales transactions (DATE, RSP, SECTION, SIZE, SALE QTY) is first
normalised:

- DATE is coerced; an unparseable or out-of-range date becomes NaT.
- The three categorical columns are stringified.
- A `YYYY-MM` month key is derived from the date.

The sidebar then works on the normalised sheet:

- It offers each categorical column's distinct values, narrowed by a
  case-insensitive search.
- It pre-selects all of them when the search removed none.
- Its initial date range runs from the day of the earliest timestamp in the
  sheet to the day of the latest.

The chosen RSPs, sections, sizes and date range filter the rows. The filtered
rows then feed seven tables:

- one `groupby` sum per categorical column;
- one month-by-category pivot per categorical column, zero-filled;
- one (SECTION, RSP, SIZE) table.

Every pandas call is replaced by a pure function over a sequence of records.

Modules follow the program's data path:

- `Dates`: calendar dates, nanosecond timestamps and their range, midnight
  comparisons and the month key.
- `Records`: the normalised record, and the normalisation of lines 18-26.
- `Sidebar`: the option lists, search, select-all default and date bounds.
- `Filter`: the compound mask of lines 80-86.
- `GroupBy`: one grouping engine over composite keys, with sorted groups.
  It is shared by every aggregate.
- `Aggregates`: the per-column sums, the monthly pivots and the hierarchical table.
- `Dashboard`: the end-to-end view and facts that span several tables.
- `Order` and `Seqs`: Python's string order, the tuple order `groupby` sorts by,
  and sequence predicates.

Every table's contract is proved against an independent reference definition.
`GroupBy.SumWhere` is the sum of quantities over the rows with a given key.
Every group total, pivot cell and hierarchical row is proved equal to it.
Every table is also proved to add up to `GroupBy.Sum` of the filtered rows.

Two pandas defaults shape the tables:

- `groupby` and `pivot_table` run with `sort=True`. So the per-column sums, the
  pivot rows and columns, and the hierarchical table are ordered by key.
- Every aggregate is computed from `filtered_df`. So a row whose date is NaT
  reaches none of them, and the NaT month label never appears in a pivot (see
  `Dashboard.NoNaTMonthInPivots`).

DATE keeps its time of day. The date bounds compare each timestamp with the
midnight that starts the chosen day (`Filter.KeepsInDays`):

- The first chosen day is included whole.
- Of the last chosen day, only sales stamped exactly at midnight pass.
- The picker's initial range ends on the day of the latest timestamp. So the
  unmodified dashboard drops every sale of that last day made after midnight
  (`Dashboard.DefaultRangeCutsLastDay`). `Dashboard.LastDaySaleAfterMidnightIsDropped`
  shows this on a one-row sheet.

The blank-cell and NaT renderings are the strings pandas produces: `nan` and
`NaT`. A date survives coercion only if it is a calendar day and a time of day
inside the nanosecond timestamp range, 1677-09-21 00:12:43.145224193 to
2262-04-11 23:47:16.854775807. So every surviving year has
four digits, and month keys sort chronologically as strings.

## Model

| member | source | states |
|---|---|---|
| Records.CoerceDate | app.py:18 | a parsed timestamp is kept, unchanged, exactly when it is a calendar day with a valid time of day inside the nanosecond range; otherwise it becomes NaT |
| Records.Stringify | app.py:21-23 | text cells keep their text; whole-number cells render as a decimal string that reads back as the number, with no leading zero and no negative zero; blank cells render as the missing-value text |
| Records.MonthOf | app.py:26 | the month is the NaT text exactly when the date is NaT or cannot be rendered as a month key; a representable timestamp gets the month key of its day |
| Records.Normalize | app.py:18-26 | a normalised row is well formed (month key of its date, or the NaT text when undated); its date is the parsed date exactly when that is representable; the categorical fields are the stringified cells; the quantity is carried over |
| Records.NormalizeAll | app.py:17-26 | normalisation keeps every row, in order, each normalised and well formed |
| Records.IntToStringRoundTrip | app.py:21-23 | reading back the string an integer code is rendered as gives the code |
| Records.StringifyKeepsCodesApart | app.py:21-23 | two integer codes stringify to the same text exactly when they are equal, and no code stringifies to the blank text |
| Records.MonthIsNaTIffUndated | app.py:26 | a row's month is the NaT text exactly when its date is NaT |
| Dates.TimestampHasMonthKey | app.py:18 | every timestamp that survives coercion has a four-digit year and a valid month |
| Dates.MonthKey | app.py:26 | a month key is seven characters: the year as four digits, a dash, the month as two digits |
| Dates.FourDigitsOrder | app.py:26 | zero-padded four-digit years compare as strings as they compare as numbers |
| Dates.MonthKeyOrder | app.py:26 | one month key sorts before another as a string exactly when its month is earlier in the calendar |
| Dates.MonthKeySameMonth | app.py:26 | two dates have the same month key exactly when they share year and month |
| Sidebar.DateBounds | app.py:34-35 | no bounds exactly when every date is NaT; otherwise both bounds are timestamps of some row and every dated row lies between them |
| Sidebar.DefaultRange | app.py:34-41 | the picker's initial range exists exactly when some date parsed; its first and last day are each the day of some dated row, and together they enclose the day of every dated row |
| Sidebar.Unique | app.py:45 | the distinct values have no duplicates, are exactly the values present, and are in order of first appearance |
| Sidebar.OptionsFor | app.py:45 | a multiselect's options are duplicate-free, are exactly the values the column takes, and come in order of first appearance |
| Sidebar.Contains | app.py:46 | the substring test is true exactly when the needle occurs at some position of the haystack |
| Sidebar.Matches | app.py:46 | an option matches exactly when the lowercased query occurs in the lowercased option; the empty query matches every option |
| Sidebar.Search | app.py:46 | the surviving options keep their order, are exactly the options the lowercased query occurs in, each with its multiplicity |
| Sidebar.EmptySearchKeepsAll | app.py:44-46 | the initial empty search text keeps every option in order |
| Sidebar.SearchAllMatch | app.py:46 | when every option matches, the search keeps them all |
| Sidebar.SearchDropsNonMatch | app.py:46-47 | when some option does not match, fewer options survive than exist |
| Sidebar.SelectAllDefault | app.py:47-51 | for options that survived the search, the equal-length test selects all of them exactly when the search kept every option, and nothing otherwise |
| Sidebar.SelectAllDefaultIsAllOrNothing | app.py:47-51 | the default selection is every option when each matches the search, and empty otherwise |
| Filter.OnOrAfterFromFirstDay | app.py:84 | the lower bound admits a timestamp exactly when its day is the first chosen day or later |
| Filter.OnOrBeforeUpToLastMidnight | app.py:85 | the upper bound admits a timestamp exactly when its day is before the last chosen day, or it is that day's midnight |
| Filter.KeepsInDays | app.py:81-85 | a dated row passes the mask exactly when its RSP, section and size are selected, its day lies within the chosen days, and on the last day it is stamped at midnight |
| Filter.FilterRows | app.py:80-86 | the view is an order-preserving subsequence of the rows; a row is in it exactly when the mask keeps it; kept rows keep their multiplicity |
| Filter.NaTFailsBothBounds | app.py:84-85 | a NaT date fails both date comparisons, so its row is never kept |
| Filter.EmptySelectionMatchesNothing | app.py:81-83 | an empty RSP, section or size selection empties the view whatever the dates |
| Filter.ReversedRangeMatchesNothing | app.py:84-85 | a start date after the end date empties the view |
| Filter.FilterIdempotent | app.py:80-86 | filtering the view again with the same choices changes nothing |
| Filter.UndatedRowsNeverFiltered | app.py:84-85 | dropping the NaT rows before filtering gives the same view |
| GroupBy.AddRow | app.py:89-91 | folding a row into a sorted table keeps it sorted, adds the row's key, raises that key's total by the row's quantity and leaves every other total alone |
| GroupBy.Aggregate | app.py:89-91 | groups are sorted by key, one per key present, each total the reference sum of its rows, together the sum of all rows |
| GroupBy.AggregateTotals | app.py:89-91 | each group's total is the reference sum of the rows with its key |
| GroupBy.SumWhereAbsent | app.py:110 | a key no row has sums to zero |
| Aggregates.GroupSum | app.py:89-101 | the per-column table is strictly sorted by value, has one entry per value present, each entry the sum of its rows, and adds up to the total of the rows |
| Aggregates.DistinctValues | app.py:104-111 | the pivot labels are strictly increasing and are exactly the values present |
| Aggregates.MonthlyPivot | app.py:104-131 | rows are the months present and columns the categories present, both sorted; the grid is dense and each cell is the reference sum of its month and category |
| Aggregates.PivotZeroFill | app.py:110 | a cell whose month and category no row shares holds zero |
| Aggregates.GridOverCoversRows | app.py:104-111 | with distinct labels that cover every row, the cells partition the rows' quantity |
| Aggregates.PivotConservesTotal | app.py:104-131 | all cells of a pivot add up to the total quantity of its rows |
| Aggregates.HierarchicalSum | app.py:230-236 | the hierarchical table is strictly sorted by (section, RSP, size), has one row per triple present, each row the sum of its rows, and adds up to the total of the rows |
| Dashboard.View | app.py:80-86 | the filtered view holds exactly the normalised rows the mask keeps, with their multiplicity, in sheet order, all dated and well formed |
| Dashboard.GrandTotalsAgree | app.py:89-131 | all seven tables account for the same grand total, the quantity of the filtered rows |
| Dashboard.EmptyViewEmptyTables | app.py:89-131 | an empty view yields empty tables |
| Dashboard.UndatedRowsNeverAggregated | app.py:84-131 | every table is the same whether or not the sheet holds NaT rows |
| Dashboard.NoNaTMonthInView | app.py:84-85 | no row of a filtered view carries the NaT month |
| Dashboard.NoNaTMonthInPivots | app.py:104-131 | no pivot of a filtered view has the NaT month as a row label |
| Dashboard.PivotRowsChronological | app.py:104-111 | a row dated in an earlier month sits in an earlier pivot row |
| Dashboard.PivotRowIsCalendarMonth | app.py:26 | two rows of a view share a pivot row exactly when they fall in the same calendar month |
| Dashboard.DefaultRangeCutsLastDay | app.py:34-41 | under the initial range every dated row passes the lower bound, and a row passes the upper bound exactly when it is not on the last day or is stamped at its midnight |
| Dashboard.LastDaySaleAfterMidnightIsDropped | app.py:84-85 | a sheet whose only sale is at 10:30 on 2024-02-28 gets the initial range of that day, and the filter with everything selected drops the sale |

## Left out

- Reading the Excel sheet (app.py:9-15) is file I/O. The model starts from a sequence of raw rows.
- Date parsing (app.py:18) follows `pd.to_datetime`'s string rules, which are not visible in this code.
  - The parser's result is an input: a day and a time of day, or nothing.
  - Only the coercion to NaT is modelled.
- The Streamlit widgets (app.py:29-77) are not modelled beyond their pure logic:
  - The user's actual choices reach the filter as a free `Filter.Criteria`.
  - The picker's truncation of the bounds to days is modelled (`Sidebar.DefaultRange`); its clamping of the chosen days to those bounds is not.
  - The case where `date_input` returns a single date while the second is being picked is not modelled.
  - The display calls and all Plotly charts (app.py:133-227 and 238-240) are rendering only.
- Sidebar.Matches: lowercases ASCII letters only. Python's `str.lower` also folds non-ASCII letters, which is not modelled.
- Records.Normalize: the model's quantities are unbounded integers, so its sums are exact. The program sums SALE QTY in a 64-bit column, so a total past 2^63−1 wraps around; that wrap-around is not modelled, and neither is a floating-point SALE QTY.
- Records.Stringify: a numeric column that also has blanks or any fractional value is read by pandas as floats. Every code in it then renders with a decimal point (`12.0`, `7.5`), and the options, filter values and table labels carry those strings. This is not modelled: the model renders whole-number codes as plain integers and has no fractional cell.
