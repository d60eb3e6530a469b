# Dashboard Efetividade — a model of the in-memory pipeline

The dashboard loads the rows of the `vw_efetividade` view once. Each row is a
"título" with:

- a competency date (`data_competencia`);
- a partner (`nome_parceiro`);
- a status (`status_titulo`);
- a bank (`banco`);
- a value (`valor`).

It offers sidebar filters and shows:

- two KPIs ("Valor Total", "Qtd. de Títulos");
- a pie chart of value by status;
- a bar chart of value by month and status;
- a detail table of value by partner and status, with each group's share
  of the total.

This project models everything that happens between loading and drawing:

- **Orders** (`Orders.dfy`) holds the orders `sorted()` and `groupby` use.
  - Strings are compared by code point (`StrLt`).
  - Keys of two columns are compared lexicographically (`Lex`).
  - Each is proved a strict total order.
- **Grouping** (`Grouping.dfy`) holds:
  - a sorted `groupby(...).sum()` over (key, value) pairs, built by sorted
    insertion (`GroupSum`);
  - sort-and-deduplicate (`SortedUnique`);
  - `unique()`, the distinct values of a column (`Unique`).
- **Titles** (`Titles.dfy`) holds the row after line 42. A date that does not
  parse (`errors="coerce"`) or a null cell is `None`. It also holds the month
  bucket of a date (`to_period("M")`) and `dropna()` over a text column.
- **Filters** (`Filters.dfy`) holds two things.
  - The options of the four widgets (lines 46-61).
  - The mask chain of lines 63-69. The source's step-by-step reassignment of
    `df_filtrado` is the method `ApplyFilters`. It is proved equal to a
    single pass (`Filtered`), which is characterised by the reference
    predicate `Matches`.
- **Aggregates** (`Aggregates.dfy`) holds:
  - the KPIs;
  - the three groupings;
  - the percentage column.
- **Currency** (`Currency.dfy`) holds the pt-BR separator swap of lines 78
  and 152.
- **Dashboard** (`Dashboard.dfy`) holds one render of the page (`Render`) and
  a three-row example worked through.

Money is an integer number of cents. Percentages are exact reals.

### Behaviour worth knowing

- **Empty status selection.** The status mask is guarded by
  `if status_selecionado:` (line 68), so an empty status selection applies no
  status mask at all. Every row that passes the other filters is shown,
  including rows whose status is null. `Filters.StatusSelectionNarrowsEmpty`
  and `Dashboard.SampleEmptyStatusSelection` state this behaviour.
- **Monthly trend.** The bar chart groups the whole loaded row set `df`, not
  the filtered rows (line 114), so `MonthlyTrend` takes the unfiltered rows.
- **Detail table.** Line 154 hands the whole table to `st.dataframe` at once,
  so the model's table is the whole grouped result.

## Model

| member | source | states |
|---|---|---|
| Orders.StrLtIsStrictTotalOrder | app.py:55 | Code-point order on strings, the order `sorted()` uses on partner, bank and status names, is irreflexive, transitive and total. |
| Orders.LexIsStrictTotalOrder | app.py:116 | Ordering two-column `groupby` keys by the first column, then the second, gives a strict total order whenever both column orders are strict total orders. |
| Titles.MonthLtIsStrictTotalOrder | app.py:46 | Chronological order of month buckets is a strict total order. |
| Titles.NonNull | app.py:54 | `dropna()` of a text column contains a value exactly when some row holds that value in the column. |
| Titles.Buckets | app.py:46 | The month buckets of the non-null dates contain a month exactly when some row has a parsed date in that month. |
| Titles.MonthOf | app.py:46 | `to_period("M")`: a date's month bucket is its year and month. Its role in the filter (line 63) is stated by `Filters.Filtered`, which keeps only rows whose `MonthOf` is the selected month. |
| Titles.SumValues | app.py:73 | `sum()` of the value column, 0 for no rows. It is the "Valor Total" KPI in `Dashboard.Render` (`view.kpis.totalValue == SumValues(shown)`) and in `Aggregates.KpiValueCoversBreakdown`; the grouping lemmas state their totals as `SumValues` of mask selections. |
| Grouping.SortedUnique | app.py:46 | Sorting and deduplicating keeps exactly the elements of the input. |
| Grouping.Unique | app.py:57 | `unique()` keeps exactly the elements of the input, with no repetition. |
| Grouping.GroupSum | app.py:90 | Grouping pairs gives exactly the sorted distinct keys of the input. Every key keeps the sum of its values, and the grand total is conserved. |
| Grouping.GroupSumSortedAndExact | app.py:90 | Under a strict total order the groups are strictly ascending, so no key repeats. Each group's value is the sum of the input values with its key. |
| Filters.Where | app.py:63-69 | A boolean-mask selection keeps a row exactly when the row satisfies every mask. It never adds rows. |
| Filters.WhereIsOrderedSelection | app.py:63-69 | The kept rows are the input rows at a strictly increasing list of indices. An index is in that list if and only if its row satisfies every mask, so the selection keeps the original order. |
| Filters.WhereWhere | app.py:63-69 | Masking the result of one mask by a second gives the same rows as masking once by both. |
| Filters.WhereCommutes | app.py:63-69 | Two mask steps applied in either order give the same rows. |
| Filters.WhereIdempotent | app.py:63-69 | Re-applying a mask to its own result changes nothing. |
| Filters.Stages | app.py:63-69 | The list of masks lines 63-69 apply. `Filters.StagesAreMatches` proves that satisfying them all is exactly `Matches`: month always, partner and bank unless "Todos", statuses only when some are selected. |
| Filters.Filtered | app.py:63-69 | `df_filtrado` contains a row exactly when the row is in the loaded rows and matches the selection. Every row it keeps has a parsed date in the selected month. |
| Filters.FilteredIsOrderedSelection | app.py:63-69 | `df_filtrado` is the loaded rows at a strictly increasing list of indices, and an index is in that list exactly when its row matches the selection. The filters keep order and repetitions. |
| Filters.ApplyFilters | app.py:63-69 | The step-by-step reassignment of `df_filtrado` (month, then partner unless "Todos", then bank unless "Todos", then statuses when any are selected) equals the single-pass selection. |
| Filters.FilteredIdempotent | app.py:63-69 | Filtering the filtered rows again with the same choices changes nothing. |
| Filters.PartnerChoiceNarrowsTodos | app.py:64-65 | Choosing a partner other than "Todos" gives the "Todos" result narrowed to rows whose partner equals the choice. |
| Filters.BankChoiceNarrowsTodos | app.py:66-67 | Choosing a bank other than "Todos" gives the "Todos" result narrowed to rows whose bank equals the choice. |
| Filters.StatusSelectionNarrowsEmpty | app.py:68-69 | A non-empty status selection narrows the empty-selection result to rows whose status is selected. The empty selection drops the status mask from the chain entirely. |
| Filters.DisabledPredicatesIgnoreColumn | app.py:64-69 | With "Todos" for partner or bank, or an empty status selection, rows that differ only in that column (including null against non-null) are kept alike. |
| Filters.MonthOptions | app.py:46 | The month options are strictly ascending. A month is offered exactly when some row has a parsed date in it. |
| Filters.ChoiceOptions | app.py:54-55 | The first option is "Todos", followed by the strictly ascending distinct non-null values of the column (partner, or bank on lines 60-61). A value is offered exactly when some row holds it. |
| Filters.StatusOptions | app.py:57-58 | The status options are strictly ascending. A status is offered exactly when some row has it. |
| Filters.DefaultStatuses | app.py:58 | The default selection holds each offered status once and nothing else. |
| Filters.ValidSelection | app.py:48-61 | What the four widgets can return: an offered month, a partner and a bank from their option lists, and statuses from the status options. `Dashboard.Render` requires it. |
| Filters.DefaultStatusSelection | app.py:57-69 | The default selection is empty exactly when no row has a status. When it is not empty, the status stage drops exactly the rows with a null status. |
| Aggregates.KpiTotals | app.py:73-74 | "Qtd. de Títulos" is the number of filtered rows. No rows gives value 0 and count 0. |
| Aggregates.StatusBreakdown | app.py:90 | The pie's `groupby("status_titulo")["valor"].sum()`; `Aggregates.StatusBreakdownExact` states its keys, order, slice values and total. |
| Aggregates.StatusBreakdownExact | app.py:90 | The pie has one slice per distinct non-null status among the filtered rows, in ascending order. Each slice holds the value of the rows with that status. The slices add up to the value of the rows whose status is not null. |
| Aggregates.KpiValueCoversBreakdown | app.py:73-90 | When every filtered row has a status, the pie's slices add up to the "Valor Total" KPI. |
| Aggregates.GroupedRows | app.py:90 | Shared statement of the three groupings. For any mask-definable key, the groups are ascending and distinct, there is one group per key some row has, each group's value is the value of its rows, and rows with a complete key are conserved. |
| Aggregates.MonthlyTrend | app.py:114-116 | The bar chart's `groupby(["mes", "status_titulo"])` over all loaded rows; `Aggregates.MonthlyTrendExact` states its keys, order, values and total. |
| Aggregates.MonthlyTrendExact | app.py:114-116 | The trend has one entry per (month, status) that some dated row with a status has. Entries are ascending by month, then status. Each entry holds the value of its rows, and the total is the value of rows that have both a date and a status. |
| Aggregates.PartnerStatusSums | app.py:149 | The table's `groupby(["nome_parceiro", "status_titulo"])`; `Aggregates.PartnerStatusSumsExact` states its keys, order, values and total. |
| Aggregates.PartnerStatusSumsExact | app.py:149 | The table has one line per (partner, status) that some row with both has. Lines are ascending by partner, then status. Each line holds the value of its rows, and the total is the value of rows that have both. |
| Aggregates.Shares | app.py:151 | Each group's share is its value over the grand total, times 100. |
| Aggregates.Percentages | app.py:151 | The "% do Total" column: empty for no groups, absent for a zero total (inf/NaN), otherwise `Shares`. `Aggregates.PercentagesAddUpTo100` proves that with a non-zero total it holds one share per group and they add up to 100. |
| Aggregates.PercentagesAddUpTo100 | app.py:150-151 | With a non-zero grand total there is one unrounded percentage per group, and the percentages add up to exactly 100. |
| Aggregates.DetailTable | app.py:148-151 | There is no table exactly when no row passed the filters. Otherwise the table is the partner/status grouping and its total is the value of rows that have both columns. A non-zero total gives each group the share value / total × 100 (`Shares`), and these add up to 100. No groups give an empty column. A zero total with some group gives no percentages (pandas' inf/NaN). |
| Currency.Replace | app.py:78 | A one-character `replace` keeps the length and changes exactly the occurrences of the character. |
| Currency.SwapSeparators | app.py:78 | The three chained `replace` calls (also on line 152). `Currency.SwapSeparatorsAt` states its effect character by character, and `Currency.SwapSeparatorsInvolution` proves it is its own inverse on text without "X". |
| Currency.SwapSeparatorsAt | app.py:78 | The swap keeps the length. It turns each comma into a point and each point into a comma, turns a literal "X" into a point, and leaves every other character alone. |
| Currency.SwapSeparatorsInvolution | app.py:152 | On text without "X" (every rendering of a number) the swap is its own inverse. |
| Currency.PlaceholderIsNotRestored | app.py:78 | On text containing "X", swapping twice does not give back the text. |
| Currency.SwapSeparatorsExample | app.py:78 | "1,234.50" is rendered "1.234,50". |
| Dashboard.Render | app.py:63-151 | One render shows the filtered rows (`Filtered`), with their multiplicity and order. Its view is the KPIs, status breakdown and detail table of those rows, and the monthly trend of all loaded rows. The KPIs are their count and value. The pie's keys are exactly their statuses and its total is the value of those with a status. The trend's total is over all loaded rows. The table exists exactly when some row is shown. |
| Dashboard.SampleJanuary | app.py:63-151 | A three-row example: January, all partners, banks and statuses selected. The result is value 150 and count 2, pie Paid 100 and Pending 50, and a table with shares 200/3 and 100/3 (66.67 and 33.33 once rounded). |
| Dashboard.SampleEmptyStatusSelection | app.py:68-69 | The same example with no status selected still shows value 150 and count 2, not an empty result. |

## Left out

- Loading from PostgreSQL (lines 22-38): `carregar_dados` with its connection, SQL query, error notice and `st.stop()`. The model starts from the loaded rows.
- `exportar_parquet.py`: a separate export script that is not part of this model.
- Environment validation (lines 13-18): it checks that the variables exist and stops the page if not. That is I/O.
- `st.cache_data` and its lifetime: caching does not change any computed value.
- Every drawing call. Streamlit widgets, Plotly figures, the HTML wrappers, titles, hover templates and the info notice are presentation.
- `pd.to_datetime` parsing (line 42): the model takes each date as already parsed, or `None` where parsing failed or the cell was null.
- The `%B/%Y` month labels (line 51): locale-dependent formatting of the month options.
- `to_timestamp()` (lines 47, 115): it turns each monthly Period into the Timestamp of its first day. That relabels the buckets one to one and keeps their order, so the model keeps `Month` in its place.
- The widgets' choice itself: the user's pick is the `Selection` parameter. `ValidSelection` says what the widgets can return.
- The crash when no row has a parsed date: the month selectbox returns `None` and line 63 fails. `ValidSelection` requires a month that is offered, so the model does not reach that state.
- Floating point: money is integer cents and percentages are exact reals.
- `.round(2)` (line 151), the `f"{x}%"` suffix (line 153) and the `{:,.2f}` formatting (lines 78, 152): these are float and string formatting. Only the separator swap after them is modelled, as a function on the formatted string.
- Aggregates.DetailTable: a zero grand total turns pandas' inf/NaN percentage column into `None`. The model does not give the individual inf, -inf and NaN values.
- Aggregates.KpiValueCoversBreakdown: stated only for rows that all have a status. In general the pie total is the value of the rows with a status (`StatusBreakdownExact`).
- The in-place column overwrites on lines 42, 115, 151 and 152: modelled as values computed from the rows, because no other part of the page sees the old column.
- The "Todos" sentinel: a partner or bank literally named "Todos" cannot be selected on its own, because choosing it disables the filter. The model keeps this behaviour (`Stages`) and proves nothing more about it.
