# Olist e-commerce BI: query rules, chart shaping and CSV loading

This project models the deterministic core of an e-commerce analytics stack built on the Olist
dataset. The stack has three parts:

- a Streamlit dashboard that queries star-schema marts in a cloud warehouse;
- chart helpers that shape the query results for plotting;
- a loader that copies nine CSV files into an embedded database.

The model covers what these parts compute and what they return on failure. The warehouse, the
file system and the embedded database are oracles passed in as parameters.

- `base.dfy` (module `Base`): the shared values. These are `Option`, Python floats (`NaN` or
  finite), result cells (int, float or pandas `NA`), and the warehouse as a function from
  statement text to `Raised` or a table of rows. It also gives `int()` truncation toward zero.
- `query_text.dfy` (module `QueryText`): the SQL text of the query functions. It covers the
  optional year predicate, the caller's `LIMIT`, the per-table row-count probe and Python's
  decimal rendering of integers. Each is proved by parsing the value back out of the text.
- `mart_rules.dfy` (module `MartRules`): what three of the dashboard's `SELECT`s compute, as
  functions over the fact rows and the dimension tables:
  - the review-category `CASE` under a `LEFT JOIN`;
  - the one-time versus repeat customer split;
  - the on-time versus late delivery counts and their rate.
- `data_queries.py`'s behaviour seen from outside (module `DataQueries`):
  - the `try`/`except` that turns a raised query into an empty table;
  - the dashboard summary dict;
  - the `validate_marts_data` loop.
- `visualization_helpers.dfy` (module `VisualizationHelpers`):
  - the loop that pads a pie chart's table out to its three fixed segments;
  - the tier choice of the currency and percentage formatters;
  - the heatmap pivot with `fillna(0)`.
- `load_csv.dfy` (module `LoadCsv`): the CSV-to-table mapping and the missing-file check. It also
  covers:
  - the line count of a file as Python's universal-newline reading sees it;
  - the result and warning of one table load;
  - the success and row tally of `main`;
  - `validate_database`'s statistics;
  - how a run ends.

## Model

| member | source | states |
|---|---|---|
| Base.Truncate | streamlit_dashboard/utils/data_queries.py:337-345 | `int()` of a float keeps its sign and drops less than 1 in magnitude (truncation toward zero) |
| QueryText.IntTextRoundTrip | streamlit_dashboard/utils/data_queries.py:86 | the decimal text of any integer, negative or not, reads back as that integer |
| QueryText.NatToTextDigits | streamlit_dashboard/utils/data_queries.py:86 | the text of a natural number is a non-empty run of digits whose value is the number |
| QueryText.MonthlyWhereExact | streamlit_dashboard/utils/data_queries.py:34-50 | the WHERE clause is exactly `WHERE 1=1 ` iff the year filter is missing, empty or "All Years" |
| QueryText.MonthlyYearRoundTrip | streamlit_dashboard/utils/data_queries.py:34-53 | the statement carries `AND d.year = <y>` iff a concrete year was chosen, and then `y` is the filter verbatim |
| QueryText.MonthlyQueryInjective | streamlit_dashboard/utils/data_queries.py:34-53 | two filters give the same statement only if they select the same year, or both select all years |
| QueryText.CategoriesLimitRoundTrip | streamlit_dashboard/utils/data_queries.py:86 | the caller's limit is written into `LIMIT` verbatim, whatever its sign |
| QueryText.CategoriesAlwaysExcludeNull | streamlit_dashboard/utils/data_queries.py:83 | for every limit the statement filters out null categories, at the same position |
| QueryText.CountQueryInjective | streamlit_dashboard/utils/data_queries.py:375 | distinct tables are probed with distinct statements |
| MartRules.LabelsDistinct | streamlit_dashboard/utils/data_queries.py:246-266 | the four category labels differ, so grouping by label is grouping by category |
| MartRules.ReviewCounts | streamlit_dashboard/utils/data_queries.py:256-257 | within a category, reviewed rows are at most the items; 'No Review' has no reviews and every other category has only reviewed rows |
| MartRules.ReviewPartition | streamlit_dashboard/utils/data_queries.py:246-266 | the four categories partition the fact rows: item counts add up to the row count and sales add up to the total |
| MartRules.ItemsInPositive | streamlit_dashboard/utils/data_queries.py:259-266 | a category has items iff some fact row falls into it |
| MartRules.ReviewCorrelationRows | streamlit_dashboard/utils/data_queries.py:252-257 | every result row has at least one item, and `reviews_count + no_review_count = total_items`; 'No Review' has `reviews_count = 0` |
| MartRules.ReviewCorrelationKeys | streamlit_dashboard/utils/data_queries.py:259-266 | a category is in the result iff some fact row falls into it |
| MartRules.ReviewCorrelationTotal | streamlit_dashboard/utils/data_queries.py:252-259 | the LEFT JOIN drops no fact row: the rows' `total_items` add up to the fact count |
| MartRules.AllUnreviewedCounts | streamlit_dashboard/utils/data_queries.py:247-257 | with no review key on any row, every row is 'No Review' and none is reviewed |
| MartRules.AllUnreviewed | streamlit_dashboard/utils/data_queries.py:246-266 | with no review key on any row, the result is the single 'No Review' row holding every fact row |
| MartRules.OrderCountPositive | streamlit_dashboard/utils/data_queries.py:138-150 | every customer of the CTE has `order_count >= 1` |
| MartRules.OneTimeRepeatSplit | streamlit_dashboard/utils/data_queries.py:142-159 | per region, one-time plus repeat customers equals the customer count |
| MartRules.CustomerBehaviorSound | streamlit_dashboard/utils/data_queries.py:151-163 | every behaviour row has a customer, and its one-time and repeat counts add up to its customer count |
| MartRules.DeliveryCounts | streamlit_dashboard/utils/data_queries.py:291-292 | per region, on-time plus late is at most `COUNT(*)`, with equality iff no on-time flag is NULL |
| MartRules.DeliveryRowsPositive | streamlit_dashboard/utils/data_queries.py:299-303 | a region has delivered rows iff some fact row survives the joins and the filter in that region |
| MartRules.RateBounds | streamlit_dashboard/utils/data_queries.py:293-296 | a part over a non-empty whole, times 100, lies in [0, 100] |
| MartRules.DeliveryPatternsKeys | streamlit_dashboard/utils/data_queries.py:299-304 | the delivery result has a row for exactly the regions with delivered rows |
| MartRules.DeliveryPatternsSound | streamlit_dashboard/utils/data_queries.py:291-296 | in every row, on-time plus late is at most the row count, and the rate before rounding lies in [0, 100] |
| DataQueries.QueryFunctionsSendChoices | streamlit_dashboard/utils/data_queries.py:17-89 | the trends function returns the answer to a statement whose year is the concrete filter or none; the categories function answers a statement whose limit is the caller's, or 20 when omitted |
| DataQueries.QueryFailureLooksEmpty | streamlit_dashboard/utils/data_queries.py:55-59 | a query function returns the warehouse's rows, or an empty table when the call raised |
| DataQueries.DashboardSummaryShape | streamlit_dashboard/utils/data_queries.py:334-351 | the summary is `{}` or has exactly the seven keys; it is non-empty iff the query succeeded with a row whose seven columns convert; each value is its column converted |
| DataQueries.RequiredTablesDistinct | streamlit_dashboard/utils/data_queries.py:360-369 | the eight required tables are distinct |
| DataQueries.ValidateMartsData | streamlit_dashboard/utils/data_queries.py:353-382 | one entry per required table, in order, with distinct names; an entry is True iff its probe returned a row whose count is positive, and a failed probe gives False without stopping the loop |
| VisualizationHelpers.FirstValueSpec | streamlit_dashboard/utils/visualization_helpers.py:245-247 | the lookup is None iff no row has the segment's name; otherwise it is the value of the first such row |
| VisualizationHelpers.FirstValueIgnoresOthers | streamlit_dashboard/utils/visualization_helpers.py:245 | rows with other names change nothing, wherever they stand |
| VisualizationHelpers.CompleteSegments | streamlit_dashboard/utils/visualization_helpers.py:242-251 | one entry per segment, in order: its description, its first matching value or 0, and its key |
| VisualizationHelpers.CompleteBehaviorSegments | streamlit_dashboard/utils/visualization_helpers.py:235-251 | for a frame with both columns, three entries, One-Time, Regular and Loyal in that order, each with its description and its first matching value or 0 |
| VisualizationHelpers.CompleteValueSegments | streamlit_dashboard/utils/visualization_helpers.py:308-324 | for a frame with both columns, three entries, Low, Medium and High in that order, each with its description and its first matching value or 0 |
| VisualizationHelpers.CurrencyRoundTrip | streamlit_dashboard/utils/visualization_helpers.py:659-664 | the amount before rounding, times its suffix's multiplier, is the value formatted |
| VisualizationHelpers.CurrencyTiers | streamlit_dashboard/utils/visualization_helpers.py:656-664 | NaN and zero, and only they, take the `Literal` "$0.00" branch; M iff the magnitude is at least 1,000,000; K iff at least 1,000 and below that; two decimals iff nonzero and below 1,000; before rounding, the M and K amounts are at least 1 in magnitude and the K and plain amounts below 1,000 |
| VisualizationHelpers.CurrencySignSymmetric | streamlit_dashboard/utils/visualization_helpers.py:659-664 | a negative value takes the tier of its absolute value, with the amount negated |
| VisualizationHelpers.PercentageTiers | streamlit_dashboard/utils/visualization_helpers.py:676-683 | NaN takes the `Literal` "0.0%" branch; a finite value gets one place and a `%` suffix, scaled by 100 iff its magnitude is at most 1 (for a nonzero value), and shown as it is above 1 |
| VisualizationHelpers.PercentageCollisions | streamlit_dashboard/utils/visualization_helpers.py:676-683 | no finite value shares NaN's label; two different finite numbers share the same unrounded label iff one has magnitude at most 1 and the other is it times 100 with magnitude above 1 |
| VisualizationHelpers.PercentageOneIsAFraction | streamlit_dashboard/utils/visualization_helpers.py:680-681 | the boundary value 1 is read as a fraction, so 1 and 100 both show as 100.0% |
| VisualizationHelpers.CellValueSpec | streamlit_dashboard/utils/visualization_helpers.py:476-480 | a cell holds the first row for its pair, or 0 when no row has it |
| VisualizationHelpers.PivotSpec | streamlit_dashboard/utils/visualization_helpers.py:476-480 | without duplicate pairs the grid has one cell per (customer region, seller region) pair seen; each row's value sits in its cell and every absent pair is 0 |
| LoadCsv.CsvTablesWellFormed | load_csv_to_duckdb.py:30-40 | nine entries, with distinct table names, each prefixed `raw_` |
| LoadCsv.MissingFilesSpec | load_csv_to_duckdb.py:46-52 | a file is reported missing iff it is listed and absent; nothing is missing iff every listed file is present |
| LoadCsv.CheckCsvFiles | load_csv_to_duckdb.py:42-60 | the missing list, in mapping order, and True iff every listed file is present |
| LoadCsv.LineCountJoin | load_csv_to_duckdb.py:67 | a text written as `n` newline-ended lines has `n` lines |
| LoadCsv.TranslateCrlf | load_csv_to_duckdb.py:65-67 | reading a `\r\n` file in text mode gives the same text as the `\n` file |
| LoadCsv.TranslateLf | load_csv_to_duckdb.py:65-67 | reading a `\n` file in text mode leaves it unchanged |
| LoadCsv.CsvRowCountSpec | load_csv_to_duckdb.py:62-70 | a header and `n` records count `n` rows with `\n`, `\r\n` or lone `\r` line ends, one more when a last record has no line end; an unreadable file and an empty file both give -1 |
| LoadCsv.LoadReportSpec | load_csv_to_duckdb.py:94-125 | success iff every statement succeeds; a failure is `(False, 0)` with no warning; the warning is logged iff the load succeeded, the line count from `get_csv_row_count` is positive and the counts differ; that line count never changes success or rows |
| LoadCsv.SuccessCountSpec | load_csv_to_duckdb.py:180-184 | the success tally is at most the number of tables, and equals it iff every load succeeded |
| LoadCsv.RowTotalSpec | load_csv_to_duckdb.py:180-184 | with non-negative table counts the row total is non-negative, and it is 0 when no load succeeded |
| LoadCsv.LoadAllTables | load_csv_to_duckdb.py:177-187 | the loop's counters are the number of successful loads and the sum of their rows |
| LoadCsv.DatabaseStatsSpec | load_csv_to_duckdb.py:127-162 | the statistics are non-empty iff SHOW TABLES lists a table, no count or PRAGMA raises and the sample query returns a row (so any raise gives `{}`); when non-empty they map exactly the listed tables, each to its row count |
| LoadCsv.ValidateDatabase | load_csv_to_duckdb.py:127-162 | the loop returns the statistics: `{}` on any raise, including the sample query and indexing its missing row |
| LoadCsv.RunLoader | load_csv_to_duckdb.py:164-212 | the run stops on missing files, then on a load failure; it validates only when all nine tables loaded, and completes iff the statistics are non-empty |

## Left out

- SQL layout whitespace is collapsed in the modelled statement text; the pieces keep their separating spaces but not the source's line breaks and indentation.
- `ORDER BY`, `ROUND`, `AVG`, `MIN`, `MAX`, `DATE_DIFF` and money arithmetic are not modelled. The row-level rules keep the exact counts, the sums before rounding and the rate before rounding.
- `COUNT(DISTINCT f.order_key)` in the delivery query is not modelled; its rows are counted with `COUNT(*)`.
- The digits of the `.1f` and `.2f` renderings in the formatters are left abstract, so a label holds the amount and the number of places.
- VisualizationHelpers.CurrencyTiers, VisualizationHelpers.PercentageCollisions: the contracts speak of the label before its digits are rounded. Rounding adds collisions they do not describe. `format_currency(0.004)` prints "$0.00" through the two-decimal branch, `format_currency(999960.0)` prints "$1000.0K", and 0.5 and 0.50001 both print "50.0%".
- Infinities are not modelled; a Python float is NaN or a finite real.
- The `@st.cache_data(ttl=600)` memoisation is framework behaviour on a wall clock.
- The region selector of the dashboard feeds no query function, so no region predicate is modelled.
- `get_sales_by_region`, `get_payment_analysis` and `get_seller_performance` are not modelled. They build fixed statements with no parameters, and their failure path is the one `DataQueries.QueryFailureLooksEmpty` states.
- DataQueries.ValidateMartsData: a pandas `NA` count is reported as False. In the source, `True and pd.NA` stores `NA` rather than False.
- DataQueries.DashboardSummaryShape: the order of the dict's keys is not modelled.
- VisualizationHelpers.PivotSpec: the sorting of pandas' pivot labels is not modelled. The grid is a map from pairs, and a duplicate pair is an error (None).
- VisualizationHelpers.CompleteBehaviorSegments, VisualizationHelpers.CompleteValueSegments: the input frame is assumed to have `names_col` and `values_col`. The column-less `pd.DataFrame()` that every query function returns on failure makes `df[df[names_col] == segment]` raise KeyError, which nothing catches; the model's sequence of rows cannot represent it, and an empty sequence gives three zero entries instead.
- The Plotly figures, their styling and the empty-figure early returns are foreign library objects.
- A fact row's `order_key` and `order_item_sk` are never NULL in the model. So `COUNT(f.order_item_sk)` counts every row of its group, and every customer of the behaviour CTE has `order_count >= 1`. A customer whose rows all had a NULL `order_key` would get `order_count = 0` and fall in neither the one-time nor the repeat count.
- VisualizationHelpers.PivotSpec: a row's `total_sales` is a finite real. The `fillna(0)` that also turns a NaN value of a present pair into 0 is not captured.
- The dimension tables are maps, so their keys are unique. The model does not capture duplicate dimension keys multiplying fact rows in a join.
- A negative `LIMIT` reaches the warehouse verbatim. What the warehouse does with it is not modelled.
- The embedded database is a fixed oracle of statement outcomes. The count query for a table gives the same answer during its load and during validation, and the sample query is the count of `raw_customers`.
- `create_duckdb_database`, the deletion of an old database file and `conn.close()` are left out. So are the logging calls and the outer `except` of `main`, which no modelled statement reaches.
- Decoding of the CSV files is an oracle: a file that cannot be opened or decoded is None.
- The bigquery_client.py module is not part of this model. Its `execute_query` is the warehouse oracle, which either raises or returns rows.
- data_ingestion.py, streamlit_app.py, pages/data_explorer.py, simple_test.py and fix_secrets.py are not part of this model. They hold downloads, UI layout and credential plumbing.
