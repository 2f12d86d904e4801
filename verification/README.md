# Movement analytics of the production-line dashboard, in Dafny

This project models the analytical core of a small dashboard that reads
production movement sheets. The sheets are workbooks whose rows carry a
project line (`Linha ATO`), a timestamp (`Data Movimento`) and a quantity
(`Quantidade`). The model covers four things.

- **Upload** (`Normalise`). The columns are validated. The timestamp column
  is parsed with a fixed format, then with two fallbacks. Rows with no
  timestamp or quantity are dropped, the calendar columns (`Dia`, `Hora`,
  `Dia_Semana`) are derived, and the table is sorted by time. The upload
  flow then either reports the missing columns, reports a date error, or
  hands on the table. As the code stands, the fallbacks never see the raw
  text (see "Findings"). `NormaliseAsWritten` and `ProcessUpload` model the
  code as it stands; `Normalise` and `ProcessUploadCorrected` model the
  evident intent. The analyses take any table of well-formed rows.
- **Filters** (`Filters`). A project selection and an inclusive date range.
- **Analyses.**
  - `Peaks` and `PeakReport`: the per-project hourly peak detector. It uses
    numpy's linear percentile and scipy's `find_peaks` with a `height` and a
    `distance` of 2. Valleys are found as the peaks of the negated series.
  - `Aggregates`: the group-by tables and the per-project summary.
  - `Grouping` and `Keys`: the split-apply-combine machinery under all of
    them.
- **Dashboard** (`Dashboard`). The merge of the inflow ("Entrada") and
  outflow ("Saída") sheets, and the headline metrics computed on the
  filtered merge.

Time and numbers are modelled as follows.

- A timestamp is an `int` count of seconds in naive local time.
- The calendar fields come from exact integer arithmetic:
  - the floor of the hour;
  - the day index;
  - the day of the month, by the proleptic Gregorian days-to-civil
    conversion;
  - the weekday, counted from the Monday of 1970-01-05.
- Quantities are `real`, so sums and means are exact.
- The date parsers and the numeric coercion are opaque parameters of type
  `string -> Option<...>`.

`Seqs` holds the sequence operations everything is built from:

- the boolean mask (`Keep`);
- a stable insertion sort;
- sums.

## Model

| member | source | states |
|---|---|---|
| Normalise.ValidateColumns | utils/data_processor.py:28-36 | a name is reported iff it is required and absent from the header; the report keeps the required order; it is empty iff every required column is present |
| Normalise.ToDatetime | utils/data_processor.py:44-48 | coercing a cell never leaves text; a stored date-time passes through; an empty cell stays empty; a text cell becomes a timestamp iff the parser accepts it, and then the parsed value |
| Normalise.ParseStampsAsWritten | utils/data_processor.py:44-64 | as written, the column loses every timestamp exactly when the first format recovers none; the result is the first coercion alone |
| Normalise.ParseStamps | utils/data_processor.py:44-64 | with the fallbacks applied to the raw text, the column loses every timestamp only when none of the three formats recovers any; the first format that recovers something decides, the second when the first recovers nothing, the third when neither of the first two does |
| Normalise.Parsed | utils/data_processor.py:66-76 | the two `dropna` steps keep exactly the rows whose timestamp and quantity convert, each converted row as many times as the sheet converts to it; nothing is dropped iff every row converts |
| Normalise.Finish | utils/data_processor.py:66-90 | the result is a permutation of the converted rows, sorted by time; every row's derived columns agree with its timestamp; every row comes from a sheet row with the same project, quantity and other columns |
| Normalise.NormaliseAsWritten | utils/data_processor.py:38-92 | as written: the output is a permutation of the rows converted with the FIRST format alone, sorted by time, every row well formed and traceable to a sheet row whose timestamp that format recovers; it is empty iff no row has both such a timestamp and a quantity |
| Normalise.Normalise | utils/data_processor.py:38-92 | the corrected process: a permutation of the rows converted with the first format that recovers any timestamp, sorted by time, every row well formed and traceable to a sheet row with the same project, quantity and other columns; empty iff no row has both a timestamp under that format and a quantity |
| Normalise.FirstFormatDecides | utils/data_processor.py:50-64 | as written, a sheet whose timestamps the first format cannot parse normalises to nothing, whatever the fallbacks parse |
| Normalise.FallbacksIgnored | utils/data_processor.py:50-64 | as written, replacing both fallback parsers changes nothing |
| Normalise.FallbackCounterexample | utils/data_processor.py:50-56 | a one-row sheet stamped `01/01/2025 08:00` loses its row as written and keeps it under the corrected fallback |
| Normalise.ProcessUpload | app.py:51-69 | the upload on the code as it stands reports missing columns iff a required column is absent, naming exactly those; the date error iff the columns are all present and no row has both a timestamp in the first format and a quantity; otherwise the non-empty normalised table |
| Normalise.UploadWithoutSeconds | app.py:67-69 | a complete sheet whose only timestamp has no seconds gets the date error from the page as it stands |
| Normalise.ProcessUploadCorrected | app.py:51-69 | the same flow on the corrected normalisation: the date error iff the columns are present and the corrected table is empty; otherwise that table |
| Normalise.UploadWithoutSecondsCorrected | app.py:67-69 | with the corrected fallback the same sheet goes through |
| Records.Derive | utils/data_processor.py:78-83 | the row keeps its project, timestamp, quantity and other columns; its day of month, hour and weekday are those of its own timestamp; the hour lies in 0..23, the day of month in 1..31, and the weekday is one of the seven English day names |
| Records.DayOrder | utils/data_processor.py:244-246 | a weekday name's Monday-first position, below 7 iff the name is a weekday and then naming it back; 7 otherwise |
| Records.WeekdayName | utils/data_processor.py:83 | `day_name()` is one of the seven names, at the weekday index of the timestamp |
| Records.DaysBeforeMonth | utils/data_processor.py:79 | the reference calendar: the days before a month are 0 for January, and each month adds its own length, with 29 days in February exactly in a leap year |
| Records.Civil1970_01_01 | utils/data_processor.py:79-83 | `dt.day` and `dt.day_name()` agree with the year-by-year reference calendar at noon: 1970-01-01 is day 1 of its month and a Thursday |
| Records.Civil2025_01_01 | utils/data_processor.py:79-83 | `dt.day` and `dt.day_name()` agree with the year-by-year reference calendar at noon: 2025-01-01 is day 1 and a Wednesday |
| Records.Civil2024_02_29 | utils/data_processor.py:79-83 | `dt.day` and `dt.day_name()` agree with the year-by-year reference calendar at noon: the leap day 2024-02-29 is day 29 and a Thursday |
| Records.Civil1969_12_31 | utils/data_processor.py:79-83 | `dt.day` and `dt.day_name()` agree with the year-by-year reference calendar at noon: 1969-12-31, before the epoch, is day 31 and a Wednesday |
| Records.Civil2000_02_29 | utils/data_processor.py:79-83 | `dt.day` and `dt.day_name()` agree with the year-by-year reference calendar at noon: 2000-02-29, a leap day in a century year divisible by 400, is day 29 and a Tuesday |
| Records.Civil1900_03_01 | utils/data_processor.py:79-83 | `dt.day` and `dt.day_name()` agree with the year-by-year reference calendar at noon: 1900-03-01, after a century February without a leap day, is day 1 and a Thursday |
| Records.Civil2100_02_28 | utils/data_processor.py:79-83 | `dt.day` and `dt.day_name()` agree with the year-by-year reference calendar at noon: 2100-02-28 is day 28 and a Sunday |
| Records.Civil2100_03_01 | utils/data_processor.py:79-83 | `dt.day` and `dt.day_name()` agree with the year-by-year reference calendar at noon: 2100-03-01 is day 1 and a Monday |
| Filters.ApplyFilters | utils/data_processor.py:98-111 | the result keeps its rows in order; it holds exactly the rows whose project is selected and whose date lies in the inclusive range, each as many times as the table holds it, and no copy of any other row; it is empty for an empty selection or a reversed range |
| Filters.FilterComposes | utils/data_processor.py:98-111 | filtering twice is filtering once by the intersected project sets and the intersected date ranges |
| Filters.FilterIdempotent | utils/data_processor.py:98-111 | applying the same filters again changes nothing |
| Filters.FilterKeepsOrder | utils/data_processor.py:89-111 | filtering a time-sorted table leaves it time-sorted |
| Grouping.Split | utils/data_processor.py:192-194 | `groupby` yields non-empty groups with strictly ascending keys; each group holds exactly the rows with its key; every row's key has a group |
| Grouping.SplitPartitions | utils/data_processor.py:192-194 | the group sizes add up to the row count, and the group sums of any weight add up to the overall sum |
| Keys.DistinctSorted | utils/data_processor.py:192-194 | the group index is strictly ascending and holds exactly the keys that occur |
| Peaks.Percentile | utils/data_processor.py:137 | the linear percentile lies between the smallest and the largest value of the series |
| Peaks.PercentileMonotone | utils/data_processor.py:137-144 | a higher percentile is never smaller, so the 25th never exceeds the 75th |
| Peaks.PercentileOfConstant | utils/data_processor.py:137-144 | every percentile of a constant series is that constant |
| Peaks.LocalMaxima | utils/data_processor.py:135-139 | the scan reports an index iff it is the midpoint of a plateau whose two neighbours are strictly lower; the reported indices are at least 2 apart |
| Peaks.DistanceRemovesNothing | utils/data_processor.py:138 | whatever the order among equal priorities, the `distance=2` suppression keeps every local maximum |
| Peaks.FindPeaks | utils/data_processor.py:135-139 | an index is reported iff it is a peak whose value reaches the height; the reported indices are 2 apart |
| Peaks.NegatePeakIsValley | utils/data_processor.py:142-146 | the peaks of the negated series are exactly the valleys of the series |
| Peaks.FindValleys | utils/data_processor.py:142-146 | an index is reported iff it is a valley whose value is at most the 25th-percentile bound |
| PeakReport.HourlyBuckets | utils/data_processor.py:123-126 | one bucket per clock hour that holds a movement, ascending; each bucket's total is the sum over exactly the rows of its hour |
| PeakReport.BucketsHoldTotal | utils/data_processor.py:123-126 | the bucket totals add up to the project's whole quantity |
| PeakReport.AnalyseProject | utils/data_processor.py:117-156 | a project gets an entry iff it has at least three records and three hourly buckets; the entry's high and low indices are the peaks and valleys of its series, with their values and hours |
| PeakReport.OneHourIsSkipped | utils/data_processor.py:128-129 | a project whose movements all fall in one hour is skipped, however many records it has |
| PeakReport.HighAboveLow | utils/data_processor.py:134-146 | no hour is both a high and a low peak; every high peak's value is at least every low peak's |
| PeakReport.Unique | utils/data_processor.py:117 | `unique()` lists each project once, in order of first appearance |
| PeakReport.DetectPeaks | utils/data_processor.py:113-158 | the entries are exactly the projects that pass both thresholds, in order of first appearance, each the analysis of its own rows |
| PeakReport.PeaksSummary | utils/data_processor.py:160-188 | the summary is a permutation of all entries' rows, sorted by hour, empty when there is no peak |
| PeakReport.SummaryListsPeaks | utils/data_processor.py:160-188 | every summary row is a high or low peak bucket of a detected project, and every such bucket has its row |
| Aggregates.Aggregate | utils/data_processor.py:192-197 | one row per distinct key, ascending; each row's sum, mean and count summarise exactly the records with that key; every record's key has a row |
| Aggregates.AggregatePartitions | utils/data_processor.py:192-197 | the counts add up to the number of records and the totals to the overall quantity |
| Aggregates.HourlyPatterns | utils/data_processor.py:190-199 | grouped by (project, hour): each row summarises exactly its records; the rows are ascending and cover every record |
| Aggregates.DayOfMonthPatterns | utils/data_processor.py:201-210 | the same, grouped by (project, day of month) |
| Aggregates.DayHourPatterns | utils/data_processor.py:212-224 | the rows are the (project, day, hour) aggregate, each labelled with the day and hour it groups |
| Aggregates.LabelRoundTrip | utils/data_processor.py:222 | the `Dia_Hora` label gives back its day and hour |
| Aggregates.LabelsDistinct | utils/data_processor.py:222 | distinct (day, hour) pairs get distinct labels |
| Aggregates.Translate | utils/data_processor.py:239-241 | a Portuguese name exists iff the English name is a weekday, and the k-th English name from Monday maps to the k-th Portuguese name |
| Aggregates.TranslateInjective | utils/data_processor.py:228-241 | distinct weekdays get distinct Portuguese names |
| Aggregates.WeekdayPatterns | utils/data_processor.py:226-249 | each row summarises exactly its project's records on its weekday; rows are ordered by project, then Monday-first; no (project, weekday) pair repeats; every record is covered |
| Aggregates.PeriodDays | utils/data_processor.py:265-268 | "Período (dias)" counts both ends: the span lies in [d-1, d) days |
| Aggregates.ProjectSummaries | utils/data_processor.py:251-268 | one row per project, ascending by project, covering every record; each row's total, mean, minimum, maximum, count, first and last date, and period describe exactly that project's records |
| Dashboard.Outflow | pages/dashboard.py:66-67 | an outflow quantity becomes non-positive with the same magnitude; one already non-positive is unchanged |
| Dashboard.Merge | pages/dashboard.py:49-70 | the merge is the entrada rows then the saída rows. Each row keeps its project, timestamp and other columns and gets its direction tag and the hour and day of its timestamp. Each saída quantity becomes non-positive with the same magnitude |
| Dashboard.MergeOfNormalised | pages/dashboard.py:53-67 | on normalised sheets the merge changes only the direction tag and the sign of the outflows |
| Dashboard.TagTwice | pages/dashboard.py:57-67 | tagging a tagged sheet changes nothing |
| Dashboard.TotalSaidas | pages/dashboard.py:127-129 | "Total Saídas" is never negative |
| Dashboard.SaidasAreMagnitudes | pages/dashboard.py:127-129 | with outflows signed, "Total Saídas" is the sum of the outflow magnitudes |
| Dashboard.NetFlow | pages/dashboard.py:123-129 | on a tagged table with signed outflows, the net quantity is "Total Entradas" minus "Total Saídas" |
| Dashboard.MergedNetFlow | pages/dashboard.py:66-129 | the net-flow identity holds on the merged table, filtered or not |
| Dashboard.FilterMerge | pages/dashboard.py:70-96 | filtering the merged table equals merging the filtered sheets |
| Dashboard.MergedTotals | pages/dashboard.py:123-129 | on the merge, "Total Entradas" is the entrada sheet's sum and "Total Saídas" the saída sheet's sum of magnitudes |
| Dashboard.FilteredTotals | pages/dashboard.py:123-129 | after the filters, the two totals are the selected entrada sum and the selected saída magnitudes |
| Dashboard.PercentCritical | pages/dashboard.py:109 | 0 for an empty coverage table; otherwise the value times the row count is 100 times the critical count, so it is the critical share in percent; within 0..100 when the critical count lies between 0 and the row count; 100 when every row is critical |
| Dashboard.OneInFourIsAQuarter | pages/dashboard.py:109 | one critical item among four covered items gives 25 |
| Dashboard.PercentCriticalAdds | pages/dashboard.py:109 | the percentage is additive in the critical count, for every row count |
| Dashboard.PeriodDays | pages/dashboard.py:131-133 | defined iff the table is non-empty; every pair of timestamps lies less than d+1 days apart, and some pair at least d days apart |
| Dashboard.PeriodShrinks | pages/dashboard.py:131-133 | narrowing the table by the filters never lengthens the period |
| Dashboard.ProjectCount | pages/dashboard.py:119-121 | `nunique()` is the size of the set of projects: at most the row count, at least 1 on a non-empty table |
| Scenarios.PercentilesOfThree | utils/data_processor.py:137-144 | for hourly totals 10, 12, 2 the 75th percentile is 11 and the 25th is 6 |
| Scenarios.PeaksOfThree | utils/data_processor.py:135-146 | for 10, 12, 2 the middle hour is the sole high peak, and there is no low peak |
| Scenarios.ConstantSeriesHasNoPeaks | utils/data_processor.py:135-146 | a series whose hours all hold the same total has no peak and no valley |

Some behaviour of the code is easy to misremember, so it is stated here.

- **Peak height.** A high peak may equal the 75th percentile: heights are
  compared with `>=`, as scipy's `find_peaks` does.
- **Percentiles.** They follow numpy's linear rule. The 75th percentile of
  10, 12, 2 is 11 and the 25th is 6.
- **Valleys.** They are always the peaks of the negated series. There is no
  separate rule for series that only hold outflows.
- **Grouping.** Peaks are grouped per project, never per direction.
- **Distance ties.** The order among equal heights in the `distance`
  suppression is left open, and the result does not depend on it.

## Left out

- Workbook loading (`load_excel_file`), every Streamlit call, the charts and
  the export. These are I/O and UI; the date parsers and the numeric coercion
  are parameters.
- `process_cobertura_data` and `get_critical_summary` are not part of this
  model. "% Crítico" takes their results (critical count, row count) as
  arguments.
- The standard deviation column and the `round(2)` step of
  `create_project_summary`. They are floating-point presentation; quantities
  are exact reals here.
- The `Mes`, `Ano`, `Data` and `Dia_Hora` columns of
  `process_temporal_data` (lines 81-87). No modelled analysis reads them.
  The `Dia_Hora` label that `analyze_day_hour_patterns` builds anew is
  modelled.
- The `try`/`except` around `process_temporal_data`. The modelled operations
  cannot fail, so the `None` result of the upload flow is the empty-table
  case.
- Rows whose `Linha ATO` cell is empty. `groupby` drops them; the model's
  project is always a string.
- The default project selection of the dashboard (the first five projects)
  and the date picker. They are UI; the filters take any selection and
  range.
- The dashboard re-parses `Data Movimento` with `pd.to_datetime` and no
  format, inside a `try` whose error path reports the failure
  (pages/dashboard.py:53-54, 82-84). The model takes the dashboard's sheets
  as normalised tables, whose timestamps are already parsed, so that call is
  the identity and its error path cannot be reached.
- The peak chart looks up the keys `entrada_data`, `peaks_entrada`,
  `saida_data` and `peaks_saida` (utils/visualizer.py:106-146), while the
  detector produces `data`, `peaks_high`, `peaks_low` and the matching
  `values_*` and `dates_*` keys (utils/data_processor.py:148-156). The keys
  do not match. The chart is UI and is not modelled.
- "Total de Registros" is the length of the filtered table. It needs no
  contract beyond the filters'.
- Normalise.Finish: `sort_values` uses an unstable sort, so the order of rows
  with equal timestamps is open. The model keeps sheet order among them,
  which is one of the allowed outcomes.
- Peaks.SelectByDistance: numpy's `argsort` tie order is a parameter rather
  than a fixed algorithm. `Peaks.DistanceRemovesNothing` shows that no order
  changes the result.
- Peaks.Percentile: the contract bounds the value by the series and orders
  percentiles. It does not restate numpy's interpolation formula, which is
  the function's definition.

## Findings

| source | as written | input that shows it | evidently intended | confidence | as-written member | corrected member |
|---|---|---|---|---|---|---|
| utils/data_processor.py:50-64 | each fallback `to_datetime` converts the column the previous attempt already coerced, so no text is left for the fallback format to parse | a sheet whose only timestamp is `01/01/2025 08:00` (no seconds): the first format rejects it, the fallback sees an empty cell, and every row is dropped | each fallback is tried on the raw text, so a sheet without seconds is accepted by the second format | not executed | Normalise.NormaliseAsWritten, Normalise.FallbackCounterexample, Normalise.UploadWithoutSeconds | Normalise.Normalise, Normalise.UploadWithoutSecondsCorrected |
