# Digital Scrap & Quality Tracker — the scrap-record pipeline in Dafny

The tracker is a Streamlit dashboard over a table of textile scrap records.
Each record has a Date, a `Machine_ID`, a `Defect_Type`, a `Fabric_Type`, a
`Shift`, a `Quantity_Scrapped_meters` and a `Scrap_Cost`. Every analysis page
runs the same small pipeline on each rerun:

1. It converts the Date column. A blank or NaN-like cell always becomes a
   missing date (NaT). The pages also coerce text they cannot read into a
   missing date. The top-level script parses strictly: it stops at the first
   unreadable date, but it still lets blank cells through as missing dates.
2. It brings the page's sidebar selections into the session state. A key is
   written only when it is absent, and the Reset button rewrites all of the
   page's keys with defaults observed in the unfiltered table: the earliest
   and latest date, and every distinct value of each column. Keys are
   namespaced per page: `sa_`, `qr_`, or no prefix.
3. It filters the table. A row is kept when its date lies in the inclusive
   range and each of the page's active columns holds a selected value.
4. It computes figures over the rows that pass:
   - column sums;
   - the most frequent defect, or `"-"` when no row is left;
   - distinct counts;
   - group-by sums, over one column, over Date, and over a (column, Date)
     pair;
   - top-5 rankings;
   - running sums per value over time;
   - value counts;
   - a Date column resampled to the day, the Monday-starting week or the
     first of the month.

The model keeps the table as a `seq` of immutable rows. Dates are day numbers
in the proleptic Gregorian calendar (`Calendar`), and sums and costs are
unbounded integers. Each page run is a pure function or method of:

- the session state, a map from key to selection;
- the uploaded rows;
- the date parser, which reads a cell as blank, unreadable or a day;
- whether Reset was pressed.

Modules, in dependency order:

- `Wrappers`: `Option` and `Result`.
- `Calendar`: day numbers, civil dates and their round trip.
- `Text`: the code-point order pandas sorts text keys by.
- `Seqs`: `unique()`, `nunique()` and subsequences.
- `Records`: rows, date coercion and strict parsing, column sums.
- `Filter`: the row mask and `df[mask]`.
- `Buckets`: the time granularity.
- `Grouping`: `groupby(...).sum()` with sorted keys and missing keys dropped.
- `Ranking`: descending sort, `head(n)`, the top-5 charts and `value_counts()`.
- `Kpis`: `mode()[0]` and the KPI panel.
- `Cumulative`: `groupby(col).cumsum()` over the (value, date) table.
- `Session`: the selection keys, init-if-absent and Reset.
- `Pages`: each page and the top-level script, end to end.

Each operation comes with a partner:

- the reference value of a group, `KeyTotal`, which sums the rows with that key;
- the column sums `Total`;
- the civil calendar for the buckets;
- `Frequency` for the mode;
- `Dated` for the default selections.

Lemmas tie each operation to its partner.

## Model

| member | source | states |
|---|---|---|
| Calendar.CivilRoundTrip | pages/scrap_analysis_page.py:53-54 | converting a valid civil date to a day number and back gives the same date, which month periods rely on |
| Calendar.UnixEpoch | pages/scrap_analysis_page.py:14 | the day numbering agrees with the usual calendar: 1970-01-01 is a valid date, day 719162, and a Thursday |
| Records.Coerce | pages/scrap_analysis_page.py:13-14 | coercing conversion keeps every row and every other column; a row's date is the day the parser reads, and missing when the cell is blank or unreadable |
| Records.ParseStrict | main.py:31 | strict conversion succeeds exactly when no cell is unreadable, blank cells included, and then it equals the coerced table; otherwise it reports the index of the first unreadable cell |
| Records.StrictMissingOnlyWhereBlank | main.py:31 | after a successful strict conversion a date is missing exactly where the cell was blank |
| Records.Total | pages/scrap_analysis_page.py:64-65 | the row count of the sums is the number of rows; the sums of an empty table are 0 |
| Records.TotalAppend | pages/scrap_analysis_page.py:64-65 | column sums split over concatenation of tables |
| Seqs.Unique | pages/scrap_analysis_page.py:21 | `unique()` lists each value of the column exactly once and nothing else, in column order |
| Seqs.DistinctCount | pages/scrap_analysis_page.py:67 | `nunique()` is the number of distinct values, at most the row count and positive on a non-empty column |
| Filter.Apply | pages/scrap_analysis_page.py:41-47 | the kept rows are an order-preserving subsequence of the table, each passes the mask, and each row occurs as often as in the table if it passes and not at all otherwise |
| Filter.MissingDateNeverKept | pages/scrap_analysis_page.py:42-43 | a row whose date was coerced to missing is never kept, whatever the selections |
| Filter.ApplyKeepsAllPassing | pages/scrap_analysis_page.py:41-47 | when every row passes, the filter returns the table unchanged |
| Filter.ApplyIdempotent | pages/scrap_analysis_page.py:41-47 | filtering the filtered table again with the same selections changes nothing |
| Filter.ApplyExtensional | pages/scrap_analysis_page.py:41-47 | two selections that accept the same rows keep the same rows |
| Filter.Dated | pages/scrap_analysis_page.py:42-43 | the dated rows are the subsequence of rows with a present date, with their multiplicities |
| Filter.ApplyKeepsDated | pages/scrap_analysis_page.py:41-47 | selections that accept every dated row keep exactly the dated rows |
| Filter.InactiveDimensionIgnored | pages/quality_reports_page.py:38-44 | a column outside the active set never decides whether a row is kept: tables that differ only in that column keep rows that differ only in that column |
| Buckets.WeekStart | pages/scrap_analysis_page.py:51-52 | the week bucket is a Monday on or before the date and less than seven days before it |
| Buckets.MonthStart | pages/scrap_analysis_page.py:53-54 | the month bucket is the first of the date's own month and year, on or before the date and within that month |
| Buckets.BucketShape | pages/scrap_analysis_page.py:49-54 | every bucket is at most its date; Day is the identity, Week gives a Monday at most six days back, Month gives day 1 of the same year and month |
| Buckets.BucketIdempotent | pages/scrap_analysis_page.py:49-54 | bucketing a bucket start returns it unchanged |
| Buckets.SameMonthBucket | pages/scrap_analysis_page.py:53-54 | two dates share a month bucket exactly when they lie in the same year and month |
| Buckets.SameWeekBucket | pages/scrap_analysis_page.py:51-52 | two dates share a week bucket exactly when they lie in the same Monday-to-Sunday week |
| Buckets.BucketMonotone | pages/scrap_analysis_page.py:49-54 | bucketing preserves the order of dates |
| Buckets.ResampledColumn | pages/scrap_analysis_page.py:49-54 | the resampled column exists only for a non-empty table; it has one entry per row, the bucket of that row's date, at most the date, and a missing date stays missing |
| Grouping.GroupSum | pages/scrap_analysis_page.py:80 | one group per present key and no other, keys strictly increasing, and each group's totals are the sums over exactly the rows with that key |
| Grouping.PresentKeysMeaning | pages/scrap_analysis_page.py:80 | a key is present exactly when some row has it, which is exactly when its rows are counted; rows with a missing date give no date key |
| Grouping.GroupSumWhere | pages/scrap_analysis_page.py:145 | summing the groups a key filter selects gives the sums over the rows whose key it selects |
| Grouping.GroupsAddUp | pages/scrap_analysis_page.py:145 | the groups of one column add up, in quantity, cost and row count, to the sums over the whole table |
| Grouping.DateGroupsAddUp | pages/scrap_analysis_page.py:80 | the per-date groups add up to the sums over the rows that have a date |
| Grouping.DatedUndatedSplit | main.py:21-32 | the column sums of a table are the sums over its dated rows plus the sums over its rows with a missing date |
| Grouping.PairGroupsAddUp | pages/scrap_analysis_page.py:86 | the (value, date) groups add up to the sums over the rows that have a date |
| Grouping.GroupCountIsDistinctCount | pages/scrap_analysis_page.py:156 | a one-column group-by has exactly one group per distinct value of the column |
| Ranking.SortDescending | pages/scrap_analysis_page.py:105 | `sort_values(ascending=False)` is a permutation of the groups with the measure non-increasing |
| Ranking.SortKeepsSum | pages/scrap_analysis_page.py:105 | sorting keeps the sums of the groups |
| Ranking.Top | pages/scrap_analysis_page.py:105-106 | `head(n)` of the descending order has min(n, size) groups drawn from the input, non-increasing, with distinct keys kept, every left-out group no larger than the last shown, and all groups shown when there are at most n |
| Ranking.TopFive | pages/scrap_analysis_page.py:102-108 | the top-5 chart has exactly min(5, distinct values) entries, one per value, each carrying that value's scrap, non-increasing, and every omitted value's scrap is at most the smallest shown |
| Ranking.CountMeaning | pages/quality_reports.py:61 | a group's row count is the number of times its value occurs in the column |
| Ranking.ValueCounts | pages/quality_reports.py:61-62 | `value_counts()` has one entry per distinct value, each with its number of occurrences, in non-increasing count order, and the counts add up to the row count |
| Kpis.MostFrequent | pages/scrap_analysis_page.py:66 | `mode()[0]` is absent exactly on an empty column; otherwise it is a value of the column of largest frequency, the least such value in text order |
| Kpis.ModeIsDetermined | pages/scrap_analysis_page.py:66 | any value of largest frequency that is least among the tied ones is the mode, so the mode is unique |
| Kpis.TopDefect | pages/scrap_analysis_page.py:66 | the guarded KPI is `"-"` on an empty table and otherwise a defect type of maximal frequency, the least one in text order on a tie |
| Kpis.TopDefectUnguarded | pages/scrap_analysis.py:17 | the unguarded KPI fails exactly on an empty table, with the empty-mode error, and otherwise names a defect type of maximal frequency |
| Kpis.GuardedAgreesWhenNonEmpty | pages/scrap_analysis.py:17 | on a non-empty table the guarded and unguarded KPIs name the same defect |
| Kpis.PanelOf | pages/scrap_analysis_page.py:64-67 | the panel's scrap and cost are the column sums (all 0 and `"-"` on an empty table); on a non-empty table its top defect is a defect type of maximal frequency, the least one on a tie; its count is the number of distinct values, equal to the number of groups |
| Cumulative.RunningTotals | pages/scrap_analysis_page.py:122 | the one-pass cumsum restarts at each new value and otherwise adds the group's quantity to the previous running total; every entry is the sum of its value's groups up to it |
| Cumulative.RunningTotalIsPrefixSum | pages/scrap_analysis_page.py:122 | in a table sorted by value and date, a running total is the sum of its value's groups up to its date |
| Cumulative.LastOfValue | pages/scrap_analysis_page.py:122 | the last running total of a value is the sum of all that value's groups |
| Cumulative.PairGroupsArePairTable | pages/scrap_analysis_page.py:117-120 | the (value, date) group-by sorted by value then date has only pair keys, strictly increasing |
| Cumulative.CumulativeScrap | pages/scrap_analysis_page.py:117-122 | the cumulative table has one line per (value, date) group, carrying that group's key, sorted by value then date; each line's total is that value's scrap up to its date, and a value's last line holds its whole scrap |
| Session.KeyNameInjective | pages/scrap_analysis_page.py:18-25 | distinct selection keys have distinct session-state names |
| Session.NamespacesDisjoint | pages/quality_reports_page.py:17-24 | pages with different prefixes own no key in common |
| Session.MinDate | pages/scrap_analysis_page.py:19 | `min()` of the Date column is missing exactly when every date is, and otherwise is a present date no later than any other |
| Session.MaxDate | pages/scrap_analysis_page.py:19 | `max()` of the Date column is missing exactly when every date is, and otherwise is a present date no earlier than any other |
| Session.Default | pages/scrap_analysis_page.py:19-25 | a date key defaults to (min, max); a column key defaults to the distinct values of the column, each once |
| Session.Init | pages/scrap_analysis_page.py:18-25 | init adds the page's absent keys with their defaults and leaves every present key as it was |
| Session.Reset | pages/scrap_analysis_page.py:27-31 | Reset writes every key of the page with its default and touches no other key |
| Session.InitIdempotent | pages/sidebar_filters.py:9-16 | initialising twice is initialising once |
| Session.FirstInitIsReset | pages/scrap_analysis_page.py:18-31 | on a first visit, init and Reset give the same state |
| Session.ResetAfterInit | pages/scrap_analysis_page.py:27-31 | Reset after init is Reset alone |
| Session.InitKeepsSelections | pages/sidebar_filters.py:9-16 | once all of a page's keys exist, init never changes the state, whatever the table |
| Session.OtherNamespaceUntouched | pages/quality_reports_page.py:17-30 | a page's run, with or without Reset, leaves every key of another prefix as it was |
| Session.InitIgnoresOtherColumn | pages/quality_reports_page.py:17-24 | a page's init reads only the dates and the page's own columns: tables that differ only in another column give the same state |
| Session.ResetIgnoresOtherColumn | pages/quality_reports_page.py:26-30 | a page's Reset reads only the dates and the page's own columns: tables that differ only in another column give the same state |
| Session.CriteriaOf | pages/scrap_analysis_page.py:33-36 | the selections read back are the stored date range and, for exactly the page's active columns, the stored picks |
| Session.DefaultsKeepDatedRows | pages/scrap_analysis_page.py:27-47 | after Reset, filtering keeps exactly the rows with a present date |
| Session.FirstVisitKeepsDatedRows | pages/sidebar_filters.py:10-16 | on a first visit the defaults keep exactly the rows with a present date |
| Pages.ScrapAnalysisColumns | pages/scrap_analysis_page.py:18-25 | the analysis page owns the `sa_` date, machines, defects and fabric keys, and no Shift key |
| Pages.QualityReportsColumns | pages/quality_reports_page.py:17-24 | the quality page owns the `qr_` date, machines, defects and shift keys; the older quality page owns fabric instead of shift |
| Pages.UnprefixedColumns | pages/scrap_analysis.py:26-31 | the older analysis page owns the unprefixed date, machines and defects keys; `sidebar_filters` also owns fabric |
| Pages.Select | pages/scrap_analysis_page.py:18-47 | the selection block adds exactly the page's keys, keeps other keys, keeps all keys without Reset, writes defaults on Reset, and filters with the stored selections; after Reset or on a first visit it keeps exactly the dated rows |
| Pages.DefaultsSelectDated | pages/scrap_analysis_page.py:18-47 | after Reset, or on a first visit, the page keeps exactly the dated rows |
| Pages.SelectIgnoresInactive | pages/quality_reports_page.py:17-44 | a column the page does not filter on changes neither the stored selections nor which rows the page keeps: tables that differ only in that column keep rows that differ only in that column |
| Pages.TrendsOf | pages/scrap_analysis_page.py:79-93 | the per-date, per-(machine, date) and per-(defect, date) trends each add up to the sums over the filtered rows |
| Pages.CostsOf | pages/scrap_analysis_page.py:143-195 | the defect share and the machine, fabric and defect cost charts have one slice per distinct value and add up to total scrap and total cost |
| Pages.CumulativeOf | pages/scrap_analysis_page.py:115-141 | there is one cumulative line per (value, date) group of the filtered rows, in the groups' order; each line is its value's scrap up to its date, and a value's last line is the value's whole scrap |
| Pages.PairSumIsValueTotal | pages/scrap_analysis_page.py:122 | on dated rows, the (value, date) groups of one value add up to that value's group total |
| Pages.ResampledDates | pages/scrap_analysis_page.py:49-54 | the resampled column is absent exactly on an empty table, and otherwise holds each row's bucket |
| Pages.ScrapAnalysisFigures | pages/scrap_analysis_page.py:61-195 | the analysis page's figures: buckets only on a non-empty table, KPIs over the filtered rows with a most frequent defect, the trend adds up, top-5 ranked, cumulative lines end at each machine's total, and the defect share adds up |
| Pages.ScrapAnalysis | pages/scrap_analysis_page.py:5-58 | the analysis page prompts for an upload when none is present, never fails on an upload with all seven columns, uses the `sa_` selection block and leaves other prefixes alone |
| Pages.QualityReportsFigures | pages/quality_reports_page.py:50-137 | the quality page's figures: total scrap, `"-"` or a maximal-frequency defect of the rows, the shift count, the trend adds up, top-5 machines and shifts ranked and drawn from the rows, and the defect share adds up |
| Pages.QualityReports | pages/quality_reports_page.py:5-44 | the quality page prompts for an upload when none is present, never fails on an upload with all seven columns, uses the `qr_` selection block over Machine, Defect and Shift, and leaves other prefixes alone |
| Pages.OlderQualityReportsFigures | pages/quality_reports.py:45-62 | the row count is the filtered length; fabric cost and machine scrap have one entry per value and add up; value counts have one entry per defect in non-increasing order and sum to the row count |
| Pages.OlderQualityReports | pages/quality_reports.py:5-43 | the older quality page uses the `qr_` block over Machine, Defect and Fabric and reports the filtered row count |
| Pages.OlderScrapAnalysisFigures | pages/scrap_analysis.py:49-60 | the row count, and the per-defect and per-date scrap, which have one entry per defect and add up to the filtered scrap |
| Pages.OlderScrapAnalysis | pages/scrap_analysis.py:8-47 | the older analysis page fails exactly on an empty upload, on the mode; otherwise its KPIs are over the whole table and its filter uses the unprefixed Machine and Defect keys |
| Pages.OlderKpisIgnoreSelections | pages/scrap_analysis.py:15-17 | the older page's KPIs are the same whatever the session state and whether Reset was pressed |
| Pages.SidebarFilters | pages/sidebar_filters.py:4-58 | `sidebar_filters` manages the four unprefixed keys and returns the four stored selections; after Reset they are (min, max) and every distinct machine, defect and fabric |
| Pages.MainScript | main.py:13-44 | the top-level script fails on an empty upload (the mode) or on the first unreadable date; otherwise its sums are over every row, including rows with a blank date. Its per-defect and per-fabric tables have one entry per distinct value and add up to total scrap or total cost. The per-date trend has one entry per distinct present date and adds up to the dated rows only, so total scrap is the trend's sum plus the scrap of the blank-date rows |
| Pages.DateGroupCount | main.py:32 | there is one per-date group per distinct present date, and a missing date makes no group |

## Left out

- Streamlit widgets, tabs, metrics, titles and plotly charts: pure presentation. The model stops at the data each chart is given.
- CSV reading (`pd.read_csv`), the upload pages, the navigation scripts (`app.py`, `pages/main.py`) and the home page: I/O and navigation, not part of the pipeline.
- The date parser itself is the parameter `parse: string -> Reading`. It reads a cell as `Blank` (empty, NaN or "NaT"), `Unreadable` or `Read(day)`; which texts fall in which class is not modelled.
- Time of day and the bounds of pandas timestamps: a date is a whole day number counted from 0001-01-01.
- A date picker that returns a single date, and Streamlit's rerun lifecycle. The session state is a map, and a page run is one function call.
- A stored range whose bounds are both missing (an all-NaT Date column) is modelled as is: nothing passes the filter. The widget's own handling of such a value is not modelled.
- Non-numeric or missing values in the quantity and cost columns, and missing categorical values: the code does not handle them. Sums are exact integers, with no floating-point rounding, and currency formatting is not modelled.
- The relative order of equal sums after `sort_values`, which is not a stable sort in pandas: the model fixes one order, and its contracts do not depend on which.
- `Grouping.GroupSum`: a (column, Date) group-by lists its groups by value and then by date. That is the order `sort_values([col, "Date"])` produces for the cumulative charts. A plain `groupby(["Date", col])` lists them date first, and the trend charts' contracts state only sums, not that order.
- `Seqs.Unique`: lists the values in column order but does not state that each sits at its first appearance. The filter reads the list only as a set of values.
- `Pages.ScrapAnalysisFigures`: states a selection of its parts' facts. The full contracts are on `Pages.TrendsOf`, `Pages.CostsOf`, `Pages.CumulativeOf`, `Pages.ResampledDates`, `Ranking.TopFive` and `Kpis.PanelOf`. It gives the top-5 only as at most five ranked entries.
- `Pages.ScrapAnalysis`: states the selection block and the KPI sums. The remaining figures are stated by `Pages.ScrapAnalysisFigures`.
- `Pages.QualityReportsFigures`: gives the top-5 lists as at most five ranked entries drawn from the rows. The exact count min(5, distinct values) is stated by `Ranking.TopFive`.
- `Pages.QualityReports`: every upload is assumed to carry a `Shift` column, because a raw row always has one. On a file without that column the page raises `KeyError` at pages/quality_reports_page.py:24, 35 and 43, and the model does not show that failure.
- More generally, every upload is assumed to carry all seven columns. A file without one of them makes the pages that read it raise `KeyError`.
- The `"Date_Resampled"` column is computed, but no chart reads it. It is modelled for its own contract.
