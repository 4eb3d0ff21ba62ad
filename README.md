# Red-order timeliness dashboard: a verified model of its aggregation core

`Logisticsdata.py` is a Streamlit dashboard over the 上架完成-红单 sheet of
shipment records. Each record has an arrival month (到货年月, `"YYYY-MM"`), a
status (提前/延期: `"提前/准时"` for early or on time, `"延期"` for delayed, and
anything else counting as not on time), a forwarder (货代), a warehouse (仓库)
and two lead-time deviations, the absolute one and the signed one. This
project models, over the typed records, what the dashboard computes from
them:

- the month keys. `get_prev_month` is a `strptime`/`strftime` round trip one
  day back from the first of the month. `month_to_num` is Python's `int()`
  applied after the dashes are removed (`month_keys.dfy`);
- the 当月红单分析 cards. Counts and means of the selected month are set
  against the calendar month before it, with an arrow, a colour and a verb
  for the sign of each delta. The module also holds `calculate_percent_change`
  and `highlight_change` (`indicators.dfy`);
- the text histogram of the month's signed deviations. Deviations are
  rounded half to even and counted per day. Early and on-time days are
  listed from the largest down and delayed days from the most negative up.
  Each bar is scaled so that the largest count gets 20 blocks
  (`histogram.dfy`);
- the grouped counts behind the forwarder and warehouse bar charts. This is
  `groupby(...).size().unstack(fill_value=0)`; the section then adds a missing
  status column in place, filled with zeros (`status_chart.dfy`, a class);
- the forwarder and warehouse detail and summary tables, and the monthly
  rate tables per forwarder and per warehouse (`breakdown.dfy`);
- the 不同月份红单趋势分析 pipeline. It filters by month range and status,
  groups by month or by month and status, and pins the `avg_row` of column
  means on top. It then runs `calculate_monthly_diff` once per metric
  (`trend.dfy`);
- `format_colname` (`colnames.dfy`) and the data-source filter
  `filter_conditions` (`shipments.dfy`).

`groupby(...).agg(...)` itself is modelled once, in `grouping.dfy`. Groups are
the distinct key tuples in ascending order. Each group holds its count, its
on-time rate and its two mean deviations. `sort_values` is a stable
insertion sort on a key of a number and a tuple of strings (`ordering.dfy`).
Filters, sums and means over sequences live in `seqs.dfy`.

Means and rates are exact `real`s and counts are unbounded naturals. Where
the code and the reading of the dashboard's own description differ, the
model follows the code. With no record left after the trend filters, the
code shows only "筛选后无数据" and builds no table and no pinned row
(`Trend.TrendTable` returns `NoData`). Month bounds that do not parse are
not an error: `month_to_num` turns them into 0.

## Model

| member | source | states |
|---|---|---|
| MonthKeys.FormatYearMonth | Logisticsdata.py:68 | `strftime("%Y-%m")` writes seven characters with the dash at position 4 |
| MonthKeys.MatchMonthField | Logisticsdata.py:66 | the `%m` field matches a month in 1..12 and uses one or two characters |
| MonthKeys.ParseYearMonth | Logisticsdata.py:66 | every accepted key holds a year in 1..9999 and a month in 1..12 |
| MonthKeys.ParseFormat | Logisticsdata.py:66-68 | parsing what `strftime` wrote gives back the same month |
| MonthKeys.ParseAccepts | Logisticsdata.py:66 | every key `strptime` accepts is a canonical key or, before October, a key with a one-digit month |
| MonthKeys.ParseOneDigitMonth | Logisticsdata.py:66 | conversely, every key with a one-digit month 1..9 is accepted as that month (with ParseFormat: exactly these keys are accepted) |
| MonthKeys.GetPrevMonth | Logisticsdata.py:63-70 | `""` exactly when the key does not parse or is 0001-01; otherwise a canonical key whose month index is one less |
| MonthKeys.PrevMonthOfCanonical | Logisticsdata.py:66-68 | on a canonical key, the result is the month before, with January going to December of the year before |
| MonthKeys.PrevMonthOfParsed | Logisticsdata.py:63-70 | any key that parses, other than 0001-01, gives the canonical key of the calendar month before it |
| MonthKeys.PrevMonthExamples | Logisticsdata.py:63-70 | 2024-03 gives 2024-02, while 2024-01 and 2024-1 give 2023-12 |
| MonthKeys.PrevMonthRejects | Logisticsdata.py:65-70 | 2024-13, 0001-01 and the empty key give `""` |
| MonthKeys.StripLeft | Logisticsdata.py:937 | `int()` strips leading whitespace: the result is no longer and does not start with whitespace |
| MonthKeys.StripRight | Logisticsdata.py:937 | `int()` strips trailing whitespace: the result is no longer and does not end with whitespace |
| MonthKeys.RemoveDashesOfFormat | Logisticsdata.py:937 | deleting the dashes of a canonical key leaves its six digits |
| MonthKeys.MonthToNumOfFormat | Logisticsdata.py:935-939 | a canonical key converts to 100 × year + month |
| MonthKeys.MonthToNumOrder | Logisticsdata.py:943-945 | on canonical keys, comparing month numbers is comparing calendar months, in both directions |
| MonthKeys.PrevMonthSortsBefore | Logisticsdata.py:63-70 | the previous month of a canonical key has a smaller month number |
| MonthKeys.MonthToNum | Logisticsdata.py:935-939 | `month_to_num`: the dashes removed, then `int()`, with 0 for any failure; MonthToNumOfFormat, MonthToNumOrder, MonthToNumMalformed, MonthToNumWithoutDigits and PyIntDigitLimit state what it gives |
| MonthKeys.PyInt | Logisticsdata.py:937 | Python's `int()` on a string: surrounding whitespace stripped, an optional sign, digits with single underscores between them and at most 4300 digits (the integer string conversion limit), an error otherwise; PyIntStrips and PyIntRejects give its cases, MonthToNumOfFormat its value on six digits |
| MonthKeys.PyIntStrips | Logisticsdata.py:937 | `" 202405\n"` converts to 202405: surrounding whitespace is stripped |
| MonthKeys.PyIntRejects | Logisticsdata.py:937-939 | a doubled underscore and a bare sign are rejected |
| MonthKeys.PyIntDigitLimit | Logisticsdata.py:935-939 | a run of more than 4300 digits exceeds the conversion limit: `int()` raises and the key converts to 0 |
| MonthKeys.MonthToNumMalformed | Logisticsdata.py:936-939 | a key holding, anywhere, a character `int()` can never accept (not a digit, `_`, sign, dash or whitespace) converts to 0 |
| MonthKeys.MonthToNumWithoutDigits | Logisticsdata.py:936-939 | a key with no digit at all, the empty key included, converts to 0 |
| Indicators.PercentChange | Logisticsdata.py:73-80 | a zero base gives 0 for no change and 100 otherwise; a non-zero base gives r with r × prev = (current − prev) × 100 |
| Indicators.PercentChangeRecovers | Logisticsdata.py:78 | applying the percentage to a non-zero base gives back the current value |
| Indicators.PercentChangeSign | Logisticsdata.py:76-78 | over a positive base the result is positive iff the value rose and negative iff it fell |
| Indicators.MovementOf | Logisticsdata.py:153-154 | Rise iff the delta is positive, Fall iff negative, Level iff zero |
| Indicators.MakeCard | Logisticsdata.py:150-189 | previous + delta = current; the magnitude is the absolute delta; ↑/red/增加 iff it rose, ↓/green/减少 iff it fell, —/gray/持平 iff it is level |
| Indicators.HighlightChange | Logisticsdata.py:97-115 | red iff a positive number, green iff a negative number, no style iff the value is missing, unparseable or zero |
| Indicators.HighlightAgreesWithCards | Logisticsdata.py:109-112 | a non-zero change gets the colour its card would get |
| Indicators.PreviousMonthRecordsMeaning | Logisticsdata.py:138-140 | the previous-month records are all records of the calendar month before, or none when there is no such month; each is exactly one month earlier |
| Indicators.PreviousMonthRecords | Logisticsdata.py:137-140 | `df_prev`: PreviousMonthRecordsMeaning states what it holds |
| Indicators.MonthCards | Logisticsdata.py:150-252 | each card's current value is its count or mean over the selected month's records (orders, on-time, delayed, mean absolute deviation, mean deviation) and its previous value the same over `df_prev`; the verdict is "early overall" iff the month's mean deviation is positive |
| Indicators.MonthCardsDeltas | Logisticsdata.py:150-189 | each of the five deltas is the month's count or mean minus the previous month's |
| Indicators.MonthCardsWithoutPrevious | Logisticsdata.py:139-186 | with no previous month in the data, every previous value is 0 and every delta is the current value |
| Shipments.OnTimeRate | Logisticsdata.py:628 | the rate lambda lies in [0, 1] |
| Shipments.OnTimeRateShare | Logisticsdata.py:628 | rate × number of rows = number of on-time rows |
| Shipments.RateAllOnTime | Logisticsdata.py:613-614 | rows that are all 提前/准时 have rate 1 |
| Shipments.RateNoneOnTime | Logisticsdata.py:615-616 | rows none of which is 提前/准时 have rate 0 |
| Shipments.TrendFilter | Logisticsdata.py:943-952 | the month range first, then the status choice; TrendFilterKeeps and TrendFilterEmptyRange state what it keeps |
| Shipments.TrendFilterKeeps | Logisticsdata.py:943-952 | a record is kept, as often as it occurs, iff month_to_num(start) ≤ month_to_num(month) ≤ month_to_num(end) and it passes the status choice |
| Shipments.TrendFilterEmptyRange | Logisticsdata.py:943-946 | a start month after the end month keeps nothing |
| Shipments.SourceMask | Logisticsdata.py:1501-1517 | after the four refinements, each mask entry is true iff its record meets every selector other than 全部 |
| Shipments.DataSourceFilter | Logisticsdata.py:1520 | the kept rows are exactly the marked records, in order |
| Shipments.SourceAllKeepsEverything | Logisticsdata.py:1501-1520 | with every selector on 全部, nothing is removed |
| Ordering.SortBy | Logisticsdata.py:973 | the sort returns a permutation of its input, of the same length, ascending in the key |
| Grouping.GroupBy | Logisticsdata.py:626-633 | `groupby(...).agg(...)`: one aggregate per distinct key, sorted by key; the Grouping lemmas below state its groups, their cover, order and counts |
| Grouping.GroupByMember | Logisticsdata.py:626-633 | a group is the aggregate of the non-empty set of records carrying its key |
| Grouping.GroupByMembers | Logisticsdata.py:626-633 | every group has a key of one value per column, a positive count, and the aggregate of its records |
| Grouping.GroupByCovers | Logisticsdata.py:626-633 | every record's key has a group |
| Grouping.GroupOfRecord | Logisticsdata.py:626-633 | names the group a record falls into |
| Grouping.GroupByDistinctSorted | Logisticsdata.py:626-633 | no key appears twice, and the keys ascend |
| Grouping.GroupCountsPartition | Logisticsdata.py:626-643 | the counts of the groups whose key satisfies a condition add up to the records whose key satisfies it |
| Grouping.GroupCountsTotal | Logisticsdata.py:627 | the group counts add up to the number of records |
| Grouping.GroupRates | Logisticsdata.py:628 | each group's rate is its on-time share and lies in [0, 1] |
| Grouping.MembersShareKey | Logisticsdata.py:626 | every member of a group has the group's value in each key column |
| Grouping.StatusGroupRate | Logisticsdata.py:626-628 | when the status is a key column, a group's rate is 1 for 提前/准时 and 0 otherwise |
| Grouping.StatusGroupRates | Logisticsdata.py:626-628 | the same, for every group of the table |
| Grouping.DetailSumsToSummary | Logisticsdata.py:626-643 | for every dimension value, the detail counts of its statuses add up to its records |
| Grouping.DetailSumsToSummaryCount | Logisticsdata.py:626-643 | a summary group's count is the sum of the detail counts with its value |
| Grouping.OnlySummaryGroupWithValue | Logisticsdata.py:636-643 | in the summary table a dimension value picks out exactly one group |
| StatusChart.AscendingFacts | Logisticsdata.py:586 | the unstacked index lists each occurring value once, in ascending order, and no other value |
| StatusChart.CellMeaning | Logisticsdata.py:586 | a cell counts the records with its row's value and its column's status |
| StatusChart.AbsentStatusCountsZero | Logisticsdata.py:587-590 | a status that no record has gets 0 in every row |
| StatusChart.BarGroupTotal | Logisticsdata.py:586-590 | over distinct columns that cover every status, a row's cells add up to the records with its value |
| StatusChart.Unstack | Logisticsdata.py:586 | `unstack(fill_value=0)`: one row per listed value and one cell per listed status; UnstackInvariant and CellMeaning state that each cell counts its pair |
| StatusChart.AddZeroColumn | Logisticsdata.py:588 | every row gets one more cell, a 0, at its end |
| StatusChart.UnstackInvariant | Logisticsdata.py:586 | the unstacked counts over the sorted values and statuses satisfy the table invariant |
| StatusChart.AddColumnInvariant | Logisticsdata.py:587-590 | adding a new status with zeros keeps the invariant |
| StatusChart.StatusTable.constructor | Logisticsdata.py:586 | the table holds the sorted values and statuses and the invariant: each cell is its pair's count, and nothing is listed twice |
| StatusChart.StatusTable.EnsureColumn | Logisticsdata.py:587-590 | the column is present afterwards; an existing one changes nothing; a missing one is appended with a 0 in every row; the invariant is kept |
| StatusChart.StatusTable.RowTotal | Logisticsdata.py:586-590 | a bar group adds up to the records of its value |
| StatusChart.StatusTable.CellIsCount | Logisticsdata.py:586 | the cell looked up by value and status is the number of records with both, 0 for an unlisted pair |
| StatusChart.IndexOf | Logisticsdata.py:586 | finds the position of a listed label |
| StatusChart.ChartColumns | Logisticsdata.py:587-590 | the column list after the two checks always holds 提前/准时 and 延期 and starts with the columns it had |
| StatusChart.AddStatusColumns | Logisticsdata.py:587-590 | the two checks leave the index and the invariant as they were and make the columns the old ones, then 提前/准时 if it was missing, then 延期 if it was missing |
| StatusChart.ChartCounts | Logisticsdata.py:586-597 | the table handed to `px.bar` keeps the invariant, so each cell counts its pair; its rows are the ascending values, and its columns, one bar trace each, are the occurring statuses in ascending order, then 提前/准时 if missing, then 延期 if missing |
| Breakdown.BreakdownTables | Logisticsdata.py:612-643 | there are tables iff the month has records |
| Breakdown.BreakdownConsistent | Logisticsdata.py:626-643 | a summary row's 总订单个数 is the sum of the 订单个数 of the detail rows with the same value |
| Breakdown.BreakdownTotals | Logisticsdata.py:626-643 | both tables count every record left by the radio choice once |
| Breakdown.BreakdownRates | Logisticsdata.py:628-638 | a detail rate is 1 for 提前/准时 and 0 otherwise; a summary rate is its on-time share, in [0, 1], over a positive count |
| Breakdown.BreakdownUnderStatusFilter | Logisticsdata.py:613-638 | under 仅提前/准时 every overall rate is 1; under 仅延期 every overall rate is 0 |
| Breakdown.MonthlyRates | Logisticsdata.py:1426-1431 | there is no table iff there are no records; otherwise one row per (month, name) group |
| Breakdown.MonthlyRowMeaning | Logisticsdata.py:1427-1430 | each row: 准时率(%) is 100 × the on-time share of its non-empty records, in [0, 100]; 平均时效差值 is their mean signed deviation |
| Breakdown.MonthlyRatesCover | Logisticsdata.py:1427 | every (month, name) pair of the records has a row |
| Breakdown.MonthlyRatesDistinct | Logisticsdata.py:1427 | no pair has two rows, and the rows ascend by (month, name) |
| Trend.SummaryRow | Logisticsdata.py:996-1018 | the loop over the columns gives 筛选后平均值, `-` in the status view, no change cells, and each metric's mean over the data rows (0 for none) |
| Trend.PrevFrom | Logisticsdata.py:1038-1041 | the found row is the last earlier row of the same series; none is found only when no earlier row is in the series |
| Trend.AnnotateAll | Logisticsdata.py:1055-1057 | adding change columns keeps every row's month, status and values |
| Trend.AnnotateAllDiffs | Logisticsdata.py:1055-1057 | after the passes, every row has a change cell for every metric, computed on the rows' values |
| Trend.SortedByNumKey | Logisticsdata.py:1033-1034 | rows in table order are in month-number order |
| Trend.DiffAt | Logisticsdata.py:1038-1044 | `diff().fillna(0)` at one row; DiffAtMeaning, MonthViewDiff and FirstOfStatusGetsZero state its value |
| Trend.MonthlyDiff | Logisticsdata.py:1025-1051 | `calculate_monthly_diff`: MonthlyDiffStep and MonthlyDiffFirst state that it keeps the pinned row, sorts the data rows by month number and adds one change column |
| Trend.MonthlyDiffStep | Logisticsdata.py:1025-1051 | a pass over a table whose data rows are already sorted keeps the pinned row and adds one change column |
| Trend.MonthlyDiffFirst | Logisticsdata.py:1025-1051 | the first pass keeps the pinned row, sorts the data rows by month number and adds the first change column |
| Trend.AddMonthlyDiffs | Logisticsdata.py:1055-1057 | the loop gives the pinned row followed by the sorted data rows carrying all four change columns |
| Trend.TrendTable | Logisticsdata.py:933-1057 | no table iff a bound is missing; no data iff the filters leave nothing; otherwise the pinned row of means with no change cells, then the data rows with their changes |
| Trend.DataRowsFacts | Logisticsdata.py:961-989 | one data row per group, in table order, and at least one when there is a record |
| Trend.DataRowOrigin | Logisticsdata.py:961-989 | every data row is the row of one group |
| Trend.DataRowValues | Logisticsdata.py:961-985 | a data row counts its month's (and status's) records, at least one; its rate lies in [0, 1] and is 1/0 by status in the status view |
| Trend.DataRowsPartition | Logisticsdata.py:962 | the data rows' 订单个数 add up to the filtered records |
| Trend.SummaryOrdersIsMeanCount | Logisticsdata.py:1009-1010 | the pinned 订单个数 is the filtered record count divided by the number of groups: a mean, not the total |
| Trend.SummaryRateBounded | Logisticsdata.py:1011-1012 | the pinned 准时率 lies in [0, 1] |
| Trend.DiffAtMeaning | Logisticsdata.py:1038-1044 | a row's change is 0 when no earlier row is in its series, and otherwise its value minus that of the nearest earlier row of the series |
| Trend.MonthViewDiff | Logisticsdata.py:1038 | in the month view, a row's change is its value minus the previous row's, and 0 on the first row |
| Trend.MonthViewTelescopes | Logisticsdata.py:1038-1044 | in the month view, the changes of the first n rows add up to the last of them minus the first |
| Trend.FirstOfStatusGetsZero | Logisticsdata.py:1041-1044 | in the status view, the first row of each status gets change 0 |
| Histogram.RoundHalfEven | Logisticsdata.py:299 | the rounded day is within 0.5 of the deviation and even on a tie |
| Histogram.RoundWhole | Logisticsdata.py:299 | a deviation that is already a whole number of days keeps that day |
| Histogram.Days | Logisticsdata.py:298-299 | one rounded day per present deviation |
| Histogram.ValueCounts | Logisticsdata.py:306-307 | `value_counts().sort_index()`: ValueCountsFacts, ValueCountsCover and ValueCountsTotal state its buckets |
| Histogram.ValueCountsFacts | Logisticsdata.py:306-307 | each bucket is a day that occurs, with its positive number of occurrences; no day has two buckets; the buckets follow the order |
| Histogram.ValueCountsCover | Logisticsdata.py:306-307 | every day that occurs has a bucket |
| Histogram.EarlyCountsOrder | Logisticsdata.py:302-306 | early buckets are days ≥ 0 with their counts, strictly decreasing |
| Histogram.DelayCountsOrder | Logisticsdata.py:303-307 | delay buckets are days < 0 with their counts, strictly increasing |
| Histogram.ValueCountsTotal | Logisticsdata.py:306-307 | the bucket counts add up to the number of days counted |
| Histogram.HistogramTotal | Logisticsdata.py:298-307 | the two halves together count every present deviation once |
| Histogram.MaxOf | Logisticsdata.py:310-313 | an upper bound of the counts that one of them attains, and 0 for no buckets |
| Histogram.MaxCount | Logisticsdata.py:310-313 | `max_count` bounds every count of both halves and is 0 or is attained |
| Histogram.NatToString | Logisticsdata.py:323 | a non-empty string of decimal digits |
| Histogram.NatToStringValue | Logisticsdata.py:323 | the digits written for a number read back as that number |
| Histogram.DayLabel | Logisticsdata.py:322-336 | every label ends in 天; an early day above 0 is `+` and its digits, an early day of 0 is `0天`, a delay is `-` and the digits of its magnitude |
| Histogram.DrawBuckets | Logisticsdata.py:318-343 | one line per bucket with its label, its count and ⌊count × 20 / max⌋ blocks, and no blocks when the maximum is 0 |
| Histogram.BarBounds | Logisticsdata.py:314-321 | no bar is longer than 20 blocks, and the bar of the largest count is exactly 20 |
| Histogram.DrawHistogram | Logisticsdata.py:296-343 | both halves drawn against the same `max_count` |
| Colnames.FormatColname | Logisticsdata.py:426-437 | a header of at most 8 characters is unchanged; a longer one gets longer |
| Colnames.BreakBefore | Logisticsdata.py:430-433 | `col.replace(c, "<br>" + c)`: BreakLength and BreakRoundTrip state its length and that removing the breaks undoes it |
| Colnames.BreakLength | Logisticsdata.py:430-433 | `replace` adds four characters per occurrence |
| Colnames.BreakRoundTrip | Logisticsdata.py:430-433 | taking the `<br>`s out again gives the header back |
| Colnames.FormatColnameRoundTrip | Logisticsdata.py:426-437 | for a header with no `<`, the formatted header differs from it only by inserted `<br>`s |
| Colnames.FormatColnameBreaks | Logisticsdata.py:428-433 | a long header gains one break per `-`, or failing that one per `（` |
| Colnames.FormatColnameSplit | Logisticsdata.py:434-436 | a long header with neither character is broken after its eighth character |

## Left out

- Loading the sheet (`load_data`, Logisticsdata.py:21-55) is not modelled: it reads Excel over the network and caches it. The records start typed. The rule that non-numeric deviations become 0 (line 53) is therefore not part of the model.
- Missing values are not modelled: there are no NaN statuses, names or FBA numbers. `count` is taken as the group size, and every deviation of a group counts towards its mean.
- There is no Streamlit UI: no widgets, layout, messages, Plotly charts, HTML tables, CSS or Excel and base64 download links. The selected month, radio choices and month bounds are parameters.
- Float rounding and formatting are not modelled: `.round(2)`, `round(…, 4)`, `:.2f`, `:.2%`, `format_value`, `format_value_with_diff`, `highlight_large_cells`. Means and rates are exact reals.
- Histogram.DrawBuckets: the bar length is the exact ⌊count × 20 / max⌋. The source computes `int(count / max_count * 20)` in floating point, which can come out one lower when the product rounds just below a whole number.
- Histogram.RoundHalfEven: it works on exact reals. The source's `Series.round()` works on binary floats, whose ties differ from exact decimal ties.
- Indicators.HighlightChange: it takes the cell already parsed (`None` for missing, `-`, blank or non-numeric). The removal of `%` and the `float()` parse are left out.
- pandas internals are not modelled. `sort_values` is taken as stable, so rows with equal keys keep their order; pandas' default quicksort gives no such promise. `filter_conditions` is aligned by position, although pandas aligns it by index label. This differs from the code whenever the index of `df_red` has gaps, which it does after `dropna` (line 43) because nothing resets it: the mask built at line 1501 is labelled 0..n−1. Going by pandas' alignment rules (this was read, not run), any selector other than 全部 makes the `&` align the two indexes and silently drop the rows labelled n or above, and with every selector on 全部 `df_red[filter_conditions]` (line 1520) raises "Unalignable boolean Series". The model describes the evidently intended positional mask.
- Column-existence checks (`"仓库" in df.columns` and the like) are left out: every record carries every column.
- MonthKeys.GetPrevMonth: `strptime` is modelled with ASCII digits only. `%Y` is written zero-padded to four digits, which CPython does but some C libraries do not for years below 1000.
- MonthKeys.MonthToNumMalformed: `int()` is modelled with ASCII digits, an optional sign, single underscores and the common whitespace characters only. Other Unicode digits and spaces are left out.
- MonthKeys.PyInt: the conversion limit is the default of 4300 digits of the interpreters that have one (CPython 3.11 and later, and the 3.7.14, 3.8.14, 3.9.14 and 3.10.7 security releases). An older interpreter converts any length, and a changed `sys.set_int_max_str_digits` setting is not modelled.
- The pie chart data (`value_counts` of the statuses) and the charts of the month-over-month tables are drawing only.
