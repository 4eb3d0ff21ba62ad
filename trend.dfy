/** The 不同月份红单趋势分析 table (Logisticsdata.py:935-1057): the records
    in a month range, optionally restricted to one status, are grouped by
    month or by month and status; a row of column means is pinned on top;
    then, metric by metric, each data row gets its change from the previous
    row of its series. */
module Trend {
  import opened Wrappers
  import opened Seqs
  import opened Ordering
  import opened Shipments
  import opened Grouping
  import MonthKeys

  /** The label cells of the pinned row. */
  const SummaryMonth: string := "筛选后平均值"
  const SummaryStatus: string := "-"

  /** The four columns of `avg_cols`, in their order. */
  datatype Metric = Orders | Rate | AbsMean | DevMean

  const TrendMetrics: seq<Metric> := [Orders, Rate, AbsMean, DevMean]

  /** 订单个数, 准时率 and the two mean deviations of one row. */
  datatype Metrics = Metrics(orders: real, rate: real, absMean: real, devMean: real)
  {
    function Value(m: Metric): real
    {
      match m
      case Orders => orders
      case Rate => rate
      case AbsMean => absMean
      case DevMean => devMean
    }

    function WithValue(m: Metric, v: real): (r: Metrics)
      ensures r.Value(m) == v
      ensures forall n :: n != m ==> r.Value(n) == Value(n)
    {
      match m
      case Orders => this.(orders := v)
      case Rate => this.(rate := v)
      case AbsMean => this.(absMean := v)
      case DevMean => this.(devMean := v)
    }
  }

  /** One row of the table: 到货年月, 提前/延期 (present in the month+status
      view only), the metric values and the `_环比差值` cells computed so
      far. */
  datatype TrendRow = TrendRow(month: string, status: Option<string>, values: Metrics, diffs: map<Metric, real>)

  // ---------------------------------------------------------------------
  // Data rows

  function TrendFields(detail: bool): seq<Field>
  {
    if detail then [Month, Status] else [Month]
  }

  function RowOf(g: Group, detail: bool): TrendRow
    requires |g.key| == |TrendFields(detail)|
  {
    TrendRow(g.key[0], if detail then Some(g.key[1]) else None,
             Metrics(g.count as real, g.rate, g.absMean, g.devMean), map[])
  }

  function Rows(gs: seq<Group>, detail: bool): (rows: seq<TrendRow>)
    requires forall i :: 0 <= i < |gs| ==> |gs[i].key| == |TrendFields(detail)|
    ensures |rows| == |gs|
    ensures forall i :: 0 <= i < |gs| ==> rows[i] == RowOf(gs[i], detail)
    decreases |gs|
  {
    if gs == [] then []
    else Rows(gs[..|gs| - 1], detail) + [RowOf(gs[|gs| - 1], detail)]
  }

  /** `sort_values("年月数值")` in the month view, `sort_values(["年月数值",
      "提前/延期"])` in the month+status view. */
  function OrderKey(detail: bool, row: TrendRow): SortKey
  {
    SortKey(MonthKeys.MonthToNum(row.month), if detail && row.status.Some? then [row.status.value] else [])
  }

  function TableOrder(detail: bool): TrendRow -> SortKey
  {
    (row: TrendRow) => OrderKey(detail, row)
  }

  /** The sort key of `calculate_monthly_diff`: the month number alone. */
  function NumKey(row: TrendRow): SortKey
  {
    SortKey(MonthKeys.MonthToNum(row.month), [])
  }

  lemma TrendGroupKeys(filtered: seq<Shipment>, detail: bool)
    ensures forall i :: 0 <= i < |GroupBy(filtered, TrendFields(detail))| ==>
      |GroupBy(filtered, TrendFields(detail))[i].key| == |TrendFields(detail)|
  {
    GroupByMembers(filtered, TrendFields(detail));
  }

  /** `trend_data`: one row per month, or per month and status, in table
      order. */
  function DataRows(filtered: seq<Shipment>, detail: bool): seq<TrendRow>
  {
    var gs := GroupBy(filtered, TrendFields(detail));
    TrendGroupKeys(filtered, detail);
    SortBy(Rows(gs, detail), TableOrder(detail))
  }

  // ---------------------------------------------------------------------
  // The pinned row of column means

  function MetricOf(m: Metric): TrendRow -> real
  {
    (row: TrendRow) => row.values.Value(m)
  }

  function ColumnMean(rows: seq<TrendRow>, m: Metric): real
  {
    Mean(rows, MetricOf(m))
  }

  /** The columns of `trend_data`, in their order. */
  datatype Column = MonthColumn | StatusColumn | MetricColumn(metric: Metric)

  function TrendColumns(detail: bool): seq<Column>
  {
    [MonthColumn] + (if detail then [StatusColumn] else [])
      + [MetricColumn(Orders), MetricColumn(Rate), MetricColumn(AbsMean), MetricColumn(DevMean)]
  }

  /** `avg_row`, filled column by column: the two label cells, then the
      mean of each metric over the data rows, or 0 when there are none. */
  method SummaryRow(data: seq<TrendRow>, detail: bool) returns (avg: TrendRow)
    ensures avg.month == SummaryMonth
    ensures avg.status == if detail then Some(SummaryStatus) else None
    ensures avg.diffs == map[]
    ensures forall m :: avg.values.Value(m) == ColumnMean(data, m)
  {
    var columns := TrendColumns(detail);
    avg := TrendRow("", None, Metrics(0.0, 0.0, 0.0, 0.0), map[]);
    var i := 0;
    while i < |columns|
      invariant 0 <= i <= |columns|
      invariant avg.diffs == map[]
      invariant avg.month == if i > 0 then SummaryMonth else ""
      invariant avg.status == if detail && i > 1 then Some(SummaryStatus) else None
      invariant forall j :: 0 <= j < i && columns[j].MetricColumn? ==>
        avg.values.Value(columns[j].metric) == ColumnMean(data, columns[j].metric)
    {
      match columns[i] {
        case MonthColumn =>
          avg := avg.(month := SummaryMonth);
        case StatusColumn =>
          avg := avg.(status := Some(SummaryStatus));
        case MetricColumn(m) =>
          var mean := if |data| > 0 then ColumnMean(data, m) else 0.0;
          avg := avg.(values := avg.values.WithValue(m, mean));
      }
      i := i + 1;
    }
    forall m ensures avg.values.Value(m) == ColumnMean(data, m) {
      var j := |columns| - 4 + match m case Orders => 0 case Rate => 1 case AbsMean => 2 case DevMean => 3;
      assert columns[j] == MetricColumn(m);
    }
  }

  // ---------------------------------------------------------------------
  // Month-over-month changes

  /** Two rows belong to the same series: always in the month view, when
      their statuses agree in the month+status view. */
  predicate SameSeries(detail: bool, a: TrendRow, b: TrendRow)
  {
    !detail || a.status == b.status
  }

  /** The last row before index `j` in the series of row `i`. */
  function PrevFrom(s: seq<TrendRow>, i: nat, j: nat, detail: bool): (r: Option<nat>)
    requires j <= i < |s|
    ensures r.Some? ==> r.value < j && SameSeries(detail, s[r.value], s[i])
    ensures r.Some? ==> forall k :: r.value < k < j ==> !SameSeries(detail, s[k], s[i])
    ensures r.None? ==> forall k :: 0 <= k < j ==> !SameSeries(detail, s[k], s[i])
    decreases j
  {
    if j == 0 then None
    else if SameSeries(detail, s[j - 1], s[i]) then Some(j - 1)
    else PrevFrom(s, i, j - 1, detail)
  }

  /** The row `diff()` compares row `i` with: the nearest earlier row of the
      same series. */
  function PrevInSeries(s: seq<TrendRow>, i: nat, detail: bool): Option<nat>
    requires i < |s|
  {
    PrevFrom(s, i, i, detail)
  }

  /** `diff()` followed by `fillna(0)`. */
  function DiffAt(s: seq<TrendRow>, i: nat, m: Metric, detail: bool): real
    requires i < |s|
  {
    match PrevInSeries(s, i, detail)
    case None => 0.0
    case Some(j) => s[i].values.Value(m) - s[j].values.Value(m)
  }

  function Annotate(s: seq<TrendRow>, m: Metric, detail: bool): seq<TrendRow>
  {
    seq(|s|, i requires 0 <= i < |s| => s[i].(diffs := s[i].diffs[m := DiffAt(s, i, m, detail)]))
  }

  /** The pinned row, which `df.iloc[1:]` leaves out when there is more than
      one row. */
  function Head(t: seq<TrendRow>): seq<TrendRow>
  {
    if |t| > 1 then [t[0]] else []
  }

  function Body(t: seq<TrendRow>): seq<TrendRow>
  {
    if |t| > 1 then t[1..] else t
  }

  /** `calculate_monthly_diff(df, base_col)`. */
  function MonthlyDiff(t: seq<TrendRow>, m: Metric, detail: bool): seq<TrendRow>
  {
    if |t| == 0 then t
    else Head(t) + Annotate(SortBy(Body(t), NumKey), m, detail)
  }

  /** The rows after the change columns of `ms` have been added one by one. */
  function AnnotateAll(s: seq<TrendRow>, ms: seq<Metric>, detail: bool): (r: seq<TrendRow>)
    ensures |r| == |s|
    ensures forall i :: 0 <= i < |s| ==>
      r[i].month == s[i].month && r[i].status == s[i].status && r[i].values == s[i].values
    decreases |ms|
  {
    if ms == [] then s
    else Annotate(AnnotateAll(s, ms[..|ms| - 1], detail), ms[|ms| - 1], detail)
  }

  lemma {:induction false} PrevFromAgrees(s: seq<TrendRow>, s': seq<TrendRow>, i: nat, j: nat, detail: bool)
    requires |s| == |s'| && j <= i < |s|
    requires forall k :: 0 <= k < |s| ==> s[k].status == s'[k].status
    ensures PrevFrom(s, i, j, detail) == PrevFrom(s', i, j, detail)
    decreases j
  {
    if j > 0 {
      PrevFromAgrees(s, s', i, j - 1, detail);
    }
  }

  /** The change of a row depends only on the statuses and values of the
      rows, not on their change columns. */
  lemma DiffAtAgrees(s: seq<TrendRow>, s': seq<TrendRow>, i: nat, m: Metric, detail: bool)
    requires |s| == |s'| && i < |s|
    requires forall k :: 0 <= k < |s| ==> s[k].status == s'[k].status && s[k].values == s'[k].values
    ensures DiffAt(s, i, m, detail) == DiffAt(s', i, m, detail)
  {
    PrevFromAgrees(s, s', i, i, detail);
  }

  /** After the loop every row carries the change of every metric of `ms`,
      computed on the rows as they were. */
  lemma {:induction false} AnnotateAllDiffsAt(s: seq<TrendRow>, ms: seq<Metric>, detail: bool, i: nat, m: Metric)
    requires i < |s|
    ensures m in ms ==>
      m in AnnotateAll(s, ms, detail)[i].diffs && AnnotateAll(s, ms, detail)[i].diffs[m] == DiffAt(s, i, m, detail)
    ensures m !in ms ==> (m in AnnotateAll(s, ms, detail)[i].diffs <==> m in s[i].diffs)
    decreases |ms|
  {
    if ms != [] {
      var ms' := ms[..|ms| - 1];
      var last := ms[|ms| - 1];
      var a := AnnotateAll(s, ms', detail);
      AnnotateAllDiffsAt(s, ms', detail, i, m);
      assert AnnotateAll(s, ms, detail)[i] == a[i].(diffs := a[i].diffs[last := DiffAt(a, i, last, detail)]);
      DiffAtAgrees(a, s, i, last, detail);
      assert m in ms <==> m in ms' || m == last by {
        assert ms == ms' + [last];
      }
    }
  }

  lemma AnnotateAllDiffs(s: seq<TrendRow>, ms: seq<Metric>, detail: bool)
    ensures forall i, m :: 0 <= i < |s| && m in ms ==>
      m in AnnotateAll(s, ms, detail)[i].diffs
      && AnnotateAll(s, ms, detail)[i].diffs[m] == DiffAt(s, i, m, detail)
  {
    forall i, m | 0 <= i < |s| && m in ms
      ensures m in AnnotateAll(s, ms, detail)[i].diffs
      ensures AnnotateAll(s, ms, detail)[i].diffs[m] == DiffAt(s, i, m, detail)
    {
      AnnotateAllDiffsAt(s, ms, detail, i, m);
    }
  }

  lemma SortedByNumKey(s: seq<TrendRow>, detail: bool)
    requires SortedBy(s, TableOrder(detail))
    ensures SortedBy(s, NumKey)
  {
    forall i, j | 0 <= i < j < |s| ensures KeyLeq(NumKey(s[i]), NumKey(s[j])) {
      assert KeyLeq(OrderKey(detail, s[i]), OrderKey(detail, s[j]));
    }
  }

  lemma SameMonthsKeepSorted(s: seq<TrendRow>, r: seq<TrendRow>)
    requires |r| == |s| && SortedBy(s, NumKey)
    requires forall i :: 0 <= i < |s| ==> r[i].month == s[i].month
    ensures SortedBy(r, NumKey)
  {
    forall i, j | 0 <= i < j < |r| ensures KeyLeq(NumKey(r[i]), NumKey(r[j])) {
      assert NumKey(r[i]) == NumKey(s[i]) && NumKey(r[j]) == NumKey(s[j]);
    }
  }

  /** One more pass of `calculate_monthly_diff` over a table whose data
      rows are already sorted and annotated adds one change column. */
  lemma MonthlyDiffStep(t: seq<TrendRow>, ms: seq<Metric>, m: Metric, detail: bool)
    ensures var sorted := SortBy(Body(t), NumKey);
      MonthlyDiff(Head(t) + AnnotateAll(sorted, ms, detail), m, detail)
      == Head(t) + AnnotateAll(sorted, ms + [m], detail)
  {
    var sorted := SortBy(Body(t), NumKey);
    var a := AnnotateAll(sorted, ms, detail);
    var r := Head(t) + a;
    assert (ms + [m])[..|ms + [m]| - 1] == ms;
    assert |Body(t)| == (if |t| > 1 then |t| - 1 else |t|);
    if |t| > 1 {
      assert r[0] == t[0] && r[1..] == a;
    }
    assert Head(r) == Head(t) && Body(r) == a;
    SameMonthsKeepSorted(sorted, a);
    SortSortedIsIdentity(a, NumKey);
  }

  lemma MonthlyDiffFirst(t: seq<TrendRow>, m: Metric, detail: bool)
    ensures MonthlyDiff(t, m, detail) == Head(t) + AnnotateAll(SortBy(Body(t), NumKey), [m], detail)
  {
    assert [m][..0] == [];
    if |t| == 0 {
      assert Body(t) == [] && Head(t) == [];
    }
  }

  /** The first pass sorts the data rows and adds the first change column;
      each later pass adds one more. */
  lemma MonthlyDiffPass(t: seq<TrendRow>, r: seq<TrendRow>, ms: seq<Metric>, i: nat, detail: bool)
    requires i < |ms|
    requires i == 0 ==> r == t
    requires i > 0 ==> r == Head(t) + AnnotateAll(SortBy(Body(t), NumKey), ms[..i], detail)
    ensures MonthlyDiff(r, ms[i], detail) == Head(t) + AnnotateAll(SortBy(Body(t), NumKey), ms[..i + 1], detail)
  {
    if i == 0 {
      assert ms[..1] == [ms[0]];
      MonthlyDiffFirst(t, ms[0], detail);
    } else {
      TakeNext(ms, i);
      MonthlyDiffStep(t, ms[..i], ms[i], detail);
    }
  }

  /** `for col in avg_cols: df_with_avg = calculate_monthly_diff(df_with_avg,
      col)`. */
  method AddMonthlyDiffs(t: seq<TrendRow>, detail: bool) returns (r: seq<TrendRow>)
    ensures r == Head(t) + AnnotateAll(SortBy(Body(t), NumKey), TrendMetrics, detail)
  {
    r := t;
    var i := 0;
    while i < |TrendMetrics|
      invariant 0 <= i <= |TrendMetrics|
      invariant i == 0 ==> r == t
      invariant i > 0 ==> r == Head(t) + AnnotateAll(SortBy(Body(t), NumKey), TrendMetrics[..i], detail)
    {
      MonthlyDiffPass(t, r, TrendMetrics, i, detail);
      r := MonthlyDiff(r, TrendMetrics[i], detail);
      i := i + 1;
    }
    assert TrendMetrics[..|TrendMetrics|] == TrendMetrics;
  }

  // ---------------------------------------------------------------------
  // The whole table

  /** No range chosen, nothing left after filtering, or the table. */
  datatype TrendOutcome = NoMonthRange | NoData | Table(rows: seq<TrendRow>)

  method TrendTable(rs: seq<Shipment>, start: string, end: string, f: StatusFilter, detail: bool)
    returns (out: TrendOutcome)
    ensures out == NoMonthRange <==> start == "" || end == ""
    ensures out == NoData <==> start != "" && end != "" && TrendFilter(rs, start, end, f) == []
    ensures out.Table? ==>
      var data := DataRows(TrendFilter(rs, start, end, f), detail);
      && |out.rows| == |data| + 1
      && out.rows[0].month == SummaryMonth
      && out.rows[0].status == (if detail then Some(SummaryStatus) else None)
      && out.rows[0].diffs == map[]
      && (forall m :: out.rows[0].values.Value(m) == ColumnMean(data, m))
      && out.rows[1..] == AnnotateAll(data, TrendMetrics, detail)
  {
    if start == "" || end == "" {
      return NoMonthRange;
    }
    var filtered := TrendFilter(rs, start, end, f);
    if |filtered| == 0 {
      return NoData;
    }
    var data := DataRows(filtered, detail);
    var avg := SummaryRow(data, detail);
    var table := AddMonthlyDiffs([avg] + data, detail);
    DataRowsFacts(filtered, detail);
    SortedByNumKey(data, detail);
    SortSortedIsIdentity(data, NumKey);
    assert ([avg] + data)[1..] == data;
    return Table(table);
  }

  // ---------------------------------------------------------------------
  // Properties of the data rows

  /** The data rows are in table order, correspond one to one to the
      groups, and there is at least one when there is a record. */
  lemma DataRowsFacts(filtered: seq<Shipment>, detail: bool)
    ensures |DataRows(filtered, detail)| == |GroupBy(filtered, TrendFields(detail))|
    ensures SortedBy(DataRows(filtered, detail), TableOrder(detail))
    ensures |filtered| > 0 ==> |DataRows(filtered, detail)| > 0
  {
    if |filtered| > 0 {
      GroupByCovers(filtered, TrendFields(detail));
    }
  }

  /** Every data row is the row of one group of the grouped records. */
  lemma DataRowOrigin(filtered: seq<Shipment>, detail: bool, row: TrendRow) returns (g: Group)
    requires row in DataRows(filtered, detail)
    ensures g in GroupBy(filtered, TrendFields(detail))
    ensures |g.key| == |TrendFields(detail)| && row == RowOf(g, detail)
  {
    var gs := GroupBy(filtered, TrendFields(detail));
    TrendGroupKeys(filtered, detail);
    var rows := Rows(gs, detail);
    assert row in multiset(rows);
    var i :| 0 <= i < |rows| && rows[i] == row;
    g := gs[i];
  }

  /** The key of a group, read back from its row. */
  lemma RowKey(g: Group, detail: bool)
    requires |g.key| == |TrendFields(detail)|
    ensures var row := RowOf(g, detail);
      g.key == [row.month] + (if detail then [row.status.value] else [])
  {
  }

  /** Every data row counts the records of its month (and status), at
      least one; its rate lies in [0, 1], and in the month+status view it
      is 1 for 提前/准时 rows and 0 for every other status. */
  lemma DataRowValues(filtered: seq<Shipment>, detail: bool, row: TrendRow)
    requires row in DataRows(filtered, detail)
    ensures detail == row.status.Some?
    ensures var key := [row.month] + (if detail then [row.status.value] else []);
      row.values.orders == |Members(filtered, TrendFields(detail), key)| as real
    ensures row.values.orders >= 1.0
    ensures 0.0 <= row.values.rate <= 1.0
    ensures detail ==> row.values.rate == if row.status == Some(OnTimeStatus) then 1.0 else 0.0
  {
    var g := DataRowOrigin(filtered, detail, row);
    GroupRowValues(filtered, detail, g);
    RowKey(g, detail);
  }

  lemma GroupRowValues(filtered: seq<Shipment>, detail: bool, g: Group)
    requires g in GroupBy(filtered, TrendFields(detail)) && |g.key| == |TrendFields(detail)|
    ensures var row := RowOf(g, detail);
      && detail == row.status.Some?
      && row.values.orders == |Members(filtered, TrendFields(detail), g.key)| as real
      && row.values.orders >= 1.0
      && 0.0 <= row.values.rate <= 1.0
      && (detail ==> row.values.rate == if row.status == Some(OnTimeStatus) then 1.0 else 0.0)
  {
    GroupByMember(filtered, TrendFields(detail), g);
    if detail {
      StatusGroupRate(filtered, TrendFields(detail), 1, g);
    }
  }

  lemma {:induction false} RowsOrders(gs: seq<Group>, detail: bool)
    requires forall i :: 0 <= i < |gs| ==> |gs[i].key| == |TrendFields(detail)|
    ensures Sum(Rows(gs, detail), MetricOf(Orders)) == Sum(gs, CountOf)
    decreases |gs|
  {
    if gs != [] {
      var gs' := gs[..|gs| - 1];
      RowsOrders(gs', detail);
      assert Rows(gs, detail)[..|gs| - 1] == Rows(gs', detail);
    }
  }

  /** The order counts of the data rows add up to the number of filtered
      records. */
  lemma DataRowsPartition(filtered: seq<Shipment>, detail: bool)
    ensures Sum(DataRows(filtered, detail), MetricOf(Orders)) == |filtered| as real
  {
    var gs := GroupBy(filtered, TrendFields(detail));
    TrendGroupKeys(filtered, detail);
    SumPermutation(Rows(gs, detail), DataRows(filtered, detail), MetricOf(Orders));
    RowsOrders(gs, detail);
    GroupCountsTotal(filtered, TrendFields(detail));
  }

  /** The pinned 订单个数 is the number of filtered records divided by the
      number of groups: the mean group size, not the total. */
  lemma SummaryOrdersIsMeanCount(filtered: seq<Shipment>, detail: bool)
    requires |filtered| > 0
    ensures |GroupBy(filtered, TrendFields(detail))| > 0
    ensures ColumnMean(DataRows(filtered, detail), Orders)
         == (|filtered| as real) / (|GroupBy(filtered, TrendFields(detail))| as real)
  {
    DataRowsFacts(filtered, detail);
    DataRowsPartition(filtered, detail);
  }

  /** The pinned 准时率 lies in [0, 1]. */
  lemma SummaryRateBounded(filtered: seq<Shipment>, detail: bool)
    ensures 0.0 <= ColumnMean(DataRows(filtered, detail), Rate) <= 1.0
  {
    var data := DataRows(filtered, detail);
    forall row | row in data ensures 0.0 <= MetricOf(Rate)(row) <= 1.0 {
      DataRowValues(filtered, detail, row);
    }
    MeanBounded(data, MetricOf(Rate), 0.0, 1.0);
  }

  lemma MeanBounded(s: seq<TrendRow>, f: TrendRow -> real, lo: real, hi: real)
    requires lo <= 0.0 <= hi
    requires forall x :: x in s ==> lo <= f(x) <= hi
    ensures lo <= Mean(s, f) <= hi
  {
    if |s| > 0 {
      SumBounded(s, f, lo, hi);
      var n := |s| as real;
      assert lo * n <= Sum(s, f) <= hi * n;
      QuotientBounds(Sum(s, f), n, lo, hi);
    }
  }

  lemma {:induction false} SumBounded(s: seq<TrendRow>, f: TrendRow -> real, lo: real, hi: real)
    requires forall x :: x in s ==> lo <= f(x) <= hi
    ensures lo * (|s| as real) <= Sum(s, f) <= hi * (|s| as real)
    decreases |s|
  {
    if s != [] {
      SumBounded(s[..|s| - 1], f, lo, hi);
      assert s[|s| - 1] in s;
    }
  }

  lemma QuotientBounds(x: real, n: real, lo: real, hi: real)
    requires n > 0.0 && lo * n <= x <= hi * n
    ensures lo <= x / n <= hi
  {
  }

  // ---------------------------------------------------------------------
  // What a change cell means

  /** A row's change is 0 when no earlier row belongs to its series, and
      otherwise its value minus that of the nearest earlier row of the
      series. */
  lemma DiffAtMeaning(s: seq<TrendRow>, i: nat, m: Metric, detail: bool)
    requires i < |s|
    ensures (forall k :: 0 <= k < i ==> !SameSeries(detail, s[k], s[i])) ==> DiffAt(s, i, m, detail) == 0.0
    ensures forall j :: (0 <= j < i && SameSeries(detail, s[j], s[i])
                      && (forall k :: j < k < i ==> !SameSeries(detail, s[k], s[i]))) ==>
      DiffAt(s, i, m, detail) == s[i].values.Value(m) - s[j].values.Value(m)
  {
    var p := PrevInSeries(s, i, detail);
    if p.Some? {
      forall j | 0 <= j < i && SameSeries(detail, s[j], s[i]) && (forall k :: j < k < i ==> !SameSeries(detail, s[k], s[i]))
        ensures j == p.value
      {
      }
    }
  }

  /** In the month view the change of a row is its value minus the value of
      the row above it, and 0 for the first row. */
  lemma MonthViewDiff(s: seq<TrendRow>, i: nat, m: Metric)
    requires i < |s|
    ensures DiffAt(s, i, m, false) == if i == 0 then 0.0 else s[i].values.Value(m) - s[i - 1].values.Value(m)
  {
  }

  /** The changes of the first `n` rows of a month-view table add up to the
      change from the first row to the `n`-th. */
  function ChangeTotal(s: seq<TrendRow>, m: Metric, n: nat): real
    requires n <= |s|
  {
    if n == 0 then 0.0 else ChangeTotal(s, m, n - 1) + DiffAt(s, n - 1, m, false)
  }

  lemma {:induction false} MonthViewTelescopes(s: seq<TrendRow>, m: Metric, n: nat)
    requires 0 < n <= |s|
    ensures ChangeTotal(s, m, n) == s[n - 1].values.Value(m) - s[0].values.Value(m)
    decreases n
  {
    MonthViewDiff(s, n - 1, m);
    if n > 1 {
      MonthViewTelescopes(s, m, n - 1);
    }
  }

  /** In the month+status view a row that is the first of its status gets
      0, whatever rows of other statuses come before it. */
  lemma FirstOfStatusGetsZero(s: seq<TrendRow>, i: nat, m: Metric)
    requires i < |s|
    requires forall k :: 0 <= k < i ==> s[k].status != s[i].status
    ensures DiffAt(s, i, m, true) == 0.0
  {
    DiffAtMeaning(s, i, m, true);
  }
}
