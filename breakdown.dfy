/** The 货代准时情况分析 and 仓库准时情况分析 tables of the selected month
    (Logisticsdata.py:604-643, 755-794) and the 月度货代&仓库准时情况 tables
    over all months (Logisticsdata.py:1420-1440). The forwarder and the
    warehouse sections are the same code over a different column, so both
    are one function of the grouping field. */
module Breakdown {
  import opened Wrappers
  import opened Seqs
  import opened Shipments
  import opened Grouping

  // ---------------------------------------------------------------------
  // Detail and summary tables of the selected month

  /** `_detail`, grouped by the dimension and 提前/延期, and `_summary`,
      grouped by the dimension alone. */
  datatype Breakdown = Breakdown(detail: seq<Group>, summary: seq<Group>)

  /** Both tables over the month's records narrowed by the order-scope
      radio; the section shows nothing when the month has no records. */
  function BreakdownTables(current: seq<Shipment>, dim: Field, f: StatusFilter): (b: Option<Breakdown>)
    ensures b.None? <==> |current| == 0
  {
    if |current| == 0 then None
    else
      var filtered := ApplyStatusFilter(current, f);
      Some(Breakdown(GroupBy(filtered, [dim, Status]), GroupBy(filtered, [dim])))
  }

  /** The two tables agree: a summary group's 总订单个数 is the sum of the
      订单个数 of the detail groups with the same dimension value. */
  lemma BreakdownConsistent(current: seq<Shipment>, dim: Field, f: StatusFilter)
    requires |current| > 0
    ensures var b := BreakdownTables(current, dim, f).value;
      forall s :: s in b.summary ==>
        |s.key| == 1
        && Sum(Filter(b.detail, g => GroupSatisfies(k => LeadsWith(s.key[0], k), g)), CountOf) == s.count as real
  {
    var filtered := ApplyStatusFilter(current, f);
    forall s | s in GroupBy(filtered, [dim])
      ensures |s.key| == 1
      ensures Sum(Filter(GroupBy(filtered, [dim, Status]), g => GroupSatisfies(k => LeadsWith(s.key[0], k), g)), CountOf)
           == s.count as real
    {
      DetailSumsToSummaryCount(filtered, dim, s);
    }
  }

  /** Both tables count every narrowed record once. */
  lemma BreakdownTotals(current: seq<Shipment>, dim: Field, f: StatusFilter)
    requires |current| > 0
    ensures var b := BreakdownTables(current, dim, f).value;
      && Sum(b.detail, CountOf) == |ApplyStatusFilter(current, f)| as real
      && Sum(b.summary, CountOf) == |ApplyStatusFilter(current, f)| as real
  {
    var filtered := ApplyStatusFilter(current, f);
    GroupCountsTotal(filtered, [dim, Status]);
    GroupCountsTotal(filtered, [dim]);
  }

  /** A detail group's 准时率 is 1 for the 提前/准时 rows and 0 for every
      other status; a summary group's 整体准时率 is the share of its on-time
      records and lies in [0, 1]. */
  lemma BreakdownRates(current: seq<Shipment>, dim: Field, f: StatusFilter)
    requires |current| > 0
    ensures var b := BreakdownTables(current, dim, f).value;
      forall g :: g in b.detail ==>
        |g.key| == 2 && g.rate == if g.key[1] == OnTimeStatus then 1.0 else 0.0
    ensures var b := BreakdownTables(current, dim, f).value;
      forall s :: s in b.summary ==>
        && 0.0 <= s.rate <= 1.0
        && s.count > 0
        && s.rate == (CountOnTime(Members(ApplyStatusFilter(current, f), [dim], s.key)) as real) / (s.count as real)
  {
    var filtered := ApplyStatusFilter(current, f);
    StatusGroupRates(filtered, [dim, Status], 1);
    GroupRates(filtered, [dim]);
  }

  /** Under 仅提前/准时 every overall rate is 1, under 仅延期 every overall
      rate is 0. */
  lemma BreakdownUnderStatusFilter(current: seq<Shipment>, dim: Field, f: StatusFilter)
    requires |current| > 0
    ensures var b := BreakdownTables(current, dim, f).value;
      f == OnlyOnTime ==> forall s :: s in b.summary ==> s.rate == 1.0
    ensures var b := BreakdownTables(current, dim, f).value;
      f == OnlyDelayed ==> forall s :: s in b.summary ==> s.rate == 0.0
  {
    var filtered := ApplyStatusFilter(current, f);
    FilterMembers(current, r => PassesStatus(f, r));
    forall s | s in GroupBy(filtered, [dim])
      ensures f == OnlyOnTime ==> s.rate == 1.0
      ensures f == OnlyDelayed ==> s.rate == 0.0
    {
      GroupByMember(filtered, [dim], s);
      var ms := Members(filtered, [dim], s.key);
      FilterMembers(filtered, r => HasKey([dim], s.key, r));
      assert forall x :: x in ms ==> x in filtered;
      if f == OnlyOnTime {
        assert forall x :: x in ms ==> x.status == OnTimeStatus;
        RateAllOnTime(ms);
      } else if f == OnlyDelayed {
        assert forall x :: x in ms ==> x.status != OnTimeStatus;
        RateNoneOnTime(ms);
      }
    }
  }

  // ---------------------------------------------------------------------
  // Monthly rates per forwarder or warehouse

  /** One row of `freight_month` / `warehouse_month`: the (到货年月, name)
      key, 准时率(%) and 平均时效差值. */
  datatype MonthlyRow = MonthlyRow(key: seq<string>, ratePercent: real, meanDeviation: real)

  function MonthlyRowOf(g: Group): MonthlyRow
  {
    MonthlyRow(g.key, g.rate * 100.0, g.devMean)
  }

  /** All records grouped by month and the dimension; nothing is shown when
      there are no records. */
  function MonthlyRates(red: seq<Shipment>, dim: Field): (rows: Option<seq<MonthlyRow>>)
    ensures rows.None? <==> |red| == 0
    ensures rows.Some? ==> |rows.value| == |GroupBy(red, [Month, dim])|
  {
    if |red| == 0 then None
    else
      var gs := GroupBy(red, [Month, dim]);
      Some(seq(|gs|, i requires 0 <= i < |gs| => MonthlyRowOf(gs[i])))
  }

  /** Each row describes the records of its month and name: the percentage
      of them that were on time, in [0, 100], and their mean signed
      deviation. */
  lemma MonthlyRowMeaning(red: seq<Shipment>, dim: Field, i: nat)
    requires |red| > 0 && i < |MonthlyRates(red, dim).value|
    ensures var row := MonthlyRates(red, dim).value[i];
      var ms := Members(red, [Month, dim], row.key);
      && |row.key| == 2
      && |ms| > 0
      && 0.0 <= row.ratePercent <= 100.0
      && row.ratePercent == 100.0 * ((CountOnTime(ms) as real) / (|ms| as real))
      && row.meanDeviation == MeanDeviation(ms)
  {
    var gs := GroupBy(red, [Month, dim]);
    assert MonthlyRates(red, dim).value[i] == MonthlyRowOf(gs[i]);
    GroupByMember(red, [Month, dim], gs[i]);
  }

  /** Every (month, name) pair of the records has a row: the one at `i`. */
  lemma MonthlyRatesCover(red: seq<Shipment>, dim: Field, r: Shipment) returns (i: nat)
    requires r in red
    ensures i < |MonthlyRates(red, dim).value|
    ensures MonthlyRates(red, dim).value[i].key == [r.month, FieldOf(dim, r)]
  {
    i := GroupOfRecord(red, [Month, dim], r);
    KeyOfPair(dim, r);
  }

  lemma KeyOfPair(dim: Field, r: Shipment)
    ensures KeyOf([Month, dim], r) == [r.month, FieldOf(dim, r)]
  {
  }

  /** No (month, name) pair has two rows, and the rows come in ascending
      (month, name) order. */
  lemma MonthlyRatesDistinct(red: seq<Shipment>, dim: Field)
    requires |red| > 0
    ensures var rows := MonthlyRates(red, dim).value;
      forall i, j :: 0 <= i < j < |rows| ==> rows[i].key != rows[j].key
    ensures var rows := MonthlyRates(red, dim).value;
      forall i, j :: 0 <= i < j < |rows| ==> Ordering.PartsLeq(rows[i].key, rows[j].key)
  {
    var gs := GroupBy(red, [Month, dim]);
    var rows := MonthlyRates(red, dim).value;
    GroupByDistinctSorted(red, [Month, dim]);
    forall i, j | 0 <= i < j < |rows|
      ensures rows[i].key != rows[j].key
      ensures Ordering.PartsLeq(rows[i].key, rows[j].key)
    {
      assert rows[i] == MonthlyRowOf(gs[i]) && rows[j] == MonthlyRowOf(gs[j]);
      assert Ordering.KeyLeq(GroupKey(gs[i]), GroupKey(gs[j]));
    }
  }
}
