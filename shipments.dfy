/** The shipment records of the 上架完成-红单 sheet, already typed, and the
    row filters the dashboard applies to them: the trend section's month
    range and status filters (Logisticsdata.py:940-952) and the data-source
    filter (Logisticsdata.py:1501-1520). */
module Shipments {
  import opened Seqs
  import MonthKeys

  /** The 提前/延期 values the dashboard recognises; any other value counts as
      not on time. */
  const OnTimeStatus: string := "提前/准时"
  const DelayedStatus: string := "延期"

  /** The "no constraint" choice of the data-source selectors. */
  const AllChoice: string := "全部"

  /** One row: 到货年月, 提前/延期, 货代, 仓库, the absolute expected-vs-actual
      lead-time difference and the signed one. */
  datatype Shipment = Shipment(
    month: string,
    status: string,
    forwarder: string,
    warehouse: string,
    absDeviation: real,
    deviation: real)

  predicate IsOnTime(r: Shipment)
  {
    r.status == OnTimeStatus
  }

  predicate IsDelayed(r: Shipment)
  {
    r.status == DelayedStatus
  }

  /** `len(df[df["提前/延期"] == "提前/准时"])`. */
  function CountOnTime(rs: seq<Shipment>): nat
  {
    |Filter(rs, IsOnTime)|
  }

  /** `len(df[df["提前/延期"] == "延期"])`. */
  function CountDelayed(rs: seq<Shipment>): nat
  {
    |Filter(rs, IsDelayed)|
  }

  /** The on-time rate lambda of every `agg`: on-time rows over all rows, 0
      for no rows. */
  function OnTimeRate(rs: seq<Shipment>): (rate: real)
    ensures 0.0 <= rate <= 1.0
  {
    if |rs| == 0 then 0.0 else (CountOnTime(rs) as real) / (|rs| as real)
  }

  /** The rate times the number of rows is the number of on-time rows. */
  lemma OnTimeRateShare(rs: seq<Shipment>)
    ensures OnTimeRate(rs) * (|rs| as real) == CountOnTime(rs) as real
  {
    if |rs| > 0 {
      var n := |rs| as real;
      var c := CountOnTime(rs) as real;
      assert (c / n) * n == c;
    }
  }

  /** Rows that all have status 提前/准时 have rate 1. */
  lemma RateAllOnTime(rs: seq<Shipment>)
    requires |rs| > 0
    requires forall x :: x in rs ==> x.status == OnTimeStatus
    ensures OnTimeRate(rs) == 1.0
  {
    FilterAll(rs, IsOnTime);
    assert CountOnTime(rs) == |rs|;
    SelfQuotient(|rs| as real);
  }

  lemma SelfQuotient(n: real)
    requires n > 0.0
    ensures n / n == 1.0
  {
  }

  /** Rows none of which has status 提前/准时 have rate 0. */
  lemma RateNoneOnTime(rs: seq<Shipment>)
    requires forall x :: x in rs ==> x.status != OnTimeStatus
    ensures OnTimeRate(rs) == 0.0
  {
    FilterNone(rs, IsOnTime);
  }

  function MeanAbsDeviation(rs: seq<Shipment>): real
  {
    Mean(rs, (r: Shipment) => r.absDeviation)
  }

  function MeanDeviation(rs: seq<Shipment>): real
  {
    Mean(rs, (r: Shipment) => r.deviation)
  }

  // ---------------------------------------------------------------------
  // Trend filters

  /** The order-status radio: 全部订单, 仅提前/准时, 仅延期. */
  datatype StatusFilter = AllOrders | OnlyOnTime | OnlyDelayed

  predicate PassesStatus(f: StatusFilter, r: Shipment)
  {
    match f
    case AllOrders => true
    case OnlyOnTime => r.status == OnTimeStatus
    case OnlyDelayed => r.status == DelayedStatus
  }

  function ApplyStatusFilter(rs: seq<Shipment>, f: StatusFilter): seq<Shipment>
  {
    Filter(rs, r => PassesStatus(f, r))
  }

  /** Both bounds inclusive, compared as `month_to_num` values. */
  predicate InMonthRange(r: Shipment, start: string, end: string)
  {
    MonthKeys.MonthToNum(start) <= MonthKeys.MonthToNum(r.month) <= MonthKeys.MonthToNum(end)
  }

  function MonthRangeFilter(rs: seq<Shipment>, start: string, end: string): seq<Shipment>
  {
    Filter(rs, r => InMonthRange(r, start, end))
  }

  /** The trend section's row selection: month range first, then status. */
  function TrendFilter(rs: seq<Shipment>, start: string, end: string, f: StatusFilter): seq<Shipment>
  {
    ApplyStatusFilter(MonthRangeFilter(rs, start, end), f)
  }

  predicate KeptByTrend(r: Shipment, start: string, end: string, f: StatusFilter)
  {
    InMonthRange(r, start, end) && PassesStatus(f, r)
  }

  /** The trend filter keeps a record, as often as it occurs, exactly when
      its month number lies between the bounds' and its status passes. */
  lemma TrendFilterKeeps(rs: seq<Shipment>, start: string, end: string, f: StatusFilter)
    ensures forall x :: multiset(TrendFilter(rs, start, end, f))[x]
                     == if KeptByTrend(x, start, end, f) then multiset(rs)[x] else 0
  {
    var inRange := (r: Shipment) => InMonthRange(r, start, end);
    var passes := (r: Shipment) => PassesStatus(f, r);
    FilterMultiset(rs, inRange);
    FilterMultiset(MonthRangeFilter(rs, start, end), passes);
  }

  /** A start month after the end month selects nothing. */
  lemma TrendFilterEmptyRange(rs: seq<Shipment>, start: string, end: string, f: StatusFilter)
    requires MonthKeys.MonthToNum(start) > MonthKeys.MonthToNum(end)
    ensures TrendFilter(rs, start, end, f) == []
  {
    FilterNone(rs, r => InMonthRange(r, start, end));
  }

  // ---------------------------------------------------------------------
  // Data-source filter

  /** The four single-choice selectors of the data-source section. */
  datatype SourceSelection = SourceSelection(month: string, warehouse: string, forwarder: string, status: string)

  predicate MonthChoiceOk(sel: SourceSelection, r: Shipment)
  {
    sel.month == AllChoice || r.month == sel.month
  }

  predicate WarehouseChoiceOk(sel: SourceSelection, r: Shipment)
  {
    sel.warehouse == AllChoice || r.warehouse == sel.warehouse
  }

  predicate ForwarderChoiceOk(sel: SourceSelection, r: Shipment)
  {
    sel.forwarder == AllChoice || r.forwarder == sel.forwarder
  }

  predicate StatusChoiceOk(sel: SourceSelection, r: Shipment)
  {
    sel.status == AllChoice || r.status == sel.status
  }

  /** Each selector other than 全部 constrains its column to equal it. */
  predicate SourceMatches(sel: SourceSelection, r: Shipment)
  {
    MonthChoiceOk(sel, r) && WarehouseChoiceOk(sel, r) && ForwarderChoiceOk(sel, r) && StatusChoiceOk(sel, r)
  }

  /** `filter_conditions`: all true, then conjoined with one condition per
      selector that is not 全部. */
  method SourceMask(rs: seq<Shipment>, sel: SourceSelection) returns (mask: seq<bool>)
    ensures |mask| == |rs|
    ensures forall i :: 0 <= i < |rs| ==> (mask[i] <==> SourceMatches(sel, rs[i]))
  {
    mask := seq(|rs|, i => true);
    if sel.month != AllChoice {
      mask := seq(|rs|, i requires 0 <= i < |rs| => mask[i] && rs[i].month == sel.month);
    }
    assert forall i :: 0 <= i < |rs| ==> (mask[i] <==> MonthChoiceOk(sel, rs[i]));
    if sel.warehouse != AllChoice {
      mask := seq(|rs|, i requires 0 <= i < |rs| => mask[i] && rs[i].warehouse == sel.warehouse);
    }
    assert forall i :: 0 <= i < |rs| ==> (mask[i] <==> MonthChoiceOk(sel, rs[i]) && WarehouseChoiceOk(sel, rs[i]));
    if sel.forwarder != AllChoice {
      mask := seq(|rs|, i requires 0 <= i < |rs| => mask[i] && rs[i].forwarder == sel.forwarder);
    }
    assert forall i :: 0 <= i < |rs| ==>
      (mask[i] <==> MonthChoiceOk(sel, rs[i]) && WarehouseChoiceOk(sel, rs[i]) && ForwarderChoiceOk(sel, rs[i]));
    if sel.status != AllChoice {
      mask := seq(|rs|, i requires 0 <= i < |rs| => mask[i] && rs[i].status == sel.status);
    }
  }

  /** `df[filter_conditions]`: the rows the mask marks, in order. */
  method DataSourceFilter(rs: seq<Shipment>, sel: SourceSelection) returns (kept: seq<Shipment>)
    ensures kept == Filter(rs, r => SourceMatches(sel, r))
  {
    var mask := SourceMask(rs, sel);
    kept := [];
    var i := 0;
    while i < |rs|
      invariant 0 <= i <= |rs|
      invariant kept == Filter(rs[..i], r => SourceMatches(sel, r))
    {
      FilterAppend(rs[..i], rs[i], r => SourceMatches(sel, r));
      assert rs[..i + 1] == rs[..i] + [rs[i]];
      if mask[i] {
        kept := kept + [rs[i]];
      }
      i := i + 1;
    }
    assert rs[..|rs|] == rs;
  }

  /** With every selector on 全部 the data source shows all records. */
  lemma SourceAllKeepsEverything(rs: seq<Shipment>)
    ensures Filter(rs, r => SourceMatches(SourceSelection(AllChoice, AllChoice, AllChoice, AllChoice), r)) == rs
  {
    FilterAll(rs, r => SourceMatches(SourceSelection(AllChoice, AllChoice, AllChoice, AllChoice), r));
  }
}
