/** The 当月红单分析 section: the five indicator cards comparing the selected
    month with the calendar month before it, and the closing verdict
    (Logisticsdata.py:128-252), the percent-change helper
    (Logisticsdata.py:73-80) and the colouring of month-over-month changes
    (Logisticsdata.py:97-115). */
module Indicators {
  import opened Wrappers
  import opened Seqs
  import opened Shipments
  import MonthKeys

  // ---------------------------------------------------------------------
  // calculate_percent_change

  /** The change from `prev` to `current` as a percentage of `prev`; a zero
      base gives 0 when nothing changed and 100 otherwise. */
  function PercentChange(current: real, prev: real): (r: real)
    ensures prev == 0.0 ==> r == if current == 0.0 then 0.0 else 100.0
    ensures prev != 0.0 ==> r * prev == (current - prev) * 100.0
  {
    if prev == 0.0 then (if current == 0.0 then 0.0 else 100.0)
    else
      var q := (current - prev) / prev;
      assert q * prev == current - prev;
      q * 100.0
  }

  /** Applying the percentage to a non-zero base recovers the current
      value. */
  lemma PercentChangeRecovers(current: real, prev: real)
    requires prev != 0.0
    ensures prev + prev * PercentChange(current, prev) / 100.0 == current
  {
    var r := PercentChange(current, prev);
    assert prev * r == (current - prev) * 100.0;
  }

  /** Over a positive base the percentage is positive exactly when the value
      rose, and negative exactly when it fell. */
  lemma PercentChangeSign(current: real, prev: real)
    requires prev > 0.0
    ensures PercentChange(current, prev) > 0.0 <==> current > prev
    ensures PercentChange(current, prev) < 0.0 <==> current < prev
  {
    var r := PercentChange(current, prev);
    assert r * prev == (current - prev) * 100.0;
    if r > 0.0 {
      assert r * prev > 0.0;
    } else if r < 0.0 {
      assert r * prev < 0.0;
    }
  }

  // ---------------------------------------------------------------------
  // Card deltas

  /** The three ways a month-over-month delta is shown. */
  datatype Movement = Rise | Fall | Level

  function MovementOf(delta: real): (m: Movement)
    ensures m == Rise <==> delta > 0.0
    ensures m == Fall <==> delta < 0.0
    ensures m == Level <==> delta == 0.0
  {
    if delta > 0.0 then Rise else if delta < 0.0 then Fall else Level
  }

  function Arrow(m: Movement): string
  {
    match m
    case Rise => "↑"
    case Fall => "↓"
    case Level => "—"
  }

  /** A rise is shown red and a fall green: more orders, more delays or
      larger deviations are the bad direction. */
  function Colour(m: Movement): string
  {
    match m
    case Rise => "red"
    case Fall => "green"
    case Level => "gray"
  }

  /** The verb of the summary sentence. */
  function ChangeWord(m: Movement): string
  {
    match m
    case Rise => "增加"
    case Fall => "减少"
    case Level => "持平"
  }

  /** One card: the current value, the previous month's and the signed
      change, with its magnitude, arrow, colour and verb. */
  datatype Card = Card(
    current: real,
    previous: real,
    delta: real,
    magnitude: real,
    arrow: string,
    colour: string,
    word: string)

  function MakeCard(current: real, previous: real): (c: Card)
    ensures c.current == current && c.previous == previous
    ensures c.previous + c.delta == c.current
    ensures c.magnitude >= 0.0 && (c.magnitude == c.delta || c.magnitude == -c.delta)
    ensures c.arrow == "↑" && c.colour == "red" && c.word == "增加" <==> current > previous
    ensures c.arrow == "↓" && c.colour == "green" && c.word == "减少" <==> current < previous
    ensures c.arrow == "—" && c.colour == "gray" && c.word == "持平" <==> current == previous
  {
    var delta := current - previous;
    var m := MovementOf(delta);
    Card(current, previous, delta, if delta < 0.0 then -delta else delta, Arrow(m), Colour(m), ChangeWord(m))
  }

  // ---------------------------------------------------------------------
  // highlight_change

  /** The style of a change cell; `None` stands for a missing value, `-`, a
      blank or text that does not parse as a number. */
  function HighlightChange(v: Option<real>): (style: string)
    ensures style == "color: red" <==> v.Some? && v.value > 0.0
    ensures style == "color: green" <==> v.Some? && v.value < 0.0
    ensures style == "" <==> v.None? || v.value == 0.0
  {
    match v
    case None => ""
    case Some(x) => if x > 0.0 then "color: red" else if x < 0.0 then "color: green" else ""
  }

  /** The table cells and the cards colour a change the same way. */
  lemma HighlightAgreesWithCards(x: real)
    requires x != 0.0
    ensures HighlightChange(Some(x)) == "color: " + Colour(MovementOf(x))
  {
  }

  // ---------------------------------------------------------------------
  // The selected month against the month before

  predicate InMonth(month: string, r: Shipment)
  {
    r.month == month
  }

  function RecordsOfMonth(rs: seq<Shipment>, month: string): seq<Shipment>
  {
    Filter(rs, r => InMonth(month, r))
  }

  /** `month_options`: the months that occur in the data. */
  function MonthsOf(rs: seq<Shipment>): seq<string>
  {
    seq(|rs|, i requires 0 <= i < |rs| => rs[i].month)
  }

  /** `df_prev`: the records of the previous calendar month when that month
      is known and occurs in the data, and no records otherwise. */
  function PreviousMonthRecords(rs: seq<Shipment>, selected: string): seq<Shipment>
  {
    var prev := MonthKeys.GetPrevMonth(selected);
    if prev != "" && prev in MonthsOf(rs) then RecordsOfMonth(rs, prev) else []
  }

  /** The previous-month records are the records of the calendar month
      before the selected one, and they are all of them. */
  lemma PreviousMonthRecordsMeaning(rs: seq<Shipment>, selected: string)
    ensures var prev := MonthKeys.GetPrevMonth(selected);
      PreviousMonthRecords(rs, selected) == if prev == "" then [] else RecordsOfMonth(rs, prev)
    ensures forall r :: r in PreviousMonthRecords(rs, selected) ==>
      && MonthKeys.ParseYearMonth(r.month).Some?
      && MonthKeys.ParseYearMonth(selected).Some?
      && MonthKeys.MonthIndex(MonthKeys.ParseYearMonth(r.month).value) + 1
         == MonthKeys.MonthIndex(MonthKeys.ParseYearMonth(selected).value)
  {
    var prev := MonthKeys.GetPrevMonth(selected);
    if prev != "" {
      FilterMembers(rs, r => InMonth(prev, r));
      if prev !in MonthsOf(rs) {
        forall r | r in rs ensures r.month != prev {
          var i :| 0 <= i < |rs| && rs[i] == r;
          assert MonthsOf(rs)[i] == r.month;
        }
        FilterNone(rs, r => InMonth(prev, r));
      }
    }
  }

  /** The five cards and the closing verdict of the summary sentence. */
  datatype MonthReport = MonthReport(
    orders: Card,
    onTime: Card,
    delayed: Card,
    absDeviation: Card,
    deviation: Card,
    overallEarly: bool)

  /** Each card puts the selected month's value beside the previous
      month's, both counted or averaged over that month's records. */
  function MonthCards(rs: seq<Shipment>, selected: string): (rep: MonthReport)
    ensures var cur, prev := RecordsOfMonth(rs, selected), PreviousMonthRecords(rs, selected);
      && rep.orders.current == |cur| as real && rep.orders.previous == |prev| as real
      && rep.onTime.current == CountOnTime(cur) as real && rep.onTime.previous == CountOnTime(prev) as real
      && rep.delayed.current == CountDelayed(cur) as real && rep.delayed.previous == CountDelayed(prev) as real
      && rep.absDeviation.current == MeanAbsDeviation(cur) && rep.absDeviation.previous == MeanAbsDeviation(prev)
      && rep.deviation.current == MeanDeviation(cur) && rep.deviation.previous == MeanDeviation(prev)
    ensures rep.overallEarly <==> rep.deviation.current > 0.0
  {
    var cur := RecordsOfMonth(rs, selected);
    var prev := PreviousMonthRecords(rs, selected);
    MonthReport(
      MakeCard(|cur| as real, |prev| as real),
      MakeCard(CountOnTime(cur) as real, CountOnTime(prev) as real),
      MakeCard(CountDelayed(cur) as real, CountDelayed(prev) as real),
      MakeCard(MeanAbsDeviation(cur), MeanAbsDeviation(prev)),
      MakeCard(MeanDeviation(cur), MeanDeviation(prev)),
      MeanDeviation(cur) > 0.0)
  }

  /** Each card's delta is the month's value minus the previous month's
      value, the values being counted and averaged over the two months'
      records. */
  lemma MonthCardsDeltas(rs: seq<Shipment>, selected: string)
    ensures var rep := MonthCards(rs, selected);
      var cur := RecordsOfMonth(rs, selected);
      var prev := PreviousMonthRecords(rs, selected);
      && rep.orders.delta == (|cur| as real) - (|prev| as real)
      && rep.onTime.delta == (CountOnTime(cur) as real) - (CountOnTime(prev) as real)
      && rep.delayed.delta == (CountDelayed(cur) as real) - (CountDelayed(prev) as real)
      && rep.absDeviation.delta == MeanAbsDeviation(cur) - MeanAbsDeviation(prev)
      && rep.deviation.delta == MeanDeviation(cur) - MeanDeviation(prev)
  {
    var rep := MonthCards(rs, selected);
    assert rep.orders.previous + rep.orders.delta == rep.orders.current;
    assert rep.onTime.previous + rep.onTime.delta == rep.onTime.current;
    assert rep.delayed.previous + rep.delayed.delta == rep.delayed.current;
    assert rep.absDeviation.previous + rep.absDeviation.delta == rep.absDeviation.current;
    assert rep.deviation.previous + rep.deviation.delta == rep.deviation.current;
  }

  /** With no previous month in the data, or none at all, every previous
      value is 0 and every delta is the current value. */
  lemma MonthCardsWithoutPrevious(rs: seq<Shipment>, selected: string)
    requires MonthKeys.GetPrevMonth(selected) == "" || MonthKeys.GetPrevMonth(selected) !in MonthsOf(rs)
    ensures var rep := MonthCards(rs, selected);
      && rep.orders.previous == 0.0 && rep.orders.delta == rep.orders.current
      && rep.onTime.previous == 0.0 && rep.onTime.delta == rep.onTime.current
      && rep.delayed.previous == 0.0 && rep.delayed.delta == rep.delayed.current
      && rep.absDeviation.previous == 0.0 && rep.absDeviation.delta == rep.absDeviation.current
      && rep.deviation.previous == 0.0 && rep.deviation.delta == rep.deviation.current
  {
    assert PreviousMonthRecords(rs, selected) == [];
    MonthCardsDeltas(rs, selected);
  }
}
