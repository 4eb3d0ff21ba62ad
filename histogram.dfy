/** The text histogram of the selected month's signed lead-time
    deviations (Logisticsdata.py:294-346): deviations rounded to whole
    days, on-time/early days (>= 0) counted from the largest down, delayed
    days (< 0) counted from the most negative up, and one bar per day whose
    length is its count scaled so that the largest count gets 20 blocks. */
module Histogram {
  import opened Seqs
  import opened Ordering
  import MonthKeys

  // ---------------------------------------------------------------------
  // Rounding to whole days

  /** `Series.round()`: the nearest integer, a tie going to the even one. */
  function RoundHalfEven(x: real): (n: int)
    ensures -0.5 <= x - n as real <= 0.5
    ensures (x - n as real == 0.5 || x - n as real == -0.5) ==> n % 2 == 0
  {
    var f := x.Floor;
    var d := x - f as real;
    if d < 0.5 then f
    else if d > 0.5 then f + 1
    else if f % 2 == 0 then f
    else f + 1
  }

  /** Rounding leaves whole numbers alone. */
  lemma RoundWhole(n: int)
    ensures RoundHalfEven(n as real) == n
  {
  }

  function Days(diffs: seq<real>): (days: seq<int>)
    ensures |days| == |diffs|
    ensures forall i :: 0 <= i < |diffs| ==> days[i] == RoundHalfEven(diffs[i])
  {
    seq(|diffs|, i requires 0 <= i < |diffs| => RoundHalfEven(diffs[i]))
  }

  // ---------------------------------------------------------------------
  // value_counts

  predicate IsEarlyDay(d: int)
  {
    d >= 0
  }

  predicate IsDelayDay(d: int)
  {
    d < 0
  }

  predicate IsDay(d: int, x: int)
  {
    x == d
  }

  function DayIs(d: int): int -> bool
  {
    x => IsDay(d, x)
  }

  function Occurrences(days: seq<int>, d: int): nat
  {
    |Filter(days, DayIs(d))|
  }

  /** One line of the histogram before it is drawn: a day and how many
      deviations round to it. */
  datatype Bucket = Bucket(day: int, count: nat)

  function Descending(d: int): SortKey
  {
    SortKey(-d, [])
  }

  function Ascending(d: int): SortKey
  {
    SortKey(d, [])
  }

  function BucketsOf(days: seq<int>, ds: seq<int>): (bs: seq<Bucket>)
    ensures |bs| == |ds|
    ensures forall i :: 0 <= i < |ds| ==> bs[i] == Bucket(ds[i], Occurrences(days, ds[i]))
  {
    seq(|ds|, i requires 0 <= i < |ds| => Bucket(ds[i], Occurrences(days, ds[i])))
  }

  /** `value_counts().sort_index(...)` in the given order. */
  function ValueCounts(days: seq<int>, order: int -> SortKey): seq<Bucket>
  {
    BucketsOf(days, SortBy(Dedup(days), order))
  }

  /** `early_counts`: the days >= 0, largest first. */
  function EarlyCounts(days: seq<int>): seq<Bucket>
  {
    ValueCounts(Filter(days, IsEarlyDay), Descending)
  }

  /** `delay_counts`: the days < 0, most negative first. */
  function DelayCounts(days: seq<int>): seq<Bucket>
  {
    ValueCounts(Filter(days, IsDelayDay), Ascending)
  }

  /** The distinct days in the requested order: each day that occurs once,
      and no other. */
  lemma SortedDaysFacts(days: seq<int>, order: int -> SortKey)
    ensures var ds := SortBy(Dedup(days), order);
      && (forall d :: d in days <==> d in ds)
      && (forall i, j :: 0 <= i < j < |ds| ==> ds[i] != ds[j])
      && SortedBy(ds, order)
  {
    var dd := Dedup(days);
    var ds := SortBy(dd, order);
    forall d ensures d in days <==> d in ds {
      assert d in dd <==> d in multiset(dd);
      assert d in ds <==> d in multiset(ds);
      if d in days {
        var i :| 0 <= i < |days| && days[i] == d;
      }
      if d in dd {
        var j :| 0 <= j < |dd| && dd[j] == d;
      }
    }
    assert DistinctOn(dd, (x: int) => x);
    PermutationKeepsDistinct(dd, ds, (x: int) => x);
  }

  /** A day that occurs is counted at least once. */
  lemma OccursPositive(days: seq<int>, d: int)
    requires d in days
    ensures Occurrences(days, d) > 0
  {
    var p :| 0 <= p < |days| && days[p] == d;
    FilterKeeps(days, DayIs(d), p);
  }

  /** Each bucket is a day that occurs, with how often it occurs; no day
      has two buckets; and the buckets follow the order. */
  lemma ValueCountsFacts(days: seq<int>, order: int -> SortKey)
    ensures var bs := ValueCounts(days, order);
      && (forall i :: 0 <= i < |bs| ==> bs[i].day in days && bs[i].count == Occurrences(days, bs[i].day) > 0)
      && (forall i, j :: 0 <= i < j < |bs| ==> bs[i].day != bs[j].day)
      && (forall i, j :: 0 <= i < j < |bs| ==> KeyLeq(order(bs[i].day), order(bs[j].day)))
  {
    var ds := SortBy(Dedup(days), order);
    var bs := ValueCounts(days, order);
    SortedDaysFacts(days, order);
    forall i | 0 <= i < |bs| ensures bs[i].day in days && bs[i].count == Occurrences(days, bs[i].day) > 0 {
      assert bs[i].day == ds[i];
      OccursPositive(days, ds[i]);
    }
  }

  /** Every day that occurs has a bucket: the one at `i`. */
  lemma ValueCountsCover(days: seq<int>, order: int -> SortKey, d: int) returns (i: nat)
    requires d in days
    ensures i < |ValueCounts(days, order)| && ValueCounts(days, order)[i].day == d
  {
    var ds := SortBy(Dedup(days), order);
    SortedDaysFacts(days, order);
    i :| 0 <= i < |ds| && ds[i] == d;
  }

  /** The early buckets are the days >= 0 from the largest down. */
  lemma EarlyCountsOrder(days: seq<int>)
    ensures var bs := EarlyCounts(days);
      && (forall i :: 0 <= i < |bs| ==> bs[i].day >= 0 && bs[i].count == Occurrences(days, bs[i].day) > 0)
      && (forall i, j :: 0 <= i < j < |bs| ==> bs[i].day > bs[j].day)
  {
    var early := Filter(days, IsEarlyDay);
    ValueCountsFacts(early, Descending);
    FilterMembers(days, IsEarlyDay);
    var bs := EarlyCounts(days);
    forall i | 0 <= i < |bs| ensures bs[i].day >= 0 && bs[i].count == Occurrences(days, bs[i].day) {
      OccurrencesWithin(days, IsEarlyDay, bs[i].day);
    }
  }

  /** The delay buckets are the days < 0 from the most negative up. */
  lemma DelayCountsOrder(days: seq<int>)
    ensures var bs := DelayCounts(days);
      && (forall i :: 0 <= i < |bs| ==> bs[i].day < 0 && bs[i].count == Occurrences(days, bs[i].day) > 0)
      && (forall i, j :: 0 <= i < j < |bs| ==> bs[i].day < bs[j].day)
  {
    var delayed := Filter(days, IsDelayDay);
    ValueCountsFacts(delayed, Ascending);
    FilterMembers(days, IsDelayDay);
    var bs := DelayCounts(days);
    forall i | 0 <= i < |bs| ensures bs[i].day < 0 && bs[i].count == Occurrences(days, bs[i].day) {
      OccurrencesWithin(days, IsDelayDay, bs[i].day);
    }
  }

  /** Counting a day inside a part that holds it is counting it in the
      whole. */
  lemma {:induction false} OccurrencesWithin(days: seq<int>, part: int -> bool, d: int)
    requires part(d)
    ensures Occurrences(Filter(days, part), d) == Occurrences(days, d)
    decreases |days|
  {
    if days != [] {
      var rest, x := days[..|days| - 1], days[|days| - 1];
      assert days == rest + [x];
      OccurrencesWithin(rest, part, d);
      FilterAppend(rest, x, part);
      FilterAppend(rest, x, DayIs(d));
      if part(x) {
        FilterAppend(Filter(rest, part), x, DayIs(d));
      } else {
        assert !DayIs(d)(x);
        assert Filter(days, part) == Filter(rest, part);
        assert Filter(days, DayIs(d)) == Filter(rest, DayIs(d));
      }
    }
  }

  // ---------------------------------------------------------------------
  // The counts add up to the days

  function CountOf(b: Bucket): real
  {
    b.count as real
  }

  predicate DayIn(ds: seq<int>, x: int)
  {
    x in ds
  }

  lemma {:induction false} OccurrencesOverDays(days: seq<int>, ds: seq<int>)
    requires forall i, j :: 0 <= i < j < |ds| ==> ds[i] != ds[j]
    ensures Sum(BucketsOf(days, ds), CountOf) == |Filter(days, x => DayIn(ds, x))| as real
    decreases |ds|
  {
    if ds == [] {
      FilterNone(days, x => DayIn(ds, x));
    } else {
      var ds' := ds[..|ds| - 1];
      var d := ds[|ds| - 1];
      OccurrencesOverDays(days, ds');
      assert BucketsOf(days, ds)[..|ds| - 1] == BucketsOf(days, ds');
      forall i | 0 <= i < |ds'| ensures ds'[i] != d {
        assert ds'[i] == ds[i];
      }
      FilterCountUnion(days, x => DayIn(ds', x), DayIs(d), x => DayIn(ds, x));
    }
  }

  /** The bucket counts add up to the number of deviations. */
  lemma ValueCountsTotal(days: seq<int>, order: int -> SortKey)
    ensures Sum(ValueCounts(days, order), CountOf) == |days| as real
  {
    var ds := SortBy(Dedup(days), order);
    SortedDaysFacts(days, order);
    OccurrencesOverDays(days, ds);
    SortedDaysFacts(days, order);
    FilterAll(days, x => DayIn(ds, x));
  }

  predicate AnyDay(d: int)
  {
    true
  }

  /** The two halves together count every deviation once. */
  lemma HistogramTotal(diffs: seq<real>)
    ensures Sum(EarlyCounts(Days(diffs)), CountOf) + Sum(DelayCounts(Days(diffs)), CountOf) == |diffs| as real
  {
    var days := Days(diffs);
    ValueCountsTotal(Filter(days, IsEarlyDay), Descending);
    ValueCountsTotal(Filter(days, IsDelayDay), Ascending);
    FilterCountUnion(days, IsEarlyDay, IsDelayDay, AnyDay);
    FilterAll(days, AnyDay);
  }

  // ---------------------------------------------------------------------
  // max_count

  /** The largest count, 0 for no buckets. */
  function MaxOf(bs: seq<Bucket>): (m: nat)
    ensures forall b :: b in bs ==> b.count <= m
    ensures |bs| == 0 ==> m == 0
    ensures |bs| > 0 ==> exists b :: b in bs && b.count == m
    decreases |bs|
  {
    if bs == [] then 0
    else
      var m' := MaxOf(bs[..|bs| - 1]);
      var last := bs[|bs| - 1];
      assert forall b :: b in bs ==> b in bs[..|bs| - 1] || b == last;
      if last.count > m' then last.count else m'
  }

  /** `max_count`: the largest count over both halves. */
  function MaxCount(early: seq<Bucket>, delay: seq<Bucket>): (m: nat)
    ensures forall b :: b in early || b in delay ==> b.count <= m
    ensures m == 0 || (exists b :: (b in early || b in delay) && b.count == m)
  {
    var e, d := MaxOf(early), MaxOf(delay);
    if e >= d then e else d
  }

  // ---------------------------------------------------------------------
  // Drawing

  const MaxDisplayLength: nat := 20

  function NatToString(n: nat): (s: string)
    ensures |s| > 0 && forall i :: 0 <= i < |s| ==> MonthKeys.IsDigit(s[i])
    decreases n
  {
    if n < 10 then [MonthKeys.Digit(n)] else NatToString(n / 10) + [MonthKeys.Digit(n % 10)]
  }

  function DecimalValue(s: string): nat
    requires forall i :: 0 <= i < |s| ==> MonthKeys.IsDigit(s[i])
    decreases |s|
  {
    if s == [] then 0 else 10 * DecimalValue(s[..|s| - 1]) + MonthKeys.DigitValue(s[|s| - 1])
  }

  /** The decimal digits written for a count or a day read back as the
      number. */
  lemma {:induction false} NatToStringValue(n: nat)
    ensures DecimalValue(NatToString(n)) == n
    decreases n
  {
    var s := NatToString(n);
    if n >= 10 {
      NatToStringValue(n / 10);
      assert s[..|s| - 1] == NatToString(n / 10);
    }
  }

  /** `f"{day}"`. */
  function IntToString(d: int): string
  {
    if d < 0 then "-" + NatToString(-d) else NatToString(d)
  }

  /** The label of a line: `+N天` for an early day, `0天` for on time and
      `-N天` for a delay. */
  function DayLabel(day: int, early: bool): (r: string)
    ensures |r| >= 2 && r[|r| - 1] == '天'
    ensures early && day > 0 ==> r[0] == '+' && r[1..|r| - 1] == NatToString(day)
    ensures early && day <= 0 ==> r == "0天"
    ensures !early && day < 0 ==> r[0] == '-' && r[1..|r| - 1] == NatToString(-day)
  {
    if early then (if day > 0 then "+" + IntToString(day) + "天" else "0天")
    else IntToString(day) + "天"
  }

  /** One drawn line: its label, its bar of blocks and its count. */
  datatype Line = Line(caption: string, bar: string, count: nat)

  /** What the drawing promises of a line: the bucket's label and count,
      and a bar of `floor(count / max * 20)` blocks, none when the largest
      count is 0. */
  predicate DrawnAs(b: Bucket, maxCount: nat, early: bool, line: Line)
  {
    && line.caption == DayLabel(b.day, early)
    && line.count == b.count
    && (forall k :: 0 <= k < |line.bar| ==> line.bar[k] == '█')
    && (maxCount == 0 ==> |line.bar| == 0)
    && (maxCount > 0 ==> |line.bar| * maxCount <= b.count * MaxDisplayLength < (|line.bar| + 1) * maxCount)
  }

  function Blocks(n: nat): (s: string)
    ensures |s| == n && forall k :: 0 <= k < n ==> s[k] == '█'
  {
    seq(n, k => '█')
  }

  lemma FloorQuotient(a: nat, b: nat)
    requires b > 0
    ensures (a / b) * b <= a < (a / b + 1) * b
  {
  }

  /** The loop over the items of one half of the histogram. */
  method DrawBuckets(bs: seq<Bucket>, maxCount: nat, early: bool) returns (lines: seq<Line>)
    ensures |lines| == |bs|
    ensures forall i :: 0 <= i < |bs| ==> DrawnAs(bs[i], maxCount, early, lines[i])
  {
    lines := [];
    var i := 0;
    while i < |bs|
      invariant 0 <= i <= |bs|
      invariant |lines| == i
      invariant forall k :: 0 <= k < i ==> DrawnAs(bs[k], maxCount, early, lines[k])
    {
      var count := bs[i].count;
      var length := 0;
      if maxCount > 0 {
        length := count * MaxDisplayLength / maxCount;
        FloorQuotient(count * MaxDisplayLength, maxCount);
      }
      lines := lines + [Line(DayLabel(bs[i].day, early), Blocks(length), count)];
      i := i + 1;
    }
  }

  /** No bar is longer than 20 blocks, and a bar with the largest count is
      exactly 20 blocks long. */
  lemma BarBounds(b: Bucket, maxCount: nat, early: bool, line: Line)
    requires DrawnAs(b, maxCount, early, line) && b.count <= maxCount
    ensures |line.bar| <= MaxDisplayLength
    ensures maxCount > 0 && b.count == maxCount ==> |line.bar| == MaxDisplayLength
  {
    if maxCount > 0 {
      ScaledBounds(b.count, maxCount, |line.bar|);
    }
  }

  lemma ScaledBounds(c: nat, m: nat, n: nat)
    requires m > 0 && c <= m
    requires n * m <= c * MaxDisplayLength < (n + 1) * m
    ensures n <= MaxDisplayLength
    ensures c == m ==> n == MaxDisplayLength
  {
    assert c * MaxDisplayLength <= m * MaxDisplayLength;
    LessCancel(n, MaxDisplayLength + 1, m);
    if c == m {
      LessCancel(MaxDisplayLength, n + 1, m);
    }
  }

  /** Multiplying by the same positive number keeps a strict order. */
  lemma {:induction false} LessCancel(a: nat, b: nat, m: nat)
    requires m > 0 && a * m < b * m
    ensures a < b
    decreases b
  {
    if a > 0 && b > 0 {
      assert (a - 1) * m == a * m - m && (b - 1) * m == b * m - m;
      LessCancel(a - 1, b - 1, m);
    }
  }

  /** Both halves of the histogram as drawn, from the deviations that are
      present. */
  method DrawHistogram(diffs: seq<real>) returns (early: seq<Line>, delay: seq<Line>)
    ensures |early| == |EarlyCounts(Days(diffs))| && |delay| == |DelayCounts(Days(diffs))|
    ensures var m := MaxCount(EarlyCounts(Days(diffs)), DelayCounts(Days(diffs)));
      && (forall i :: 0 <= i < |early| ==> DrawnAs(EarlyCounts(Days(diffs))[i], m, true, early[i]))
      && (forall i :: 0 <= i < |delay| ==> DrawnAs(DelayCounts(Days(diffs))[i], m, false, delay[i]))
  {
    var days := Days(diffs);
    var earlyCounts := EarlyCounts(days);
    var delayCounts := DelayCounts(days);
    var m := MaxCount(earlyCounts, delayCounts);
    early := DrawBuckets(earlyCounts, m, true);
    delay := DrawBuckets(delayCounts, m, false);
  }
}
