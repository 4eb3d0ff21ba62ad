/** `groupby(...).agg(...)` as the dashboard uses it: one row per distinct
    key tuple, keys in ascending order, with the row count (`("FBA号",
    "count")`), the on-time rate lambda and the means of the two deviation
    columns (Logisticsdata.py:626-643, 777-794, 961-985). */
module Grouping {
  import opened Seqs
  import opened Ordering
  import opened Shipments

  /** The columns a table is grouped by. */
  datatype Field = Month | Status | Forwarder | Warehouse

  function FieldOf(f: Field, r: Shipment): string
  {
    match f
    case Month => r.month
    case Status => r.status
    case Forwarder => r.forwarder
    case Warehouse => r.warehouse
  }

  /** The key tuple of a record. */
  function KeyOf(fields: seq<Field>, r: Shipment): seq<string>
  {
    seq(|fields|, i requires 0 <= i < |fields| => FieldOf(fields[i], r))
  }

  predicate HasKey(fields: seq<Field>, key: seq<string>, r: Shipment)
  {
    KeyOf(fields, r) == key
  }

  /** The records of one group. */
  function Members(rs: seq<Shipment>, fields: seq<Field>, key: seq<string>): seq<Shipment>
  {
    Filter(rs, r => HasKey(fields, key, r))
  }

  function RecordKeys(rs: seq<Shipment>, fields: seq<Field>): seq<seq<string>>
  {
    seq(|rs|, i requires 0 <= i < |rs| => KeyOf(fields, rs[i]))
  }

  /** The distinct key tuples that occur in the records. */
  function GroupKeys(rs: seq<Shipment>, fields: seq<Field>): seq<seq<string>>
  {
    Dedup(RecordKeys(rs, fields))
  }

  /** One output row of `agg`: 订单个数, 准时率 and the two `_均值` columns. */
  datatype Group = Group(key: seq<string>, count: nat, rate: real, absMean: real, devMean: real)

  function Aggregate(rs: seq<Shipment>, fields: seq<Field>, key: seq<string>): Group
  {
    var ms := Members(rs, fields, key);
    Group(key, |ms|, OnTimeRate(ms), MeanAbsDeviation(ms), MeanDeviation(ms))
  }

  /** The aggregate of each key, in the order of the keys. */
  function GroupsOf(rs: seq<Shipment>, fields: seq<Field>, ks: seq<seq<string>>): (gs: seq<Group>)
    ensures |gs| == |ks|
    ensures forall i :: 0 <= i < |ks| ==> gs[i] == Aggregate(rs, fields, ks[i])
    decreases |ks|
  {
    if ks == [] then []
    else GroupsOf(rs, fields, ks[..|ks| - 1]) + [Aggregate(rs, fields, ks[|ks| - 1])]
  }

  /** groupby sorts its keys; the tuples are compared as Python compares
      tuples of strings. */
  function GroupKey(g: Group): SortKey
  {
    SortKey(0, g.key)
  }

  function GroupBy(rs: seq<Shipment>, fields: seq<Field>): seq<Group>
  {
    SortBy(GroupsOf(rs, fields, GroupKeys(rs, fields)), GroupKey)
  }

  function CountOf(g: Group): real
  {
    g.count as real
  }

  // ---------------------------------------------------------------------
  // What a grouped table contains

  /** A group of the table is the aggregate of the records carrying its
      key, and it is not empty. */
  lemma GroupByMember(rs: seq<Shipment>, fields: seq<Field>, g: Group)
    requires g in GroupBy(rs, fields)
    ensures g == Aggregate(rs, fields, g.key)
    ensures g.count == |Members(rs, fields, g.key)| > 0
    ensures |g.key| == |fields|
  {
    var k := GroupOfKey(rs, fields, g);
    KeyHasMember(rs, fields, k);
  }

  /** A group of the table is the aggregate of one of the distinct keys. */
  lemma GroupOfKey(rs: seq<Shipment>, fields: seq<Field>, g: Group) returns (k: seq<string>)
    requires g in GroupBy(rs, fields)
    ensures k in GroupKeys(rs, fields) && g == Aggregate(rs, fields, k)
  {
    var ks := GroupKeys(rs, fields);
    var unsorted := GroupsOf(rs, fields, ks);
    assert g in multiset(unsorted);
    var i :| 0 <= i < |unsorted| && unsorted[i] == g;
    k := ks[i];
  }

  /** A key that occurs in the records has a member and one value per
      field. */
  lemma KeyHasMember(rs: seq<Shipment>, fields: seq<Field>, k: seq<string>)
    requires k in GroupKeys(rs, fields)
    ensures |k| == |fields| && |Members(rs, fields, k)| > 0
  {
    assert k in RecordKeys(rs, fields);
    var j :| 0 <= j < |rs| && RecordKeys(rs, fields)[j] == k;
    assert KeyOf(fields, rs[j]) == k;
    assert HasKey(fields, k, rs[j]);
    FilterKeeps(rs, r => HasKey(fields, k, r), j);
  }

  /** Every group is the aggregate of the records carrying its key, and no
      group is empty. */
  lemma GroupByMembers(rs: seq<Shipment>, fields: seq<Field>)
    ensures forall g :: g in GroupBy(rs, fields) ==>
      && g == Aggregate(rs, fields, g.key)
      && g.count == |Members(rs, fields, g.key)| > 0
      && |g.key| == |fields|
  {
    forall g | g in GroupBy(rs, fields)
      ensures g == Aggregate(rs, fields, g.key)
      ensures g.count == |Members(rs, fields, g.key)| > 0
      ensures |g.key| == |fields|
    {
      GroupByMember(rs, fields, g);
    }
  }

  /** Every record's key has a group. */
  lemma GroupByCovers(rs: seq<Shipment>, fields: seq<Field>)
    ensures forall i :: 0 <= i < |rs| ==> exists g :: g in GroupBy(rs, fields) && g.key == KeyOf(fields, rs[i])
  {
    var ks := GroupKeys(rs, fields);
    var unsorted := GroupsOf(rs, fields, ks);
    forall i | 0 <= i < |rs|
      ensures exists g :: g in GroupBy(rs, fields) && g.key == KeyOf(fields, rs[i])
    {
      assert RecordKeys(rs, fields)[i] == KeyOf(fields, rs[i]);
      var j :| 0 <= j < |ks| && ks[j] == KeyOf(fields, rs[i]);
      assert unsorted[j] in multiset(GroupBy(rs, fields));
    }
  }

  /** The group a record falls into. */
  lemma GroupOfRecord(rs: seq<Shipment>, fields: seq<Field>, r: Shipment) returns (i: nat)
    requires r in rs
    ensures i < |GroupBy(rs, fields)|
    ensures GroupBy(rs, fields)[i].key == KeyOf(fields, r)
  {
    var ks := GroupKeys(rs, fields);
    var unsorted := GroupsOf(rs, fields, ks);
    var p :| 0 <= p < |rs| && rs[p] == r;
    assert RecordKeys(rs, fields)[p] == KeyOf(fields, r);
    var j :| 0 <= j < |ks| && ks[j] == KeyOf(fields, r);
    assert unsorted[j].key == KeyOf(fields, r);
    assert unsorted[j] in multiset(GroupBy(rs, fields));
    i :| i < |GroupBy(rs, fields)| && GroupBy(rs, fields)[i] == unsorted[j];
  }

  /** No key appears twice, and the keys ascend. */
  lemma GroupByDistinctSorted(rs: seq<Shipment>, fields: seq<Field>)
    ensures DistinctOn(GroupBy(rs, fields), (g: Group) => g.key)
    ensures SortedBy(GroupBy(rs, fields), GroupKey)
  {
    var ks := GroupKeys(rs, fields);
    var unsorted := GroupsOf(rs, fields, ks);
    assert DistinctOn(unsorted, (g: Group) => g.key) by {
      forall i, j | 0 <= i < j < |unsorted| ensures unsorted[i].key != unsorted[j].key {
        assert unsorted[i].key == ks[i] && unsorted[j].key == ks[j];
      }
    }
    PermutationKeepsDistinct(unsorted, GroupBy(rs, fields), (g: Group) => g.key);
  }

  // ---------------------------------------------------------------------
  // Group counts partition the records

  predicate GroupSatisfies(q: seq<string> -> bool, g: Group)
  {
    q(g.key)
  }

  predicate RecordSatisfies(fields: seq<Field>, q: seq<string> -> bool, r: Shipment)
  {
    q(KeyOf(fields, r))
  }

  predicate KeyIn(fields: seq<Field>, ks: seq<seq<string>>, q: seq<string> -> bool, r: Shipment)
  {
    KeyOf(fields, r) in ks && q(KeyOf(fields, r))
  }

  lemma {:induction false} CountsOverKeys(rs: seq<Shipment>, fields: seq<Field>, ks: seq<seq<string>>, q: seq<string> -> bool)
    requires forall i, j :: 0 <= i < j < |ks| ==> ks[i] != ks[j]
    ensures Sum(Filter(GroupsOf(rs, fields, ks), g => GroupSatisfies(q, g)), CountOf)
         == |Filter(rs, r => KeyIn(fields, ks, q, r))| as real
    decreases |ks|
  {
    if ks == [] {
      FilterNone(rs, r => KeyIn(fields, ks, q, r));
    } else {
      var k := ks[|ks| - 1];
      CountsOverKeys(rs, fields, ks[..|ks| - 1], q);
      GroupCountsStep(rs, fields, ks, q);
      RecordCountsStep(rs, fields, ks, q);
    }
  }

  /** One more key adds its group's count when the key satisfies `q`. */
  lemma GroupCountsStep(rs: seq<Shipment>, fields: seq<Field>, ks: seq<seq<string>>, q: seq<string> -> bool)
    requires |ks| > 0
    ensures var k := ks[|ks| - 1];
      Sum(Filter(GroupsOf(rs, fields, ks), g => GroupSatisfies(q, g)), CountOf)
      == Sum(Filter(GroupsOf(rs, fields, ks[..|ks| - 1]), g => GroupSatisfies(q, g)), CountOf)
         + (if q(k) then |Members(rs, fields, k)| as real else 0.0)
  {
    var gq := (g: Group) => GroupSatisfies(q, g);
    var ks' := ks[..|ks| - 1];
    var g := Aggregate(rs, fields, ks[|ks| - 1]);
    assert GroupsOf(rs, fields, ks) == GroupsOf(rs, fields, ks') + [g];
    FilterAppend(GroupsOf(rs, fields, ks'), g, gq);
    SumAppend(Filter(GroupsOf(rs, fields, ks'), gq), if gq(g) then [g] else [], CountOf);
    if gq(g) {
      SumSingle(g, CountOf);
    } else {
      assert Filter(GroupsOf(rs, fields, ks'), gq) + [] == Filter(GroupsOf(rs, fields, ks'), gq);
    }
  }

  /** One more key, new among the keys, adds its records when it satisfies
      `q`. */
  lemma RecordCountsStep(rs: seq<Shipment>, fields: seq<Field>, ks: seq<seq<string>>, q: seq<string> -> bool)
    requires |ks| > 0
    requires forall i, j :: 0 <= i < j < |ks| ==> ks[i] != ks[j]
    ensures var k := ks[|ks| - 1];
      |Filter(rs, r => KeyIn(fields, ks, q, r))|
      == |Filter(rs, r => KeyIn(fields, ks[..|ks| - 1], q, r))| + (if q(k) then |Members(rs, fields, k)| else 0)
  {
    var ks' := ks[..|ks| - 1];
    var k := ks[|ks| - 1];
    if q(k) {
      forall i | 0 <= i < |ks'| ensures ks'[i] != k {
        assert ks'[i] == ks[i];
      }
      FilterCountUnion(rs, r => KeyIn(fields, ks', q, r), r => HasKey(fields, k, r), r => KeyIn(fields, ks, q, r));
    } else {
      FilterExt(rs, r => KeyIn(fields, ks', q, r), r => KeyIn(fields, ks, q, r));
    }
  }

  /** The counts of the groups whose key satisfies `q` add up to the
      number of records whose key satisfies `q`. */
  lemma GroupCountsPartition(rs: seq<Shipment>, fields: seq<Field>, q: seq<string> -> bool)
    ensures Sum(Filter(GroupBy(rs, fields), g => GroupSatisfies(q, g)), CountOf)
         == |Filter(rs, r => RecordSatisfies(fields, q, r))| as real
  {
    var ks := GroupKeys(rs, fields);
    var gq := (g: Group) => GroupSatisfies(q, g);
    CountsOverKeys(rs, fields, ks, q);
    FilterPermutation(GroupsOf(rs, fields, ks), GroupBy(rs, fields), gq);
    SumPermutation(Filter(GroupsOf(rs, fields, ks), gq), Filter(GroupBy(rs, fields), gq), CountOf);
    KeysCoverRecords(rs, fields, q);
    FilterExt(rs, r => KeyIn(fields, ks, q, r), r => RecordSatisfies(fields, q, r));
  }

  lemma KeysCoverRecords(rs: seq<Shipment>, fields: seq<Field>, q: seq<string> -> bool)
    ensures forall r :: r in rs ==> (KeyIn(fields, GroupKeys(rs, fields), q, r) <==> RecordSatisfies(fields, q, r))
  {
    forall r | r in rs ensures KeyOf(fields, r) in GroupKeys(rs, fields) {
      var i :| 0 <= i < |rs| && rs[i] == r;
      assert RecordKeys(rs, fields)[i] == KeyOf(fields, r);
    }
  }

  /** The group counts add up to the number of records. */
  lemma GroupCountsTotal(rs: seq<Shipment>, fields: seq<Field>)
    ensures Sum(GroupBy(rs, fields), CountOf) == |rs| as real
  {
    var q := (k: seq<string>) => true;
    GroupCountsPartition(rs, fields, q);
    FilterAll(GroupBy(rs, fields), g => GroupSatisfies(q, g));
    FilterAll(rs, r => RecordSatisfies(fields, q, r));
  }

  // ---------------------------------------------------------------------
  // Rates

  /** 准时率 is the share of on-time records of the group, and lies in
      [0, 1]. */
  lemma GroupRates(rs: seq<Shipment>, fields: seq<Field>)
    ensures forall g :: g in GroupBy(rs, fields) ==>
      && 0.0 <= g.rate <= 1.0
      && g.count > 0
      && g.rate == (CountOnTime(Members(rs, fields, g.key)) as real) / (g.count as real)
  {
    forall g | g in GroupBy(rs, fields)
      ensures 0.0 <= g.rate <= 1.0
      ensures g.count > 0
      ensures g.rate == (CountOnTime(Members(rs, fields, g.key)) as real) / (g.count as real)
    {
      GroupByMember(rs, fields, g);
    }
  }

  /** All members of a group share the values of its key columns. */
  lemma MembersShareKey(rs: seq<Shipment>, fields: seq<Field>, key: seq<string>, j: nat)
    requires j < |fields| && |key| == |fields|
    ensures forall x :: x in Members(rs, fields, key) ==> FieldOf(fields[j], x) == key[j]
  {
    FilterMembers(rs, r => HasKey(fields, key, r));
    forall x | x in Members(rs, fields, key) ensures FieldOf(fields[j], x) == key[j] {
      assert HasKey(fields, key, x);
      assert KeyOf(fields, x)[j] == FieldOf(fields[j], x);
    }
  }

  /** When the status is one of the grouping columns every member of a
      group has the same status, so its rate is 1 for 提前/准时 and 0 for any
      other status. */
  lemma StatusGroupRate(rs: seq<Shipment>, fields: seq<Field>, j: nat, g: Group)
    requires j < |fields| && fields[j] == Status
    requires g in GroupBy(rs, fields)
    ensures |g.key| == |fields|
    ensures g.rate == if g.key[j] == OnTimeStatus then 1.0 else 0.0
  {
    GroupByMember(rs, fields, g);
    var ms := Members(rs, fields, g.key);
    MembersShareKey(rs, fields, g.key, j);
    assert forall x :: x in ms ==> x.status == g.key[j];
    if g.key[j] == OnTimeStatus {
      RateAllOnTime(ms);
    } else {
      RateNoneOnTime(ms);
    }
  }

  lemma StatusGroupRates(rs: seq<Shipment>, fields: seq<Field>, j: nat)
    requires j < |fields| && fields[j] == Status
    ensures forall g :: g in GroupBy(rs, fields) ==>
      |g.key| == |fields| && g.rate == if g.key[j] == OnTimeStatus then 1.0 else 0.0
  {
    forall g | g in GroupBy(rs, fields)
      ensures |g.key| == |fields|
      ensures g.rate == if g.key[j] == OnTimeStatus then 1.0 else 0.0
    {
      StatusGroupRate(rs, fields, j, g);
    }
  }

  // ---------------------------------------------------------------------
  // Detail table against summary table

  predicate LeadsWith(v: string, k: seq<string>)
  {
    |k| > 0 && k[0] == v
  }

  /** For every value of the dimension, the counts of its (dimension,
      status) groups add up to the count of its summary group. */
  lemma DetailSumsToSummary(rs: seq<Shipment>, dim: Field, v: string)
    ensures Sum(Filter(GroupBy(rs, [dim, Status]), g => GroupSatisfies(k => LeadsWith(v, k), g)), CountOf)
         == Sum(Filter(GroupBy(rs, [dim]), g => GroupSatisfies(k => LeadsWith(v, k), g)), CountOf)
  {
    var q := (k: seq<string>) => LeadsWith(v, k);
    GroupCountsPartition(rs, [dim, Status], q);
    GroupCountsPartition(rs, [dim], q);
    FilterExt(rs, r => RecordSatisfies([dim, Status], q, r), r => RecordSatisfies([dim], q, r));
  }

  /** Hence a summary group's count is the sum of the counts of the detail
      groups that share its dimension value. */
  lemma DetailSumsToSummaryCount(rs: seq<Shipment>, dim: Field, s: Group)
    requires s in GroupBy(rs, [dim])
    ensures |s.key| == 1
    ensures Sum(Filter(GroupBy(rs, [dim, Status]), g => GroupSatisfies(k => LeadsWith(s.key[0], k), g)), CountOf)
         == s.count as real
  {
    GroupByMember(rs, [dim], s);
    DetailSumsToSummary(rs, dim, s.key[0]);
    OnlySummaryGroupWithValue(rs, dim, s);
    SumSingle(s, CountOf);
  }

  /** In the summary table the dimension value picks out one group. */
  lemma OnlySummaryGroupWithValue(rs: seq<Shipment>, dim: Field, s: Group)
    requires s in GroupBy(rs, [dim]) && |s.key| == 1
    ensures Filter(GroupBy(rs, [dim]), g => GroupSatisfies(k => LeadsWith(s.key[0], k), g)) == [s]
  {
    var q := (k: seq<string>) => LeadsWith(s.key[0], k);
    var gs := GroupBy(rs, [dim]);
    GroupByDistinctSorted(rs, [dim]);
    var p :| 0 <= p < |gs| && gs[p] == s;
    forall g | g in gs ensures GroupSatisfies(q, g) <==> g == s {
      if GroupSatisfies(q, g) {
        SameValueSameGroup(rs, dim, g, s);
      }
    }
    forall i | 0 <= i < |gs| && i != p ensures gs[i] != gs[p] {
      assert gs[i].key != gs[p].key;
    }
    FilterSingleOccurrence(gs, p, g => GroupSatisfies(q, g));
  }

  /** Two summary groups with the same value are the same group. */
  lemma SameValueSameGroup(rs: seq<Shipment>, dim: Field, g: Group, s: Group)
    requires g in GroupBy(rs, [dim]) && s in GroupBy(rs, [dim])
    requires |s.key| == 1 && LeadsWith(s.key[0], g.key)
    ensures g == s
  {
    GroupByMember(rs, [dim], g);
    GroupByMember(rs, [dim], s);
    assert g.key == [g.key[0]] && s.key == [s.key[0]];
  }

  lemma {:induction false} FilterSingleOccurrence<T>(s: seq<T>, p: nat, f: T -> bool)
    requires p < |s|
    requires forall x :: x in s ==> (f(x) <==> x == s[p])
    requires forall i :: 0 <= i < |s| && i != p ==> s[i] != s[p]
    ensures Filter(s, f) == [s[p]]
  {
    assert s == s[..p] + [s[p]] + s[p + 1..];
    FilterConcat(s[..p] + [s[p]], s[p + 1..], f);
    FilterConcat(s[..p], [s[p]], f);
    FilterNone(s[..p], f);
    FilterNone(s[p + 1..], f);
    assert Filter([s[p]], f) == [s[p]] by {
      assert [s[p]] == [] + [s[p]];
      FilterAppend([], s[p], f);
    }
  }
}
