/** The counts behind the grouped bar charts of the forwarder and warehouse
    sections: `groupby([dimension, "提前/延期"]).size().unstack(fill_value=0)`,
    after which a missing 提前/准时 or 延期 column is added filled with 0
    (Logisticsdata.py:585-590, 736-741). The table is an object whose
    columns the section adds in place. */
module StatusChart {
  import opened Seqs
  import opened Ordering
  import opened Shipments
  import opened Grouping

  /** The number of records with dimension value `v` and status `c`; 0 for
      a pair that does not occur, as `fill_value=0` fills it. */
  function CellCount(rs: seq<Shipment>, dim: Field, v: string, c: string): nat
  {
    |Members(rs, [dim, Status], [v, c])|
  }

  function ValueKey(s: string): SortKey
  {
    SortKey(0, [s])
  }

  /** The distinct values in ascending order, as the index and the columns
      of an unstacked table are laid out. */
  function Ascending(vs: seq<string>): seq<string>
  {
    SortBy(Dedup(vs), ValueKey)
  }

  lemma AscendingFacts(vs: seq<string>)
    ensures forall v :: v in vs <==> v in Ascending(vs)
    ensures forall i, j :: 0 <= i < j < |Ascending(vs)| ==> Ascending(vs)[i] != Ascending(vs)[j]
    ensures SortedBy(Ascending(vs), ValueKey)
  {
    var d := Dedup(vs);
    forall v ensures v in vs <==> v in Ascending(vs) {
      assert v in d <==> v in multiset(d);
      assert v in Ascending(vs) <==> v in multiset(Ascending(vs));
      if v in vs {
        var i :| 0 <= i < |vs| && vs[i] == v;
      }
      if v in d {
        var j :| 0 <= j < |d| && d[j] == v;
      }
    }
    assert DistinctOn(d, (s: string) => s);
    PermutationKeepsDistinct(d, Ascending(vs), (s: string) => s);
  }

  function DimValues(rs: seq<Shipment>, dim: Field): seq<string>
  {
    seq(|rs|, i requires 0 <= i < |rs| => FieldOf(dim, rs[i]))
  }

  function Statuses(rs: seq<Shipment>): seq<string>
  {
    seq(|rs|, i requires 0 <= i < |rs| => rs[i].status)
  }

  predicate HasValueAndStatus(dim: Field, v: string, c: string, r: Shipment)
  {
    FieldOf(dim, r) == v && r.status == c
  }

  lemma KeyOfWithStatus(dim: Field, r: Shipment)
    ensures KeyOf([dim, Status], r) == [FieldOf(dim, r), r.status]
  {
  }

  /** A cell counts the records with its row's value and its column's
      status. */
  lemma CellMeaning(rs: seq<Shipment>, dim: Field, v: string, c: string)
    ensures CellCount(rs, dim, v, c) == |Filter(rs, r => HasValueAndStatus(dim, v, c, r))|
  {
    forall r | r in rs ensures HasKey([dim, Status], [v, c], r) <==> HasValueAndStatus(dim, v, c, r) {
      KeyOfWithStatus(dim, r);
    }
    FilterExt(rs, r => HasKey([dim, Status], [v, c], r), r => HasValueAndStatus(dim, v, c, r));
  }

  /** A status no record has gets 0 in every row. */
  lemma AbsentStatusCountsZero(rs: seq<Shipment>, dim: Field, v: string, c: string)
    requires forall r :: r in rs ==> r.status != c
    ensures CellCount(rs, dim, v, c) == 0
  {
    CellMeaning(rs, dim, v, c);
    FilterNone(rs, r => HasValueAndStatus(dim, v, c, r));
  }

  // ---------------------------------------------------------------------
  // A bar group adds up to the records of its value

  predicate ValueWithStatusIn(dim: Field, v: string, cs: seq<string>, r: Shipment)
  {
    FieldOf(dim, r) == v && r.status in cs
  }

  predicate HasValue(dim: Field, v: string, r: Shipment)
  {
    FieldOf(dim, r) == v
  }

  function CellOf(rs: seq<Shipment>, dim: Field, v: string): string -> real
  {
    (c: string) => CellCount(rs, dim, v, c) as real
  }

  lemma {:induction false} CountsOverStatuses(rs: seq<Shipment>, dim: Field, v: string, cs: seq<string>)
    requires forall i, j :: 0 <= i < j < |cs| ==> cs[i] != cs[j]
    ensures Sum(cs, CellOf(rs, dim, v)) == |Filter(rs, r => ValueWithStatusIn(dim, v, cs, r))| as real
    decreases |cs|
  {
    if cs == [] {
      FilterNone(rs, r => ValueWithStatusIn(dim, v, cs, r));
    } else {
      var cs' := cs[..|cs| - 1];
      var c := cs[|cs| - 1];
      CountsOverStatuses(rs, dim, v, cs');
      forall i | 0 <= i < |cs'| ensures cs'[i] != c {
        assert cs'[i] == cs[i];
      }
      CellMeaning(rs, dim, v, c);
      FilterCountUnion(rs, r => ValueWithStatusIn(dim, v, cs', r), r => HasValueAndStatus(dim, v, c, r),
                       r => ValueWithStatusIn(dim, v, cs, r));
    }
  }

  /** The bars of one value add up to the number of its records when the
      columns are distinct and hold every status. */
  lemma BarGroupTotal(rs: seq<Shipment>, dim: Field, v: string, cs: seq<string>)
    requires forall i, j :: 0 <= i < j < |cs| ==> cs[i] != cs[j]
    requires forall r :: r in rs ==> r.status in cs
    ensures Sum(cs, CellOf(rs, dim, v)) == |Filter(rs, r => HasValue(dim, v, r))| as real
  {
    CountsOverStatuses(rs, dim, v, cs);
    FilterExt(rs, r => ValueWithStatusIn(dim, v, cs, r), r => HasValue(dim, v, r));
  }

  // ---------------------------------------------------------------------
  // The table as values

  /** Every cell counts its pair, no value or status is listed twice, and
      every record's value and status are listed. */
  ghost predicate TableInvariant(rs: seq<Shipment>, dim: Field, index: seq<string>, columns: seq<string>, cells: seq<seq<nat>>)
  {
    && |cells| == |index|
    && (forall i :: 0 <= i < |index| ==> |cells[i]| == |columns|)
    && (forall i, j :: 0 <= i < |index| && 0 <= j < |columns| ==>
          cells[i][j] == CellCount(rs, dim, index[i], columns[j]))
    && (forall i, j :: 0 <= i < j < |index| ==> index[i] != index[j])
    && (forall i, j :: 0 <= i < j < |columns| ==> columns[i] != columns[j])
    && (forall r :: r in rs ==> FieldOf(dim, r) in index && r.status in columns)
  }

  /** `unstack(fill_value=0)`: one row per listed value, one column per
      listed status. */
  function Unstack(rs: seq<Shipment>, dim: Field, index: seq<string>, columns: seq<string>): (cells: seq<seq<nat>>)
    ensures |cells| == |index| && forall i :: 0 <= i < |index| ==> |cells[i]| == |columns|
  {
    seq(|index|, i requires 0 <= i < |index| =>
      seq(|columns|, j requires 0 <= j < |columns| => CellCount(rs, dim, index[i], columns[j])))
  }

  /** A column of zeros appended to every row. */
  function AddZeroColumn(cells: seq<seq<nat>>): (r: seq<seq<nat>>)
    ensures |r| == |cells|
    ensures forall i :: 0 <= i < |cells| ==> r[i] == cells[i] + [0]
  {
    seq(|cells|, i requires 0 <= i < |cells| => cells[i] + [0])
  }

  /** The unstacked counts over the sorted values and statuses satisfy the
      invariant. */
  lemma UnstackInvariant(rs: seq<Shipment>, dim: Field)
    ensures var index, columns := Ascending(DimValues(rs, dim)), Ascending(Statuses(rs));
      TableInvariant(rs, dim, index, columns, Unstack(rs, dim, index, columns))
  {
    var index, columns := Ascending(DimValues(rs, dim)), Ascending(Statuses(rs));
    assert forall r :: r in rs ==> FieldOf(dim, r) in index && r.status in columns by {
      AscendingFacts(DimValues(rs, dim));
      AscendingFacts(Statuses(rs));
      RecordsListed(rs, dim);
    }
    AscendingFacts(DimValues(rs, dim));
    AscendingFacts(Statuses(rs));
    UnstackFits(rs, dim, index, columns);
  }

  /** Counting every pair of distinct listed values and statuses gives a
      table that keeps the invariant, once every record is listed. */
  lemma UnstackFits(rs: seq<Shipment>, dim: Field, index: seq<string>, columns: seq<string>)
    requires forall i, j :: 0 <= i < j < |index| ==> index[i] != index[j]
    requires forall i, j :: 0 <= i < j < |columns| ==> columns[i] != columns[j]
    requires forall r :: r in rs ==> FieldOf(dim, r) in index && r.status in columns
    ensures TableInvariant(rs, dim, index, columns, Unstack(rs, dim, index, columns))
  {
  }

  lemma RecordsListed(rs: seq<Shipment>, dim: Field)
    ensures forall r :: r in rs ==> FieldOf(dim, r) in DimValues(rs, dim) && r.status in Statuses(rs)
  {
    forall r | r in rs ensures FieldOf(dim, r) in DimValues(rs, dim) && r.status in Statuses(rs) {
      var k :| 0 <= k < |rs| && rs[k] == r;
      assert DimValues(rs, dim)[k] == FieldOf(dim, r);
      assert Statuses(rs)[k] == r.status;
    }
  }

  /** Adding a status that no record has, with zeros, keeps the invariant. */
  lemma AddColumnInvariant(rs: seq<Shipment>, dim: Field, index: seq<string>, columns: seq<string>, cells: seq<seq<nat>>, c: string)
    requires TableInvariant(rs, dim, index, columns, cells)
    requires c !in columns
    ensures TableInvariant(rs, dim, index, columns + [c], AddZeroColumn(cells))
  {
    var cs := columns + [c];
    var cells' := AddZeroColumn(cells);
    forall i, j | 0 <= i < |index| && 0 <= j < |cs|
      ensures cells'[i][j] == CellCount(rs, dim, index[i], cs[j])
    {
      if j == |columns| {
        AbsentStatusCountsZero(rs, dim, index[i], c);
      } else {
        assert cells'[i][j] == cells[i][j];
      }
    }
    forall r | r in rs ensures r.status in cs {
    }
  }

  // ---------------------------------------------------------------------
  // The table as an object

  /** `freight_data` / `warehouse_data`: one row per dimension value, one
      column per status. */
  class StatusTable {
    var index: seq<string>
    var columns: seq<string>
    var cells: seq<seq<nat>>
    ghost const records: seq<Shipment>
    ghost const dim: Field

    ghost predicate Valid()
      reads this
    {
      TableInvariant(records, dim, index, columns, cells)
    }

    /** `groupby(...).size().unstack(fill_value=0)`: values and statuses in
        ascending order, 0 for a pair that does not occur. */
    constructor (rs: seq<Shipment>, d: Field)
      ensures Valid() && records == rs && dim == d
      ensures index == Ascending(DimValues(rs, d)) && columns == Ascending(Statuses(rs))
    {
      records := rs;
      dim := d;
      var vs := Ascending(DimValues(rs, d));
      var cs := Ascending(Statuses(rs));
      index := vs;
      columns := cs;
      cells := Unstack(rs, d, vs, cs);
      UnstackInvariant(rs, d);
    }

    /** `if c not in data.columns: data[c] = 0`. */
    method EnsureColumn(c: string)
      requires Valid()
      modifies this
      ensures Valid()
      ensures index == old(index) && c in columns
      ensures old(c in columns) ==> columns == old(columns) && cells == old(cells)
      ensures old(c !in columns) ==> columns == old(columns) + [c] && cells == AddZeroColumn(old(cells))
    {
      if c !in columns {
        AddColumnInvariant(records, dim, index, columns, cells, c);
        columns := columns + [c];
        cells := AddZeroColumn(cells);
      }
    }

    /** The bars of a row add up to the records of its value. */
    lemma RowTotal(v: string)
      requires Valid()
      ensures Sum(columns, CellOf(records, dim, v)) == |Filter(records, r => HasValue(dim, v, r))| as real
    {
      BarGroupTotal(records, dim, v, columns);
    }

    /** The cell of a value and a status, 0 when either is not listed. */
    function Cell(v: string, c: string): nat
      reads this
    {
      if v in index && c in columns then
        var i, j := IndexOf(index, v), IndexOf(columns, c);
        if i < |cells| && j < |cells[i]| then cells[i][j] else 0
      else 0
    }

    /** Every cell, looked up by value and status, is the number of records
        with that value and status. */
    lemma CellIsCount(v: string, c: string)
      requires Valid()
      ensures Cell(v, c) == CellCount(records, dim, v, c)
    {
      if !(v in index && c in columns) {
        CellMeaning(records, dim, v, c);
        forall r | r in records ensures !HasValueAndStatus(dim, v, c, r) {
        }
        FilterNone(records, r => HasValueAndStatus(dim, v, c, r));
      }
    }
  }

  function IndexOf(s: seq<string>, v: string): (i: nat)
    requires v in s
    ensures i < |s| && s[i] == v
  {
    if s[0] == v then 0 else 1 + IndexOf(s[1..], v)
  }

  /** The columns after the two checks of `freight_data` / `warehouse_data`:
      the columns before, then 提前/准时 and 延期 when they are missing, in
      that order. */
  function ChartColumns(cs: seq<string>): (r: seq<string>)
    ensures OnTimeStatus in r && DelayedStatus in r
    ensures |r| >= |cs| && r[..|cs|] == cs
  {
    cs + (if OnTimeStatus in cs then [] else [OnTimeStatus])
       + (if DelayedStatus in cs then [] else [DelayedStatus])
  }

  /** The two `if c not in data.columns: data[c] = 0` of the chart. */
  method AddStatusColumns(t: StatusTable)
    requires t.Valid()
    modifies t
    ensures t.Valid() && t.index == old(t.index)
    ensures t.columns == ChartColumns(old(t.columns))
  {
    ghost var cs := t.columns;
    t.EnsureColumn(OnTimeStatus);
    ghost var added := if OnTimeStatus in cs then [] else [OnTimeStatus];
    assert t.columns == cs + added;
    OtherStatusAbsent(cs, added);
    t.EnsureColumn(DelayedStatus);
  }

  /** Appending 提前/准时 does not add 延期. */
  lemma OtherStatusAbsent(cs: seq<string>, added: seq<string>)
    requires added == [] || added == [OnTimeStatus]
    ensures DelayedStatus in cs + added <==> DelayedStatus in cs
  {
    assert OnTimeStatus != DelayedStatus;
  }

  /** `freight_data` / `warehouse_data` as the chart receives them: the
      occurring statuses in ascending order, then 提前/准时 and 延期 when
      they are missing; each cell counts its pair. */
  method ChartCounts(rs: seq<Shipment>, dim: Field) returns (t: StatusTable)
    ensures fresh(t) && t.Valid() && t.records == rs && t.dim == dim
    ensures t.index == Ascending(DimValues(rs, dim))
    ensures t.columns == ChartColumns(Ascending(Statuses(rs)))
  {
    t := new StatusTable(rs, dim);
    AddStatusColumns(t);
  }
}
