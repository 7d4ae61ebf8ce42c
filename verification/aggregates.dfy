/** The tables the dashboard computes from the filtered rows: per-column sums
    (app.py lines 89-101), month-by-category pivots with zero fill (lines 104-131)
    and the (SECTION, RSP, SIZE) table (lines 230-236). */
module Aggregates {
  import opened Seqs
  import opened Order
  import opened Records
  import opened GroupBy

  /** One row of a per-column sales table: a value of the column and its summed quantity. */
  datatype DimTotal = DimTotal(key: string, total: int)

  /** A month-by-category pivot: sorted row labels, sorted column labels and a dense
      grid of sums, `cells[i][j]` for month `months[i]` and category `categories[j]`. */
  datatype Pivot = Pivot(months: seq<string>, categories: seq<string>, cells: seq<seq<int>>)

  /** One row of the hierarchical pivot after `reset_index()`. */
  datatype HierTotal = HierTotal(section: string, rsp: string, size: string, total: int)

  /** The values a column takes in the rows. */
  function ColumnValues(rows: seq<Record>, col: Column): set<string>
  {
    set r | r in rows :: Field(r, col)
  }

  /** The (SECTION, RSP, SIZE) combinations present in the rows. */
  function TriplesPresent(rows: seq<Record>): set<(string, string, string)>
  {
    set r | r in rows :: (r.section, r.rsp, r.size)
  }

  function SumDimTotals(ts: seq<DimTotal>): int
  {
    if ts == [] then 0 else ts[0].total + SumDimTotals(ts[1..])
  }

  function SumHierTotals(hs: seq<HierTotal>): int
  {
    if hs == [] then 0 else hs[0].total + SumHierTotals(hs[1..])
  }

  function RowSum(cells: seq<int>): int
  {
    if cells == [] then 0 else cells[0] + RowSum(cells[1..])
  }

  function GridSum(cells: seq<seq<int>>): int
  {
    if cells == [] then 0 else RowSum(cells[0]) + GridSum(cells[1..])
  }

  /** The order of the hierarchical table: by section, then RSP, then size. */
  predicate HierLess(a: HierTotal, b: HierTotal)
  {
    StrLess(a.section, b.section)
    || (a.section == b.section && (StrLess(a.rsp, b.rsp) || (a.rsp == b.rsp && StrLess(a.size, b.size))))
  }

  lemma KeyOfSingle(r: Record, col: Column)
    ensures KeyOf(r, [col]) == [Field(r, col)]
  {
  }

  lemma KeyOfPair(r: Record, c0: Column, c1: Column)
    ensures KeyOf(r, [c0, c1]) == [Field(r, c0), Field(r, c1)]
  {
  }

  lemma KeyOfTriple(r: Record)
    ensures KeyOf(r, [Section, Rsp, Size]) == [r.section, r.rsp, r.size]
  {
  }

  lemma StrictlyIncreasingNoDuplicates(s: seq<string>)
    requires StrictlyIncreasing(s)
    ensures NoDuplicates(s)
  {
    forall i, j | 0 <= i < j < |s| ensures s[i] != s[j] {
      StrLessIrreflexive(s[i]);
    }
  }

  /** Unwraps the one-element keys of a single-column aggregate. */
  function SingleKeyed(gs: seq<Group>): (ts: seq<DimTotal>)
    requires forall i :: 0 <= i < |gs| ==> |gs[i].key| == 1
    ensures |ts| == |gs|
    ensures forall i :: 0 <= i < |gs| ==> ts[i] == DimTotal(gs[i].key[0], gs[i].total)
    ensures SumDimTotals(ts) == SumTotals(gs)
  {
    if gs == [] then [] else [DimTotal(gs[0].key[0], gs[0].total)] + SingleKeyed(gs[1..])
  }

  /** Unwraps the three-element keys of the (SECTION, RSP, SIZE) aggregate. */
  function TripleKeyed(gs: seq<Group>): (hs: seq<HierTotal>)
    requires forall i :: 0 <= i < |gs| ==> |gs[i].key| == 3
    ensures |hs| == |gs|
    ensures forall i :: 0 <= i < |gs| ==> hs[i] == HierTotal(gs[i].key[0], gs[i].key[1], gs[i].key[2], gs[i].total)
    ensures SumHierTotals(hs) == SumTotals(gs)
  {
    if gs == [] then []
    else [HierTotal(gs[0].key[0], gs[0].key[1], gs[0].key[2], gs[0].total)] + TripleKeyed(gs[1..])
  }

  /** Every group of an aggregate has a key as long as the column list. */
  lemma AggregateKeyLength(rows: seq<Record>, cols: seq<Column>, i: int)
    requires 0 <= i < |Aggregate(rows, cols)|
    ensures |Aggregate(rows, cols)[i].key| == |cols|
    ensures exists r :: r in rows && KeyOf(r, cols) == Aggregate(rows, cols)[i].key
  {
    var gs := Aggregate(rows, cols);
    assert gs[i] in gs;
    assert gs[i].key in GroupKeys(gs);
  }

  /** The sales summed per value of one column: sorted by value, one entry per value present, each the sum
      of its rows, together the total of all rows. */
  function GroupSum(rows: seq<Record>, col: Column): (ts: seq<DimTotal>)
    ensures forall i, j :: 0 <= i < j < |ts| ==> StrLess(ts[i].key, ts[j].key)
    ensures (set t | t in ts :: t.key) == ColumnValues(rows, col)
    ensures forall i :: 0 <= i < |ts| ==> ts[i].total == SumWhere(rows, [col], [ts[i].key])
    ensures SumDimTotals(ts) == Sum(rows)
  {
    var gs := Aggregate(rows, [col]);
    forall i | 0 <= i < |gs| ensures |gs[i].key| == 1 {
      AggregateKeyLength(rows, [col], i);
    }
    var ts := SingleKeyed(gs);
    GroupSumFacts(rows, col, gs, ts);
    ts
  }

  lemma GroupSumFacts(rows: seq<Record>, col: Column, gs: seq<Group>, ts: seq<DimTotal>)
    requires gs == Aggregate(rows, [col])
    requires |ts| == |gs|
    requires forall i :: 0 <= i < |gs| ==> |gs[i].key| == 1 && ts[i] == DimTotal(gs[i].key[0], gs[i].total)
    ensures forall i, j :: 0 <= i < j < |ts| ==> StrLess(ts[i].key, ts[j].key)
    ensures (set t | t in ts :: t.key) == ColumnValues(rows, col)
    ensures forall i :: 0 <= i < |ts| ==> ts[i].total == SumWhere(rows, [col], [ts[i].key])
  {
    forall i | 0 <= i < |gs| ensures gs[i].key == [ts[i].key] {
      assert gs[i].key == [gs[i].key[0]];
    }
    GroupSumSorted(gs, ts);
    forall i | 0 <= i < |ts| ensures ts[i].total == SumWhere(rows, [col], [ts[i].key]) {
      AggregateTotals(rows, [col], i);
    }
    GroupSumValuesPresent(rows, col, gs, ts);
    GroupSumValuesComplete(rows, col, gs, ts);
  }

  lemma GroupSumSorted(gs: seq<Group>, ts: seq<DimTotal>)
    requires SortedByKey(gs) && |ts| == |gs|
    requires forall i :: 0 <= i < |gs| ==> gs[i].key == [ts[i].key]
    ensures forall i, j :: 0 <= i < j < |ts| ==> StrLess(ts[i].key, ts[j].key)
  {
    forall i, j | 0 <= i < j < |ts| ensures StrLess(ts[i].key, ts[j].key) {
      KeyLessSingleton(ts[i].key, ts[j].key);
    }
  }

  lemma GroupSumValuesPresent(rows: seq<Record>, col: Column, gs: seq<Group>, ts: seq<DimTotal>)
    requires gs == Aggregate(rows, [col]) && |ts| == |gs|
    requires forall i :: 0 <= i < |gs| ==> gs[i].key == [ts[i].key]
    ensures forall v :: v in (set t | t in ts :: t.key) ==> v in ColumnValues(rows, col)
  {
    forall v | v in (set t | t in ts :: t.key) ensures v in ColumnValues(rows, col) {
      var t :| t in ts && t.key == v;
      var i :| 0 <= i < |ts| && ts[i] == t;
      AggregateKeyLength(rows, [col], i);
      var r :| r in rows && KeyOf(r, [col]) == gs[i].key;
      KeyOfSingle(r, col);
    }
  }

  lemma GroupSumValuesComplete(rows: seq<Record>, col: Column, gs: seq<Group>, ts: seq<DimTotal>)
    requires gs == Aggregate(rows, [col]) && |ts| == |gs|
    requires forall i :: 0 <= i < |gs| ==> gs[i].key == [ts[i].key]
    ensures forall v :: v in ColumnValues(rows, col) ==> v in (set t | t in ts :: t.key)
  {
    forall v | v in ColumnValues(rows, col) ensures v in (set t | t in ts :: t.key) {
      var r :| r in rows && Field(r, col) == v;
      KeyOfSingle(r, col);
      assert [v] in KeySet(rows, [col]);
      var g :| g in gs && g.key == [v];
      var i :| 0 <= i < |gs| && gs[i] == g;
      assert ts[i] in ts;
    }
  }

  /** The keys of a table, in order. */
  function KeysOf(ts: seq<DimTotal>): (vs: seq<string>)
    ensures |vs| == |ts| && forall i :: 0 <= i < |ts| ==> vs[i] == ts[i].key
    ensures (set v | v in vs) == (set t | t in ts :: t.key)
  {
    var vs := seq(|ts|, i requires 0 <= i < |ts| => ts[i].key);
    forall v | v in vs ensures v in (set t | t in ts :: t.key) {
      var i :| 0 <= i < |vs| && vs[i] == v;
      assert ts[i] in ts;
    }
    forall v | v in (set t | t in ts :: t.key) ensures v in vs {
      var t :| t in ts && t.key == v;
      var i :| 0 <= i < |ts| && ts[i] == t;
      assert vs[i] == v;
    }
    vs
  }

  /** The distinct values of a column, sorted: the labels `pivot_table` gives its
      rows and columns. */
  function DistinctValues(rows: seq<Record>, col: Column): (vs: seq<string>)
    ensures StrictlyIncreasing(vs)
    ensures (set v | v in vs) == ColumnValues(rows, col)
  {
    KeysOf(GroupSum(rows, col))
  }

  /** The dense grid of a pivot: one cell per (month, category) pair, looked up in
      the grouped sums. */
  function Grid(gs: seq<Group>, ms: seq<string>, ds: seq<string>): (cells: seq<seq<int>>)
    ensures |cells| == |ms|
    ensures forall i :: 0 <= i < |cells| ==> |cells[i]| == |ds|
    ensures forall i, j :: 0 <= i < |ms| && 0 <= j < |ds| ==> cells[i][j] == TotalOf(gs, [ms[i], ds[j]])
  {
    seq(|ms|, i requires 0 <= i < |ms| => seq(|ds|, j requires 0 <= j < |ds| => TotalOf(gs, [ms[i], ds[j]])))
  }

  /** The month-by-category pivot of summed quantities with missing cells filled
      with zero: every (month, category) cell exists, and holds the sum of the rows with that month and
      category, 0 when there are none. */
  function MonthlyPivot(rows: seq<Record>, col: Column): (p: Pivot)
    ensures StrictlyIncreasing(p.months) && (set m | m in p.months) == ColumnValues(rows, Month)
    ensures StrictlyIncreasing(p.categories) && (set d | d in p.categories) == ColumnValues(rows, col)
    ensures |p.cells| == |p.months|
    ensures forall i :: 0 <= i < |p.cells| ==> |p.cells[i]| == |p.categories|
    ensures forall i, j :: 0 <= i < |p.months| && 0 <= j < |p.categories| ==>
              p.cells[i][j] == SumWhere(rows, [Month, col], [p.months[i], p.categories[j]])
  {
    var ms := DistinctValues(rows, Month);
    var ds := DistinctValues(rows, col);
    Pivot(ms, ds, Grid(Aggregate(rows, [Month, col]), ms, ds))
  }

  /** A pivot cell for a (month, category) pair that no row has holds 0: the zero
      fill. */
  lemma PivotZeroFill(rows: seq<Record>, col: Column, m: string, d: string)
    requires forall r :: r in rows ==> r.month != m || Field(r, col) != d
    ensures forall i, j :: 0 <= i < |MonthlyPivot(rows, col).months| && 0 <= j < |MonthlyPivot(rows, col).categories|
              && MonthlyPivot(rows, col).months[i] == m && MonthlyPivot(rows, col).categories[j] == d
              ==> MonthlyPivot(rows, col).cells[i][j] == 0
  {
    NoRowsSumToZero(rows, col, m, d);
  }

  lemma NoRowsSumToZero(rows: seq<Record>, col: Column, m: string, d: string)
    requires forall r :: r in rows ==> r.month != m || Field(r, col) != d
    ensures SumWhere(rows, [Month, col], [m, d]) == 0
  {
    forall r | r in rows ensures KeyOf(r, [Month, col]) != [m, d] {
      KeyOfPair(r, Month, col);
    }
    assert [m, d] !in KeySet(rows, [Month, col]);
    SumWhereAbsent(rows, [Month, col], [m, d]);
  }

  /** The sales summed per (section, RSP, size) triple, flattened into rows:
      sorted by the triple, one row per triple present, each the sum of its rows,
      together the total of all rows. */
  function HierarchicalSum(rows: seq<Record>): (hs: seq<HierTotal>)
    ensures forall i, j :: 0 <= i < j < |hs| ==> HierLess(hs[i], hs[j])
    ensures (set h | h in hs :: (h.section, h.rsp, h.size)) == TriplesPresent(rows)
    ensures forall i :: 0 <= i < |hs| ==>
              hs[i].total == SumWhere(rows, [Section, Rsp, Size], [hs[i].section, hs[i].rsp, hs[i].size])
    ensures SumHierTotals(hs) == Sum(rows)
  {
    var gs := Aggregate(rows, [Section, Rsp, Size]);
    forall i | 0 <= i < |gs| ensures |gs[i].key| == 3 {
      AggregateKeyLength(rows, [Section, Rsp, Size], i);
    }
    var hs := TripleKeyed(gs);
    HierarchicalFacts(rows, gs, hs);
    hs
  }

  lemma HierarchicalFacts(rows: seq<Record>, gs: seq<Group>, hs: seq<HierTotal>)
    requires gs == Aggregate(rows, [Section, Rsp, Size])
    requires |hs| == |gs|
    requires forall i :: 0 <= i < |gs| ==> |gs[i].key| == 3 && hs[i] == HierTotal(gs[i].key[0], gs[i].key[1], gs[i].key[2], gs[i].total)
    ensures forall i, j :: 0 <= i < j < |hs| ==> HierLess(hs[i], hs[j])
    ensures (set h | h in hs :: (h.section, h.rsp, h.size)) == TriplesPresent(rows)
    ensures forall i :: 0 <= i < |hs| ==>
              hs[i].total == SumWhere(rows, [Section, Rsp, Size], [hs[i].section, hs[i].rsp, hs[i].size])
  {
    TripleKeysMatch(gs, hs);
    HierarchicalSorted(gs, hs);
    HierarchicalTotals(rows, gs, hs);
    HierarchicalTriplesPresent(rows, gs, hs);
    HierarchicalTriplesComplete(rows, gs, hs);
  }

  lemma TripleKeysMatch(gs: seq<Group>, hs: seq<HierTotal>)
    requires |hs| == |gs|
    requires forall i :: 0 <= i < |gs| ==> |gs[i].key| == 3 && hs[i] == HierTotal(gs[i].key[0], gs[i].key[1], gs[i].key[2], gs[i].total)
    ensures forall i :: 0 <= i < |gs| ==> gs[i].key == [hs[i].section, hs[i].rsp, hs[i].size] && hs[i].total == gs[i].total
  {
  }

  lemma HierarchicalTotals(rows: seq<Record>, gs: seq<Group>, hs: seq<HierTotal>)
    requires gs == Aggregate(rows, [Section, Rsp, Size]) && |hs| == |gs|
    requires forall i :: 0 <= i < |gs| ==> gs[i].key == [hs[i].section, hs[i].rsp, hs[i].size] && hs[i].total == gs[i].total
    ensures forall i :: 0 <= i < |hs| ==>
              hs[i].total == SumWhere(rows, [Section, Rsp, Size], [hs[i].section, hs[i].rsp, hs[i].size])
  {
    forall i | 0 <= i < |hs| ensures hs[i].total == SumWhere(rows, [Section, Rsp, Size], [hs[i].section, hs[i].rsp, hs[i].size]) {
      AggregateTotals(rows, [Section, Rsp, Size], i);
    }
  }

  lemma HierarchicalSorted(gs: seq<Group>, hs: seq<HierTotal>)
    requires SortedByKey(gs) && |hs| == |gs|
    requires forall i :: 0 <= i < |gs| ==> gs[i].key == [hs[i].section, hs[i].rsp, hs[i].size]
    ensures forall i, j :: 0 <= i < j < |hs| ==> HierLess(hs[i], hs[j])
  {
    forall i, j | 0 <= i < j < |hs| ensures HierLess(hs[i], hs[j]) {
      KeyLessTriple(hs[i].section, hs[i].rsp, hs[i].size, hs[j].section, hs[j].rsp, hs[j].size);
    }
  }

  lemma HierarchicalTriplesPresent(rows: seq<Record>, gs: seq<Group>, hs: seq<HierTotal>)
    requires gs == Aggregate(rows, [Section, Rsp, Size]) && |hs| == |gs|
    requires forall i :: 0 <= i < |gs| ==> gs[i].key == [hs[i].section, hs[i].rsp, hs[i].size]
    ensures forall t :: t in (set h | h in hs :: (h.section, h.rsp, h.size)) ==> t in TriplesPresent(rows)
  {
    forall t | t in (set h | h in hs :: (h.section, h.rsp, h.size)) ensures t in TriplesPresent(rows) {
      var h :| h in hs && (h.section, h.rsp, h.size) == t;
      var i :| 0 <= i < |hs| && hs[i] == h;
      AggregateKeyLength(rows, [Section, Rsp, Size], i);
      var r :| r in rows && KeyOf(r, [Section, Rsp, Size]) == gs[i].key;
      KeyOfTriple(r);
    }
  }

  lemma HierarchicalTriplesComplete(rows: seq<Record>, gs: seq<Group>, hs: seq<HierTotal>)
    requires gs == Aggregate(rows, [Section, Rsp, Size]) && |hs| == |gs|
    requires forall i :: 0 <= i < |gs| ==> gs[i].key == [hs[i].section, hs[i].rsp, hs[i].size]
    ensures forall t :: t in TriplesPresent(rows) ==> t in (set h | h in hs :: (h.section, h.rsp, h.size))
  {
    forall t | t in TriplesPresent(rows) ensures t in (set h | h in hs :: (h.section, h.rsp, h.size)) {
      var r :| r in rows && (r.section, r.rsp, r.size) == t;
      KeyOfTriple(r);
      assert [r.section, r.rsp, r.size] in KeySet(rows, [Section, Rsp, Size]);
      var g :| g in gs && g.key == [r.section, r.rsp, r.size];
      var i :| 0 <= i < |gs| && gs[i] == g;
      assert hs[i] in hs;
    }
  }

  // Sum conservation of the pivot grid: the cells partition the rows.

  /** Sum of the cells of one pivot row, stated on the rows themselves. */
  function CellsOver(rows: seq<Record>, col: Column, m: string, ds: seq<string>): int
  {
    if ds == [] then 0 else SumWhere(rows, [Month, col], [m, ds[0]]) + CellsOver(rows, col, m, ds[1..])
  }

  /** Sum of all cells of a pivot, stated on the rows themselves. */
  function GridOver(rows: seq<Record>, col: Column, ms: seq<string>, ds: seq<string>): int
  {
    if ms == [] then 0 else CellsOver(rows, col, ms[0], ds) + GridOver(rows, col, ms[1..], ds)
  }

  lemma SumWhereSnoc(rows: seq<Record>, x: Record, cols: seq<Column>, key: seq<string>)
    ensures SumWhere(rows + [x], cols, key) == SumWhere(rows, cols, key) + (if KeyOf(x, cols) == key then x.qty else 0)
  {
    assert (rows + [x])[..|rows|] == rows;
  }

  lemma SumSnoc(rows: seq<Record>, x: Record)
    ensures Sum(rows + [x]) == Sum(rows) + x.qty
  {
    assert (rows + [x])[..|rows|] == rows;
  }

  lemma {:induction false} CellsOverSnoc(rows: seq<Record>, x: Record, col: Column, m: string, ds: seq<string>)
    requires NoDuplicates(ds)
    ensures CellsOver(rows + [x], col, m, ds) ==
              CellsOver(rows, col, m, ds) + (if x.month == m && Field(x, col) in ds then x.qty else 0)
    decreases |ds|
  {
    if ds != [] {
      SumWhereSnoc(rows, x, [Month, col], [m, ds[0]]);
      KeyOfPair(x, Month, col);
      assert NoDuplicates(ds[1..]);
      CellsOverSnoc(rows, x, col, m, ds[1..]);
      assert ds == [ds[0]] + ds[1..];
      assert Field(x, col) == ds[0] ==> Field(x, col) !in ds[1..];
    }
  }

  lemma {:induction false} GridOverSnoc(rows: seq<Record>, x: Record, col: Column, ms: seq<string>, ds: seq<string>)
    requires NoDuplicates(ms) && NoDuplicates(ds)
    ensures GridOver(rows + [x], col, ms, ds) ==
              GridOver(rows, col, ms, ds) + (if x.month in ms && Field(x, col) in ds then x.qty else 0)
    decreases |ms|
  {
    if ms != [] {
      CellsOverSnoc(rows, x, col, ms[0], ds);
      assert NoDuplicates(ms[1..]);
      GridOverSnoc(rows, x, col, ms[1..], ds);
      assert ms == [ms[0]] + ms[1..];
      assert x.month == ms[0] ==> x.month !in ms[1..];
    }
  }

  /** When the labels are distinct and cover every row's month and category, the
      cells add up to the total of the rows. */
  lemma {:induction false} GridOverCoversRows(rows: seq<Record>, col: Column, ms: seq<string>, ds: seq<string>)
    requires NoDuplicates(ms) && NoDuplicates(ds)
    requires forall r :: r in rows ==> r.month in ms && Field(r, col) in ds
    ensures GridOver(rows, col, ms, ds) == Sum(rows)
    decreases |rows|
  {
    if rows == [] {
      GridOverEmpty(col, ms, ds);
    } else {
      var init, x := rows[..|rows| - 1], rows[|rows| - 1];
      assert rows == init + [x];
      assert x in rows;
      GridOverCoversRows(init, col, ms, ds);
      GridOverSnoc(init, x, col, ms, ds);
      SumSnoc(init, x);
    }
  }

  lemma {:induction false} GridOverEmpty(col: Column, ms: seq<string>, ds: seq<string>)
    ensures GridOver([], col, ms, ds) == 0
    decreases |ms|
  {
    if ms != [] {
      CellsOverEmpty(col, ms[0], ds);
      GridOverEmpty(col, ms[1..], ds);
    }
  }

  lemma {:induction false} CellsOverEmpty(col: Column, m: string, ds: seq<string>)
    ensures CellsOver([], col, m, ds) == 0
    decreases |ds|
  {
    if ds != [] {
      CellsOverEmpty(col, m, ds[1..]);
    }
  }

  lemma {:induction false} RowSumIsCellsOver(cells: seq<int>, rows: seq<Record>, col: Column, m: string, ds: seq<string>)
    requires |cells| == |ds|
    requires forall j :: 0 <= j < |ds| ==> cells[j] == SumWhere(rows, [Month, col], [m, ds[j]])
    ensures RowSum(cells) == CellsOver(rows, col, m, ds)
    decreases |ds|
  {
    if ds != [] {
      RowSumIsCellsOver(cells[1..], rows, col, m, ds[1..]);
    }
  }

  lemma {:induction false} GridSumIsGridOver(cells: seq<seq<int>>, rows: seq<Record>, col: Column, ms: seq<string>, ds: seq<string>)
    requires |cells| == |ms|
    requires forall i :: 0 <= i < |ms| ==> |cells[i]| == |ds|
    requires forall i, j :: 0 <= i < |ms| && 0 <= j < |ds| ==> cells[i][j] == SumWhere(rows, [Month, col], [ms[i], ds[j]])
    ensures GridSum(cells) == GridOver(rows, col, ms, ds)
    decreases |ms|
  {
    if ms != [] {
      RowSumIsCellsOver(cells[0], rows, col, ms[0], ds);
      GridSumIsGridOver(cells[1..], rows, col, ms[1..], ds);
    }
  }

  /** All cells of a monthly pivot add up to the total quantity of its rows. */
  lemma PivotConservesTotal(rows: seq<Record>, col: Column)
    ensures GridSum(MonthlyPivot(rows, col).cells) == Sum(rows)
  {
    var p := MonthlyPivot(rows, col);
    StrictlyIncreasingNoDuplicates(p.months);
    StrictlyIncreasingNoDuplicates(p.categories);
    LabelsCoverRows(rows, col, p);
    GridSumIsGridOver(p.cells, rows, col, p.months, p.categories);
    GridOverCoversRows(rows, col, p.months, p.categories);
  }

  lemma LabelsCoverRows(rows: seq<Record>, col: Column, p: Pivot)
    requires p == MonthlyPivot(rows, col)
    ensures forall r :: r in rows ==> r.month in p.months && Field(r, col) in p.categories
  {
    forall r | r in rows ensures r.month in p.months && Field(r, col) in p.categories {
      assert r.month == Field(r, Month);
      assert r.month in ColumnValues(rows, Month);
      assert Field(r, col) in ColumnValues(rows, col);
    }
  }
}
