/** The dashboard's data path end to end: normalised sheet, filtered view, and the
    tables computed from the view (app.py lines 18-131 and 230-236). */
module Dashboard {
  import opened Seqs
  import opened Order
  import opened Dates
  import opened Records
  import opened Filter
  import opened GroupBy
  import opened Aggregates
  import opened Sidebar

  /** The filtered rows for a sheet and the sidebar's choices: exactly the
      normalised rows the mask keeps, each as often as it occurs, in sheet order,
      all of them dated. */
  function View(raws: seq<RawRow>, c: Criteria): (view: seq<Record>)
    ensures forall r :: r in view <==> r in NormalizeAll(raws) && Keeps(c, r)
    ensures forall r :: multiset(view)[r] == if Keeps(c, r) then multiset(NormalizeAll(raws))[r] else 0
    ensures IsSubsequence(view, NormalizeAll(raws))
    ensures DatedView(view)
  {
    FilterRows(NormalizeAll(raws), c)
  }

  /** The three per-column tables, the three pivots and the hierarchical table all
      account for the same grand total: the quantity of the filtered rows. */
  lemma GrandTotalsAgree(view: seq<Record>)
    ensures SumDimTotals(GroupSum(view, Rsp)) == Sum(view)
    ensures SumDimTotals(GroupSum(view, Section)) == Sum(view)
    ensures SumDimTotals(GroupSum(view, Size)) == Sum(view)
    ensures GridSum(MonthlyPivot(view, Rsp).cells) == Sum(view)
    ensures GridSum(MonthlyPivot(view, Section).cells) == Sum(view)
    ensures GridSum(MonthlyPivot(view, Size).cells) == Sum(view)
    ensures SumHierTotals(HierarchicalSum(view)) == Sum(view)
  {
    PivotConservesTotal(view, Rsp);
    PivotConservesTotal(view, Section);
    PivotConservesTotal(view, Size);
  }

  /** An empty view yields empty tables, not an error. */
  lemma EmptyViewEmptyTables(col: Column)
    ensures GroupSum([], col) == []
    ensures MonthlyPivot([], col).months == [] && MonthlyPivot([], col).categories == []
    ensures MonthlyPivot([], col).cells == []
    ensures HierarchicalSum([]) == []
  {
  }

  /** Rows whose date is NaT take no part in any table: every table is the same
      whether or not they are in the sheet. */
  lemma UndatedRowsNeverAggregated(rows: seq<Record>, c: Criteria, col: Column)
    ensures GroupSum(FilterRows(rows, c), col) == GroupSum(FilterRows(Dated(rows), c), col)
    ensures MonthlyPivot(FilterRows(rows, c), col) == MonthlyPivot(FilterRows(Dated(rows), c), col)
    ensures HierarchicalSum(FilterRows(rows, c)) == HierarchicalSum(FilterRows(Dated(rows), c))
  {
    UndatedRowsNeverFiltered(rows, c);
  }

  /** What every row of a filtered view satisfies (see `View`). */
  predicate DatedView(view: seq<Record>)
  {
    forall r :: r in view ==> WellFormed(r) && r.date.Some?
  }

  /** The month column of a filtered view never holds the NaT text. */
  lemma NoNaTMonthInView(view: seq<Record>)
    requires DatedView(view)
    ensures NaTText !in ColumnValues(view, Month)
  {
    forall r | r in view ensures Field(r, Month) != NaTText {
      MonthIsNaTIffUndated(r);
    }
  }

  /** No pivot of a filtered view has the NaT month as a row label. */
  lemma NoNaTMonthInPivots(view: seq<Record>, col: Column)
    requires DatedView(view)
    ensures NaTText !in MonthlyPivot(view, col).months
  {
    NoNaTMonthInView(view);
    var ms := MonthlyPivot(view, col).months;
    assert NaTText !in (set m | m in ms);
  }

  /** The month label of every row of the view is a row label of the pivot. */
  lemma MonthIsPivotRow(view: seq<Record>, ms: seq<string>, x: Record)
    requires ms == DistinctValues(view, Month) && x in view
    ensures exists i :: 0 <= i < |ms| && ms[i] == x.month
  {
    assert Field(x, Month) in ColumnValues(view, Month);
    assert x.month in (set m | m in ms);
  }

  /** Pivot rows come in calendar order: a row dated in an earlier month than
      another sits in an earlier pivot row. */
  lemma PivotRowsChronological(view: seq<Record>, col: Column, x: Record, y: Record)
    requires DatedView(view)
    requires x in view && y in view
    requires MonthBefore(x.date.value.date, y.date.value.date)
    ensures exists i, j :: 0 <= i < j < |MonthlyPivot(view, col).months|
                        && MonthlyPivot(view, col).months[i] == x.month
                        && MonthlyPivot(view, col).months[j] == y.month
  {
    var ms := DistinctValues(view, Month);
    assert MonthlyPivot(view, col).months == ms;
    TimestampHasMonthKey(x.date.value);
    TimestampHasMonthKey(y.date.value);
    MonthKeyOrder(x.date.value.date, y.date.value.date);
    MonthIsPivotRow(view, ms, x);
    MonthIsPivotRow(view, ms, y);
    var i :| 0 <= i < |ms| && ms[i] == x.month;
    var j :| 0 <= j < |ms| && ms[j] == y.month;
    IncreasingIndexOrder(ms, i, j);
  }

  /** Two rows of a filtered view share a pivot row exactly when they fall in the
      same calendar month. */
  lemma PivotRowIsCalendarMonth(view: seq<Record>, x: Record, y: Record)
    requires DatedView(view)
    requires x in view && y in view
    ensures x.month == y.month <==>
              x.date.value.date.year == y.date.value.date.year && x.date.value.date.month == y.date.value.date.month
  {
    TimestampHasMonthKey(x.date.value);
    TimestampHasMonthKey(y.date.value);
    MonthKeySameMonth(x.date.value.date, y.date.value.date);
  }

  /** With the date picker left at its initial range, every dated row passes the
      lower bound, but of the rows on the last day only those stamped exactly at
      midnight pass the upper one: the bound is that day's first instant. */
  lemma DefaultRangeCutsLastDay(rows: seq<Record>, c: Criteria, r: Record)
    requires forall x :: x in rows ==> WellFormed(x)
    requires DefaultRange(rows).Some?
    requires c.start == DefaultRange(rows).value.0 && c.end == DefaultRange(rows).value.1
    requires r in rows && r.date.Some?
    ensures OnOrAfter(r.date, c.start)
    ensures OnOrBefore(r.date, c.end) <==> r.date.value.date != c.end || r.date.value.nanos == 0
  {
    OnOrAfterFromFirstDay(r.date.value, c.start);
    OnOrBeforeUpToLastMidnight(r.date.value, c.end);
  }

  /** A one-row sheet whose only sale is at 10:30 on 2024-02-28: the initial range
      is that single day, and the filter with every option selected drops the sale. */
  lemma LastDaySaleAfterMidnightIsDropped()
    ensures var t := Timestamp(Date(2024, 2, 28), 37_800_000_000_000);
            var r := Record(Some(t), "R1", "S1", "M", 5, MonthKey(t.date));
            && WellFormed(r)
            && DefaultRange([r]) == Some((t.date, t.date))
            && FilterRows([r], Criteria(t.date, t.date, ["R1"], ["S1"], ["M"])) == []
  {
    var t := Timestamp(Date(2024, 2, 28), 37_800_000_000_000);
    var r := Record(Some(t), "R1", "S1", "M", 5, MonthKey(t.date));
    assert [r][1..] == [];
    OnOrBeforeUpToLastMidnight(t, t.date);
  }
}
