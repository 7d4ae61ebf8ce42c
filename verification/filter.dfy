/** The compound row filter of app.py lines 80-86: three `isin` tests and two
    date comparisons, combined with `&`. */
module Filter {
  import opened Seqs
  import opened Dates
  import opened Records

  /** The sidebar's output: the chosen first and last day and the three
      multiselect lists. */
  datatype Criteria = Criteria(start: Date, end: Date, rsps: seq<string>, sections: seq<string>, sizes: seq<string>)

  /** The lower date bound: the row's timestamp is not before the midnight that
      starts the chosen first day. A NaT date compares false. */
  predicate OnOrAfter(date: Option<Timestamp>, start: Date)
  {
    match date
    case Some(t) => TimestampLe(Midnight(start), t)
    case None => false
  }

  /** The upper date bound: the row's timestamp is not after the midnight that
      starts the chosen last day. A NaT date compares false. */
  predicate OnOrBefore(date: Option<Timestamp>, end: Date)
  {
    match date
    case Some(t) => TimestampLe(t, Midnight(end))
    case None => false
  }

  /** The mask at one row: each categorical value is among the chosen ones (an
      empty choice admits nothing) and the date lies within both bounds. */
  predicate Keeps(c: Criteria, r: Record)
  {
    && r.rsp in c.rsps
    && r.section in c.sections
    && r.size in c.sizes
    && OnOrAfter(r.date, c.start)
    && OnOrBefore(r.date, c.end)
  }

  /** The lower bound admits every time of the first day and everything later. */
  lemma OnOrAfterFromFirstDay(t: Timestamp, start: Date)
    requires 0 <= t.nanos
    ensures OnOrAfter(Some(t), start) <==> DateLe(start, t.date)
  {
    AtOrAfterMidnight(start, t);
  }

  /** The upper bound admits every earlier day but, of the last day, only its
      midnight: a sale later that day is past the bound. */
  lemma OnOrBeforeUpToLastMidnight(t: Timestamp, end: Date)
    requires 0 <= t.nanos
    ensures OnOrBefore(Some(t), end) <==> DateLe(t.date, end) && (t.date == end ==> t.nanos == 0)
  {
    AtOrBeforeMidnight(t, end);
  }

  /** The mask in terms of days: the three selections, the first day or later,
      and before the last day or at its midnight. */
  lemma KeepsInDays(c: Criteria, r: Record)
    requires r.date.Some? && 0 <= r.date.value.nanos
    ensures Keeps(c, r) <==>
              && r.rsp in c.rsps && r.section in c.sections && r.size in c.sizes
              && DateLe(c.start, r.date.value.date)
              && DateLe(r.date.value.date, c.end)
              && (r.date.value.date == c.end ==> r.date.value.nanos == 0)
  {
    OnOrAfterFromFirstDay(r.date.value, c.start);
    OnOrBeforeUpToLastMidnight(r.date.value, c.end);
  }

  /** Boolean indexing by the mask: the rows it keeps, in sheet order, each as
      often as it occurs. */
  function FilterRows(rows: seq<Record>, c: Criteria): (view: seq<Record>)
    ensures IsSubsequence(view, rows)
    ensures forall r :: r in view <==> r in rows && Keeps(c, r)
    ensures forall r :: multiset(view)[r] == if Keeps(c, r) then multiset(rows)[r] else 0
  {
    if rows == [] then []
    else
      var rest := FilterRows(rows[1..], c);
      assert rows == [rows[0]] + rows[1..];
      if Keeps(c, rows[0]) then [rows[0]] + rest else rest
  }

  /** A NaT date fails both date comparisons, whatever the bounds. */
  lemma NaTFailsBothBounds(c: Criteria, r: Record)
    requires r.date.None?
    ensures !OnOrAfter(r.date, c.start) && !OnOrBefore(r.date, c.end)
    ensures !Keeps(c, r)
  {
  }

  /** Emptying any of the three multiselects empties the result, whatever the dates. */
  lemma {:induction false} EmptySelectionMatchesNothing(rows: seq<Record>, c: Criteria)
    requires c.rsps == [] || c.sections == [] || c.sizes == []
    ensures FilterRows(rows, c) == []
    decreases |rows|
  {
    if rows != [] {
      EmptySelectionMatchesNothing(rows[1..], c);
    }
  }

  /** A start date after the end date admits no row. */
  lemma {:induction false} ReversedRangeMatchesNothing(rows: seq<Record>, c: Criteria)
    requires !DateLe(c.start, c.end)
    ensures FilterRows(rows, c) == []
    decreases |rows|
  {
    if rows != [] {
      ReversedRangeMatchesNothing(rows[1..], c);
      if rows[0].date.Some? && Keeps(c, rows[0]) {
        TimestampLeTransitive(Midnight(c.start), rows[0].date.value, Midnight(c.end));
      }
    }
  }

  /** Filtering the filtered rows again with the same criteria changes nothing. */
  lemma {:induction false} FilterIdempotent(rows: seq<Record>, c: Criteria)
    ensures FilterRows(FilterRows(rows, c), c) == FilterRows(rows, c)
    decreases |rows|
  {
    if rows != [] {
      FilterIdempotent(rows[1..], c);
      if Keeps(c, rows[0]) {
        var v := FilterRows(rows, c);
        assert v == [rows[0]] + FilterRows(rows[1..], c);
        assert v[1..] == FilterRows(rows[1..], c);
      }
    }
  }

  /** The rows whose date parsed. */
  function Dated(rows: seq<Record>): (ds: seq<Record>)
    ensures forall r :: r in ds <==> r in rows && r.date.Some?
  {
    if rows == [] then []
    else
      assert rows == [rows[0]] + rows[1..];
      (if rows[0].date.Some? then [rows[0]] else []) + Dated(rows[1..])
  }

  /** Rows whose date is NaT can be dropped before filtering without changing the
      result: they never reach the view, nor anything aggregated from it. */
  lemma {:induction false} UndatedRowsNeverFiltered(rows: seq<Record>, c: Criteria)
    ensures FilterRows(rows, c) == FilterRows(Dated(rows), c)
    decreases |rows|
  {
    if rows != [] {
      var r, tail := rows[0], rows[1..];
      UndatedRowsNeverFiltered(tail, c);
      var ds := Dated(rows);
      if r.date.Some? {
        assert ds == [r] + Dated(tail);
        assert ds[0] == r && ds[1..] == Dated(tail);
        assert FilterRows(ds, c) == (if Keeps(c, r) then [r] else []) + FilterRows(Dated(tail), c);
      } else {
        assert ds == Dated(tail);
        assert !Keeps(c, r);
        assert FilterRows(rows, c) == FilterRows(tail, c);
      }
    }
  }
}
