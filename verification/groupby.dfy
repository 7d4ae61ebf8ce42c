/** Grouping rows by one or more columns and summing the quantity, with pandas'
    defaults: one group per key tuple present, groups sorted by key, each carrying
    the summed quantity. Every aggregate of the dashboard (lines 89-131 and 230-236 of app.py) is built
    on this one operation. */
module GroupBy {
  import opened Order
  import opened Records

  datatype Group = Group(key: seq<string>, total: int)

  /** Total quantity of a run of rows. */
  function Sum(rows: seq<Record>): int
  {
    if rows == [] then 0 else Sum(rows[..|rows| - 1]) + rows[|rows| - 1].qty
  }

  /** Total quantity of the rows whose key in `cols` is `key`: the reference
      meaning of one group's sum. */
  function SumWhere(rows: seq<Record>, cols: seq<Column>, key: seq<string>): int
  {
    if rows == [] then 0
    else
      var last := rows[|rows| - 1];
      SumWhere(rows[..|rows| - 1], cols, key) + (if KeyOf(last, cols) == key then last.qty else 0)
  }

  /** The key tuples present in the rows. */
  function KeySet(rows: seq<Record>, cols: seq<Column>): set<seq<string>>
  {
    set r | r in rows :: KeyOf(r, cols)
  }

  predicate SortedByKey(gs: seq<Group>)
  {
    forall i, j :: 0 <= i < j < |gs| ==> KeyLess(gs[i].key, gs[j].key)
  }

  function GroupKeys(gs: seq<Group>): set<seq<string>>
  {
    set g | g in gs :: g.key
  }

  /** The total stored under `key`, or 0 when no group has that key (the
      `fill_value=0` lookup). */
  function TotalOf(gs: seq<Group>, key: seq<string>): int
  {
    if gs == [] then 0 else if gs[0].key == key then gs[0].total else TotalOf(gs[1..], key)
  }

  function SumTotals(gs: seq<Group>): int
  {
    if gs == [] then 0 else gs[0].total + SumTotals(gs[1..])
  }

  lemma GroupKeysCons(g: Group, gs: seq<Group>)
    ensures GroupKeys([g] + gs) == {g.key} + GroupKeys(gs)
  {
    var l := [g] + gs;
    forall k | k in GroupKeys(l) ensures k in {g.key} + GroupKeys(gs) {
      var h :| h in l && h.key == k;
    }
    forall k | k in GroupKeys(gs) ensures k in GroupKeys(l) {
      var h :| h in gs && h.key == k;
      assert h in l;
    }
    assert g in l;
  }

  /** A key no group carries has total 0. */
  lemma {:induction false} TotalOfAbsent(gs: seq<Group>, key: seq<string>)
    requires key !in GroupKeys(gs)
    ensures TotalOf(gs, key) == 0
    decreases |gs|
  {
    if gs != [] {
      assert gs == [gs[0]] + gs[1..];
      GroupKeysCons(gs[0], gs[1..]);
      TotalOfAbsent(gs[1..], key);
    }
  }

  /** In a sorted table, looking up a group's key finds that group's total. */
  lemma {:induction false} TotalOfMember(gs: seq<Group>, i: int)
    requires SortedByKey(gs) && 0 <= i < |gs|
    ensures TotalOf(gs, gs[i].key) == gs[i].total
    decreases i
  {
    if i > 0 {
      KeyLessIrreflexive(gs[0].key);
      assert KeyLess(gs[0].key, gs[i].key);
      TotalOfMember(gs[1..], i - 1);
    }
  }

  /** Every key of a sorted table lies above its first key. */
  lemma TailKeysAbove(gs: seq<Group>)
    requires SortedByKey(gs) && gs != []
    ensures forall k :: k in GroupKeys(gs[1..]) ==> KeyLess(gs[0].key, k)
  {
    forall k | k in GroupKeys(gs[1..]) ensures KeyLess(gs[0].key, k) {
      var h :| h in gs[1..] && h.key == k;
      var j :| 0 <= j < |gs[1..]| && gs[1..][j] == h;
      assert gs[j + 1] == h;
    }
  }

  /** `r` is `gs` with one row of key `key` and quantity `qty` folded in. */
  ghost predicate IsAddition(gs: seq<Group>, key: seq<string>, qty: int, r: seq<Group>)
  {
    && SortedByKey(r)
    && GroupKeys(r) == GroupKeys(gs) + {key}
    && (forall k :: TotalOf(r, k) == TotalOf(gs, k) + (if k == key then qty else 0))
    && SumTotals(r) == SumTotals(gs) + qty
  }

  lemma AddToFirstGroup(gs: seq<Group>, key: seq<string>, qty: int)
    requires SortedByKey(gs) && gs != [] && gs[0].key == key
    ensures IsAddition(gs, key, qty, [Group(key, gs[0].total + qty)] + gs[1..])
  {
    var r := [Group(key, gs[0].total + qty)] + gs[1..];
    ReplaceFirstTotal(gs, r);
    GroupKeysCons(gs[0], gs[1..]);
    GroupKeysCons(r[0], gs[1..]);
    assert gs == [gs[0]] + gs[1..];
  }

  /** Changing only the first group's total keeps the keys and their order, and
      moves the totals by the difference. */
  lemma ReplaceFirstTotal(gs: seq<Group>, r: seq<Group>)
    requires SortedByKey(gs) && gs != [] && |r| == |gs|
    requires r[0].key == gs[0].key && r[1..] == gs[1..]
    ensures SortedByKey(r)
    ensures forall k :: TotalOf(r, k) == TotalOf(gs, k) + (if k == gs[0].key then r[0].total - gs[0].total else 0)
    ensures SumTotals(r) == SumTotals(gs) + r[0].total - gs[0].total
  {
    forall i | 0 <= i < |gs| ensures r[i].key == gs[i].key {
      if i > 0 {
        assert r[i] == r[1..][i - 1];
      }
    }
  }

  lemma OpenGroupInFront(gs: seq<Group>, key: seq<string>, qty: int)
    requires SortedByKey(gs) && (gs == [] || KeyLess(key, gs[0].key))
    ensures IsAddition(gs, key, qty, [Group(key, qty)] + gs)
  {
    var r := [Group(key, qty)] + gs;
    GroupKeysCons(r[0], gs);
    forall j | 0 <= j < |gs| ensures KeyLess(key, gs[j].key) {
      if j > 0 {
        KeyLessTransitive(key, gs[0].key, gs[j].key);
      }
    }
    KeyLessIrreflexive(key);
    TotalOfAbsent(gs, key);
    assert r[1..] == gs;
  }

  lemma KeepFirstSorted(gs: seq<Group>, key: seq<string>, rest: seq<Group>)
    requires SortedByKey(gs) && gs != [] && KeyLess(gs[0].key, key)
    requires SortedByKey(rest) && GroupKeys(rest) == GroupKeys(gs[1..]) + {key}
    ensures SortedByKey([gs[0]] + rest)
  {
    TailKeysAbove(gs);
    forall j | 0 <= j < |rest| ensures KeyLess(gs[0].key, rest[j].key) {
      assert rest[j] in rest;
      assert rest[j].key in GroupKeys(rest);
    }
  }

  lemma KeepFirstTotals(gs: seq<Group>, key: seq<string>, qty: int, rest: seq<Group>)
    requires gs != [] && gs[0].key != key
    requires forall k :: TotalOf(rest, k) == TotalOf(gs[1..], k) + (if k == key then qty else 0)
    ensures forall k :: TotalOf([gs[0]] + rest, k) == TotalOf(gs, k) + (if k == key then qty else 0)
  {
    var r := [gs[0]] + rest;
    assert r[1..] == rest;
    forall k ensures TotalOf(r, k) == TotalOf(gs, k) + (if k == key then qty else 0) {
      if k != gs[0].key {
        assert TotalOf(r, k) == TotalOf(rest, k);
      }
    }
  }

  lemma KeepFirstKeysAndSum(gs: seq<Group>, key: seq<string>, qty: int, rest: seq<Group>)
    requires gs != []
    requires GroupKeys(rest) == GroupKeys(gs[1..]) + {key}
    requires SumTotals(rest) == SumTotals(gs[1..]) + qty
    ensures GroupKeys([gs[0]] + rest) == GroupKeys(gs) + {key}
    ensures SumTotals([gs[0]] + rest) == SumTotals(gs) + qty
  {
    var r := [gs[0]] + rest;
    assert gs == [gs[0]] + gs[1..];
    GroupKeysCons(gs[0], gs[1..]);
    GroupKeysCons(gs[0], rest);
    assert r[1..] == rest;
  }

  lemma KeepFirstGroup(gs: seq<Group>, key: seq<string>, qty: int, rest: seq<Group>)
    requires SortedByKey(gs) && gs != [] && KeyLess(gs[0].key, key)
    requires IsAddition(gs[1..], key, qty, rest)
    ensures IsAddition(gs, key, qty, [gs[0]] + rest)
  {
    KeepFirstSorted(gs, key, rest);
    KeyLessIrreflexive(key);
    KeepFirstTotals(gs, key, qty, rest);
    KeepFirstKeysAndSum(gs, key, qty, rest);
  }

  /** Folding one row into a sorted table: add to its group, or open a new group at
      its sorted place. */
  function AddRow(gs: seq<Group>, key: seq<string>, qty: int): (r: seq<Group>)
    requires SortedByKey(gs)
    ensures SortedByKey(r)
    ensures GroupKeys(r) == GroupKeys(gs) + {key}
    ensures forall k :: TotalOf(r, k) == TotalOf(gs, k) + (if k == key then qty else 0)
    ensures SumTotals(r) == SumTotals(gs) + qty
    decreases |gs|
  {
    if gs == [] || KeyLess(key, gs[0].key) then
      OpenGroupInFront(gs, key, qty);
      [Group(key, qty)] + gs
    else if gs[0].key == key then
      AddToFirstGroup(gs, key, qty);
      [Group(key, gs[0].total + qty)] + gs[1..]
    else
      KeyLessTotal(key, gs[0].key);
      var rest := AddRow(gs[1..], key, qty);
      KeepFirstGroup(gs, key, qty, rest);
      [gs[0]] + rest
  }

  /** The grouped sums of `rows` by `cols`: sorted by key, one group per key present,
      each group's total the reference sum of its rows, nothing lost or gained. */
  function Aggregate(rows: seq<Record>, cols: seq<Column>): (gs: seq<Group>)
    ensures SortedByKey(gs)
    ensures GroupKeys(gs) == KeySet(rows, cols)
    ensures forall k :: TotalOf(gs, k) == SumWhere(rows, cols, k)
    ensures SumTotals(gs) == Sum(rows)
  {
    if rows == [] then []
    else
      var init := rows[..|rows| - 1];
      var last := rows[|rows| - 1];
      assert rows == init + [last];
      assert KeySet(rows, cols) == KeySet(init, cols) + {KeyOf(last, cols)};
      AddRow(Aggregate(init, cols), KeyOf(last, cols), last.qty)
  }

  /** Each group of the aggregate carries the reference sum of its key. */
  lemma AggregateTotals(rows: seq<Record>, cols: seq<Column>, i: int)
    requires 0 <= i < |Aggregate(rows, cols)|
    ensures Aggregate(rows, cols)[i].total == SumWhere(rows, cols, Aggregate(rows, cols)[i].key)
  {
    TotalOfMember(Aggregate(rows, cols), i);
  }

  /** A key tuple no row has sums to 0. */
  lemma SumWhereAbsent(rows: seq<Record>, cols: seq<Column>, key: seq<string>)
    requires key !in KeySet(rows, cols)
    ensures SumWhere(rows, cols, key) == 0
  {
    TotalOfAbsent(Aggregate(rows, cols), key);
  }
}
