/** The pure logic behind the sidebar controls (app.py lines 29-77): the default
    date range, the option lists of the three multiselects, the search box that
    narrows them and the "select all" default. The widgets themselves are not
    modelled; what the user then picks reaches the filter as `Filter.Criteria`. */
module Sidebar {
  import opened Seqs
  import opened Dates
  import opened Records

  /** One column's values, in sheet order. */
  function ColumnOf(rows: seq<Record>, col: Column): (vs: seq<string>)
    ensures |vs| == |rows| && forall i :: 0 <= i < |rows| ==> vs[i] == Field(rows[i], col)
  {
    seq(|rows|, i requires 0 <= i < |rows| => Field(rows[i], col))
  }

  /** Position of the first occurrence of `x`. */
  function FirstIndex(xs: seq<string>, x: string): (k: nat)
    requires x in xs
    ensures k < |xs| && xs[k] == x && x !in xs[..k]
  {
    if xs[0] == x then 0
    else
      assert x in xs[1..] by {
        var j :| 0 <= j < |xs| && xs[j] == x;
        assert xs[1..][j - 1] == x;
      }
      var k := FirstIndex(xs[1..], x);
      assert xs[..k + 1] == [xs[0]] + xs[1..][..k];
      k + 1
  }

  /** The first occurrence is the only position with `x` and no `x` before it. */
  lemma FirstIndexUnique(xs: seq<string>, x: string, k: nat)
    requires k < |xs| && xs[k] == x && x !in xs[..k]
    ensures FirstIndex(xs, x) == k
  {
  }

  /** The distinct values in order of first appearance, as pandas' `unique` lists them. */
  function Unique(xs: seq<string>): (u: seq<string>)
    ensures NoDuplicates(u)
    ensures forall x :: x in u <==> x in xs
    ensures forall i, j :: 0 <= i < j < |u| ==> FirstIndex(xs, u[i]) < FirstIndex(xs, u[j])
  {
    if xs == [] then []
    else
      var init, x := xs[..|xs| - 1], xs[|xs| - 1];
      assert xs == init + [x];
      var u := Unique(init);
      forall y | y in init ensures FirstIndex(xs, y) == FirstIndex(init, y) {
        var k := FirstIndex(init, y);
        assert xs[..k] == init[..k];
        FirstIndexUnique(xs, y, k);
      }
      if x in u then u
      else
        assert FirstIndex(xs, x) == |init| by {
          assert xs[..|init|] == init;
          FirstIndexUnique(xs, x, |init|);
        }
        forall i | 0 <= i < |u| ensures FirstIndex(xs, u[i]) < |init| {
          assert u[i] in init;
        }
        u + [x]
  }

  /** The option list of a multiselect: the column's distinct values in order of
      first appearance. */
  function OptionsFor(rows: seq<Record>, col: Column): (opts: seq<string>)
    ensures NoDuplicates(opts)
    ensures forall v :: v in opts <==> exists r :: r in rows && Field(r, col) == v
    ensures forall v :: v in opts <==> v in ColumnOf(rows, col)
    ensures forall i, j :: 0 <= i < j < |opts| ==>
              FirstIndex(ColumnOf(rows, col), opts[i]) < FirstIndex(ColumnOf(rows, col), opts[j])
  {
    var vs := ColumnOf(rows, col);
    var u := Unique(vs);
    forall v | v in u ensures exists r :: r in rows && Field(r, col) == v {
      var i :| 0 <= i < |vs| && vs[i] == v;
      assert rows[i] in rows;
    }
    forall v | (exists r :: r in rows && Field(r, col) == v) ensures v in u {
      var r :| r in rows && Field(r, col) == v;
      var i :| 0 <= i < |rows| && rows[i] == r;
      assert vs[i] == v;
    }
    u
  }

  /** Lowercasing of ASCII letters; every other character is left alone. */
  function LowerChar(c: char): char
  {
    if 'A' <= c <= 'Z' then (c as int + 32) as char else c
  }

  function Lower(s: string): (t: string)
    ensures |t| == |s| && forall i :: 0 <= i < |s| ==> t[i] == LowerChar(s[i])
  {
    seq(|s|, i requires 0 <= i < |s| => LowerChar(s[i]))
  }

  /** Python's substring test: some window of `hay` equals `needle`. */
  ghost predicate Occurs(needle: string, hay: string)
  {
    exists i :: OccursAt(needle, hay, i)
  }

  ghost predicate OccursAt(needle: string, hay: string, i: int)
  {
    0 <= i <= |hay| - |needle| && hay[i..i + |needle|] == needle
  }

  /** Substring test by trying each start position in turn. */
  function Contains(hay: string, needle: string): (b: bool)
    ensures b <==> Occurs(needle, hay)
    decreases |hay|
  {
    if |needle| <= |hay| && hay[..|needle|] == needle then
      assert OccursAt(needle, hay, 0);
      true
    else if |needle| >= |hay| then
      false
    else
      var b := Contains(hay[1..], needle);
      assert b ==> Occurs(needle, hay) by {
        if b {
          var i :| OccursAt(needle, hay[1..], i);
          assert hay[1..][i..i + |needle|] == hay[i + 1..i + 1 + |needle|];
          assert OccursAt(needle, hay, i + 1);
        }
      }
      assert Occurs(needle, hay) ==> b by {
        if Occurs(needle, hay) {
          var i :| OccursAt(needle, hay, i);
          assert i != 0;
          assert hay[1..][i - 1..i - 1 + |needle|] == hay[i..i + |needle|];
          assert OccursAt(needle, hay[1..], i - 1);
        }
      }
      b
  }

  /** The search condition: the lowercased query occurs in the lowercased
      option. The empty query occurs in every option. */
  function Matches(query: string, option: string): (b: bool)
    ensures b <==> Occurs(Lower(query), Lower(option))
    ensures query == "" ==> b
  {
    assert query == "" ==> OccursAt(Lower(query), Lower(option), 0);
    Contains(Lower(option), Lower(query))
  }

  /** The options that survive the search box, in their original order. */
  function Search(options: seq<string>, query: string): (r: seq<string>)
    ensures IsSubsequence(r, options)
    ensures forall o :: o in r <==> o in options && Matches(query, o)
    ensures forall o :: multiset(r)[o] == if Matches(query, o) then multiset(options)[o] else 0
  {
    if options == [] then []
    else
      var rest := Search(options[1..], query);
      assert options == [options[0]] + options[1..];
      if Matches(query, options[0]) then [options[0]] + rest else rest
  }

  /** The "select all" default: the surviving options when the search removed
      none of them, otherwise nothing. For a list drawn from the options, equal
      length means the search kept every option. */
  function SelectAllDefault(filtered: seq<string>, options: seq<string>): (selected: seq<string>)
    ensures IsSubsequence(filtered, options) ==> selected == if filtered == options then options else []
  {
    assert IsSubsequence(filtered, options) && |filtered| == |options| ==> filtered == options by {
      if IsSubsequence(filtered, options) && |filtered| == |options| {
        SubsequenceOfSameLength(filtered, options);
      }
    }
    if |filtered| == |options| then filtered else []
  }

  /** An empty search text keeps every option, in order. */
  lemma EmptySearchKeepsAll(options: seq<string>)
    ensures Search(options, "") == options
  {
    SearchAllMatch(options, "");
  }

  /** When every option matches, the search keeps them all. */
  lemma {:induction false} SearchAllMatch(options: seq<string>, query: string)
    requires forall o :: o in options ==> Matches(query, o)
    ensures Search(options, query) == options
    decreases |options|
  {
    if options != [] {
      assert forall o :: o in options[1..] ==> o in options;
      SearchAllMatch(options[1..], query);
      assert options == [options[0]] + options[1..];
    }
  }

  /** When some option does not match, the search result is strictly shorter. */
  lemma {:induction false} SearchDropsNonMatch(options: seq<string>, query: string, o: string)
    requires o in options && !Matches(query, o)
    ensures |Search(options, query)| < |options|
    decreases |options|
  {
    SubsequenceLength(Search(options[1..], query), options[1..]);
    if options[0] != o {
      assert o in options[1..] by {
        var j :| 0 <= j < |options| && options[j] == o;
        assert options[1..][j - 1] == o;
      }
      SearchDropsNonMatch(options[1..], query, o);
    }
  }

  /** The default selection is every option when each matches the search, and
      empty as soon as one does not. */
  lemma SelectAllDefaultIsAllOrNothing(options: seq<string>, query: string)
    ensures SelectAllDefault(Search(options, query), options) ==
              if forall o :: o in options ==> Matches(query, o) then options else []
  {
    if forall o :: o in options ==> Matches(query, o) {
      SearchAllMatch(options, query);
    } else {
      var o :| o in options && !Matches(query, o);
      SearchDropsNonMatch(options, query, o);
    }
  }

  /** The earliest and latest timestamps of the sheet (NaT skipped), or `None`
      when no date parsed. */
  function DateBounds(rows: seq<Record>): (b: Option<(Timestamp, Timestamp)>)
    ensures b.None? <==> forall r :: r in rows ==> r.date.None?
    ensures b.Some? ==> (exists r :: r in rows && r.date == Some(b.value.0))
    ensures b.Some? ==> (exists r :: r in rows && r.date == Some(b.value.1))
    ensures b.Some? ==> forall r :: r in rows && r.date.Some? ==>
                          TimestampLe(b.value.0, r.date.value) && TimestampLe(r.date.value, b.value.1)
  {
    if rows == [] then None
    else
      var rest := DateBounds(rows[1..]);
      var r := rows[0];
      assert rows == [r] + rows[1..];
      match r.date
      case None => rest
      case Some(t) =>
        match rest
        case None => Some((t, t))
        case Some((lo, hi)) =>
          TimestampLeTotal(t, lo);
          TimestampLeTotal(t, hi);
          forall x | x in rows[1..] && x.date.Some? ensures TimestampLe(if TimestampLe(t, lo) then t else lo, x.date.value) {
            if TimestampLe(t, lo) {
              TimestampLeTransitive(t, lo, x.date.value);
            }
          }
          forall x | x in rows[1..] && x.date.Some? ensures TimestampLe(x.date.value, if TimestampLe(hi, t) then t else hi) {
            if TimestampLe(hi, t) {
              TimestampLeTransitive(x.date.value, hi, t);
            }
          }
          Some((if TimestampLe(t, lo) then t else lo, if TimestampLe(hi, t) then t else hi))
  }

  /** The date picker's initial range: the days of the earliest and latest
      timestamps, their times of day dropped. */
  function DefaultRange(rows: seq<Record>): (range: Option<(Date, Date)>)
    ensures range.None? <==> forall r :: r in rows ==> r.date.None?
    ensures range.Some? ==> exists r :: r in rows && r.date.Some? && r.date.value.date == range.value.0
    ensures range.Some? ==> exists r :: r in rows && r.date.Some? && r.date.value.date == range.value.1
    ensures range.Some? ==> forall r :: r in rows && r.date.Some? ==>
                              DateLe(range.value.0, r.date.value.date) && DateLe(r.date.value.date, range.value.1)
  {
    match DateBounds(rows)
    case None => None
    case Some((lo, hi)) => Some((lo.date, hi.date))
  }
}
