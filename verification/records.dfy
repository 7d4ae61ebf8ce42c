/** The sales record and the normalisation applied to every row right after the
    sheet is read (app.py lines 17-26): coerce DATE, stringify the three
    categorical columns, derive the month key. */
module Records {
  import opened Seqs
  import opened Dates

  /** A raw categorical cell as read from the sheet. A column read as text or as
      whole numbers is covered; a column read as floats is not. */
  datatype Cell = Text(s: string) | Whole(n: int) | Blank

  /** One row as read, with DATE already run through the date parser: `None` when
      the parser could not make anything of the cell. */
  datatype RawRow = RawRow(parsedDate: Option<Timestamp>, rsp: Cell, section: Cell, size: Cell, qty: int)

  /** One normalised sales transaction. `date == None` is pandas' NaT. */
  datatype Record = Record(date: Option<Timestamp>, rsp: string, section: string, size: string, qty: int, month: string)

  /** The columns the dashboard groups by. */
  datatype Column = Rsp | Section | Size | Month

  /** What `astype(str)` renders a missing value as. */
  const BlankText := "nan"

  /** What a NaT period renders as. */
  const NaTText := "NaT"

  function Field(r: Record, c: Column): string
  {
    match c
    case Rsp => r.rsp
    case Section => r.section
    case Size => r.size
    case Month => r.month
  }

  /** The tuple of a row's values in the given columns, the key `groupby(cols)` uses. */
  function KeyOf(r: Record, cols: seq<Column>): (k: seq<string>)
    ensures |k| == |cols| && forall i :: 0 <= i < |cols| ==> k[i] == Field(r, cols[i])
  {
    seq(|cols|, i requires 0 <= i < |cols| => Field(r, cols[i]))
  }

  predicate IsDigit(c: char)
  {
    '0' <= c <= '9'
  }

  /** Decimal digits of `n`, most significant first, no leading zeros. */
  function NatToString(n: nat): (s: string)
    ensures |s| > 0 && forall i :: 0 <= i < |s| ==> IsDigit(s[i])
    ensures s[0] == '0' ==> n == 0 && s == "0"
    decreases n
  {
    if n < 10 then [Digit(n)] else NatToString(n / 10) + [Digit(n % 10)]
  }

  /** Python's `str(n)` for an integer. */
  function IntToString(n: int): string
  {
    if n < 0 then "-" + NatToString(-n) else NatToString(n)
  }

  /** Value of a non-empty string of decimal digits. */
  function DigitsValue(s: string): int
    requires |s| > 0 && forall i :: 0 <= i < |s| ==> IsDigit(s[i])
    decreases |s|
  {
    var d := (s[|s| - 1] as int - '0' as int);
    if |s| == 1 then d else DigitsValue(s[..|s| - 1]) * 10 + d
  }

  /** Python's `int(s)` restricted to an optional minus sign and decimal digits. */
  function ParseInt(s: string): Option<int>
  {
    if |s| > 0 && s[0] == '-' then
      (if |s| > 1 && forall i :: 1 <= i < |s| ==> IsDigit(s[i]) then Some(-DigitsValue(s[1..])) else None)
    else if |s| > 0 && forall i :: 0 <= i < |s| ==> IsDigit(s[i]) then Some(DigitsValue(s))
    else None
  }

  lemma {:induction false} NatToStringRoundTrip(n: nat)
    ensures DigitsValue(NatToString(n)) == n
    decreases n
  {
    if n >= 10 {
      var s := NatToString(n);
      NatToStringRoundTrip(n / 10);
      assert s[..|s| - 1] == NatToString(n / 10);
    }
  }

  /** Reading back a rendered integer gives the integer. */
  lemma IntToStringRoundTrip(n: int)
    ensures ParseInt(IntToString(n)) == Some(n)
  {
    if n < 0 {
      var s := IntToString(n);
      var t := NatToString(-n);
      assert s == "-" + t && s[1..] == t;
      assert forall i :: 1 <= i < |s| ==> s[i] == t[i - 1];
      NatToStringRoundTrip(-n);
    } else {
      NatToStringRoundTrip(n);
      assert IsDigit(IntToString(n)[0]);
    }
  }

  /** `astype(str)` on one cell: text as it is, a whole number in decimal, a
      blank as the missing-value text. */
  function Stringify(c: Cell): (s: string)
    ensures c.Text? ==> s == c.s
    ensures c.Whole? ==> ParseInt(s) == Some(c.n)
    ensures c.Whole? ==> |s| > 0 && (s[0] == '0' ==> s == "0") && (s[0] == '-' ==> |s| > 1 && s[1] != '0')
    ensures c.Blank? ==> s == BlankText
  {
    match c
    case Text(s) => s
    case Whole(n) => IntToStringRoundTrip(n); IntToString(n)
    case Blank => BlankText
  }

  /** Distinct numeric codes stay distinct after stringification, and none of them
      collides with the missing-value text, so grouping by the string column groups
      exactly as grouping by the codes would. */
  lemma StringifyKeepsCodesApart(a: Cell, b: Cell)
    requires a.Whole? && (b.Whole? || b.Blank?)
    ensures Stringify(a) == Stringify(b) <==> a == b
  {
    IntToStringRoundTrip(a.n);
    if b.Whole? {
      IntToStringRoundTrip(b.n);
    } else {
      var s := Stringify(a);
      assert s[0] == '-' || IsDigit(s[0]);
      assert BlankText[0] == 'n';
    }
  }

  /** Coercing date conversion: anything that is not a representable timestamp
      becomes NaT. */
  function CoerceDate(parsed: Option<Timestamp>): (d: Option<Timestamp>)
    ensures d.Some? <==> parsed.Some? && IsTimestamp(parsed.value)
    ensures d.Some? ==> d == parsed
  {
    match parsed
    case Some(x) => if IsTimestamp(x) then parsed else None
    case None => None
  }

  /** The month column of a row: the month key of its date, or the NaT text. */
  function MonthOf(date: Option<Timestamp>): (m: string)
    ensures m == NaTText <==> date.None? || !HasMonthKey(date.value.date)
    ensures date.Some? && IsTimestamp(date.value) ==> m == MonthKey(date.value.date)
  {
    match date
    case Some(t) => if HasMonthKey(t.date) then MonthKey(t.date) else NaTText
    case None => NaTText
  }

  /** The shape every normalised record has. */
  predicate WellFormed(r: Record)
  {
    match r.date
    case Some(t) => IsTimestamp(t) && r.month == MonthKey(t.date)
    case None => r.month == NaTText
  }

  /** Lines 18-26 applied to one row. */
  function Normalize(raw: RawRow): (r: Record)
    ensures WellFormed(r)
    ensures r.date.Some? <==> raw.parsedDate.Some? && IsTimestamp(raw.parsedDate.value)
    ensures r.date.Some? ==> r.date == raw.parsedDate
    ensures r.rsp == Stringify(raw.rsp) && r.section == Stringify(raw.section) && r.size == Stringify(raw.size)
    ensures r.qty == raw.qty
  {
    var d := CoerceDate(raw.parsedDate);
    Record(d, Stringify(raw.rsp), Stringify(raw.section), Stringify(raw.size), raw.qty, MonthOf(d))
  }

  /** The whole sheet: every row is kept, including those whose date is NaT. */
  function NormalizeAll(raws: seq<RawRow>): (rs: seq<Record>)
    ensures |rs| == |raws|
    ensures forall i :: 0 <= i < |rs| ==> rs[i] == Normalize(raws[i]) && WellFormed(rs[i])
  {
    seq(|raws|, i requires 0 <= i < |raws| => Normalize(raws[i]))
  }

  /** A well-formed row has the NaT month exactly when its date is NaT; every real
      month key is seven characters and so differs from the NaT text. */
  lemma MonthIsNaTIffUndated(r: Record)
    requires WellFormed(r)
    ensures r.month == NaTText <==> r.date.None?
  {
    if r.date.Some? {
      TimestampHasMonthKey(r.date.value);
      assert |r.month| == 7;
    }
  }
}
