/** Calendar dates and timestamps as the dashboard sees them after
    `pd.to_datetime`, their chronological order, and the `"YYYY-MM"` month key
    derived from them. */
module Dates {
  import opened Order

  /** A calendar day. */
  datatype Date = Date(year: int, month: int, day: int)

  /** A point in time: a day and the nanoseconds since its midnight, the
      resolution of pandas' datetime64[ns] column. */
  datatype Timestamp = Timestamp(date: Date, nanos: int)

  const NanosPerDay := 86_400_000_000_000

  predicate IsLeapYear(y: int)
  {
    y % 4 == 0 && (y % 100 != 0 || y % 400 == 0)
  }

  function DaysInMonth(y: int, m: int): int
    requires 1 <= m <= 12
  {
    if m == 2 then (if IsLeapYear(y) then 29 else 28)
    else if m == 4 || m == 6 || m == 9 || m == 11 then 30
    else 31
  }

  predicate IsCalendarDate(d: Date)
  {
    1 <= d.month <= 12 && 1 <= d.day <= DaysInMonth(d.year, d.month)
  }

  /** Chronological `a <= b` on days. */
  predicate DateLe(a: Date, b: Date)
  {
    a.year < b.year || (a.year == b.year && (a.month < b.month || (a.month == b.month && a.day <= b.day)))
  }

  /** `a` falls in an earlier calendar month than `b`. */
  predicate MonthBefore(a: Date, b: Date)
  {
    a.year < b.year || (a.year == b.year && a.month < b.month)
  }

  /** Chronological `a <= b` on timestamps: by day, then by time of day. */
  predicate TimestampLe(a: Timestamp, b: Timestamp)
  {
    (a.date != b.date && DateLe(a.date, b.date)) || (a.date == b.date && a.nanos <= b.nanos)
  }

  /** The first instant of a day: what a chosen calendar date becomes when it is
      turned into a timestamp. */
  function Midnight(d: Date): Timestamp
  {
    Timestamp(d, 0)
  }

  /** The earliest and latest instants a nanosecond timestamp can hold, pandas'
      `Timestamp.min` (1677-09-21 00:12:43.145224193) and `Timestamp.max`
      (2262-04-11 23:47:16.854775807); one step below the minimum is reserved for NaT. */
  const MinTimestamp := Timestamp(Date(1677, 9, 21), 763_145_224_193)
  const MaxTimestamp := Timestamp(Date(2262, 4, 11), 85_636_854_775_807)

  /** A timestamp `pd.to_datetime` can represent; any other parse result becomes
      NaT under `errors='coerce'`. */
  predicate IsTimestamp(t: Timestamp)
  {
    && IsCalendarDate(t.date)
    && 0 <= t.nanos < NanosPerDay
    && TimestampLe(MinTimestamp, t)
    && TimestampLe(t, MaxTimestamp)
  }

  predicate HasMonthKey(d: Date)
  {
    0 <= d.year <= 9999 && 1 <= d.month <= 12
  }

  function Digit(n: int): char
    requires 0 <= n <= 9
  {
    ('0' as int + n) as char
  }

  function TwoDigits(n: int): string
    requires 0 <= n <= 99
  {
    [Digit(n / 10), Digit(n % 10)]
  }

  function FourDigits(n: int): string
    requires 0 <= n <= 9999
  {
    TwoDigits(n / 100) + TwoDigits(n % 100)
  }

  /** A month rendered as pandas renders a monthly period: the year as four
      digits, a dash, the month as two digits. */
  function MonthKey(d: Date): (k: string)
    requires HasMonthKey(d)
    ensures |k| == 7 && k[4] == '-'
    ensures forall i :: 0 <= i < 7 && i != 4 ==> '0' <= k[i] <= '9'
    ensures 1000 * (k[0] as int - '0' as int) + 100 * (k[1] as int - '0' as int)
            + 10 * (k[2] as int - '0' as int) + (k[3] as int - '0' as int) == d.year
    ensures 10 * (k[5] as int - '0' as int) + (k[6] as int - '0' as int) == d.month
  {
    FourDigits(d.year) + "-" + TwoDigits(d.month)
  }

  lemma TimestampHasMonthKey(t: Timestamp)
    requires IsTimestamp(t)
    ensures HasMonthKey(t.date) && 1000 <= t.date.year
  {
  }

  lemma DateLeTotal(a: Date, b: Date)
    ensures DateLe(a, b) || DateLe(b, a)
  {
  }

  lemma DateLeTransitive(a: Date, b: Date, c: Date)
    requires DateLe(a, b) && DateLe(b, c)
    ensures DateLe(a, c)
  {
  }

  lemma DateLeAntisymmetric(a: Date, b: Date)
    requires DateLe(a, b) && DateLe(b, a)
    ensures a == b
  {
  }

  lemma TimestampLeTotal(a: Timestamp, b: Timestamp)
    ensures TimestampLe(a, b) || TimestampLe(b, a)
  {
    DateLeTotal(a.date, b.date);
  }

  lemma TimestampLeTransitive(a: Timestamp, b: Timestamp, c: Timestamp)
    requires TimestampLe(a, b) && TimestampLe(b, c)
    ensures TimestampLe(a, c)
  {
    DateLeTransitive(a.date, b.date, c.date);
    if a.date == c.date && a.date != b.date {
      DateLeAntisymmetric(a.date, b.date);
    }
  }

  /** A timestamp is at or after the midnight that starts day `d` exactly when its
      own day is `d` or later. */
  lemma AtOrAfterMidnight(d: Date, t: Timestamp)
    requires 0 <= t.nanos
    ensures TimestampLe(Midnight(d), t) <==> DateLe(d, t.date)
  {
  }

  /** A timestamp is at or before the midnight that starts day `d` exactly when
      its day is earlier than `d`, or it is that midnight itself: any later time
      on day `d` is past it. */
  lemma AtOrBeforeMidnight(t: Timestamp, d: Date)
    requires 0 <= t.nanos
    ensures TimestampLe(t, Midnight(d)) <==> DateLe(t.date, d) && (t.date == d ==> t.nanos == 0)
  {
  }

  lemma DigitOrder(a: int, b: int)
    requires 0 <= a <= 9 && 0 <= b <= 9
    ensures Digit(a) < Digit(b) <==> a < b
    ensures Digit(a) == Digit(b) <==> a == b
  {
  }

  /** Two zero-padded digits compare as strings exactly as the numbers compare. */
  lemma TwoDigitsOrder(a: int, b: int)
    requires 0 <= a <= 99 && 0 <= b <= 99
    ensures StrLess(TwoDigits(a), TwoDigits(b)) <==> a < b
  {
    var x, y := TwoDigits(a), TwoDigits(b);
    assert x == [x[0]] + [x[1]] && y == [y[0]] + [y[1]];
    StrLessConcat([x[0]], [x[1]], [y[0]], [y[1]]);
    DigitOrder(a / 10, b / 10);
    DigitOrder(a % 10, b % 10);
    assert StrLess([x[0]], [y[0]]) <==> x[0] < y[0] by {
      assert [x[0]][1..] == [] && [y[0]][1..] == [];
    }
    assert StrLess([x[1]], [y[1]]) <==> x[1] < y[1] by {
      assert [x[1]][1..] == [] && [y[1]][1..] == [];
    }
    assert a == 10 * (a / 10) + a % 10 && b == 10 * (b / 10) + b % 10;
  }

  /** Four zero-padded digits compare as strings exactly as the numbers compare. */
  lemma FourDigitsOrder(a: int, b: int)
    requires 0 <= a <= 9999 && 0 <= b <= 9999
    ensures StrLess(FourDigits(a), FourDigits(b)) <==> a < b
  {
    StrLessConcat(TwoDigits(a / 100), TwoDigits(a % 100), TwoDigits(b / 100), TwoDigits(b % 100));
    TwoDigitsOrder(a / 100, b / 100);
    TwoDigitsOrder(a % 100, b % 100);
    if TwoDigits(a / 100) == TwoDigits(b / 100) {
      TwoDigitsOrder(b / 100, a / 100);
      assert a / 100 == b / 100;
    }
    assert a == 100 * (a / 100) + a % 100 && b == 100 * (b / 100) + b % 100;
  }

  /** Sorting month keys as strings sorts them chronologically: a key is smaller
      exactly when its month is earlier. */
  lemma MonthKeyOrder(a: Date, b: Date)
    requires HasMonthKey(a) && HasMonthKey(b)
    ensures StrLess(MonthKey(a), MonthKey(b)) <==> MonthBefore(a, b)
  {
    var ya, yb := FourDigits(a.year), FourDigits(b.year);
    var ma, mb := "-" + TwoDigits(a.month), "-" + TwoDigits(b.month);
    assert MonthKey(a) == ya + ma && MonthKey(b) == yb + mb;
    StrLessConcat(ya, ma, yb, mb);
    StrLessConcat("-", TwoDigits(a.month), "-", TwoDigits(b.month));
    StrLessIrreflexive("-");
    FourDigitsOrder(a.year, b.year);
    TwoDigitsOrder(a.month, b.month);
    if ya == yb {
      FourDigitsOrder(b.year, a.year);
      StrLessIrreflexive(ya);
    }
  }

  /** Two dates share a month key exactly when they lie in the same calendar month. */
  lemma MonthKeySameMonth(a: Date, b: Date)
    requires HasMonthKey(a) && HasMonthKey(b)
    ensures MonthKey(a) == MonthKey(b) <==> a.year == b.year && a.month == b.month
  {
    if MonthKey(a) == MonthKey(b) {
      StrLessIrreflexive(MonthKey(a));
      MonthKeyOrder(a, b);
      MonthKeyOrder(b, a);
    }
  }
}
