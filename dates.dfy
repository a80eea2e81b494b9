/** Calendar dates as the programs handle them: Python `datetime.date` values
    (years 1 to 9999 of the proleptic Gregorian calendar), their ISO text form
    `YYYY-MM-DD` as stored in the `expires` column, `strptime(s, "%Y-%m-%d")`,
    date arithmetic with `timedelta(days=n)`, and SQLite's `date(x, '+N days')`. */
module Dates {
  import opened Wrappers
  import opened Text
  import Lex

  datatype Date = Date(year: nat, month: nat, day: nat)

  predicate IsLeap(y: int) { y % 4 == 0 && (y % 100 != 0 || y % 400 == 0) }

  function DaysInMonth(y: int, m: int): nat {
    if m == 2 then (if IsLeap(y) then 29 else 28)
    else if m == 4 || m == 6 || m == 9 || m == 11 then 30
    else 31
  }

  /** A date Python can represent (`date.min` .. `date.max`). */
  predicate Valid(d: Date) {
    1 <= d.year <= 9999 && 1 <= d.month <= 12 && 1 <= d.day <= DaysInMonth(d.year, d.month)
  }

  /** `a < b` on dates. */
  predicate Before(a: Date, b: Date) {
    a.year < b.year
    || (a.year == b.year && (a.month < b.month || (a.month == b.month && a.day < b.day)))
  }

  /** The following day; None past 9999-12-31 (Python's OverflowError). */
  function NextDay(d: Date): (r: Option<Date>)
    requires Valid(d)
    ensures r.Some? ==> Valid(r.value) && Before(d, r.value)
    ensures r.None? <==> d == Date(9999, 12, 31)
  {
    if d.day < DaysInMonth(d.year, d.month) then Some(Date(d.year, d.month, d.day + 1))
    else if d.month < 12 then Some(Date(d.year, d.month + 1, 1))
    else if d.year < 9999 then Some(Date(d.year + 1, 1, 1))
    else None
  }

  /** The preceding day; None before 0001-01-01. */
  function PrevDay(d: Date): (r: Option<Date>)
    requires Valid(d)
    ensures r.Some? ==> Valid(r.value) && Before(r.value, d)
    ensures r.None? <==> d == Date(1, 1, 1)
  {
    if d.day > 1 then Some(Date(d.year, d.month, d.day - 1))
    else if d.month > 1 then Some(Date(d.year, d.month - 1, DaysInMonth(d.year, d.month - 1)))
    else if d.year > 1 then Some(Date(d.year - 1, 12, 31))
    else None
  }

  /** `d + timedelta(days=n)`, or None when the result leaves the range of
      representable dates. */
  function AddDays(d: Date, n: int): (r: Option<Date>)
    requires Valid(d)
    ensures r.Some? ==> Valid(r.value)
    decreases if n < 0 then -n else n
  {
    if n == 0 then Some(d)
    else if n > 0 then
      match NextDay(d)
      case None => None
      case Some(e) => AddDays(e, n - 1)
    else
      match PrevDay(d)
      case None => None
      case Some(e) => AddDays(e, n + 1)
  }

  lemma BeforeTransitive(a: Date, b: Date, c: Date)
    requires Before(a, b) && Before(b, c)
    ensures Before(a, c)
  {
  }

  /** Adding a positive number of days moves a date forward, a negative number
      backward. */
  lemma {:induction false} AddDaysMoves(d: Date, n: int)
    requires Valid(d) && AddDays(d, n).Some?
    ensures n > 0 ==> Before(d, AddDays(d, n).value)
    ensures n < 0 ==> Before(AddDays(d, n).value, d)
    ensures n == 0 ==> AddDays(d, n).value == d
    decreases if n < 0 then -n else n
  {
    if n > 0 {
      var e := NextDay(d).value;
      AddDaysMoves(e, n - 1);
      if n - 1 > 0 { BeforeTransitive(d, e, AddDays(e, n - 1).value); }
    } else if n < 0 {
      var e := PrevDay(d).value;
      AddDaysMoves(e, n + 1);
      if n + 1 < 0 { BeforeTransitive(AddDays(e, n + 1).value, e, d); }
    }
  }

  /** Adding a days and then b more (both forward) is adding a + b. */
  lemma {:induction false} AddDaysCompose(d: Date, a: nat, b: nat)
    requires Valid(d)
    ensures AddDays(d, a + b) ==
      match AddDays(d, a)
      case None => None
      case Some(e) => AddDays(e, b)
    decreases a
  {
    if a > 0 {
      match NextDay(d)
      case None =>
        if b > 0 {
          assert AddDays(d, a + b) == None;
        }
      case Some(e) =>
        AddDaysCompose(e, a - 1, b);
    }
  }

  // ----- the text form -----

  /** The last w decimal digits of n, zero-padded: `%0wd` for n < 10^w. */
  function Pad(n: nat, w: nat): (s: string)
    ensures |s| == w && AllDigits(s)
  {
    if w == 0 then [] else Pad(n / 10, w - 1) + [DigitChar(n % 10)]
  }

  function Pow10(w: nat): nat { if w == 0 then 1 else 10 * Pow10(w - 1) }

  lemma {:induction false} DigitsBound(s: string)
    requires AllDigits(s)
    ensures DigitsValue(s) < Pow10(|s|)
    decreases |s|
  {
    if s != [] {
      DigitsBound(s[..|s| - 1]);
    }
  }

  /** `d.strftime('%Y-%m-%d')`, the form CURRENT_DATE and SQLite's date() produce. */
  function Iso(d: Date): (s: string)
    ensures |s| == 10
  {
    Pad(d.year, 4) + "-" + Pad(d.month, 2) + "-" + Pad(d.day, 2)
  }

  lemma {:induction false} PadValue(n: nat, w: nat)
    requires n < Pow10(w)
    ensures DigitsValue(Pad(n, w)) == n
    decreases w
  {
    if w > 0 {
      var s := Pad(n, w);
      PadValue(n / 10, w - 1);
      assert s[..|s| - 1] == Pad(n / 10, w - 1);
    }
  }

  lemma {:induction false} PadOrder(x: nat, y: nat, w: nat)
    requires x < Pow10(w) && y < Pow10(w)
    ensures Lex.Less(Pad(x, w), Pad(y, w)) <==> x < y
    decreases w
  {
    if w > 0 {
      PadOrder(x / 10, y / 10, w - 1);
      PadValue(x / 10, w - 1);
      PadValue(y / 10, w - 1);
      Lex.LessConcat(Pad(x / 10, w - 1), Pad(y / 10, w - 1), [DigitChar(x % 10)], [DigitChar(y % 10)]);
      if Pad(x / 10, w - 1) == Pad(y / 10, w - 1) {
        assert x / 10 == y / 10;
      }
    } else {
      assert x == 0 && y == 0;
    }
  }

  /** On representable dates the text order of the ISO form is the date order:
      this is why the SQL test `expires >= CURRENT_DATE` compares dates when
      `expires` holds an ISO date. */
  lemma IsoOrder(a: Date, b: Date)
    requires Valid(a) && Valid(b)
    ensures Lex.Less(Iso(a), Iso(b)) <==> Before(a, b)
  {
    var ya, yb := Pad(a.year, 4), Pad(b.year, 4);
    PadOrder(a.year, b.year, 4);
    PadValue(a.year, 4); PadValue(b.year, 4);
    IsoSplit(a);
    IsoSplit(b);
    Lex.LessConcat(ya, yb, MonthDay(a), MonthDay(b));
    MonthDayOrder(a, b);
    if ya == yb { assert a.year == b.year; }
  }

  /** The ISO form after the year: "-MM-DD". */
  function MonthDay(d: Date): string {
    "-" + (Pad(d.month, 2) + ("-" + Pad(d.day, 2)))
  }

  lemma IsoSplit(d: Date)
    ensures Iso(d) == Pad(d.year, 4) + MonthDay(d)
  {
  }

  lemma MonthDayOrder(a: Date, b: Date)
    requires Valid(a) && Valid(b)
    ensures Lex.Less(MonthDay(a), MonthDay(b)) <==> a.month < b.month || (a.month == b.month && a.day < b.day)
  {
    var ma, mb := Pad(a.month, 2), Pad(b.month, 2);
    var da, db := Pad(a.day, 2), Pad(b.day, 2);
    PadOrder(a.month, b.month, 2);
    PadOrder(a.day, b.day, 2);
    PadValue(a.month, 2); PadValue(b.month, 2);
    Lex.LessConcat("-", "-", ma + ("-" + da), mb + ("-" + db));
    Lex.LessConcat(ma, mb, "-" + da, "-" + db);
    Lex.LessConcat("-", "-", da, db);
    Lex.LessIrreflexive("-");
    if ma == mb { assert a.month == b.month; }
  }

  // ----- strptime(s, "%Y-%m-%d") -----

  /** Text that `%m` (`1[0-2]|0[1-9]|[1-9]`) matches in full. */
  predicate MonthText(t: string) {
    (|t| == 2 && t[0] == '1' && '0' <= t[1] <= '2')
    || (|t| == 2 && t[0] == '0' && '1' <= t[1] <= '9')
    || (|t| == 1 && '1' <= t[0] <= '9')
  }

  /** Text that `%d` (`3[01]|[12]\d|0[1-9]|[1-9]| [1-9]`) matches in full,
      its first matching alternative consuming all of it. */
  predicate DayText(t: string) {
    (|t| == 2 && t[0] == '3' && '0' <= t[1] <= '1')
    || (|t| == 2 && '1' <= t[0] <= '2' && IsDigit(t[1]))
    || (|t| == 2 && t[0] == '0' && '1' <= t[1] <= '9')
    || (|t| == 1 && '1' <= t[0] <= '9')
    || (|t| == 2 && t[0] == ' ' && '1' <= t[1] <= '9')
  }

  function DayTextValue(t: string): nat
    requires DayText(t)
  {
    if t[0] == ' ' then DigitValue(t[1]) else DigitsValue(t)
  }

  /** `datetime.strptime(s, "%Y-%m-%d").date()`, None where it raises
      ValueError: four digits, '-', a month, '-', a day, nothing after, and a
      date that exists. */
  function ParseIso(s: string): (r: Option<Date>)
    ensures r.Some? ==> Valid(r.value)
  {
    if |s| < 5 || !AllDigits(s[..4]) || s[4] != '-' then None
    else
      var rest := s[5..];
      var m := TakeUntil(rest, '-');
      if |m| == |rest| || !MonthText(m) then None
      else
        var d := rest[|m| + 1..];
        if !DayText(d) then None
        else
          var date := Date(DigitsValue(s[..4]), DigitsValue(m), DayTextValue(d));
          if Valid(date) then Some(date) else None
  }

  lemma TakeUntilDigits(a: string, b: string)
    requires AllDigits(a)
    ensures TakeUntil(a + "-" + b, '-') == a
  {
    var s := a + "-" + b;
    assert '-' in s by { assert s[|a|] == '-'; }
    assert s[..|a|] == a;
    IndexOfAt(s, '-', |a|);
  }

  /** Two-digit padding of a number below 100: tens digit, then units digit. */
  lemma Pad2(n: nat)
    requires n < 100
    ensures Pad(n, 2) == [DigitChar(n / 10), DigitChar(n % 10)]
  {
    var t := n / 10;
    assert t < 10;
    assert t % 10 == t && t / 10 == 0;
    assert Pad(t, 1) == Pad(0, 0) + [DigitChar(t)];
    assert Pad(n, 2) == Pad(t, 1) + [DigitChar(n % 10)];
  }

  lemma MonthTextPad(m: nat)
    requires 1 <= m <= 12
    ensures MonthText(Pad(m, 2)) && DigitsValue(Pad(m, 2)) == m
  {
    Pad2(m);
    PadValue(m, 2);
  }

  lemma DayTextPad(d: nat)
    requires 1 <= d <= 31
    ensures DayText(Pad(d, 2)) && DayTextValue(Pad(d, 2)) == d
  {
    Pad2(d);
    PadValue(d, 2);
  }

  /** strptime reads back what strftime wrote. */
  lemma ParseIsoRoundTrip(d: Date)
    requires Valid(d)
    ensures ParseIso(Iso(d)) == Some(d)
  {
    var s := Iso(d);
    var y, m, dd := Pad(d.year, 4), Pad(d.month, 2), Pad(d.day, 2);
    PadValue(d.year, 4);
    MonthTextPad(d.month);
    DayTextPad(d.day);
    assert s[..4] == y;
    var rest := s[5..];
    assert rest == m + "-" + dd;
    TakeUntilDigits(m, dd);
    assert rest[|m| + 1..] == dd;
  }

  // ----- SQLite date() -----

  /** SQLite's `date(s)` for an ISO-shaped text `YYYY-MM-DD` with a year
      0001-9999, a month 01-12 and a day 01-31: a day past the end of its month
      rolls over into the next month, as SQLite's Julian-day computation does.
      Every other text is read as None (SQL NULL), including the forms with a
      time of day and Julian day numbers that SQLite also accepts. */
  function SqliteDate(s: string): (r: Option<Date>)
    ensures r.Some? ==> Valid(r.value)
  {
    if |s| != 10 || !AllDigits(s[..4]) || s[4] != '-' || !AllDigits(s[5..7]) || s[7] != '-'
      || !AllDigits(s[8..]) then None
    else
      var y, m, d := DigitsValue(s[..4]), DigitsValue(s[5..7]), DigitsValue(s[8..]);
      if y < 1 || m < 1 || m > 12 || d < 1 || d > 31 then None
      else
        DigitsBound(s[..4]);
        assert DaysInMonth(y, m) >= 28;
        AddDays(Date(y, m, 1), d - 1)
  }

  /** SQLite's `date(s, '+n days')`, as text; None is SQL NULL. */
  function SqliteDatePlus(s: string, n: int): Option<string> {
    match SqliteDate(s)
    case None => None
    case Some(d) =>
      match AddDays(d, n)
      case None => None
      case Some(e) => Some(Iso(e))
  }
}
