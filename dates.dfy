/**
 * Calendar dates in the layout "2006-01-02" (YYYY-MM-DD), as read by Go's
 * time.Parse, and their conversion to instants: whole seconds since
 * 1970-01-01T00:00:00Z, taken at midnight UTC of the date.
 */
module Dates {
  import opened Wrappers
  import opened Strconv

  const SecondsPerDay: int := 86400

  predicate IsLeap(y: int) {
    y % 4 == 0 && (y % 100 != 0 || y % 400 == 0)
  }

  function DaysInYear(y: int): int {
    if IsLeap(y) then 366 else 365
  }

  function DaysIn(m: int, y: int): int
    requires 1 <= m <= 12
  {
    if m == 2 then (if IsLeap(y) then 29 else 28)
    else if m == 4 || m == 6 || m == 9 || m == 11 then 30
    else 31
  }

  /** A real calendar day of the Gregorian calendar (years 0000 to 9999). */
  predicate ValidDate(y: int, m: int, d: int) {
    0 <= y <= 9999 && 1 <= m <= 12 && 1 <= d <= DaysIn(m, y)
  }

  /** Days from 0000-01-01 to the first day of year y (proleptic Gregorian). */
  function DaysBeforeYear(y: nat): int {
    365 * y + (y + 3) / 4 - (y + 99) / 100 + (y + 399) / 400
  }

  /** Days from the first of January to the first day of month m. */
  function DaysBeforeMonth(m: int, y: int): int
    requires 1 <= m <= 12
  {
    [0, 31, 59, 90, 120, 151, 181, 212, 243, 273, 304, 334][m - 1]
    + (if m > 2 && IsLeap(y) then 1 else 0)
  }

  function DayNumber(y: nat, m: int, d: int): int
    requires 1 <= m <= 12
  {
    DaysBeforeYear(y) + DaysBeforeMonth(m, y) + d - 1
  }

  /** The instant at midnight UTC that starts the given day. */
  function Midnight(y: nat, m: int, d: int): int
    requires 1 <= m <= 12
  {
    (DayNumber(y, m, d) - DayNumber(1970, 1, 1)) * SecondsPerDay
  }

  /** Exactly ten characters: four digits, '-', two digits, '-', two digits. */
  predicate Shaped(s: string) {
    |s| == 10 && s[4] == '-' && s[7] == '-'
    && AllDigits(s[0..4]) && AllDigits(s[5..7]) && AllDigits(s[8..10])
  }

  function YearOf(s: string): nat requires Shaped(s) { Num(s[0..4]) }
  function MonthOf(s: string): nat requires Shaped(s) { Num(s[5..7]) }
  function DayOf(s: string): nat requires Shaped(s) { Num(s[8..10]) }

  /**
   * time.Parse("2006-01-02", s): fails unless s has exactly the layout's
   * shape (no trailing text) and names a real day (month 01-12, day within
   * the month, 29 February only in leap years).
   */
  function ParseDate(s: string): (r: Option<int>)
    ensures r.Some? <==> Shaped(s) && ValidDate(YearOf(s), MonthOf(s), DayOf(s))
    ensures r.Some? ==> r.value % SecondsPerDay == 0
  {
    if Shaped(s) && ValidDate(YearOf(s), MonthOf(s), DayOf(s)) then
      Some(Midnight(YearOf(s), MonthOf(s), DayOf(s)))
    else
      None
  }

  // ----- rendering, the inverse of ParseDate -----

  function Pad2(n: int): (s: string)
    requires 0 <= n < 100
    ensures |s| == 2 && AllDigits(s)
  {
    [DigitChar(n / 10), DigitChar(n % 10)]
  }

  function Pad4(n: int): (s: string)
    requires 0 <= n < 10000
    ensures |s| == 4 && AllDigits(s)
  {
    Pad2(n / 100) + Pad2(n % 100)
  }

  /** Formats a date with the layout "2006-01-02". */
  function Format(y: int, m: int, d: int): (s: string)
    requires ValidDate(y, m, d)
    ensures |s| == 10
  {
    Pad4(y) + "-" + Pad2(m) + "-" + Pad2(d)
  }

  lemma NumPad2(n: int)
    requires 0 <= n < 100
    ensures Num(Pad2(n)) == n
  {
    var s := Pad2(n);
    assert s[..1] == [DigitChar(n / 10)];
    assert s[..1][..0] == [];
    assert Num(s[..1]) == n / 10;
    assert Num(s) == (n / 10) * 10 + n % 10;
  }

  lemma NumPad4(n: int)
    requires 0 <= n < 10000
    ensures Num(Pad4(n)) == n
  {
    var s := Pad4(n);
    var hi, lo := Pad2(n / 100), Pad2(n % 100);
    assert s[..3] == hi + [lo[0]];
    assert s[..3][..2] == hi;
    assert hi[..1][..0] == [];
    NumPad2(n / 100);
  }

  /** Parsing a formatted date gives back that date's midnight. */
  lemma ParseFormat(y: int, m: int, d: int)
    requires ValidDate(y, m, d)
    ensures ParseDate(Format(y, m, d)) == Some(Midnight(y, m, d))
  {
    var s := Format(y, m, d);
    assert s[0..4] == Pad4(y);
    assert s[5..7] == Pad2(m);
    assert s[8..10] == Pad2(d);
    NumPad4(y);
    NumPad2(m);
    NumPad2(d);
  }

  // ----- ordering: earlier dates start at earlier instants -----

  predicate Before(y: int, m: int, d: int, y': int, m': int, d': int) {
    y < y' || (y == y' && (m < m' || (m == m' && d < d')))
  }

  lemma YearLength(y: nat)
    ensures DaysBeforeYear(y + 1) == DaysBeforeYear(y) + DaysInYear(y)
  {
    StepCount4(y);
    StepCount100(y);
    StepCount400(y);
    Divides(y);
    var a, b, c := (y + 3) / 4, (y + 99) / 100, (y + 399) / 400;
    assert DaysBeforeYear(y) == 365 * y + a - b + c;
    var da, db, dc := (if y % 4 == 0 then 1 else 0), (if y % 100 == 0 then 1 else 0), (if y % 400 == 0 then 1 else 0);
    assert DaysBeforeYear(y + 1) == 365 * y + 365 + (a + da) - (b + db) + (c + dc);
    assert da - db + dc == (if IsLeap(y) then 1 else 0);
  }

  /** A multiple of 400 is one of 100, and a multiple of 100 is one of 4. */
  lemma Divides(y: nat)
    ensures y % 400 == 0 ==> y % 100 == 0
    ensures y % 100 == 0 ==> y % 4 == 0
  {
    if y % 400 == 0 {
      assert y == 400 * (y / 400) == 100 * (4 * (y / 400));
    }
    if y % 100 == 0 {
      assert y == 100 * (y / 100) == 4 * (25 * (y / 100));
    }
  }

  /** Moving from y to y + 1 passes one more multiple of 4, 100 or 400 exactly when it divides y. */
  lemma StepCount4(y: nat)
    ensures (y + 4) / 4 == (y + 3) / 4 + (if y % 4 == 0 then 1 else 0)
  {
  }

  lemma StepCount100(y: nat)
    ensures (y + 100) / 100 == (y + 99) / 100 + (if y % 100 == 0 then 1 else 0)
  {
  }

  lemma StepCount400(y: nat)
    ensures (y + 400) / 400 == (y + 399) / 400 + (if y % 400 == 0 then 1 else 0)
  {
  }

  lemma MonthsFitYear(m: int, y: int)
    requires 1 <= m <= 12
    ensures DaysBeforeMonth(m, y) + DaysIn(m, y) <= DaysInYear(y)
    ensures forall k :: m < k <= 12 ==> DaysBeforeMonth(m, y) + DaysIn(m, y) <= DaysBeforeMonth(k, y)
  {
  }

  lemma {:induction false} YearsAdvance(y: nat, y': nat)
    requires y < y'
    ensures DaysBeforeYear(y) + DaysInYear(y) <= DaysBeforeYear(y')
    decreases y' - y
  {
    YearLength(y);
    if y + 1 < y' {
      YearsAdvance(y + 1, y');
      YearLength(y + 1);
    }
  }

  /**
   * Day order and instant order agree: of two real dates, the earlier one
   * starts at the earlier midnight.
   */
  lemma MidnightMonotone(y: int, m: int, d: int, y': int, m': int, d': int)
    requires ValidDate(y, m, d) && ValidDate(y', m', d')
    requires Before(y, m, d, y', m', d')
    ensures Midnight(y, m, d) < Midnight(y', m', d')
  {
    MonthsFitYear(m, y);
    if y < y' {
      YearsAdvance(y, y');
    }
    assert DayNumber(y, m, d) < DayNumber(y', m', d');
  }
}
