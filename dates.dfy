/**
 * Calendar dates as Python's `datetime.date` has them: the proleptic
 * Gregorian calendar over years 1 to 9999, day ordinals (0001-01-01 is day
 * 1), `weekday()` (Monday is 0), date plus or minus a number of days (which
 * raises OverflowError outside the range), `isoformat()` and the
 * `fromisoformat()` of a `YYYY-MM-DD` string.
 */
module Dates {
  import opened Wrappers
  import opened Text

  datatype Date = Date(year: int, month: int, day: int)

  predicate IsLeap(y: int)
  {
    y % 4 == 0 && (y % 100 != 0 || y % 400 == 0)
  }

  function DaysInMonth(y: int, m: int): (n: int)
    requires 1 <= m <= 12
    ensures 28 <= n <= 31
  {
    if m == 2 then (if IsLeap(y) then 29 else 28)
    else if m == 4 || m == 6 || m == 9 || m == 11 then 30
    else 31
  }

  function DaysInYear(y: int): int
  {
    if IsLeap(y) then 366 else 365
  }

  /** The dates `datetime.date(y, m, d)` accepts; any other triple raises
      ValueError. */
  predicate Valid(d: Date)
  {
    1 <= d.year <= 9999 && 1 <= d.month <= 12 && 1 <= d.day <= DaysInMonth(d.year, d.month)
  }

  /** The number of days in the years before year `y`. */
  function DaysBeforeYear(y: int): int
    requires y >= 1
  {
    var z := y - 1;
    z * 365 + z / 4 - z / 100 + z / 400
  }

  lemma DaysBeforeNextYear(y: int)
    requires y >= 1
    ensures DaysBeforeYear(y + 1) == DaysBeforeYear(y) + DaysInYear(y)
  {
    var z := y - 1;
    assert (z + 1) / 4 == z / 4 + (if y % 4 == 0 then 1 else 0);
    assert (z + 1) / 100 == z / 100 + (if y % 100 == 0 then 1 else 0);
    assert (z + 1) / 400 == z / 400 + (if y % 400 == 0 then 1 else 0);
  }

  /** The number of days in the months of year `y` before month `m`; month
      13 stands for the whole year. */
  function DaysBeforeMonth(y: int, m: int): int
    requires 1 <= m <= 13
  {
    if m == 1 then 0 else DaysBeforeMonth(y, m - 1) + DaysInMonth(y, m - 1)
  }

  lemma DaysBeforeMonthWholeYear(y: int)
    ensures DaysBeforeMonth(y, 13) == DaysInYear(y)
  {
    var f := if IsLeap(y) then 29 else 28;
    assert DaysBeforeMonth(y, 2) == 31;
    assert DaysBeforeMonth(y, 3) == 31 + f;
    assert DaysBeforeMonth(y, 4) == 62 + f;
    assert DaysBeforeMonth(y, 5) == 92 + f;
    assert DaysBeforeMonth(y, 6) == 123 + f;
    assert DaysBeforeMonth(y, 7) == 153 + f;
    assert DaysBeforeMonth(y, 8) == 184 + f;
    assert DaysBeforeMonth(y, 9) == 215 + f;
    assert DaysBeforeMonth(y, 10) == 245 + f;
    assert DaysBeforeMonth(y, 11) == 276 + f;
    assert DaysBeforeMonth(y, 12) == 306 + f;
  }

  /** `date.toordinal()`. */
  function Ordinal(d: Date): (n: int)
    requires Valid(d)
    ensures 1 <= n <= MaxOrdinal
  {
    DaysBeforeMonthBounds(d.year, d.month);
    DaysBeforeNextYear(d.year);
    DaysBeforeYearMonotone(d.year + 1, 10000);
    DaysBeforeYear(d.year) + DaysBeforeMonth(d.year, d.month) + d.day
  }

  /** The ordinal of 9999-12-31, `date.max`. */
  const MaxOrdinal: int := 3652059

  lemma DaysBeforeYear10000()
    ensures DaysBeforeYear(10000) == MaxOrdinal
  {
  }

  lemma DaysBeforeMonthBounds(y: int, m: int)
    requires 1 <= m <= 12
    ensures 0 <= DaysBeforeMonth(y, m) && DaysBeforeMonth(y, m) + DaysInMonth(y, m) <= DaysInYear(y)
  {
    DaysBeforeMonthMonotone(y, 1, m);
    DaysBeforeMonthMonotone(y, m + 1, 13);
    DaysBeforeMonthWholeYear(y);
  }

  /** Every valid date has an ordinal in 1..MaxOrdinal, and it lies within
      its own year's span of ordinals. */
  lemma OrdinalBounds(d: Date)
    requires Valid(d)
    ensures DaysBeforeYear(d.year) < Ordinal(d) <= DaysBeforeYear(d.year) + DaysInYear(d.year)
    ensures 1 <= Ordinal(d) <= MaxOrdinal
  {
    DaysBeforeMonthBounds(d.year, d.month);
    DaysBeforeNextYear(d.year);
    DaysBeforeYearMonotone(d.year + 1, 10000);
  }

  lemma {:induction false} DaysBeforeYearMonotone(a: int, b: int)
    requires 1 <= a <= b
    ensures DaysBeforeYear(a) <= DaysBeforeYear(b)
    decreases b - a
  {
    if a < b {
      DaysBeforeNextYear(a);
      DaysBeforeYearMonotone(a + 1, b);
    }
  }

  lemma {:induction false} DaysBeforeMonthMonotone(y: int, a: int, b: int)
    requires 1 <= a <= b <= 13
    ensures DaysBeforeMonth(y, a) <= DaysBeforeMonth(y, b)
    decreases b - a
  {
    if a < b { DaysBeforeMonthMonotone(y, a, b - 1); }
  }

  /** The year whose span of ordinals holds `n`, searching upwards from `y`. */
  function YearOf(n: int, y: int): (r: int)
    requires 1 <= y <= 9999 && DaysBeforeYear(y) < n <= MaxOrdinal
    ensures y <= r <= 9999
    ensures DaysBeforeYear(r) < n <= DaysBeforeYear(r) + DaysInYear(r)
    decreases 9999 - y
  {
    DaysBeforeNextYear(y);
    if n <= DaysBeforeYear(y) + DaysInYear(y) then y
    else
      assert y < 9999 by { DaysBeforeYear10000(); }
      YearOf(n, y + 1)
  }

  /** The month of year `y` whose span of day-of-year numbers holds `r`,
      searching upwards from `m`. */
  function MonthOf(y: int, r: int, m: int): (k: int)
    requires 1 <= m <= 12 && DaysBeforeMonth(y, m) < r <= DaysInYear(y)
    ensures m <= k <= 12
    ensures DaysBeforeMonth(y, k) < r <= DaysBeforeMonth(y, k) + DaysInMonth(y, k)
    decreases 12 - m
  {
    DaysBeforeMonthWholeYear(y);
    if r <= DaysBeforeMonth(y, m) + DaysInMonth(y, m) then m
    else MonthOf(y, r, m + 1)
  }

  /** `date.fromordinal(n)`: the valid date whose ordinal is `n`. */
  function FromOrdinal(n: int): (d: Date)
    requires 1 <= n <= MaxOrdinal
    ensures Valid(d)
  {
    DayOfYear(YearOf(n, 1), n)
  }

  function DayOfYear(y: int, n: int): (d: Date)
    requires 1 <= y <= 9999 && DaysBeforeYear(y) < n <= DaysBeforeYear(y) + DaysInYear(y)
    ensures Valid(d)
  {
    var r := n - DaysBeforeYear(y);
    var m := MonthOf(y, r, 1);
    Date(y, m, r - DaysBeforeMonth(y, m))
  }

  /** Ordinals and dates are in one-to-one correspondence. */
  lemma FromOrdinalOrdinal(d: Date)
    requires Valid(d)
    ensures 1 <= Ordinal(d) <= MaxOrdinal && FromOrdinal(Ordinal(d)) == d
  {
    var n := Ordinal(d);
    var e := FromOrdinal(n);
    OrdinalFromOrdinal(n);
    if e != d {
      if NotAfter(e, d) {
        EarlierOrdinal(e, d);
      } else {
        EarlierOrdinal(d, e);
      }
    }
  }

  /** `date.fromordinal(n).toordinal() == n`. */
  lemma OrdinalFromOrdinal(n: int)
    requires 1 <= n <= MaxOrdinal
    ensures Ordinal(FromOrdinal(n)) == n
  {
    var y := YearOf(n, 1);
    var m := MonthOf(y, n - DaysBeforeYear(y), 1);
    FromOrdinalIs(n, y, m);
  }

  lemma FromOrdinalIs(n: int, y: int, m: int)
    requires 1 <= n <= MaxOrdinal
    requires YearOf(n, 1) == y && MonthOf(y, n - DaysBeforeYear(y), 1) == m
    ensures FromOrdinal(n) == Date(y, m, n - DaysBeforeYear(y) - DaysBeforeMonth(y, m))
  {
    assert FromOrdinal(n) == DayOfYear(y, n);
  }

  /** `date.weekday()` of the date with ordinal `n`: 0 is Monday, 6 Sunday. */
  function Weekday(n: int): (w: int)
    ensures 0 <= w <= 6
  {
    (n + 6) % 7
  }

  /** `d + timedelta(days=k)`: None where Python raises OverflowError. */
  function AddDays(d: Date, k: int): (r: Option<Date>)
    requires Valid(d)
    ensures r.Some? <==> 1 <= Ordinal(d) + k <= MaxOrdinal
    ensures r.Some? ==> Valid(r.value) && Ordinal(r.value) == Ordinal(d) + k
  {
    var n := Ordinal(d) + k;
    if 1 <= n <= MaxOrdinal then
      OrdinalFromOrdinal(n);
      Some(FromOrdinal(n))
    else None
  }

  /** A number that orders valid dates as (year, month, day) does: months
      take fewer than 32 day slots and years fewer than 13 month slots. */
  function DayKey(d: Date): int
  {
    (d.year * 13 + d.month) * 32 + d.day
  }

  /** `a <= b` on dates. */
  predicate NotAfter(a: Date, b: Date)
  {
    DayKey(a) <= DayKey(b)
  }

  /** Python compares dates as (year, month, day) tuples; on valid dates
      the key does the same. */
  lemma NotAfterLexicographic(a: Date, b: Date)
    requires Valid(a) && Valid(b)
    ensures NotAfter(a, b) <==>
      a.year < b.year || (a.year == b.year && (a.month < b.month || (a.month == b.month && a.day <= b.day)))
    ensures DayKey(a) == DayKey(b) <==> a == b
  {
  }

  /** `date.max`, 9999-12-31. */
  const MaxDate: Date := Date(9999, 12, 31)

  /** `d + timedelta(days=1)` by the calendar: the next day of the month,
      else the first of the next month, else the first of the next year. */
  function NextDay(d: Date): (r: Date)
    requires Valid(d) && d != MaxDate
    ensures Valid(r) && DayKey(r) > DayKey(d)
  {
    if d.day < DaysInMonth(d.year, d.month) then Date(d.year, d.month, d.day + 1)
    else if d.month < 12 then Date(d.year, d.month + 1, 1)
    else Date(d.year + 1, 1, 1)
  }

  /** Every valid date is at most `date.max`. */
  lemma NotAfterMax(d: Date)
    requires Valid(d)
    ensures NotAfter(d, MaxDate) && (NotAfter(MaxDate, d) ==> d == MaxDate)
  {
  }

  lemma MaxDateOrdinal()
    ensures Valid(MaxDate) && Ordinal(MaxDate) == MaxOrdinal
  {
    DaysBeforeYear10000();
    DaysBeforeMonthWholeYear(9999);
    DaysBeforeNextYear(9999);
  }

  /** The calendar step moves the ordinal on by one. */
  lemma NextDayOrdinal(d: Date)
    requires Valid(d) && d != MaxDate
    ensures Ordinal(NextDay(d)) == Ordinal(d) + 1
  {
    DaysBeforeMonthBounds(d.year, d.month);
    if d.day == DaysInMonth(d.year, d.month) && d.month == 12 {
      DaysBeforeNextYear(d.year);
      DaysBeforeMonthWholeYear(d.year);
    }
  }

  /** The calendar step is the one-day `timedelta` step, which only
      `date.max` cannot take. */
  lemma NextDayAddsOne(d: Date)
    requires Valid(d)
    ensures AddDays(d, 1).Some? <==> d != MaxDate
    ensures d != MaxDate ==> AddDays(d, 1) == Some(NextDay(d))
  {
    MaxDateOrdinal();
    if d != MaxDate {
      var e := NextDay(d);
      NextDayOrdinal(d);
      FromOrdinalOrdinal(e);
      var n := Ordinal(d) + 1;
      assert n == Ordinal(e) && 1 <= n <= MaxOrdinal;
      assert AddDays(d, 1) == Some(FromOrdinal(n));
    } else {
      assert Ordinal(d) + 1 > MaxOrdinal;
    }
  }

  /** Ordinals grow month by month, and year by year. */
  lemma EarlierOrdinal(a: Date, b: Date)
    requires Valid(a) && Valid(b) && NotAfter(a, b) && a != b
    ensures Ordinal(a) < Ordinal(b)
  {
    OrdinalBounds(a);
    OrdinalBounds(b);
    if a.year < b.year {
      DaysBeforeNextYear(a.year);
      DaysBeforeYearMonotone(a.year + 1, b.year);
    } else if a.month < b.month {
      DaysBeforeMonthBounds(a.year, a.month);
      DaysBeforeMonthMonotone(a.year, a.month + 1, b.month);
    }
  }

  /** Date comparison is chronological: it orders dates as their ordinals. */
  lemma NotAfterOrdinal(a: Date, b: Date)
    requires Valid(a) && Valid(b)
    ensures NotAfter(a, b) <==> Ordinal(a) <= Ordinal(b)
  {
    if a != b {
      if NotAfter(a, b) {
        EarlierOrdinal(a, b);
      } else {
        EarlierOrdinal(b, a);
      }
    }
  }

  // ---------------------------------------------------------------------
  // isoformat / fromisoformat

  function DigitChar(k: int): (c: char)
    requires 0 <= k <= 9
    ensures IsDigit(c)
  {
    ('0' as int + k) as char
  }

  function DigitValue(c: char): int
    requires IsDigit(c)
  {
    c as int - '0' as int
  }

  /** `'%0Nd' % n` for `N` = `width` and `n` below 10^width. */
  function Pad(n: nat, width: nat): (s: string)
    ensures |s| == width
    ensures forall i :: 0 <= i < |s| ==> IsDigit(s[i])
  {
    if width == 0 then [] else Pad(n / 10, width - 1) + [DigitChar(n % 10)]
  }

  /** `int(s)` of a string of ASCII digits. */
  function DigitsValue(s: string): (v: nat)
    requires forall i :: 0 <= i < |s| ==> IsDigit(s[i])
  {
    if s == [] then 0 else DigitsValue(s[..|s| - 1]) * 10 + DigitValue(s[|s| - 1])
  }

  function Pow10(k: nat): (p: nat)
    ensures p >= 1
  {
    if k == 0 then 1 else 10 * Pow10(k - 1)
  }

  lemma {:induction false} PadValue(n: nat, width: nat)
    requires n < Pow10(width)
    ensures DigitsValue(Pad(n, width)) == n
  {
    if width > 0 {
      PadValue(n / 10, width - 1);
      var s := Pad(n, width);
      assert s[..|s| - 1] == Pad(n / 10, width - 1);
    }
  }

  lemma {:induction false} ValuePad(s: string)
    requires forall i :: 0 <= i < |s| ==> IsDigit(s[i])
    ensures DigitsValue(s) < Pow10(|s|) && Pad(DigitsValue(s), |s|) == s
  {
    if s != [] {
      var t := s[..|s| - 1];
      ValuePad(t);
      var v := DigitsValue(s);
      assert v / 10 == DigitsValue(t) && v % 10 == DigitValue(s[|s| - 1]);
      assert s == t + [s[|s| - 1]];
    }
  }

  /** `str(n)` of a natural number: its decimal digits, no leading zero. */
  function Decimal(n: nat): (s: string)
    ensures |s| >= 1 && forall i :: 0 <= i < |s| ==> IsDigit(s[i])
  {
    if n < 10 then [DigitChar(n)] else Decimal(n / 10) + [DigitChar(n % 10)]
  }

  /** `int(str(n)) == n`, and only `0` itself starts with the digit zero. */
  lemma {:induction false} DecimalValue(n: nat)
    ensures DigitsValue(Decimal(n)) == n
    ensures Decimal(n)[0] == '0' <==> n == 0
  {
    if n >= 10 {
      DecimalValue(n / 10);
      var s := Decimal(n);
      assert s[..|s| - 1] == Decimal(n / 10);
    }
  }

  /** `date.isoformat()`: `YYYY-MM-DD`. */
  function Iso(d: Date): (s: string)
    requires Valid(d)
    ensures IsoShaped(s)
  {
    Pad(d.year, 4) + "-" + Pad(d.month, 2) + "-" + Pad(d.day, 2)
  }

  /** The shape `\d{4}-\d{2}-\d{2}` (ASCII digits). */
  predicate IsoShaped(s: string)
  {
    |s| == 10 && s[4] == '-' && s[7] == '-'
    && forall i :: 0 <= i < 10 && i != 4 && i != 7 ==> IsDigit(s[i])
  }

  /** `date.fromisoformat(s)` for a string of the shape `YYYY-MM-DD`; None
      where Python raises ValueError (year 0, month 13, February 30, ...). */
  function ParseIso(s: string): (r: Option<Date>)
    requires IsoShaped(s)
    ensures r.Some? ==> Valid(r.value)
  {
    var d := Date(DigitsValue(s[0..4]), DigitsValue(s[5..7]), DigitsValue(s[8..10]));
    if Valid(d) then Some(d) else None
  }

  /** Formatting a date and parsing it back gives the date. */
  lemma ParseIsoOfIso(d: Date)
    requires Valid(d)
    ensures ParseIso(Iso(d)) == Some(d)
  {
    var s := Iso(d);
    assert s[0..4] == Pad(d.year, 4);
    assert s[5..7] == Pad(d.month, 2);
    assert s[8..10] == Pad(d.day, 2);
    PadValue(d.year, 4);
    PadValue(d.month, 2);
    PadValue(d.day, 2);
  }

  /** A string that parses formats back to itself. */
  lemma IsoOfParseIso(s: string)
    requires IsoShaped(s) && ParseIso(s).Some?
    ensures Iso(ParseIso(s).value) == s
  {
    ValuePad(s[0..4]);
    ValuePad(s[5..7]);
    ValuePad(s[8..10]);
    assert s == s[0..4] + "-" + s[5..7] + "-" + s[8..10];
  }
}
