/** Calendar dates as Python's `datetime.date` represents them (proleptic
    Gregorian, years 1..9999), the day count `(a - b).days`, the month
    arithmetic of `relativedelta(months=n)` and the ISO rendering `str(d)`. */
module Dates {

  import opened Text

  datatype Date = Date(year: int, month: int, day: int)

  const MaxYear: int := 9999

  predicate IsLeapYear(y: int) {
    y % 4 == 0 && (y % 100 != 0 || y % 400 == 0)
  }

  function DaysInMonth(y: int, m: int): (n: int)
    requires 1 <= m <= 12
    ensures 28 <= n <= 31
    ensures n == 29 <==> m == 2 && IsLeapYear(y)
  {
    if m == 2 then (if IsLeapYear(y) then 29 else 28)
    else if m == 4 || m == 6 || m == 9 || m == 11 then 30
    else 31
  }

  /** A date Python can construct. */
  predicate Valid(d: Date) {
    1 <= d.year <= MaxYear && 1 <= d.month <= 12 && 1 <= d.day <= DaysInMonth(d.year, d.month)
  }

  function YearLength(y: int): int {
    if IsLeapYear(y) then 366 else 365
  }

  function DaysBeforeYear(y: int): int
    requires y >= 1
  {
    var p := y - 1;
    365 * p + p / 4 - p / 100 + p / 400
  }

  function DaysBeforeMonth(y: int, m: int): int
    requires 1 <= m <= 12
  {
    [0, 31, 59, 90, 120, 151, 181, 212, 243, 273, 304, 334][m - 1]
    + (if m > 2 && IsLeapYear(y) then 1 else 0)
  }

  /** `d.toordinal()`: 1 for 0001-01-01, one more for every following day. */
  function Ordinal(d: Date): int
    requires Valid(d)
  {
    DaysBeforeYear(d.year) + DaysBeforeMonth(d.year, d.month) + d.day
  }

  /** `(a - b).days`. */
  function DaysBetween(a: Date, b: Date): int
    requires Valid(a) && Valid(b)
  {
    Ordinal(a) - Ordinal(b)
  }

  /** `a < b` on dates: lexicographic on (year, month, day). */
  predicate Before(a: Date, b: Date) {
    a.year < b.year || (a.year == b.year && (a.month < b.month || (a.month == b.month && a.day < b.day)))
  }

  /** `a <= b` on dates. */
  predicate NotAfter(a: Date, b: Date) { Before(a, b) || a == b }

  // ------------------------------------------------------ ordinal lemmas

  lemma YearStep(y: int)
    requires y >= 1
    ensures DaysBeforeYear(y + 1) == DaysBeforeYear(y) + YearLength(y)
  {
    var p := y - 1;
    assert y / 4 == p / 4 + (if y % 4 == 0 then 1 else 0);
    assert y / 100 == p / 100 + (if y % 100 == 0 then 1 else 0);
    assert y / 400 == p / 400 + (if y % 400 == 0 then 1 else 0);
  }

  lemma MonthStep(y: int, m: int)
    requires 1 <= m < 12
    ensures DaysBeforeMonth(y, m + 1) == DaysBeforeMonth(y, m) + DaysInMonth(y, m)
  {
  }

  lemma LastMonth(y: int)
    ensures DaysBeforeMonth(y, 12) + DaysInMonth(y, 12) == YearLength(y)
  {
  }

  lemma {:induction false} MonthsMonotone(y: int, m: int, m2: int)
    requires 1 <= m < m2 <= 12
    ensures DaysBeforeMonth(y, m) + DaysInMonth(y, m) <= DaysBeforeMonth(y, m2)
    decreases m2 - m
  {
    MonthStep(y, m);
    if m + 1 < m2 {
      MonthsMonotone(y, m + 1, m2);
    }
  }

  lemma {:induction false} YearsMonotone(y: int, y2: int)
    requires 1 <= y < y2
    ensures DaysBeforeYear(y) + YearLength(y) <= DaysBeforeYear(y2)
    decreases y2 - y
  {
    YearStep(y);
    if y + 1 < y2 {
      YearsMonotone(y + 1, y2);
    }
  }

  /** Every valid date's ordinal lies within its own year's span. */
  lemma OrdinalInYear(d: Date)
    requires Valid(d)
    ensures DaysBeforeYear(d.year) < Ordinal(d) <= DaysBeforeYear(d.year) + YearLength(d.year)
  {
    if d.month < 12 {
      MonthsMonotone(d.year, d.month, 12);
    }
    LastMonth(d.year);
  }

  /** The ordinal orders dates exactly as the lexicographic comparison does. */
  lemma OrdinalOrder(a: Date, b: Date)
    requires Valid(a) && Valid(b)
    ensures Before(a, b) <==> Ordinal(a) < Ordinal(b)
    ensures a == b <==> Ordinal(a) == Ordinal(b)
  {
    OrdinalInYear(a);
    OrdinalInYear(b);
    if a.year < b.year {
      YearsMonotone(a.year, b.year);
    } else if b.year < a.year {
      YearsMonotone(b.year, a.year);
    } else if a.month < b.month {
      MonthsMonotone(a.year, a.month, b.month);
    } else if b.month < a.month {
      MonthsMonotone(a.year, b.month, a.month);
    }
  }

  /** Consequently `NotAfter` is the ordinal `<=`. */
  lemma NotAfterOrdinal(a: Date, b: Date)
    requires Valid(a) && Valid(b)
    ensures NotAfter(a, b) <==> Ordinal(a) <= Ordinal(b)
  {
    OrdinalOrder(a, b);
  }

  // -------------------------------------------------------- month addition

  function Min(a: int, b: int): int { if a <= b then a else b }

  /** `d + relativedelta(months=n)`: move the month forward and clamp the day
      to the length of the target month. The result is a `date` only while its
      year stays at or below 9999 (Python raises otherwise). */
  function AddMonths(d: Date, n: nat): (r: Date)
    requires Valid(d)
    ensures r.day <= d.day && 1 <= r.month <= 12
    ensures r.year * 12 + r.month == d.year * 12 + d.month + n
    ensures r.year <= MaxYear ==> Valid(r)
    ensures r.day == d.day || r.day == DaysInMonth(r.year, r.month)
  {
    var m0 := d.month - 1 + n;
    var y := d.year + m0 / 12;
    var m := m0 % 12 + 1;
    Date(y, m, Min(d.day, DaysInMonth(y, m)))
  }

  /** The upper end of the two-month notification window, `today + relativedelta(months=2)`. */
  function Horizon(today: Date): (h: Date)
    requires Valid(today) && today.year < MaxYear
    ensures Valid(h) && Before(today, h)
  {
    AddMonths(today, 2)
  }

  /** The window always spans between 59 and 62 days. */
  lemma HorizonSpan(today: Date)
    requires Valid(today) && today.year < MaxYear
    ensures 59 <= DaysBetween(Horizon(today), today) <= 62
  {
    var h := Horizon(today);
    var y, m := today.year, today.month;
    if m <= 10 {
      MonthStep(y, m);
      MonthStep(y, m + 1);
    } else {
      YearStep(y);
      LastMonth(y);
      if m == 11 {
        MonthStep(y, 11);
      }
      MonthStep(y + 1, 1);
    }
  }

  // ---------------------------------------------------------- ISO rendering

  function Pow10(k: nat): (p: nat)
    ensures p >= 1
  {
    if k == 0 then 1 else 10 * Pow10(k - 1)
  }

  /** `'%0*d' % (width, n)` for `n < 10^width`: exactly `width` digits. */
  function Fixed(n: nat, width: nat): (s: string)
    ensures |s| == width && AllDigits(s)
  {
    if width == 0 then [] else Fixed(n / 10, width - 1) + [DigitChar(n % 10)]
  }

  lemma {:induction false} FixedValue(n: nat, width: nat)
    requires n < Pow10(width)
    ensures DigitsValue(Fixed(n, width)) == n
    decreases width
  {
    if width > 0 {
      var s := Fixed(n, width);
      FixedValue(n / 10, width - 1);
      assert s[..|s| - 1] == Fixed(n / 10, width - 1);
      DigitRoundTrip(n % 10);
    }
  }

  /** `str(d)` / `d.isoformat()`: `YYYY-MM-DD`. */
  function IsoString(d: Date): (s: string)
    requires Valid(d)
    ensures |s| == 10 && s[4] == '-' && s[7] == '-'
    ensures AllDigits(s[..4]) && AllDigits(s[5..7]) && AllDigits(s[8..])
  {
    var s := Fixed(d.year, 4) + "-" + Fixed(d.month, 2) + "-" + Fixed(d.day, 2);
    assert s[..4] == Fixed(d.year, 4) && s[5..7] == Fixed(d.month, 2) && s[8..] == Fixed(d.day, 2);
    s
  }

  /** Reading `YYYY-MM-DD` back as three numbers gives the date's fields. */
  lemma IsoStringFields(d: Date)
    requires Valid(d)
    ensures DigitsValue(IsoString(d)[..4]) == d.year
    ensures DigitsValue(IsoString(d)[5..7]) == d.month
    ensures DigitsValue(IsoString(d)[8..]) == d.day
  {
    var s := IsoString(d);
    assert s[..4] == Fixed(d.year, 4) && s[5..7] == Fixed(d.month, 2) && s[8..] == Fixed(d.day, 2);
    assert Pow10(4) == 10000 && Pow10(2) == 100;
    FixedValue(d.year, 4);
    FixedValue(d.month, 2);
    FixedValue(d.day, 2);
  }

  /** Distinct dates have distinct ISO renderings. */
  lemma IsoStringInjective(a: Date, b: Date)
    requires Valid(a) && Valid(b)
    ensures IsoString(a) == IsoString(b) ==> a == b
  {
    IsoStringFields(a);
    IsoStringFields(b);
  }
}
