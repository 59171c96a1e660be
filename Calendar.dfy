/** The proleptic Gregorian calendar as Python's `datetime.date` has it:
    years 1..9999, day ordinals with 0001-01-01 as day 1 (`toordinal`),
    Monday-based weekdays (`weekday`), and the day-stepping that
    `date ± timedelta(days=n)` performs. */
module Calendar {

  datatype Date = Date(year: int, month: int, day: int)

  predicate IsLeapYear(y: int) {
    y % 4 == 0 && (y % 100 != 0 || y % 400 == 0)
  }

  function DaysInMonth(y: int, m: int): (n: int)
    requires 1 <= m <= 12
    ensures 28 <= n <= 31
    ensures m == 2 ==> (n == 29 <==> IsLeapYear(y))
  {
    if m == 2 then (if IsLeapYear(y) then 29 else 28)
    else if m == 4 || m == 6 || m == 9 || m == 11 then 30
    else 31
  }

  /** What `datetime.date(y, m, d)` accepts without raising ValueError. */
  predicate ValidDate(d: Date) {
    1 <= d.year <= 9999 && 1 <= d.month <= 12 && 1 <= d.day <= DaysInMonth(d.year, d.month)
  }

  type CalDate = d: Date | ValidDate(d) witness Date(1970, 1, 1)

  const MinDate: CalDate := Date(1, 1, 1)
  const MaxDate: CalDate := Date(9999, 12, 31)

  function DaysInYear(y: int): int {
    if IsLeapYear(y) then 366 else 365
  }

  /** Days in the years before `y` (Python's `_days_before_year`). */
  function DaysBeforeYear(y: int): int
    requires y >= 1
  {
    var p := y - 1;
    p * 365 + p / 4 - p / 100 + p / 400
  }

  /** Days in the months of year `y` before month `m` (`_days_before_month`). */
  function DaysBeforeMonth(y: int, m: int): int
    requires 1 <= m <= 12
  {
    (if m == 1 then 0 else if m == 2 then 31 else if m == 3 then 59
     else if m == 4 then 90 else if m == 5 then 120 else if m == 6 then 151
     else if m == 7 then 181 else if m == 8 then 212 else if m == 9 then 243
     else if m == 10 then 273 else if m == 11 then 304 else 334)
    + (if m > 2 && IsLeapYear(y) then 1 else 0)
  }

  /** `date.toordinal()`. */
  function Ordinal(d: CalDate): int {
    DaysBeforeYear(d.year) + DaysBeforeMonth(d.year, d.month) + d.day
  }

  /** The weekday of day ordinal `o`: day 1 (0001-01-01) was a Monday. */
  function WeekdayOfOrdinal(o: int): (w: int)
    ensures 0 <= w < 7
  {
    (o + 6) % 7
  }

  /** `date.weekday()`: Monday is 0 and Sunday is 6. */
  function Weekday(d: CalDate): int {
    WeekdayOfOrdinal(Ordinal(d))
  }

  /** Chronological order of dates, as Python compares them. */
  predicate Before(a: Date, b: Date) {
    a.year < b.year || (a.year == b.year && (a.month < b.month || (a.month == b.month && a.day < b.day)))
  }

  predicate NotAfter(a: Date, b: Date) {
    a == b || Before(a, b)
  }

  lemma DaysBeforeNextYear(y: int)
    requires y >= 1
    ensures DaysBeforeYear(y + 1) == DaysBeforeYear(y) + DaysInYear(y)
  {
    var p := y - 1;
    var a, b, c := y / 4 - p / 4, y / 100 - p / 100, y / 400 - p / 400;
    DivStep4(p);
    DivStep100(p);
    DivStep400(p);
    assert DaysBeforeYear(y + 1) - DaysBeforeYear(y) == 365 + a - b + c;
    LeapDivides(y);
  }

  lemma DivStep4(p: int)
    requires p >= 0
    ensures (p + 1) / 4 - p / 4 == if (p + 1) % 4 == 0 then 1 else 0
  {
  }

  lemma DivStep100(p: int)
    requires p >= 0
    ensures (p + 1) / 100 - p / 100 == if (p + 1) % 100 == 0 then 1 else 0
  {
  }

  lemma DivStep400(p: int)
    requires p >= 0
    ensures (p + 1) / 400 - p / 400 == if (p + 1) % 400 == 0 then 1 else 0
  {
  }

  lemma LeapDivides(y: int)
    ensures y % 400 == 0 ==> y % 100 == 0
    ensures y % 100 == 0 ==> y % 4 == 0
  {
  }

  /** The last day of a year is day `DaysBeforeYear(y + 1)`. */
  lemma {:induction false} OrdinalWithinYear(d: CalDate)
    ensures DaysBeforeYear(d.year) < Ordinal(d) <= DaysBeforeYear(d.year + 1)
  {
    DaysBeforeNextYear(d.year);
  }

  lemma {:induction false} DaysBeforeYearMonotone(a: int, b: int)
    requires 1 <= a <= b
    ensures DaysBeforeYear(a) + 365 * (b - a) <= DaysBeforeYear(b)
    decreases b - a
  {
    if a < b {
      DaysBeforeYearMonotone(a, b - 1);
      DaysBeforeNextYear(b - 1);
    }
  }

  /** Ordinals follow the chronological order, so they are a faithful
      numbering of the calendar. */
  lemma {:induction false} OrdinalMonotone(a: CalDate, b: CalDate)
    ensures Before(a, b) <==> Ordinal(a) < Ordinal(b)
    ensures a == b <==> Ordinal(a) == Ordinal(b)
  {
    if a.year < b.year {
      EarlierYearFirst(a, b);
    } else if b.year < a.year {
      EarlierYearFirst(b, a);
    } else {
      SameYearOrder(a, b);
    }
  }

  lemma EarlierYearFirst(a: CalDate, b: CalDate)
    requires a.year < b.year
    ensures Ordinal(a) < Ordinal(b)
  {
    OrdinalWithinYear(a);
    OrdinalWithinYear(b);
    DaysBeforeYearMonotone(a.year + 1, b.year);
  }

  lemma SameYearOrder(a: CalDate, b: CalDate)
    requires a.year == b.year
    ensures Before(a, b) <==> Ordinal(a) < Ordinal(b)
    ensures a == b <==> Ordinal(a) == Ordinal(b)
  {
    if a.month < b.month {
      MonthsFollow(a.year, a.month, b.month);
    } else if b.month < a.month {
      MonthsFollow(a.year, b.month, a.month);
    }
  }

  /** A later month of the same year starts after every day of an earlier one. */
  lemma MonthsFollow(y: int, m: int, n: int)
    requires 1 <= m < n <= 12
    ensures DaysBeforeMonth(y, m) + DaysInMonth(y, m) <= DaysBeforeMonth(y, n)
  {
  }

  /** `d + timedelta(days=1)`. */
  function NextDay(d: CalDate): (r: CalDate)
    requires d != MaxDate
    ensures Ordinal(r) == Ordinal(d) + 1
  {
    if d.day < DaysInMonth(d.year, d.month) then Date(d.year, d.month, d.day + 1)
    else if d.month < 12 then Date(d.year, d.month + 1, 1)
    else
      DaysBeforeNextYear(d.year);
      Date(d.year + 1, 1, 1)
  }

  /** `d - timedelta(days=1)`. */
  function PrevDay(d: CalDate): (r: CalDate)
    requires d != MinDate
    ensures Ordinal(r) == Ordinal(d) - 1
  {
    if d.day > 1 then Date(d.year, d.month, d.day - 1)
    else if d.month > 1 then Date(d.year, d.month - 1, DaysInMonth(d.year, d.month - 1))
    else
      DaysBeforeNextYear(d.year - 1);
      Date(d.year - 1, 12, 31)
  }

  /** `d + timedelta(days=n)`, defined when the result stays inside
      years 1..9999 (Python raises OverflowError otherwise). */
  function AddDays(d: CalDate, n: int): (r: CalDate)
    requires Ordinal(MinDate) <= Ordinal(d) + n <= Ordinal(MaxDate)
    ensures Ordinal(r) == Ordinal(d) + n
    decreases if n < 0 then -n else n
  {
    if n == 0 then d
    else if n > 0 then
      OrdinalMonotone(d, MaxDate);
      AddDays(NextDay(d), n - 1)
    else
      OrdinalMonotone(d, MinDate);
      AddDays(PrevDay(d), n + 1)
  }
}
