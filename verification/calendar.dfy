/** Proleptic Gregorian calendar arithmetic, as Python's `datetime` does it:
    enough to state what `datetime(2019, 1, 1) + timedelta(doy - 1)` is. */
module Calendar {
  import opened Outcomes

  datatype Date = Date(year: int, month: int, day: int)

  /** `datetime` only represents years 1 to 9999 and raises OverflowError
      outside them. */
  datatype DateError = OutOfRange

  const MinYear: int := 1
  const MaxYear: int := 9999

  predicate IsLeap(y: int)
  {
    y % 4 == 0 && (y % 100 != 0 || y % 400 == 0)
  }

  function DaysInYear(y: int): nat
  {
    if IsLeap(y) then 366 else 365
  }

  function DaysInMonth(y: int, m: int): nat
    requires 1 <= m <= 12
  {
    if m == 2 then (if IsLeap(y) then 29 else 28)
    else if m == 4 || m == 6 || m == 9 || m == 11 then 30
    else 31
  }

  predicate ValidDate(d: Date)
  {
    1 <= d.month <= 12 && 1 <= d.day <= DaysInMonth(d.year, d.month)
  }

  /** Days of year `y` before the first of month `m` (month 13 stands for
      the end of the year). */
  function MonthStart(y: int, m: int): (s: nat)
    requires 1 <= m <= 13
    ensures m == 13 ==> s == DaysInYear(y)
  {
    var leap := if IsLeap(y) && m > 2 then 1 else 0;
    [0, 31, 59, 90, 120, 151, 181, 212, 243, 273, 304, 334, 365][m - 1] + leap
  }

  /** Zero-based position of a date within its year. */
  function DayOfYear(d: Date): nat
    requires ValidDate(d)
  {
    MonthStart(d.year, d.month) + d.day - 1
  }

  /** The month containing day `k` (zero-based) of year `y`, searching from `m`. */
  function MonthOf(y: int, k: nat, m: int): (r: int)
    requires 1 <= m <= 12 && MonthStart(y, m) <= k < DaysInYear(y)
    decreases 13 - m
    ensures m <= r <= 12 && MonthStart(y, r) <= k < MonthStart(y, r + 1)
  {
    if k < MonthStart(y, m + 1) then m else MonthOf(y, k, m + 1)
  }

  /** The date of day `k` (zero-based) of year `y`. */
  function DateInYear(y: int, k: nat): (d: Date)
    requires k < DaysInYear(y)
    ensures ValidDate(d) && d.year == y && DayOfYear(d) == k
  {
    var m := MonthOf(y, k, 1);
    Date(y, m, k - MonthStart(y, m) + 1)
  }

  /** Position within the year determines the date. */
  lemma DateInYearOfDayOfYear(d: Date)
    requires ValidDate(d)
    ensures DateInYear(d.year, DayOfYear(d)) == d
  {
    var e := DateInYear(d.year, DayOfYear(d));
    if e.month < d.month {
      MonthStartMonotone(d.year, e.month + 1, d.month);
    } else if e.month > d.month {
      MonthStartMonotone(d.year, d.month + 1, e.month);
    }
  }

  lemma {:induction false} MonthStartMonotone(y: int, a: int, b: int)
    requires 1 <= a <= b <= 13
    ensures MonthStart(y, a) <= MonthStart(y, b)
    decreases b - a
  {
    if a < b {
      MonthStartMonotone(y, a + 1, b);
    }
  }

  /** Days from 0001-01-01 to the first of January of year `y`. */
  function YearStart(y: int): int
  {
    var q := y - 1;
    365 * q + q / 4 - q / 100 + q / 400
  }

  lemma DivStep(q: int, n: int)
    requires n > 0
    ensures (q + 1) / n - q / n == (if (q + 1) % n == 0 then 1 else 0)
  {
    var a, b := q / n, (q + 1) / n;
    var r1, r2 := q % n, (q + 1) % n;
    assert n * (b - a) == 1 + r1 - r2;
    if b - a >= 2 {
      MulAtLeast(n, b - a, 2);
      assert false;
    } else if b - a <= -1 {
      MulAtLeast(n, a - b, 1);
      assert false;
    } else if b - a == 1 {
      assert r2 == r1 + 1 - n;
    } else {
      assert r2 == r1 + 1;
    }
  }

  lemma MulAtLeast(n: int, k: int, c: int)
    requires n > 0 && k >= c
    ensures n * k >= n * c
  {
    assert n * k - n * c == n * (k - c);
  }

  /** Consecutive year starts are one year's length apart. */
  lemma YearStartStep(y: int)
    ensures YearStart(y + 1) == YearStart(y) + DaysInYear(y)
  {
    var q := y - 1;
    DivStep(q, 4);
    DivStep(q, 100);
    DivStep(q, 400);
    assert (q + 1) % 400 == 0 ==> (q + 1) % 100 == 0 && (q + 1) % 4 == 0;
    assert (q + 1) % 100 == 0 ==> (q + 1) % 4 == 0;
  }

  lemma {:induction false} YearStartMonotone(a: int, b: int)
    requires a <= b
    ensures YearStart(a) <= YearStart(b)
    decreases b - a
  {
    if a < b {
      YearStartStep(a);
      YearStartMonotone(a + 1, b);
    }
  }

  /** Days from 0001-01-01 to `d` (Python's `toordinal() - 1`). */
  function DayNumber(d: Date): int
    requires ValidDate(d)
  {
    YearStart(d.year) + DayOfYear(d)
  }

  /** A date lies inside its year. */
  lemma DayOfYearBelowYear(d: Date)
    requires ValidDate(d)
    ensures DayOfYear(d) < DaysInYear(d.year)
  {
    assert MonthStart(d.year, d.month) + DaysInMonth(d.year, d.month) == MonthStart(d.year, d.month + 1);
    MonthStartMonotone(d.year, d.month + 1, 13);
  }

  /** Every day of an earlier year comes before every day of a later one. */
  lemma DayNumberOrdered(d1: Date, d2: Date)
    requires ValidDate(d1) && ValidDate(d2)
    requires d1.year < d2.year
    ensures DayNumber(d1) < DayNumber(d2)
  {
    DayOfYearBelowYear(d1);
    YearStartStep(d1.year);
    YearStartMonotone(d1.year + 1, d2.year);
  }

  /** The day number is one-to-one on valid dates. */
  lemma DayNumberInjective(d1: Date, d2: Date)
    requires ValidDate(d1) && ValidDate(d2)
    requires DayNumber(d1) == DayNumber(d2)
    ensures d1 == d2
  {
    if d1.year < d2.year {
      DayNumberOrdered(d1, d2);
    } else if d2.year < d1.year {
      DayNumberOrdered(d2, d1);
    } else {
      DateInYearOfDayOfYear(d1);
      DateInYearOfDayOfYear(d2);
    }
  }

  /** Moves `k` days on from the start of year `y`, as a year and a
      position inside it. */
  function ShiftForward(y: int, k: nat): (r: (int, nat))
    decreases k
    ensures r.1 < DaysInYear(r.0)
    ensures YearStart(r.0) + r.1 == YearStart(y) + k
    ensures r.0 >= y
  {
    if k < DaysInYear(y) then (y, k)
    else
      YearStartStep(y);
      ShiftForward(y + 1, k - DaysInYear(y))
  }

  /** Moves `k < 0` days back from the start of year `y`. */
  function ShiftBackward(y: int, k: int): (r: (int, nat))
    requires k < 0
    decreases -k
    ensures r.1 < DaysInYear(r.0)
    ensures YearStart(r.0) + r.1 == YearStart(y) + k
    ensures r.0 < y
  {
    YearStartStep(y - 1);
    var k' := k + DaysInYear(y - 1);
    if k' >= 0 then (y - 1, k') else ShiftBackward(y - 1, k')
  }

  /** `days` days on from the start of `year`, as a year and a position
      inside it. */
  function Normalise(year: int, days: int): (r: (int, nat))
    ensures r.1 < DaysInYear(r.0)
    ensures YearStart(r.0) + r.1 == YearStart(year) + days
  {
    if days >= 0 then ShiftForward(year, days) else ShiftBackward(year, days)
  }

  /** A year lies in the supported range exactly when the days inside it do. */
  lemma InRangeYear(y: int, k: nat)
    requires k < DaysInYear(y)
    ensures MinYear <= y <= MaxYear <==> YearStart(MinYear) <= YearStart(y) + k < YearStart(MaxYear + 1)
  {
    YearStartStep(y);
    if y < MinYear {
      YearStartMonotone(y + 1, MinYear);
    } else if y > MaxYear {
      YearStartMonotone(MaxYear + 1, y);
    } else {
      YearStartMonotone(MinYear, y);
      YearStartMonotone(y + 1, MaxYear + 1);
    }
  }

  /** `datetime(year, 1, 1) + timedelta(days)`. */
  function AddDays(year: int, days: int): (r: Result<Date, DateError>)
    ensures r.Success? <==> YearStart(MinYear) <= YearStart(year) + days < YearStart(MaxYear + 1)
    ensures r.Success? ==> ValidDate(r.value) && MinYear <= r.value.year <= MaxYear
    ensures r.Success? ==> DayNumber(r.value) == YearStart(year) + days
  {
    var p := Normalise(year, days);
    InRangeYear(p.0, p.1);
    if MinYear <= p.0 <= MaxYear then Success(DateInYear(p.0, p.1)) else Failure(OutOfRange)
  }
}
