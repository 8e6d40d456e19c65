/** Dates of the proleptic Gregorian calendar, as Python's `datetime.date`
    holds them (years 1 to 9999), with day arithmetic (`date ± timedelta`)
    and the one-year step `sub_year` that the historical windows are built from. */
module Calendar {
  import opened Errors

  const MIN_YEAR: int := 1
  const MAX_YEAR: int := 9999
  /** `date.max.toordinal()`: the ordinal of 9999-12-31. */
  const MAX_ORDINAL: int := 3652059

  datatype Date = Date(year: int, month: int, day: int)

  /** Divisible by 4 and not by 100, unless divisible by 400. */
  predicate IsLeapYear(y: int)
  {
    y % 4 == 0 && (y % 100 != 0 || y % 400 == 0)
  }

  function DaysInMonth(y: int, m: int): int
    requires 1 <= m <= 12
  {
    if m == 2 then (if IsLeapYear(y) then 29 else 28)
    else if m == 4 || m == 6 || m == 9 || m == 11 then 30
    else 31
  }

  /** The values a `date` object can hold. */
  predicate ValidDate(d: Date)
  {
    MIN_YEAR <= d.year <= MAX_YEAR && 1 <= d.month <= 12 && 1 <= d.day <= DaysInMonth(d.year, d.month)
  }

  // ---------------------------------------------------------------------------
  // Ordinals: `date.toordinal()`, where 0001-01-01 is day 1

  function DaysBeforeYear(year: int): int
    requires year >= 1
  {
    var y := year - 1;
    y * 365 + y / 4 - y / 100 + y / 400
  }

  function DaysBeforeMonth(year: int, month: int): int
    requires 1 <= month <= 12
  {
    [0, 31, 59, 90, 120, 151, 181, 212, 243, 273, 304, 334][month - 1]
      + (if month > 2 && IsLeapYear(year) then 1 else 0)
  }

  function Ordinal(d: Date): int
    requires ValidDate(d)
  {
    DaysBeforeYear(d.year) + DaysBeforeMonth(d.year, d.month) + d.day
  }

  /** A year is 366 days long when it is a leap year and 365 otherwise. */
  lemma YearLength(year: int)
    requires year >= 1
    ensures DaysBeforeYear(year + 1) == DaysBeforeYear(year) + (if IsLeapYear(year) then 366 else 365)
  {
    var step4, step100, step400 := year / 4 - (year - 1) / 4, year / 100 - (year - 1) / 100, year / 400 - (year - 1) / 400;
    assert DaysBeforeYear(year + 1) - DaysBeforeYear(year) == 365 + step4 - step100 + step400;
    QuotientStep(year, 4);
    QuotientStep(year, 100);
    QuotientStep(year, 400);
    DivisibilityChain(year);
    if IsLeapYear(year) {
      assert step4 == 1 && step100 == step400;
    } else if year % 4 == 0 {
      assert step4 == 1 && step100 == 1 && step400 == 0;
    } else {
      assert step4 == 0 && step100 == 0 && step400 == 0;
    }
  }

  /** A multiple of 400 is a multiple of 100, and a multiple of 100 one of 4. */
  lemma DivisibilityChain(a: int)
    ensures a % 400 == 0 ==> a % 100 == 0
    ensures a % 100 == 0 ==> a % 4 == 0
  {
    if a % 400 == 0 {
      DivisionUnique(a, 100, 4 * (a / 400), 0);
    }
    if a % 100 == 0 {
      DivisionUnique(a, 4, 25 * (a / 100), 0);
    }
  }

  /** Going from a - 1 to a, the quotient by c grows by one exactly when c divides a. */
  lemma QuotientStep(a: int, c: int)
    requires a >= 1 && c > 0
    ensures a / c - (a - 1) / c == if a % c == 0 then 1 else 0
  {
    var q, r := (a - 1) / c, (a - 1) % c;
    assert a == c * q + r + 1;
    if r + 1 == c {
      DivisionUnique(a, c, q + 1, 0);
    } else {
      DivisionUnique(a, c, q, r + 1);
    }
  }

  lemma DivisionUnique(a: int, c: int, q: int, r: int)
    requires c > 0 && a == c * q + r && 0 <= r < c
    ensures a / c == q && a % c == r
  {
    var q', r' := a / c, a % c;
    assert c * (q - q') == r' - r;
    if q > q' {
      ProductAtLeastFactor(c, q - q');
    } else if q < q' {
      assert c * (q' - q) == r - r';
      ProductAtLeastFactor(c, q' - q);
    }
  }

  lemma {:induction false} ProductAtLeastFactor(c: int, t: int)
    requires c > 0 && t >= 1
    ensures c * t >= c
    decreases t
  {
    if t > 1 {
      ProductAtLeastFactor(c, t - 1);
      assert c * t == c * (t - 1) + c;
    }
  }

  lemma {:induction false} DaysBeforeYearGrows(a: int, b: int)
    requires 1 <= a <= b
    ensures DaysBeforeYear(a) + 365 * (b - a) <= DaysBeforeYear(b)
    decreases b - a
  {
    if a < b {
      YearLength(a);
      DaysBeforeYearGrows(a + 1, b);
    }
  }

  /** The days of one month come after the days before it and before the next month's. */
  lemma MonthLength(year: int, month: int)
    requires 1 <= month <= 12
    ensures DaysBeforeMonth(year, month) + DaysInMonth(year, month)
            == if month < 12 then DaysBeforeMonth(year, month + 1) else if IsLeapYear(year) then 366 else 365
  {
  }

  /** Every date's ordinal lies between those of 0001-01-01 and 9999-12-31. */
  lemma OrdinalBounds(d: Date)
    requires ValidDate(d)
    ensures 1 <= Ordinal(d) <= MAX_ORDINAL
    ensures Ordinal(d) == 1 <==> d == Date(MIN_YEAR, 1, 1)
    ensures Ordinal(d) == MAX_ORDINAL <==> d == Date(MAX_YEAR, 12, 31)
  {
    OrdinalAtLeastOne(d);
    OrdinalAtMostMax(d);
  }

  lemma OrdinalAtLeastOne(d: Date)
    requires ValidDate(d)
    ensures 1 <= Ordinal(d)
    ensures Ordinal(d) == 1 <==> d == Date(MIN_YEAR, 1, 1)
  {
    DaysBeforeYearGrows(MIN_YEAR, d.year);
    assert DaysBeforeMonth(d.year, d.month) >= 0;
  }

  lemma OrdinalAtMostMax(d: Date)
    requires ValidDate(d)
    ensures Ordinal(d) <= MAX_ORDINAL
    ensures Ordinal(d) == MAX_ORDINAL <==> d == Date(MAX_YEAR, 12, 31)
  {
    MonthLength(d.year, d.month);
    if d.year < MAX_YEAR {
      OrdinalBeforeNextYear(d);
      DaysBeforeYearGrows(d.year + 1, MAX_YEAR);
      assert DaysBeforeYear(MAX_YEAR) + 365 == MAX_ORDINAL;
    } else if d.month < 12 {
      MonthsInOrder(d.year, d.month, 12);
    }
  }

  /** Later years, and later days of the same year, have larger ordinals. */
  lemma OrdinalBeforeNextYear(d: Date)
    requires ValidDate(d)
    ensures Ordinal(d) <= DaysBeforeYear(d.year + 1)
  {
    MonthLength(d.year, d.month);
    YearLength(d.year);
  }

  lemma MonthsInOrder(year: int, m1: int, m2: int)
    requires 1 <= m1 < m2 <= 12
    ensures DaysBeforeMonth(year, m1) + DaysInMonth(year, m1) <= DaysBeforeMonth(year, m2)
    decreases m2 - m1
  {
    MonthLength(year, m1);
    if m1 + 1 < m2 {
      MonthsInOrder(year, m1 + 1, m2);
    }
  }

  /** A date in an earlier year, or in an earlier month of the same year, has a smaller ordinal. */
  lemma OrdinalOrder(d1: Date, d2: Date)
    requires ValidDate(d1) && ValidDate(d2)
    ensures d1.year < d2.year ==> Ordinal(d1) < Ordinal(d2)
    ensures d1.year == d2.year && d1.month < d2.month ==> Ordinal(d1) < Ordinal(d2)
  {
    if d1.year < d2.year {
      OrdinalBeforeNextYear(d1);
      DaysBeforeYearGrows(d1.year + 1, d2.year);
    } else if d1.year == d2.year && d1.month < d2.month {
      MonthsInOrder(d1.year, d1.month, d2.month);
    }
  }

  /** Distinct dates have distinct ordinals, so a date is determined by its ordinal. */
  lemma OrdinalInjective(d1: Date, d2: Date)
    requires ValidDate(d1) && ValidDate(d2)
    requires Ordinal(d1) == Ordinal(d2)
    ensures d1 == d2
  {
    OrdinalOrder(d1, d2);
    OrdinalOrder(d2, d1);
  }

  // ---------------------------------------------------------------------------
  // `date + timedelta(days=n)`: one day at a time

  /** The first day of a month follows the last day of the month before. */
  lemma MonthStartOrdinal(year: int, month: int)
    requires MIN_YEAR <= year <= MAX_YEAR && 1 < month <= 12
    ensures ValidDate(Date(year, month - 1, DaysInMonth(year, month - 1)))
    ensures Ordinal(Date(year, month, 1)) == Ordinal(Date(year, month - 1, DaysInMonth(year, month - 1))) + 1
  {
    MonthLength(year, month - 1);
  }

  /** 1 January follows 31 December of the year before. */
  lemma NewYearOrdinal(year: int)
    requires MIN_YEAR < year <= MAX_YEAR
    ensures Ordinal(Date(year, 1, 1)) == Ordinal(Date(year - 1, 12, 31)) + 1
  {
    MonthLength(year - 1, 12);
    YearLength(year - 1);
  }

  function NextDay(d: Date): (r: Result<Date>)
    requires ValidDate(d)
    ensures r.Ok? <==> Ordinal(d) < MAX_ORDINAL
    ensures r.Ok? ==> ValidDate(r.value) && Ordinal(r.value) == Ordinal(d) + 1
    ensures r.Err? ==> r.error == OverflowError
  {
    if d.day < DaysInMonth(d.year, d.month) then
      var e := Date(d.year, d.month, d.day + 1);
      OrdinalAtMostMax(e);
      Ok(e)
    else if d.month < 12 then
      var e := Date(d.year, d.month + 1, 1);
      MonthStartOrdinal(d.year, d.month + 1);
      OrdinalAtMostMax(e);
      Ok(e)
    else if d.year < MAX_YEAR then
      var e := Date(d.year + 1, 1, 1);
      NewYearOrdinal(d.year + 1);
      OrdinalAtMostMax(e);
      Ok(e)
    else
      OrdinalAtMostMax(d);
      Err(OverflowError)
  }

  function PrevDay(d: Date): (r: Result<Date>)
    requires ValidDate(d)
    ensures r.Ok? <==> Ordinal(d) > 1
    ensures r.Ok? ==> ValidDate(r.value) && Ordinal(r.value) == Ordinal(d) - 1
    ensures r.Err? ==> r.error == OverflowError
  {
    if d.day > 1 then
      var e := Date(d.year, d.month, d.day - 1);
      OrdinalAtLeastOne(e);
      Ok(e)
    else if d.month > 1 then
      var e := Date(d.year, d.month - 1, DaysInMonth(d.year, d.month - 1));
      MonthStartOrdinal(d.year, d.month);
      OrdinalAtLeastOne(e);
      Ok(e)
    else if d.year > MIN_YEAR then
      var e := Date(d.year - 1, 12, 31);
      NewYearOrdinal(d.year);
      OrdinalAtLeastOne(e);
      Ok(e)
    else
      OrdinalAtLeastOne(d);
      Err(OverflowError)
  }

  /** `d + timedelta(days=n)`: the date whose ordinal is n more than d's,
      or OverflowError when that ordinal is outside the range of `date`. */
  function AddDays(d: Date, n: int): (r: Result<Date>)
    requires ValidDate(d)
    ensures r.Ok? <==> 1 <= Ordinal(d) + n <= MAX_ORDINAL
    ensures r.Ok? ==> ValidDate(r.value) && Ordinal(r.value) == Ordinal(d) + n
    ensures r.Err? ==> r.error == OverflowError
    decreases if n < 0 then -n else n
  {
    if n == 0 then (OrdinalBounds(d); Ok(d))
    else if n > 0 then
      match NextDay(d)
      case Ok(e) => AddDays(e, n - 1)
      case Err(x) => Err(x)
    else
      match PrevDay(d)
      case Ok(e) => AddDays(e, n + 1)
      case Err(x) => Err(x)
  }

  /** Going n days forward and then n days back returns to the same date. */
  lemma AddDaysRoundTrip(d: Date, n: int)
    requires ValidDate(d)
    requires AddDays(d, n).Ok?
    ensures AddDays(AddDays(d, n).value, -n) == Ok(d)
  {
    var e := AddDays(d, n).value;
    var back := AddDays(e, -n);
    OrdinalBounds(d);
    OrdinalInjective(back.value, d);
  }

  // ---------------------------------------------------------------------------
  // `sub_year`

  /** `d.replace(year=year, day=day)`: ValueError when the result is not a date. */
  function Replace(d: Date, year: int, day: int): Result<Date>
  {
    var e := Date(year, d.month, day);
    if ValidDate(e) then Ok(e) else Err(ValueError)
  }

  /** `sub_year`: replace the year by the previous one; if that raises, retry with day 28.
      Only 29 February in a year whose predecessor is not a leap year takes the
      second branch; in year 1 both attempts raise. */
  function SubYear(d: Date): (r: Result<Date>)
    requires ValidDate(d)
    ensures r.Ok? <==> d.year > MIN_YEAR
    ensures r.Err? ==> r.error == ValueError
    ensures r.Ok? ==> ValidDate(r.value) && r.value.year == d.year - 1 && r.value.month == d.month
    ensures r.Ok? ==> r.value.day == if d.month == 2 && d.day == 29 && !IsLeapYear(d.year - 1) then 28 else d.day
  {
    match Replace(d, d.year - 1, d.day)
    case Ok(e) => Ok(e)
    case Err(_) => Replace(d, d.year - 1, 28)
  }

  /** `sub_year` applied k times in a row, as the window loop does. */
  function SubYearN(d: Date, k: nat): (r: Result<Date>)
    requires ValidDate(d)
    ensures r.Ok? ==> ValidDate(r.value)
  {
    if k == 0 then Ok(d)
    else
      match SubYearN(d, k - 1)
      case Ok(e) => SubYear(e)
      case Err(x) => Err(x)
  }

  /** k steps of `sub_year` land on the same month k years earlier; the day is kept,
      except that 29 February becomes 28 February at the first step (the year before
      a leap year never is one) and stays 28 even in the leap years further back. */
  lemma {:induction false} SubYearNClosedForm(d: Date, k: nat)
    requires ValidDate(d)
    ensures SubYearN(d, k).Ok? <==> d.year - k >= MIN_YEAR
    ensures SubYearN(d, k).Err? ==> SubYearN(d, k).error == ValueError
    ensures SubYearN(d, k).Ok? ==>
              SubYearN(d, k).value == Date(d.year - k, d.month, if k > 0 && d.month == 2 && d.day == 29 then 28 else d.day)
  {
    if k > 0 {
      SubYearNClosedForm(d, k - 1);
    }
  }
}
