/** Dates of the proleptic Gregorian calendar as Python's `datetime.date`
    represents them: years 1 to 9999, and the day-successor that
    `date + timedelta(days=1)` computes, including its `OverflowError` past
    9999-12-31. The ordinal numbering of days (0001-01-01 is day 1) is the
    reference that `NextDay` is proved against. */
module Calendar {
  import opened Wrappers

  const MinYear := 1
  const MaxYear := 9999
  /** The ordinal of 9999-12-31, the last representable day. */
  const MaxOrdinal := 3652059

  datatype Date = Date(year: int, month: int, day: int)

  predicate IsLeapYear(year: int)
  {
    year % 4 == 0 && (year % 100 != 0 || year % 400 == 0)
  }

  function DaysInMonth(year: int, month: int): (n: int)
    requires 1 <= month <= 12
    ensures 28 <= n <= 31
    ensures n == 29 <==> month == 2 && IsLeapYear(year)
    ensures n == 28 <==> month == 2 && !IsLeapYear(year)
  {
    if month == 2 then (if IsLeapYear(year) then 29 else 28)
    else if month == 4 || month == 6 || month == 9 || month == 11 then 30
    else 31
  }

  function DaysInYear(year: int): int
  {
    if IsLeapYear(year) then 366 else 365
  }

  /** The dates a `datetime.date` object can hold. */
  predicate IsValid(d: Date)
  {
    && MinYear <= d.year <= MaxYear
    && 1 <= d.month <= 12
    && 1 <= d.day <= DaysInMonth(d.year, d.month)
  }

  /** `d + timedelta(days=1)`: `None` is the `OverflowError` raised for the
      day after 9999-12-31. */
  function NextDay(d: Date): (r: Option<Date>)
    requires IsValid(d)
    ensures r.Some? ==> IsValid(r.value)
    ensures r.None? <==> d == Date(MaxYear, 12, 31)
  {
    if d.day < DaysInMonth(d.year, d.month) then Some(Date(d.year, d.month, d.day + 1))
    else if d.month < 12 then Some(Date(d.year, d.month + 1, 1))
    else if d.year < MaxYear then Some(Date(d.year + 1, 1, 1))
    else None
  }

  /** `d - timedelta(days=1)`: `None` for the day before 0001-01-01. */
  function PrevDay(d: Date): (r: Option<Date>)
    requires IsValid(d)
    ensures r.Some? ==> IsValid(r.value)
    ensures r.None? <==> d == Date(MinYear, 1, 1)
  {
    if d.day > 1 then Some(Date(d.year, d.month, d.day - 1))
    else if d.month > 1 then Some(Date(d.year, d.month - 1, DaysInMonth(d.year, d.month - 1)))
    else if d.year > MinYear then Some(Date(d.year - 1, 12, 31))
    else None
  }

  // ---------------------------------------------------------------------
  // Day ordinals, computed as Python's `date.toordinal` does.

  function DaysBeforeYear(year: int): int
    requires year >= 1
  {
    var y := year - 1;
    365 * y + y / 4 - y / 100 + y / 400
  }

  function DaysBeforeMonth(year: int, month: int): int
    requires 1 <= month <= 13
  {
    if month == 1 then 0 else DaysBeforeMonth(year, month - 1) + DaysInMonth(year, month - 1)
  }

  function Ordinal(d: Date): int
    requires IsValid(d)
  {
    DaysBeforeYear(d.year) + DaysBeforeMonth(d.year, d.month) + d.day
  }

  /** Integer division by a positive constant steps up by one exactly at
      its multiples. */
  lemma QuotientStep(p: int, k: int)
    requires p >= 0 && k > 0
    ensures (p + 1) / k == p / k + (if (p + 1) % k == 0 then 1 else 0)
  {
    var q, r := p / k, p % k;
    assert p == k * q + r && 0 <= r < k;
    if r + 1 < k {
      assert p + 1 == k * q + (r + 1);
      QuotientUnique(p + 1, k, q, r + 1);
    } else {
      assert p + 1 == k * (q + 1);
      QuotientUnique(p + 1, k, q + 1, 0);
    }
  }

  lemma QuotientUnique(a: int, k: int, q: int, r: int)
    requires k > 0 && 0 <= r < k && a == k * q + r
    ensures a / k == q && a % k == r
  {
    var q', r' := a / k, a % k;
    assert k * (q - q') == r' - r;
    if q > q' {
      ProductAtLeastFactor(k, q - q');
    } else if q < q' {
      assert k * (q' - q) == r - r';
      ProductAtLeastFactor(k, q' - q);
    }
  }

  lemma {:induction false} ProductAtLeastFactor(k: int, m: int)
    requires k > 0 && m >= 1
    ensures k * m >= k
    decreases m
  {
    if m > 1 {
      ProductAtLeastFactor(k, m - 1);
      assert k * m == k * (m - 1) + k;
    }
  }

  lemma DaysBeforeYearStep(year: int)
    requires year >= 1
    ensures DaysBeforeYear(year + 1) == DaysBeforeYear(year) + DaysInYear(year)
  {
    var p := year - 1;
    QuotientStep(p, 4);
    QuotientStep(p, 100);
    QuotientStep(p, 400);
    var b4, b100, b400 := year % 4 == 0, year % 100 == 0, year % 400 == 0;
    assert DaysBeforeYear(year + 1) - DaysBeforeYear(year)
           == 365 + (if b4 then 1 else 0) - (if b100 then 1 else 0) + (if b400 then 1 else 0);
    if b400 {
      QuotientUnique(year, 100, 4 * (year / 400), 0);
    }
    if b100 {
      QuotientUnique(year, 4, 25 * (year / 100), 0);
    }
  }

  lemma {:induction false} DaysBeforeYearGrows(a: int, b: int)
    requires 1 <= a <= b
    ensures DaysBeforeYear(a) + 365 * (b - a) <= DaysBeforeYear(b)
    decreases b - a
  {
    if a < b {
      DaysBeforeYearGrows(a, b - 1);
      DaysBeforeYearStep(b - 1);
    }
  }

  lemma {:induction false} DaysBeforeMonthGrows(year: int, a: int, b: int)
    requires 1 <= a <= b <= 13
    ensures DaysBeforeMonth(year, a) + 28 * (b - a) <= DaysBeforeMonth(year, b)
    decreases b - a
  {
    if a < b {
      DaysBeforeMonthGrows(year, a, b - 1);
    }
  }

  /** The days before each month: January 31, February 28 (29 in leap
      years), then 31, 30, 31, 30, 31, 31, 30, 31, 30, 31; the twelve months
      add up to the length of the year. */
  lemma MonthsFillYear(year: int)
    ensures var leap := if IsLeapYear(year) then 1 else 0;
            && DaysBeforeMonth(year, 2) == 31
            && DaysBeforeMonth(year, 3) == 59 + leap
            && DaysBeforeMonth(year, 4) == 90 + leap
            && DaysBeforeMonth(year, 5) == 120 + leap
            && DaysBeforeMonth(year, 6) == 151 + leap
            && DaysBeforeMonth(year, 7) == 181 + leap
            && DaysBeforeMonth(year, 8) == 212 + leap
            && DaysBeforeMonth(year, 9) == 243 + leap
            && DaysBeforeMonth(year, 10) == 273 + leap
            && DaysBeforeMonth(year, 11) == 304 + leap
            && DaysBeforeMonth(year, 12) == 334 + leap
            && DaysBeforeMonth(year, 13) == DaysInYear(year)
  {
    var leap := if IsLeapYear(year) then 1 else 0;
    assert DaysBeforeMonth(year, 2) == 31;
    assert DaysBeforeMonth(year, 3) == 59 + leap;
    assert DaysBeforeMonth(year, 4) == 90 + leap;
    assert DaysBeforeMonth(year, 5) == 120 + leap;
    assert DaysBeforeMonth(year, 6) == 151 + leap;
    assert DaysBeforeMonth(year, 7) == 181 + leap;
    assert DaysBeforeMonth(year, 8) == 212 + leap;
    assert DaysBeforeMonth(year, 9) == 243 + leap;
    assert DaysBeforeMonth(year, 10) == 273 + leap;
    assert DaysBeforeMonth(year, 11) == 304 + leap;
  }

  /** A date's ordinal lies strictly inside its own year's range. */
  lemma OrdinalWithinYear(d: Date)
    requires IsValid(d)
    ensures DaysBeforeYear(d.year) < Ordinal(d) <= DaysBeforeYear(d.year + 1)
  {
    DaysBeforeMonthGrows(d.year, 1, d.month);
    DaysBeforeMonthGrows(d.year, d.month + 1, 13);
    MonthsFillYear(d.year);
    DaysBeforeYearStep(d.year);
  }

  /** Every valid date has an ordinal between 1 and `MaxOrdinal`. */
  lemma OrdinalRange(d: Date)
    requires IsValid(d)
    ensures 1 <= Ordinal(d) <= MaxOrdinal
  {
    OrdinalWithinYear(d);
    DaysBeforeYearGrows(d.year + 1, MaxYear + 1);
  }

  /** Ordinals grow with the date: a later year, or a later month of the
      same year, has a larger ordinal. */
  lemma OrdinalGrowsWithYear(a: Date, b: Date)
    requires IsValid(a) && IsValid(b) && a.year < b.year
    ensures Ordinal(a) < Ordinal(b)
  {
    OrdinalWithinYear(a);
    OrdinalWithinYear(b);
    DaysBeforeYearGrows(a.year + 1, b.year);
  }

  lemma OrdinalGrowsWithMonth(a: Date, b: Date)
    requires IsValid(a) && IsValid(b) && a.year == b.year && a.month < b.month
    ensures Ordinal(a) < Ordinal(b)
  {
    DaysBeforeMonthGrows(a.year, a.month + 1, b.month);
  }

  /** Distinct valid dates have distinct ordinals. */
  lemma OrdinalInjective(a: Date, b: Date)
    requires IsValid(a) && IsValid(b)
    requires Ordinal(a) == Ordinal(b)
    ensures a == b
  {
    if a.year < b.year {
      OrdinalGrowsWithYear(a, b);
      assert false;
    } else if b.year < a.year {
      OrdinalGrowsWithYear(b, a);
      assert false;
    } else if a.month < b.month {
      OrdinalGrowsWithMonth(a, b);
      assert false;
    } else if b.month < a.month {
      OrdinalGrowsWithMonth(b, a);
      assert false;
    }
  }

  /** `NextDay` agrees with Python's ordinal arithmetic: it yields the one
      valid date whose ordinal is one more, and it fails exactly when that
      ordinal would pass `MaxOrdinal`. */
  lemma NextDayIsOrdinalSuccessor(d: Date, e: Date)
    requires IsValid(d) && IsValid(e)
    ensures NextDay(d) == Some(e) <==> Ordinal(e) == Ordinal(d) + 1
    ensures NextDay(d).None? <==> Ordinal(d) == MaxOrdinal
  {
    MonthsFillYear(d.year);
    OrdinalRange(d);
    match NextDay(d)
    case None =>
      assert Ordinal(d) == MaxOrdinal;
      OrdinalRange(e);
    case Some(n) =>
      if d.day == DaysInMonth(d.year, d.month) && d.month == 12 {
        DaysBeforeYearStep(d.year);
      }
      assert Ordinal(n) == Ordinal(d) + 1;
      OrdinalRange(n);
      if Ordinal(e) == Ordinal(d) + 1 {
        OrdinalInjective(n, e);
      }
  }

  /** `PrevDay` undoes `NextDay`: the day before `e` is `d` exactly when the
      day after `d` is `e`. */
  lemma NextDayPrevDay(d: Date, e: Date)
    requires IsValid(d) && IsValid(e)
    ensures NextDay(d) == Some(e) <==> PrevDay(e) == Some(d)
  {
  }

  /** February 28th is followed by the 29th in leap years only. */
  lemma LeapDayFollowsFebruary28(year: int)
    requires MinYear <= year <= MaxYear
    ensures NextDay(Date(year, 2, 28)) == Some(if IsLeapYear(year) then Date(year, 2, 29) else Date(year, 3, 1))
  {
  }
}
