/** The proleptic Gregorian calendar: day numbers by adding up year and month lengths, and
    the era-based closed form the script computes. */
module Calendar {

  predicate IsLeap(year: int) {
    year % 4 == 0 && (year % 100 != 0 || year % 400 == 0)
  }

  function YearLength(year: int): nat {
    if IsLeap(year) then 366 else 365
  }

  function MonthLength(year: int, month: int): nat
    requires 1 <= month <= 12
  {
    if month == 2 then (if IsLeap(year) then 29 else 28)
    else if month == 4 || month == 6 || month == 9 || month == 11 then 30
    else 31
  }

  /** Days from 1970-01-01 to the first day of the year, one year length at a time. */
  function DaysBeforeYear(year: int): int
    decreases if year >= 1970 then year - 1970 else 1970 - year
  {
    if year == 1970 then 0
    else if year > 1970 then DaysBeforeYear(year - 1) + YearLength(year - 1)
    else DaysBeforeYear(year + 1) - YearLength(year)
  }

  /** Days from the first of January to the first of the month, one month length at a time. */
  function DaysBeforeMonth(year: int, month: int): nat
    requires 1 <= month <= 13
  {
    if month == 1 then 0 else DaysBeforeMonth(year, month - 1) + MonthLength(year, month - 1)
  }

  datatype Date = Date(year: int, month: int, day: int)

  predicate ValidDate(d: Date) {
    1 <= d.month <= 12 && 1 <= d.day <= MonthLength(d.year, d.month)
  }

  /** Days from 1970-01-01 to the date. */
  function DayNumber(d: Date): int
    requires 1 <= d.month <= 12
  {
    DaysBeforeYear(d.year) + DaysBeforeMonth(d.year, d.month) + d.day - 1
  }

  /** The script's closed form: eras of 400 years, years that begin in March. */
  function EraDayNumber(d: Date): int {
    var adjustedYear := if d.month <= 2 then d.year - 1 else d.year;
    var era := adjustedYear / 400;
    var yearOfEra := adjustedYear - era * 400;
    var monthOfYear := if d.month > 2 then d.month - 3 else d.month + 9;
    var dayOfYear := (153 * monthOfYear + 2) / 5 + d.day - 1;
    var dayOfEra := yearOfEra * 365 + yearOfEra / 4 - yearOfEra / 100 + dayOfYear;
    era * 146097 + dayOfEra - 719468
  }

  /** Stepping one year adds a leap day exactly in leap years. */
  lemma LeapDivisions(y: int)
    ensures y / 4 - y / 100 + y / 400 - ((y - 1) / 4 - (y - 1) / 100 + (y - 1) / 400) == (if IsLeap(y) then 1 else 0)
  {
    QuotientStep(y, 4);
    QuotientStep(y, 100);
    QuotientStep(y, 400);
    DivisorChain(y);
  }

  lemma DivisorChain(y: int)
    ensures y % 400 == 0 ==> y % 100 == 0
    ensures y % 100 == 0 ==> y % 4 == 0
  {
    if y % 400 == 0 {
      Multiple(y, 4 * (y / 400), 100);
    }
    if y % 100 == 0 {
      Multiple(y, 25 * (y / 100), 4);
    }
  }

  lemma Multiple(y: int, q: int, k: int)
    requires (k == 100 || k == 4) && y == q * k
    ensures y % k == 0
  {
    if k == 100 {
      assert y == q * 100;
    } else {
      assert y == q * 4;
    }
  }

  lemma QuotientStep(y: int, k: int)
    requires k == 4 || k == 100 || k == 400
    ensures y / k - (y - 1) / k == (if y % k == 0 then 1 else 0)
  {
    if k == 4 {
    } else if k == 100 {
    } else {
    }
  }

  lemma {:induction false} YearsClosed(year: int)
    ensures DaysBeforeYear(year) ==
            365 * (year - 1970) + (year - 1) / 4 - (year - 1) / 100 + (year - 1) / 400 - 477
    decreases if year >= 1970 then year - 1970 else 1970 - year
  {
    if year > 1970 {
      YearsClosed(year - 1);
      LeapDivisions(year - 1);
    } else if year < 1970 {
      YearsClosed(year + 1);
      LeapDivisions(year);
    }
  }

  /** March-based month offsets follow the 153/5 pattern. */
  lemma MonthsClosed(year: int, month: int)
    requires 1 <= month <= 12
    ensures var march := if IsLeap(year) then 60 else 59;
            if month > 2 then DaysBeforeMonth(year, month) == march + (153 * (month - 3) + 2) / 5
            else DaysBeforeMonth(year, month) == (153 * (month + 9) + 2) / 5 - 306
  {
    assert DaysBeforeMonth(year, 2) == 31;
    assert DaysBeforeMonth(year, 3) == (if IsLeap(year) then 60 else 59);
    if month > 3 {
      MonthsClosed(year, month - 1);
    }
  }

  lemma EraSplit(y: int)
    ensures var era := y / 400;
            var yoe := y - era * 400;
            era * 146097 + yoe * 365 + yoe / 4 - yoe / 100 == 365 * y + y / 4 - y / 100 + y / 400
  {
    var era := y / 400;
    var yoe := y - era * 400;
    assert y / 4 == era * 100 + yoe / 4;
    assert y / 100 == era * 4 + yoe / 100;
  }

  /** The closed form counts exactly the days that the year and month lengths add up to, for
      every date of every year, before and after 1970 and before year zero. */
  lemma EraFormIsDayNumber(d: Date)
    requires 1 <= d.month <= 12
    ensures EraDayNumber(d) == DayNumber(d)
  {
    YearsClosed(d.year);
    MonthsClosed(d.year, d.month);
    var adjustedYear := if d.month <= 2 then d.year - 1 else d.year;
    EraSplit(adjustedYear);
    if d.month > 2 {
      LeapDivisions(d.year);
    }
  }

  lemma {:induction false} MonthsFitYear(year: int, month: int)
    requires 1 <= month <= 13
    ensures DaysBeforeMonth(year, 13) == YearLength(year)
    ensures month < 13 ==> DaysBeforeMonth(year, month) + MonthLength(year, month) <= YearLength(year)
  {
    assert DaysBeforeMonth(year, 2) == 31;
    assert DaysBeforeMonth(year, 3) == (if IsLeap(year) then 60 else 59);
    assert DaysBeforeMonth(year, 5) == DaysBeforeMonth(year, 3) + 61;
    assert DaysBeforeMonth(year, 7) == DaysBeforeMonth(year, 5) + 61;
    assert DaysBeforeMonth(year, 9) == DaysBeforeMonth(year, 7) + 62;
    assert DaysBeforeMonth(year, 11) == DaysBeforeMonth(year, 9) + 61;
    assert DaysBeforeMonth(year, 13) == DaysBeforeMonth(year, 11) + 61;
    if month < 13 {
      MonthsMonotone(year, month + 1, 13);
    }
  }

  lemma {:induction false} MonthsMonotone(year: int, m: int, n: int)
    requires 1 <= m <= n <= 13
    ensures DaysBeforeMonth(year, m) <= DaysBeforeMonth(year, n)
    decreases n - m
  {
    if m < n {
      MonthsMonotone(year, m, n - 1);
    }
  }

  lemma {:induction false} YearsMonotone(y: int, z: int)
    requires y < z
    ensures DaysBeforeYear(y) + YearLength(y) <= DaysBeforeYear(z)
    decreases z - y
  {
    if y + 1 < z {
      YearsMonotone(y, z - 1);
    }
  }

  predicate Earlier(a: Date, b: Date) {
    a.year < b.year || (a.year == b.year && (a.month < b.month || (a.month == b.month && a.day < b.day)))
  }

  /** Later dates have larger day numbers, so no two valid dates share one. */
  lemma DayNumberIsOrder(a: Date, b: Date)
    requires ValidDate(a) && ValidDate(b)
    ensures Earlier(a, b) <==> EraDayNumber(a) < EraDayNumber(b)
    ensures EraDayNumber(a) == EraDayNumber(b) <==> a == b
  {
    EraFormIsDayNumber(a);
    EraFormIsDayNumber(b);
    if Earlier(a, b) {
      EarlierIsSmaller(a, b);
    } else if Earlier(b, a) {
      EarlierIsSmaller(b, a);
    }
  }

  lemma EarlierIsSmaller(a: Date, b: Date)
    requires ValidDate(a) && ValidDate(b) && Earlier(a, b)
    ensures DayNumber(a) < DayNumber(b)
  {
    MonthsFitYear(a.year, a.month);
    if a.year < b.year {
      YearsMonotone(a.year, b.year);
    } else if a.month < b.month {
      MonthsMonotone(a.year, a.month + 1, b.month);
    }
  }

  /** The year a day number falls in, found by walking from `year`. */
  function YearFrom(days: int, year: int): int
    requires (days >= DaysBeforeYear(year) && year >= 1970) || (days < DaysBeforeYear(year + 1) && year < 1970)
    decreases if year >= 1970 then days - DaysBeforeYear(year) else DaysBeforeYear(year + 1) - days
  {
    if year >= 1970 then
      if days < DaysBeforeYear(year + 1) then year else YearFrom(days, year + 1)
    else
      if days >= DaysBeforeYear(year) then year else YearFrom(days, year - 1)
  }

  function MonthFrom(year: int, dayOfYear: nat, month: int): int
    requires 1 <= month <= 12
    decreases 12 - month
  {
    if month == 12 || dayOfYear < DaysBeforeMonth(year, month + 1) then month
    else MonthFrom(year, dayOfYear, month + 1)
  }

  lemma {:induction false} YearFromCorrect(days: int, year: int)
    requires (days >= DaysBeforeYear(year) && year >= 1970) || (days < DaysBeforeYear(year + 1) && year < 1970)
    ensures var y := YearFrom(days, year);
            DaysBeforeYear(y) <= days < DaysBeforeYear(y) + YearLength(y)
    decreases if year >= 1970 then days - DaysBeforeYear(year) else DaysBeforeYear(year + 1) - days
  {
    if year >= 1970 {
      if days >= DaysBeforeYear(year + 1) {
        YearFromCorrect(days, year + 1);
      }
    } else if days < DaysBeforeYear(year) {
      YearFromCorrect(days, year - 1);
    }
  }

  lemma {:induction false} MonthFromCorrect(year: int, dayOfYear: nat, month: int)
    requires 1 <= month <= 12 && DaysBeforeMonth(year, month) <= dayOfYear < YearLength(year)
    ensures var m := MonthFrom(year, dayOfYear, month);
            1 <= m <= 12 && DaysBeforeMonth(year, m) <= dayOfYear < DaysBeforeMonth(year, m) + MonthLength(year, m)
    decreases 12 - month
  {
    if month == 12 {
      MonthsFitYear(year, 13);
    } else if dayOfYear >= DaysBeforeMonth(year, month + 1) {
      MonthFromCorrect(year, dayOfYear, month + 1);
    }
  }

  /** The calendar date of a day number. */
  function DateOf(days: int): (d: Date)
    ensures ValidDate(d) && DayNumber(d) == days
  {
    var from := if days >= 0 then 1970 else 1969;
    assert DaysBeforeYear(1970) == 0;
    var year := YearFrom(days, from);
    YearFromCorrect(days, from);
    var dayOfYear := days - DaysBeforeYear(year);
    var month := MonthFrom(year, dayOfYear, 1);
    MonthFromCorrect(year, dayOfYear, 1);
    Date(year, month, dayOfYear - DaysBeforeMonth(year, month) + 1)
  }

  /** Dates between two year boundaries stay within those years. */
  lemma DateWithin(days: int, low: int, high: int)
    requires low <= high && DaysBeforeYear(low) <= days < DaysBeforeYear(high + 1)
    ensures low <= DateOf(days).year <= high
  {
    var d := DateOf(days);
    MonthsFitYear(d.year, d.month);
    if d.year < low {
      YearsMonotone(d.year, low);
    }
    if d.year > high + 1 {
      YearsMonotone(high + 1, d.year);
    }
  }
}
