/** The proleptic Gregorian calendar, with days counted from 1970-01-01. */
module Calendar {
  datatype Date = Date(year: int, month: int, day: int)

  predicate IsLeap(year: int) {
    year % 4 == 0 && (year % 100 != 0 || year % 400 == 0)
  }

  function YearLength(year: int): int {
    if IsLeap(year) then 366 else 365
  }

  function MonthLength(year: int, month: int): int
    requires 1 <= month <= 12
  {
    if month == 2 then (if IsLeap(year) then 29 else 28)
    else if month == 4 || month == 6 || month == 9 || month == 11 then 30
    else 31
  }

  predicate ValidDate(d: Date) {
    1 <= d.month <= 12 && 1 <= d.day <= MonthLength(d.year, d.month)
  }

  /** Days from 0000-01-01 to the first day of the year, year by year. */
  function DaysBeforeYear(year: int): int
    decreases if year < 0 then -year else year
  {
    if year == 0 then 0
    else if year > 0 then DaysBeforeYear(year - 1) + YearLength(year - 1)
    else DaysBeforeYear(year + 1) - YearLength(year)
  }

  function DaysBeforeMonth(year: int, month: int): int
    requires 1 <= month <= 13
    decreases month
  {
    if month == 1 then 0 else DaysBeforeMonth(year, month - 1) + MonthLength(year, month - 1)
  }

  const EPOCH_DAY: int := 719528

  /** Days since 1970-01-01. */
  function DayNumber(d: Date): int
    requires ValidDate(d)
  {
    DaysBeforeYear(d.year) + DaysBeforeMonth(d.year, d.month) + d.day - 1 - EPOCH_DAY
  }

  lemma {:induction false} YearStep(year: int)
    ensures DaysBeforeYear(year + 1) == DaysBeforeYear(year) + YearLength(year)
  {
  }

  /** Leap years in a block of years starting at year 0, by the three rules of the calendar. */
  function Fours(year: int): int { (year + 3) / 4 }
  function Hundreds(year: int): int { (year + 99) / 100 }
  function FourHundreds(year: int): int { (year + 399) / 400 }

  lemma {:induction false} LeapStep(year: int)
    ensures Fours(year + 1) - Fours(year) == if year % 4 == 0 then 1 else 0
    ensures Hundreds(year + 1) - Hundreds(year) == if year % 100 == 0 then 1 else 0
    ensures FourHundreds(year + 1) - FourHundreds(year) == if year % 400 == 0 then 1 else 0
    ensures year % 400 == 0 ==> year % 100 == 0
    ensures year % 100 == 0 ==> year % 4 == 0
  {
    Multiples(year);
  }

  lemma {:induction false} Multiple(d: nat, k: int)
    requires d == 4 || d == 100
    ensures d * k % d == 0
  {
  }

  lemma {:induction false} Multiples(n: int)
    ensures n % 400 == 0 ==> n % 100 == 0
    ensures n % 100 == 0 ==> n % 4 == 0
  {
    if n % 400 == 0 {
      assert n == 100 * (4 * (n / 400));
      Multiple(100, 4 * (n / 400));
    }
    if n % 100 == 0 {
      assert n == 4 * (25 * (n / 100));
      Multiple(4, 25 * (n / 100));
    }
  }

  /** The day count in closed form, with division rounding towards minus infinity. */
  lemma {:induction false} ClosedForm(year: int)
    ensures DaysBeforeYear(year) == 365 * year + Fours(year) - Hundreds(year) + FourHundreds(year)
    decreases if year < 0 then -year else year
  {
    if year > 0 {
      ClosedForm(year - 1);
      LeapStep(year - 1);
    } else if year < 0 {
      ClosedForm(year + 1);
      LeapStep(year);
    }
  }

  lemma {:induction false} EpochIsDayZero()
    ensures DayNumber(Date(1970, 1, 1)) == 0
  {
    ClosedForm(1970);
  }

  lemma {:induction false} MonthsFillYear(year: int)
    ensures DaysBeforeMonth(year, 13) == YearLength(year)
    ensures DaysBeforeMonth(year, 12) == YearLength(year) - 31
  {
    var f := MonthLength(year, 2);
    assert DaysBeforeMonth(year, 3) == 31 + f;
    assert DaysBeforeMonth(year, 5) == 92 + f;
    assert DaysBeforeMonth(year, 7) == 153 + f;
    assert DaysBeforeMonth(year, 9) == 215 + f;
    assert DaysBeforeMonth(year, 11) == 276 + f;
    assert DaysBeforeMonth(year, 12) == 306 + f;
  }

  // ----- The calendar in figures -----

  /** The dates there are, month by month. */
  lemma {:induction false} ValidDateIff(d: Date)
    ensures var leap := d.year % 4 == 0 && (d.year % 100 != 0 || d.year % 400 == 0);
            var lengths := [31, if leap then 29 else 28, 31, 30, 31, 30, 31, 31, 30, 31, 30, 31];
            ValidDate(d) <==> 1 <= d.month <= 12 && 1 <= d.day <= lengths[d.month - 1]
  {
  }

  lemma {:induction false} MonthsFromMarch(year: int, month: int)
    requires 1 <= month <= 12
    ensures month >= 3 ==>
              DaysBeforeMonth(year, month) == 59 + (if IsLeap(year) then 1 else 0) + (153 * (month - 3) + 2) / 5
    ensures month < 3 ==> DaysBeforeMonth(year, month) == (153 * (month + 9) + 2) / 5 - 306
  {
    var f := MonthLength(year, 2);
    assert DaysBeforeMonth(year, 3) == 31 + f;
    assert DaysBeforeMonth(year, 5) == 92 + f;
    assert DaysBeforeMonth(year, 7) == 153 + f;
    assert DaysBeforeMonth(year, 9) == 215 + f;
    assert DaysBeforeMonth(year, 11) == 276 + f;
  }

  lemma {:induction false} YearBefore(year: int)
    ensures Fours(year) - Hundreds(year) + FourHundreds(year) ==
            (year - 1) / 4 - (year - 1) / 100 + (year - 1) / 400 + 1
  {
    OneMore(year - 1, 4);
    OneMore(year - 1, 100);
    OneMore(year - 1, 400);
  }

  lemma {:induction false} OneMore(n: int, d: int)
    requires d == 4 || d == 100 || d == 400
    ensures (n + d) / d == n / d + 1
  {
    if d == 4 {
      assert (n + 4) / 4 == n / 4 + 1;
    } else if d == 100 {
      assert (n + 100) / 100 == n / 100 + 1;
    } else {
      assert (n + 400) / 400 == n / 400 + 1;
    }
  }

  /** The day count of every date in closed form, with years that begin in March and years before 0 included. */
  lemma {:induction false} DayNumberInClosedForm(d: Date)
    requires ValidDate(d)
    ensures var y := if d.month <= 2 then d.year - 1 else d.year;
            var m := if d.month <= 2 then d.month + 9 else d.month - 3;
            DayNumber(d) == 365 * y + y / 4 - y / 100 + y / 400 + (153 * m + 2) / 5 + d.day - 719469
  {
    ClosedForm(d.year);
    MonthsFromMarch(d.year, d.month);
    YearBefore(d.year);
    if d.month > 2 {
      YearBefore(d.year + 1);
      LeapStep(d.year);
    }
  }

  // ----- Neighbouring days -----

  function NextDay(d: Date): Date
    requires ValidDate(d)
  {
    if d.day < MonthLength(d.year, d.month) then d.(day := d.day + 1)
    else if d.month < 12 then Date(d.year, d.month + 1, 1)
    else Date(d.year + 1, 1, 1)
  }

  function PreviousDay(d: Date): Date
    requires ValidDate(d)
  {
    if d.day > 1 then d.(day := d.day - 1)
    else if d.month > 1 then Date(d.year, d.month - 1, MonthLength(d.year, d.month - 1))
    else Date(d.year - 1, 12, 31)
  }

  /** The next day is one further on, across month, leap day and year borders. */
  lemma {:induction false} NextDayIsOneLater(d: Date)
    requires ValidDate(d)
    ensures ValidDate(NextDay(d)) && DayNumber(NextDay(d)) == DayNumber(d) + 1
  {
    YearStep(d.year);
    MonthsFillYear(d.year);
  }

  lemma {:induction false} PreviousDayIsOneEarlier(d: Date)
    requires ValidDate(d)
    ensures ValidDate(PreviousDay(d)) && DayNumber(PreviousDay(d)) == DayNumber(d) - 1
  {
    YearStep(d.year - 1);
    MonthsFillYear(d.year - 1);
  }

  // ----- Order -----

  predicate Before(a: Date, b: Date) {
    a.year < b.year || (a.year == b.year && (a.month < b.month || (a.month == b.month && a.day < b.day)))
  }

  lemma {:induction false} YearsAscend(a: int, b: int)
    requires a <= b
    ensures DaysBeforeYear(a) <= DaysBeforeYear(b)
    decreases b - a
  {
    if a < b {
      YearStep(a);
      YearsAscend(a + 1, b);
    }
  }

  lemma {:induction false} MonthsAscend(year: int, a: int, b: int)
    requires 1 <= a <= b <= 13
    ensures DaysBeforeMonth(year, a) <= DaysBeforeMonth(year, b)
    decreases b - a
  {
    if a < b {
      MonthsAscend(year, a + 1, b);
    }
  }

  lemma {:induction false} WithinYear(d: Date)
    requires ValidDate(d)
    ensures DaysBeforeYear(d.year) <= DayNumber(d) + EPOCH_DAY < DaysBeforeYear(d.year + 1)
  {
    MonthsAscend(d.year, 1, d.month);
    MonthsAscend(d.year, d.month + 1, 13);
    MonthsFillYear(d.year);
    YearStep(d.year);
  }

  lemma {:induction false} EarlierIsLess(a: Date, b: Date)
    requires ValidDate(a) && ValidDate(b) && Before(a, b)
    ensures DayNumber(a) < DayNumber(b)
  {
    if a.year < b.year {
      WithinYear(a);
      WithinYear(b);
      YearsAscend(a.year + 1, b.year);
    } else if a.month < b.month {
      MonthsAscend(a.year, a.month + 1, b.month);
    }
  }

  /** Day numbers order dates exactly as years, months and days do, and are different for different dates. */
  lemma {:induction false} DayNumberOrders(a: Date, b: Date)
    requires ValidDate(a) && ValidDate(b)
    ensures DayNumber(a) < DayNumber(b) <==> Before(a, b)
    ensures DayNumber(a) == DayNumber(b) <==> a == b
  {
    if Before(a, b) {
      EarlierIsLess(a, b);
    } else if Before(b, a) {
      EarlierIsLess(b, a);
    }
  }
}
