/** Calendar dates of fault logs: day counts to dates of the proleptic Gregorian calendar. */
module CivilDate {
  datatype Date = Date(year: int, month: int, day: int)

  // ----- The calendar -----

  predicate IsLeap(year: int) {
    year % 4 == 0 && (year % 100 != 0 || year % 400 == 0)
  }

  function YearLength(year: int): int {
    if IsLeap(year) then 366 else 365
  }

  function MonthLength(year: int, month: int): int {
    if month == 2 then (if IsLeap(year) then 29 else 28)
    else if month in {4, 6, 9, 11} then 30
    else 31
  }

  /** An existing date. */
  predicate IsDate(date: Date) {
    1 <= date.month <= 12 && 1 <= date.day <= MonthLength(date.year, date.month)
  }

  function NextDate(date: Date): Date {
    if date.day < MonthLength(date.year, date.month) then date.(day := date.day + 1)
    else if date.month < 12 then Date(date.year, date.month + 1, 1)
    else Date(date.year + 1, 1, 1)
  }

  /** Days from 1970-01-01 to the first day of the year, year by year. */
  function DaysToYear(year: int): int
    decreases if year >= 1970 then year - 1970 else 1970 - year
  {
    if year == 1970 then 0
    else if year > 1970 then DaysToYear(year - 1) + YearLength(year - 1)
    else DaysToYear(year + 1) - YearLength(year)
  }

  /** Days from the first day of the year to the first day of the month, month by month. */
  function DaysToMonth(year: int, month: int): int
    decreases month
  {
    if month <= 1 then 0 else DaysToMonth(year, month - 1) + MonthLength(year, month - 1)
  }

  function DaysFromDate(date: Date): int {
    DaysToYear(date.year) + DaysToMonth(date.year, date.month) + date.day - 1
  }

  // ----- The conversion -----

  /** Integer division as the machine does it: towards zero. */
  function Truncated(a: int, b: int): int
    requires b > 0
  {
    if a >= 0 then a / b else -(-a / b)
  }

  function CivilFromDays(days: int): Date {
    var z := days + 719_468;
    var era := Truncated(if z >= 0 then z else z - 146_096, 146_097);
    var doe := z - era * 146_097;
    var yoe := Truncated(
      doe - Truncated(doe, 1_460) + Truncated(doe, 36_524) - Truncated(doe, 146_096), 365);
    var year := yoe + era * 400;
    var doy := doe - (365 * yoe + Truncated(yoe, 4) - Truncated(yoe, 100));
    var mp := Truncated(5 * doy + 2, 153);
    var day := doy - Truncated(153 * mp + 2, 5) + 1;
    var month := mp + if mp < 10 then 3 else -9;
    Date(if month <= 2 then year + 1 else year, month, day)
  }

  // ----- The year of an era -----

  /** Days before the first of March of a year of an era, counted from the era's first day. */
  function DaysToMarch(yoe: int): int {
    365 * yoe + yoe / 4 - yoe / 100
  }

  function YearOfEra(doe: int): int {
    (doe - doe / 1_460 + doe / 36_524 - doe / 146_096) / 365
  }

  lemma {:induction false} Quotient(a: int, b: int, q: int, r: int)
    requires b > 0 && a == b * q + r && 0 <= r < b
    ensures a / b == q
  {
    var d := a / b - q;
    assert b * d == b * (a / b) - b * q == r - a % b;
    Multiple(b, d);
  }

  lemma {:induction false} Multiple(b: int, d: int)
    requires b > 0
    ensures d >= 1 ==> b * d >= b
    ensures d <= -1 ==> b * d <= -b
  {
    assert b * d == b + b * (d - 1) == -b + b * (d + 1);
  }

  /** What the three corrections subtract and add within an era. */
  lemma {:induction false} Corrections(c: int, q: int, y: int, t: int, carry: int, last: int)
    requires 0 <= c <= 3 && 0 <= q <= 24 && 0 <= y <= 3 && 0 <= t <= 365
    requires t == 365 ==> y == 3 && (q < 24 || c == 3)
    requires carry == if 24 * c + q + 365 * y + t >= 1_460 then 1 else 0
    requires last == if c == 3 && q == 24 && y == 3 && t == 365 then 1 else 0
    ensures var doe := 36_524 * c + 1_461 * q + 365 * y + t;
      && doe / 1_460 == 25 * c + q + carry
      && doe / 36_524 == c + last
      && doe / 146_096 == last
  {
    var doe := 36_524 * c + 1_461 * q + 365 * y + t;
    assert doe / 1_460 == 25 * c + q + carry by {
      Quotient(doe, 1_460, 25 * c + q + carry, 24 * c + q + 365 * y + t - 1_460 * carry);
    }
    assert doe / 36_524 == c + last by {
      Quotient(doe, 36_524, c + last, doe - 36_524 * (c + last));
    }
    assert doe / 146_096 == last by {
      Quotient(doe, 146_096, last, doe - 146_096 * last);
    }
  }

  /** A day of an era by century, cycle of four years, year and day of the year. */
  lemma {:induction false} YearOfEraDigits(c: int, q: int, y: int, t: int)
    requires 0 <= c <= 3 && 0 <= q <= 24 && 0 <= y <= 3 && 0 <= t <= 365
    requires t == 365 ==> y == 3 && (q < 24 || c == 3)
    ensures var doe := 36_524 * c + 1_461 * q + 365 * y + t;
      YearOfEra(doe) == 100 * c + 4 * q + y && DaysToMarch(100 * c + 4 * q + y) + t == doe
  {
    var yoe := 100 * c + 4 * q + y;
    var carry := if 24 * c + q + 365 * y + t >= 1_460 then 1 else 0;
    var last := if c == 3 && q == 24 && y == 3 && t == 365 then 1 else 0;
    Corrections(c, q, y, t, carry, last);
    Quotient(365 * yoe + t - carry, 365, yoe, t - carry);
    assert yoe / 4 == 25 * c + q by { Quotient(yoe, 4, 25 * c + q, y); }
    assert yoe / 100 == c by { Quotient(yoe, 100, c, 4 * q + y); }
  }

  /** The digits of a day of an era. */
  lemma {:induction false} DigitsOf(doe: int) returns (c: int, q: int, y: int, t: int)
    requires 0 <= doe < 146_097
    ensures 0 <= c <= 3 && 0 <= q <= 24 && 0 <= y <= 3 && 0 <= t <= 365
    ensures t == 365 ==> y == 3 && (q < 24 || c == 3)
    ensures doe == 36_524 * c + 1_461 * q + 365 * y + t
  {
    c := if doe / 36_524 < 3 then doe / 36_524 else 3;
    var inCentury := doe - 36_524 * c;
    q := inCentury / 1_461;
    var inCycle := inCentury - 1_461 * q;
    y := if inCycle / 365 < 3 then inCycle / 365 else 3;
    t := inCycle - 365 * y;
  }

  /** Within an era, a year and a day of that year, which has its leap day at its end. */
  lemma {:induction false} YearOfEraIsExact(doe: int)
    requires 0 <= doe < 146_097
    ensures var yoe, doy := YearOfEra(doe), doe - DaysToMarch(YearOfEra(doe));
      0 <= yoe < 400 && 0 <= doy < YearLength(yoe + 1)
  {
    hide YearOfEra, DaysToMarch;
    var c, q, y, t := DigitsOf(doe);
    YearOfEraDigits(c, q, y, t);
    var yoe := 100 * c + 4 * q + y;
    if t == 365 {
      assert yoe + 1 == 4 * (25 * c + q + 1);
      if q == 24 {
        assert yoe + 1 == 400;
      } else {
        assert (yoe + 1) % 100 == 4 * (q + 1);
      }
    }
  }

  // ----- Years -----

  /** Days before the first of March of a year, counted from the first of March of year 0. */
  function March(year: int): int {
    365 * year + year / 4 - year / 100 + year / 400
  }

  lemma {:induction false} MarchNext(year: int)
    ensures March(year) == March(year - 1) + YearLength(year)
  {
    QuotientNext(year, 4);
    QuotientNext(year, 100);
    QuotientNext(year, 400);
    FactorsDivide(year);
  }

  lemma {:induction false} FactorsDivide(year: int)
    ensures year % 400 == 0 ==> year % 100 == 0
    ensures year % 100 == 0 ==> year % 4 == 0
  {
    if year % 400 == 0 {
      Remainder(year / 400 * 4, 0, 100);
    }
    if year % 100 == 0 {
      Remainder(year / 100 * 25, 0, 4);
    }
  }

  lemma {:induction false} QuotientNext(a: int, b: int)
    requires b > 1
    ensures a / b == (a - 1) / b + if a % b == 0 then 1 else 0
  {
    if a % b == 0 {
      Quotient(a - 1, b, a / b - 1, b - 1);
    } else {
      Quotient(a - 1, b, a / b, a % b - 1);
    }
  }

  lemma {:induction false} DaysToYearClosed(year: int)
    ensures DaysToYear(year) == March(year - 1) - 719_162
    decreases if year >= 1970 then year - 1970 else 1970 - year
  {
    if year > 1970 {
      DaysToYearClosed(year - 1);
      MarchNext(year - 1);
    } else if year < 1970 {
      DaysToYearClosed(year + 1);
      MarchNext(year);
    }
  }

  lemma {:induction false} MarchOfEra(era: int, yoe: int)
    requires 0 <= yoe < 400
    ensures March(era * 400 + yoe) == era * 146_097 + DaysToMarch(yoe)
    ensures IsLeap(era * 400 + yoe + 1) == IsLeap(yoe + 1)
  {
    var year := era * 400 + yoe;
    assert year / 4 == 100 * era + yoe / 4 by { Quotient(year, 4, 100 * era + yoe / 4, yoe % 4); }
    assert year / 100 == 4 * era + yoe / 100 by { Quotient(year, 100, 4 * era + yoe / 100, yoe % 100); }
    assert year / 400 == era by { Quotient(year, 400, era, yoe); }
    SameLeap(era, yoe + 1);
  }

  lemma {:induction false} SameLeap(era: int, year: int)
    ensures IsLeap(era * 400 + year) == IsLeap(year)
  {
    Remainder(era * 100, year, 4);
    Remainder(era * 4, year, 100);
    Remainder(era, year, 400);
  }

  lemma {:induction false} Remainder(k: int, a: int, b: int)
    requires b > 0
    ensures (k * b + a) % b == a % b
  {
    assert k * b + a == b * (k + a / b) + a % b;
    Quotient(k * b + a, b, k + a / b, a % b);
  }

  // ----- Months -----

  /** The month and day of a day of a year that starts in March. */
  function MonthOf(doy: int): int {
    var mp := (5 * doy + 2) / 153;
    mp + if mp < 10 then 3 else -9
  }

  function DayOf(doy: int): int {
    var mp := (5 * doy + 2) / 153;
    doy - (153 * mp + 2) / 5 + 1
  }

  lemma {:induction false} DaysToMonthClosed(year: int, month: int)
    requires 1 <= month <= 12
    ensures var leap := if IsLeap(year) then 1 else 0;
      DaysToMonth(year, month)
      == if month <= 2 then 31 * (month - 1) else (153 * (month - 3) + 2) / 5 + 59 + leap
    decreases month
  {
    if month > 1 {
      DaysToMonthClosed(year, month - 1);
    }
  }

  /** A day of the year from March on, as a date of the calendar. */
  lemma {:induction false} MonthIsExact(march: int, doy: int)
    requires 0 <= doy < YearLength(march + 1)
    ensures var year := if MonthOf(doy) <= 2 then march + 1 else march;
      var date := Date(year, MonthOf(doy), DayOf(doy));
      IsDate(date) && DaysFromDate(date) == March(march) + doy - 719_468
  {
    var mp := (5 * doy + 2) / 153;
    var month := MonthOf(doy);
    var year := if month <= 2 then march + 1 else march;
    assert 0 <= mp <= 11;
    DaysToMonthClosed(year, month);
    DaysToYearClosed(year);
    MarchNext(march);
  }

  // ----- The conversion is exact -----

  lemma {:induction false} TruncatedIsFloor(z: int, era: int, doe: int)
    requires z == era * 146_097 + doe && 0 <= doe < 146_097
    ensures Truncated(if z >= 0 then z else z - 146_096, 146_097) == era
  {
    if z >= 0 {
      Quotient(z, 146_097, era, doe);
    } else {
      Quotient(146_096 - z, 146_097, -era, 146_096 - doe);
    }
  }

  lemma {:induction false} CivilFromDaysParts(era: int, doe: int)
    requires 0 <= doe < 146_097
    ensures var yoe := YearOfEra(doe);
      var march, doy := yoe + era * 400, doe - DaysToMarch(yoe);
      CivilFromDays(era * 146_097 + doe - 719_468)
      == Date(if MonthOf(doy) <= 2 then march + 1 else march, MonthOf(doy), DayOf(doy))
  {
    hide Truncated, YearOfEra, YearLength, MonthOf, DayOf, DaysToMarch;
    TruncatedIsFloor(era * 146_097 + doe, era, doe);
    YearOfEraIsExact(doe);
    YearOfEraTruncated(doe);
    MonthTruncated(YearOfEra(doe), doe - DaysToMarch(YearOfEra(doe)));
  }

  lemma {:induction false} MonthTruncated(yoe: int, doy: int)
    requires 0 <= yoe && 0 <= doy
    ensures DaysToMarch(yoe) == 365 * yoe + Truncated(yoe, 4) - Truncated(yoe, 100)
    ensures var mp := Truncated(5 * doy + 2, 153);
      MonthOf(doy) == mp + (if mp < 10 then 3 else -9) && DayOf(doy) == doy - Truncated(153 * mp + 2, 5) + 1
  {
    hide Truncated;
    PositiveTruncated(yoe, 4);
    PositiveTruncated(yoe, 100);
    PositiveTruncated(5 * doy + 2, 153);
    PositiveTruncated(153 * ((5 * doy + 2) / 153) + 2, 5);
  }

  lemma {:induction false} PositiveTruncated(a: int, b: int)
    requires a >= 0 && b > 0
    ensures Truncated(a, b) == a / b
  {
  }

  lemma {:induction false} YearOfEraTruncated(doe: int)
    requires 0 <= doe < 146_097
    ensures YearOfEra(doe)
         == Truncated(doe - Truncated(doe, 1_460) + Truncated(doe, 36_524) - Truncated(doe, 146_096), 365)
  {
    hide Truncated;
    PositiveTruncated(doe, 1_460);
    PositiveTruncated(doe, 36_524);
    PositiveTruncated(doe, 146_096);
    PositiveTruncated(doe - doe / 1_460 + doe / 36_524 - doe / 146_096, 365);
  }

  lemma {:induction false} CivilInEra(era: int, doe: int)
    requires 0 <= doe < 146_097
    ensures var days := era * 146_097 + doe - 719_468;
      IsDate(CivilFromDays(days)) && DaysFromDate(CivilFromDays(days)) == days
  {
    hide CivilFromDays, YearOfEra, DaysToMarch, IsLeap, March, MonthOf, DayOf, DaysFromDate, IsDate;
    var yoe := YearOfEra(doe);
    CivilFromDaysParts(era, doe);
    YearOfEraIsExact(doe);
    MarchOfEra(era, yoe);
    MonthIsExact(yoe + era * 400, doe - DaysToMarch(yoe));
  }

  /** Every day count is an existing date, and counting that date's days gives it back. */
  lemma {:induction false} CivilFromDaysIsExact(days: int)
    ensures IsDate(CivilFromDays(days)) && DaysFromDate(CivilFromDays(days)) == days
  {
    hide *;
    var z := days + 719_468;
    CivilInEra(z / 146_097, z % 146_097);
  }

  /** A date's successor is one day later. */
  lemma {:induction false} NextDateIsNextDay(date: Date)
    requires IsDate(date)
    ensures IsDate(NextDate(date)) && DaysFromDate(NextDate(date)) == DaysFromDate(date) + 1
  {
    DaysToMonthClosed(date.year, 12);
    DaysToYearClosed(date.year);
    DaysToYearClosed(date.year + 1);
    MarchNext(date.year);
  }

  predicate Before(a: Date, b: Date) {
    a.year < b.year || (a.year == b.year && (a.month < b.month || (a.month == b.month && a.day < b.day)))
  }

  lemma {:induction false} YearsAscend(a: int, b: int)
    requires a <= b
    ensures DaysToYear(a) <= DaysToYear(b)
    decreases b - a
  {
    if a < b {
      YearsAscend(a, b - 1);
      DaysToYearClosed(b);
      DaysToYearClosed(b - 1);
      MarchNext(b - 1);
    }
  }

  lemma {:induction false} WithinYear(date: Date)
    requires IsDate(date)
    ensures DaysToYear(date.year) <= DaysFromDate(date) < DaysToYear(date.year + 1)
  {
    DaysToMonthClosed(date.year, date.month);
    DaysToYearClosed(date.year);
    DaysToYearClosed(date.year + 1);
    MarchNext(date.year);
  }

  lemma {:induction false} MonthsAscend(year: int, a: int, b: int)
    requires 1 <= a < b
    ensures DaysToMonth(year, a) + MonthLength(year, a) <= DaysToMonth(year, b)
    decreases b
  {
    if a < b - 1 {
      MonthsAscend(year, a, b - 1);
    }
  }

  lemma {:induction false} DaysAscend(a: Date, b: Date)
    requires IsDate(a) && IsDate(b) && Before(a, b)
    ensures DaysFromDate(a) < DaysFromDate(b)
  {
    if a.year < b.year {
      WithinYear(a);
      WithinYear(b);
      YearsAscend(a.year + 1, b.year);
    } else if a.month < b.month {
      MonthsAscend(a.year, a.month, b.month);
    }
  }

  /** The conversion and the count of days are inverse, and keep the order. */
  lemma {:induction false} DatesAreDays(date: Date)
    requires IsDate(date)
    ensures CivilFromDays(DaysFromDate(date)) == date
  {
    var back := CivilFromDays(DaysFromDate(date));
    CivilFromDaysIsExact(DaysFromDate(date));
    if Before(back, date) {
      DaysAscend(back, date);
    } else if Before(date, back) {
      DaysAscend(date, back);
    }
  }

  lemma {:induction false} Epoch()
    ensures CivilFromDays(0) == Date(1970, 1, 1)
  {
    hide CivilFromDays;
    DatesAreDays(Date(1970, 1, 1));
  }

  /** Day 0 is 1970-01-01 and every next day has the next date. */
  lemma {:induction false} CivilFromDaysCountsOn(days: int)
    ensures CivilFromDays(0) == Date(1970, 1, 1)
    ensures CivilFromDays(days + 1) == NextDate(CivilFromDays(days))
  {
    hide *;
    Epoch();
    CivilFromDaysIsExact(days);
    NextDateIsNextDay(CivilFromDays(days));
    DatesAreDays(NextDate(CivilFromDays(days)));
  }
}
