/**
 * The calendar helpers and the borrow-based age subtraction of index.js:
 * `daysInMonth`, `isValidDate` and `calculateAgeInDetail`.
 */
module AgeCalculator {
  import opened Calendar

  /**
   * `daysInMonth(year, month)`: the date field of `new Date(year, month, 0)`, day 0 of the
   * 0-based month `month`, which is the last day of the 1-based month `month`. Whatever the
   * month argument, that is the length of some month.
   */
  function DaysInMonth(year: int, month: int): (days: int)
    ensures 28 <= days <= 31
    ensures 1 <= month <= 12 ==> days == MonthLength(FullYear(year), month)
  {
    var fy := FullYear(year);
    SmallMonthIndex(month);
    assert 12 / 12 == 1 && 12 % 12 == 0;
    NormalizeDayZero(fy + month / 12, month % 12 + 1);
    ConstructDate(year, month, 0).day
  }

  /**
   * `isValidDate(day, month, year)`: build `new Date(year, month - 1, day)` and accept only
   * when neither its 0-based month nor its date field moved. That happens exactly for a month
   * 1..12 and a day within that month's Gregorian length.
   */
  function IsValidDate(day: int, month: int, year: int): (valid: bool)
    ensures valid <==> 1 <= month <= 12 && 1 <= day <= MonthLength(FullYear(year), month)
  {
    var date := ConstructDate(year, month - 1, day);
    ConstructDateKeepsFields(year, month - 1, day);
    date.month - 1 == month - 1 && date.day == day
  }

  /** `daysInMonth` month by month: the Gregorian table of the full year. */
  lemma DaysInMonthIsGregorian(year: int, month: int)
    requires 1 <= month <= 12
    ensures month in {1, 3, 5, 7, 8, 10, 12} ==> DaysInMonth(year, month) == 31
    ensures month in {4, 6, 9, 11} ==> DaysInMonth(year, month) == 30
    ensures month == 2 ==> DaysInMonth(year, month) == (if IsLeap(FullYear(year)) then 29 else 28)
  {
  }

  /**
   * The "Too many days for this month!" test (index.js:165) can only fire on a
   * date `isValidDate` already refused.
   */
  lemma TooManyDaysIsInvalid(day: int, month: int, year: int)
    requires day > DaysInMonth(year, month)
    ensures !IsValidDate(day, month, year)
  {
  }

  // ---------------------------------------------------------------------------
  // calculateAgeInDetail

  /** Elapsed years, months and days, as the three result boxes show them. */
  datatype Age = Age(years: int, months: int, days: int)

  /**
   * `calculateAgeInDetail(birthYear, birthMonth, birthDay, now)`: subtract field by field,
   * borrow a year when the month difference is negative, then borrow a month (and the
   * length of the month before the current one, taken in the current year) when the
   * day difference is negative. Nothing is normalised a second time.
   */
  function AgeInDetail(birthYear: int, birthMonth: int, birthDay: int, now: CalDate): (age: Age)
    ensures 12 * age.years + age.months ==
            12 * (now.year - birthYear) + (now.month - birthMonth) - (if now.day < birthDay then 1 else 0)
  {
    var years := now.year - birthYear;
    var months := now.month - birthMonth;
    var days := now.day - birthDay;
    var years', months' := if months < 0 then years - 1 else years, if months < 0 then months + 12 else months;
    if days < 0 then
      var previousMonth := if now.month == 1 then 12 else now.month - 1;
      Age(years', months' - 1, days + DaysInMonth(now.year, previousMonth))
    else
      Age(years', months', days)
  }

  /**
   * With months 1..12 the years are the plain difference, less one when the birth month
   * is still ahead; months end in -1..11, and -1 exactly when the birth month is the current
   * month and the birth day is still ahead (no second normalisation).
   */
  lemma AgeMonthsRange(birthYear: int, birthMonth: int, birthDay: int, now: CalDate)
    requires 1 <= birthMonth <= 12 && 1 <= now.month <= 12
    ensures var age := AgeInDetail(birthYear, birthMonth, birthDay, now);
            && age.years == now.year - birthYear - (if now.month < birthMonth then 1 else 0)
            && -1 <= age.months <= 11
            && (age.months == -1 <==> now.month == birthMonth && now.day < birthDay)
  {
  }

  /**
   * Days are the plain difference, or after a borrow that difference plus the Gregorian
   * length of the month before the current one (December, 31 days, for January).
   */
  lemma AgeDays(birthYear: int, birthMonth: int, birthDay: int, now: CalDate)
    requires 1 <= now.month <= 12
    ensures var age := AgeInDetail(birthYear, birthMonth, birthDay, now);
            && (now.day >= birthDay ==> age.days == now.day - birthDay)
            && (now.day < birthDay && now.month == 1 ==> age.days == now.day - birthDay + 31)
            && (now.day < birthDay && now.month > 1 ==>
                  age.days == now.day - birthDay + MonthLength(FullYear(now.year), now.month - 1))
  {
  }

  /**
   * For a birth day 1..31 and a real current date the days lie in -2..30, and fall below 0
   * exactly when the birth day exceeds the length of the month the borrow takes its days from.
   */
  lemma AgeDaysRange(birthYear: int, birthMonth: int, birthDay: int, now: CalDate)
    requires 1 <= birthDay <= 31 && ValidDate(now)
    ensures var age := AgeInDetail(birthYear, birthMonth, birthDay, now);
            && -2 <= age.days <= 30
            && (age.days < 0 <==>
                  birthDay > now.day + DaysInMonth(now.year, if now.month == 1 then 12 else now.month - 1))
  {
  }

  /** Born 15 June 1990, on 14 June 2024: 34 years, -1 months, 30 days. */
  lemma OneDayBeforeBirthday()
    ensures AgeInDetail(1990, 6, 15, CalDate(2024, 6, 14)) == Age(34, -1, 30)
  {
  }

  /** Born 29 February 2000, on 1 March 2021: 21 years, 0 months, 0 days. */
  lemma LeapDayBirthday()
    ensures AgeInDetail(2000, 2, 29, CalDate(2021, 3, 1)) == Age(21, 0, 0)
  {
  }

  /** Born 31 January, on 1 March of a common year: 1 month and -2 days. */
  lemma EndOfJanuaryToMarch()
    ensures AgeInDetail(2023, 1, 31, CalDate(2023, 3, 1)) == Age(0, 1, -2)
  {
  }
}
