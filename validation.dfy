/**
 * The acceptance rule of the `calculateAge` handler in index.js: the five tests that
 * may set `hasError`, over the parsed fields and the current instant.
 */
module Validation {
  import opened Wrappers
  import opened Calendar
  import opened AgeCalculator

  const MsPerDay: int := 86400000

  /** The current instant: today's local calendar date and the milliseconds elapsed since its midnight. */
  datatype Now = Now(date: CalDate, msOfDay: int)

  predicate ValidNow(now: Now) {
    ValidDate(now.date) && 0 <= now.msOfDay < MsPerDay
  }

  /** JavaScript's `!v` on a parsed number: true for NaN and for 0. */
  predicate Falsy(v: Option<int>) {
    v.None? || v.value == 0
  }

  /**
   * `inputDate > now`: the time value of `new Date(year, month - 1, day)`, midnight of
   * that day, against the current time value, both in local time. It holds exactly when
   * today precedes the built date, so a birth date of today is not in the future.
   */
  function InputAfterNow(day: int, month: int, year: int, now: Now): (after: bool)
    requires ValidNow(now)
    ensures after <==> Precedes(now.date, ConstructDate(year, month - 1, day))
  {
    var built := ConstructDate(year, month - 1, day);
    DayNumberOrder(now.date, built);
    MidnightComparison(DayNumber(built), DayNumber(now.date), now.msOfDay);
    MakeDay(FullYear(year), month - 1, day) * MsPerDay > DayNumber(now.date) * MsPerDay + now.msOfDay
  }

  /** Midnight of day `b` lies after a moment of day `t` exactly when `b` is the later day. */
  lemma MidnightComparison(b: int, t: int, msOfDay: int)
    requires 0 <= msOfDay < MsPerDay
    ensures b * MsPerDay > t * MsPerDay + msOfDay <==> b > t
  {
    if b > t {
      assert b * MsPerDay >= t * MsPerDay + MsPerDay;
    } else {
      assert b * MsPerDay <= t * MsPerDay;
    }
  }

  /** Which of the handler's five tests fire; each one that fires sets `hasError`. */
  datatype Verdict = Verdict(
    dayRejected: bool,    // index.js:134, "This field is required" / "Must be a valid day"
    monthRejected: bool,  // index.js:143, "This field is required"
    yearRejected: bool,   // index.js:151, "This field is required"
    notInPast: bool,      // index.js:159, "Must be in the past!"
    tooManyDays: bool)    // index.js:165, "Too many days for this month!"
  {
    /** No test fired, so `hasError` stayed false. */
    predicate Passed() {
      !dayRejected && !monthRejected && !yearRejected && !notInPast && !tooManyDays
    }
  }

  /** All three fields parsed to numbers (none is NaN). */
  predicate Parsed(dayValue: Option<int>, monthValue: Option<int>, yearValue: Option<int>) {
    dayValue.Some? && monthValue.Some? && yearValue.Some?
  }

  /**
   * The five tests of the handler. A NaN field makes `isValidDate` false (its Date is
   * invalid) and makes the two comparisons at index.js:159 and index.js:165 false.
   * The day test passes exactly for a real date of the full year; the "Too many days"
   * test never fires without it; once the day test passes, the future test compares
   * that date with today.
   */
  function Validate(dayValue: Option<int>, monthValue: Option<int>, yearValue: Option<int>, now: Now): (v: Verdict)
    requires ValidNow(now)
    ensures !v.dayRejected <==>
            && Parsed(dayValue, monthValue, yearValue)
            && 1 <= monthValue.value <= 12
            && 1 <= dayValue.value <= MonthLength(FullYear(yearValue.value), monthValue.value)
    ensures v.tooManyDays ==> v.dayRejected
    ensures !v.dayRejected ==>
              (v.notInPast <==> Precedes(now.date, CalDate(FullYear(yearValue.value), monthValue.value, dayValue.value)))
  {
    var parsed := Parsed(dayValue, monthValue, yearValue);
    Verdict(
      Falsy(dayValue) || !(parsed && IsValidDate(dayValue.value, monthValue.value, yearValue.value)),
      Falsy(monthValue) || monthValue.value < 1 || monthValue.value > 12,
      Falsy(yearValue),
      parsed && InputAfterNow(dayValue.value, monthValue.value, yearValue.value, now),
      parsed && dayValue.value > DaysInMonth(yearValue.value, monthValue.value))
  }

  /**
   * No test fired: `hasError` stays false and the age is shown. That happens exactly when
   * all three fields parse, the year is not 0, the month is 1..12, the day lies within that
   * month of the full year, and that date is not after today.
   */
  function Accept(dayValue: Option<int>, monthValue: Option<int>, yearValue: Option<int>, now: Now): (accepted: bool)
    requires ValidNow(now)
    ensures accepted <==>
            && Parsed(dayValue, monthValue, yearValue)
            && yearValue.value != 0
            && 1 <= monthValue.value <= 12
            && 1 <= dayValue.value <= MonthLength(FullYear(yearValue.value), monthValue.value)
            && !Precedes(now.date, CalDate(FullYear(yearValue.value), monthValue.value, dayValue.value))
  {
    Validate(dayValue, monthValue, yearValue, now).Passed()
  }

  /**
   * Whatever the page shows for an accepted input: years are never negative, months
   * lie in -1..11 and days in -2..30.
   */
  lemma AcceptedAgeBounds(dayValue: Option<int>, monthValue: Option<int>, yearValue: Option<int>, now: Now)
    requires ValidNow(now) && Accept(dayValue, monthValue, yearValue, now)
    ensures Parsed(dayValue, monthValue, yearValue)
    ensures var age := AgeInDetail(yearValue.value, monthValue.value, dayValue.value, now.date);
            age.years >= 0 && -1 <= age.months <= 11 && -2 <= age.days <= 30
  {
    var d, m, y := dayValue.value, monthValue.value, yearValue.value;
    AgeMonthsRange(y, m, d, now.date);
    AgeDaysRange(y, m, d, now.date);
  }

  /** A birth date of today is accepted (for a current year outside 0..99). */
  lemma BornTodayAccepted(now: Now)
    requires ValidNow(now) && !(0 <= now.date.year <= 99)
    ensures Accept(Some(now.date.day), Some(now.date.month), Some(now.date.year), now)
  {
  }

  /** 30 February 2023 is refused by the day test. */
  lemma FebruaryThirtiethRejected(now: Now)
    requires ValidNow(now)
    ensures Validate(Some(30), Some(2), Some(2023), now).dayRejected
  {
  }

  /** 15 June 2099, on 1 January 2024, is refused as not in the past. */
  lemma FutureDateRejected(msOfDay: int)
    requires 0 <= msOfDay < MsPerDay
    ensures Validate(Some(15), Some(6), Some(2099), Now(CalDate(2024, 1, 1), msOfDay)).notInPast
  {
  }

  /**
   * A two-digit year is built as 19xx and accepted, while the age is counted from the
   * year as typed: year 50 on 14 June 2024 gives 1974 years.
   */
  lemma TwoDigitYearAccepted(msOfDay: int)
    requires 0 <= msOfDay < MsPerDay
    ensures Accept(Some(1), Some(1), Some(50), Now(CalDate(2024, 6, 14), msOfDay))
    ensures AgeInDetail(50, 1, 1, CalDate(2024, 6, 14)).years == 1974
  {
    assert FullYear(50) == 1950;
    assert !Precedes(CalDate(2024, 6, 14), CalDate(1950, 1, 1));
  }
}
