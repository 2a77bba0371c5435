/**
 * The proleptic Gregorian calendar of the host `Date` object, as ECMA-262
 * section 21.4.1 defines it: day numbers (days since 1 January 1970) built from
 * DayFromYear and the month table, and the `Date(year, monthIndex, date)`
 * constructor of section 21.4.2.1, whose out-of-range months and days roll over
 * into neighbouring months and years.
 */
module Calendar {

  /** A calendar date; `month` is 1-based (January is 1). */
  datatype CalDate = CalDate(year: int, month: int, day: int)

  /** Gregorian leap-year rule (DaysInYear in section 21.4.1.3 of ECMA-262). */
  predicate IsLeap(y: int) {
    y % 4 == 0 && (y % 100 != 0 || y % 400 == 0)
  }

  function DaysInYear(y: int): int {
    if IsLeap(y) then 366 else 365
  }

  /** The Gregorian length of month `m` of year `y`. */
  function MonthLength(y: int, m: int): int
    requires 1 <= m <= 12
  {
    if m == 2 then (if IsLeap(y) then 29 else 28)
    else if m == 4 || m == 6 || m == 9 || m == 11 then 30
    else 31
  }

  /** A date that names a real day: a month 1..12 and a day within that month. */
  predicate ValidDate(date: CalDate) {
    1 <= date.month <= 12 && 1 <= date.day <= MonthLength(date.year, date.month)
  }

  /** Strict chronological order on dates, field by field. */
  predicate Precedes(a: CalDate, b: CalDate) {
    a.year < b.year ||
    (a.year == b.year && (a.month < b.month || (a.month == b.month && a.day < b.day)))
  }

  /** Day number of 1 January of year `y` (DayFromYear in ECMA-262); `/` floors here because the divisors are positive. */
  function DayFromYear(y: int): int {
    365 * (y - 1970) + (y - 1969) / 4 - (y - 1901) / 100 + (y - 1601) / 400
  }

  /** Days of year `y` before the first of month `m` (the thresholds of MonthFromTime in ECMA-262). */
  function DaysBeforeMonth(y: int, m: int): int
    requires 1 <= m <= 12
  {
    [0, 31, 59, 90, 120, 151, 181, 212, 243, 273, 304, 334][m - 1]
    + (if m > 2 && IsLeap(y) then 1 else 0)
  }

  /** Day number of the first of month `m` of year `y`. */
  function FirstDay(y: int, m: int): int
    requires 1 <= m <= 12
  {
    DayFromYear(y) + DaysBeforeMonth(y, m)
  }

  /** Day number of a date (days since 1 January 1970). */
  function DayNumber(date: CalDate): int
    requires 1 <= date.month <= 12
  {
    FirstDay(date.year, date.month) + date.day - 1
  }

  /**
   * MakeDay(year, monthIndex, date) of ECMA-262: the month index is 0-based and may
   * lie outside 0..11, the date may lie outside the month; both simply shift the day number.
   */
  function MakeDay(y: int, monthIndex: int, date: int): (r: int)
    ensures 0 <= monthIndex < 12 ==> r == DayNumber(CalDate(y, monthIndex + 1, date))
  {
    SmallMonthIndex(monthIndex);
    FirstDay(y + monthIndex / 12, monthIndex % 12 + 1) + date - 1
  }

  /** The `Date` constructor reads a year 0..99 as 1900..1999 (section 21.4.2.1 of ECMA-262). */
  function FullYear(y: int): (full: int)
    ensures !(0 <= full <= 99)
    ensures full == y <==> !(0 <= y <= 99)
    ensures 0 <= y <= 99 ==> 1900 <= full <= 1999 && full % 100 == y
  {
    if 0 <= y <= 99 then 1900 + y else y
  }

  function PrevYear(y: int, m: int): int { if m == 1 then y - 1 else y }
  function PrevMonth(m: int): int { if m == 1 then 12 else m - 1 }
  function NextYear(y: int, m: int): int { if m == 12 then y + 1 else y }
  function NextMonth(m: int): int { if m == 12 then 1 else m + 1 }

  /**
   * Rolls day `d` of month `m` of year `y` over into the month it falls in:
   * a day below 1 borrows the length of the previous month, a day past the end
   * of the month moves on into the next one.
   */
  function Normalize(y: int, m: int, d: int): (r: CalDate)
    requires 1 <= m <= 12
    ensures ValidDate(r)
    decreases if d < 1 then 1 - d else 0, d
  {
    if d < 1 then
      Normalize(PrevYear(y, m), PrevMonth(m), d + MonthLength(PrevYear(y, m), PrevMonth(m)))
    else if d > MonthLength(y, m) then
      Normalize(NextYear(y, m), NextMonth(m), d - MonthLength(y, m))
    else
      CalDate(y, m, d)
  }

  /**
   * The calendar fields (getFullYear, getMonth + 1, getDate) of `new Date(y, monthIndex, d)`:
   * a real date whose day number is the one MakeDay gives. By DayNumberOrder no other
   * real date has that day number, so these are the fields ECMA-262's YearFromTime,
   * MonthFromTime and DateFromTime return. For a month index 0..11 the day is rolled
   * starting from that month of the full year, so a date already within it is kept.
   */
  function ConstructDate(y: int, monthIndex: int, d: int): (r: CalDate)
    ensures ValidDate(r)
    ensures DayNumber(r) == MakeDay(FullYear(y), monthIndex, d)
    ensures 0 <= monthIndex < 12 ==> r == Normalize(FullYear(y), monthIndex + 1, d)
    ensures 0 <= monthIndex < 12 && 1 <= d <= MonthLength(FullYear(y), monthIndex + 1) ==>
            r == CalDate(FullYear(y), monthIndex + 1, d)
  {
    var fy := FullYear(y);
    var year, month := fy + monthIndex / 12, monthIndex % 12 + 1;
    SmallMonthIndex(monthIndex);
    assert 0 <= monthIndex < 12 ==> year == fy && month == monthIndex + 1;
    NormalizeDayNumber(year, month, d);
    Normalize(year, month, d)
  }

  // ---------------------------------------------------------------------------
  // Day numbers

  /** Floor division by a positive constant steps by one exactly at the multiples. */
  lemma FloorStep(x: int, c: int)
    requires c > 0
    ensures (x + 1) / c == x / c + (if (x + 1) % c == 0 then 1 else 0)
  {
    var q, r := x / c, x % c;
    if r + 1 < c {
      DivModUnique(x + 1, c, q, r + 1);
    } else {
      DivModUnique(x + 1, c, q + 1, 0);
    }
  }

  lemma DivModUnique(x: int, c: int, q: int, r: int)
    requires c > 0 && 0 <= r < c && x == c * q + r
    ensures x / c == q && x % c == r
  {
    var q', r' := x / c, x % c;
    assert c * q' + r' == c * q + r;
    if q' != q {
      var k := q' - q;
      assert c * q' == c * q + c * k;
      assert c * k == r - r';
      if k > 0 {
        MulAtLeast(c, k);
      } else {
        MulAtLeast(c, -k);
      }
    }
  }

  lemma MulAtLeast(c: int, k: int)
    requires c > 0 && k >= 1
    ensures c * k >= c
  {
  }

  /** A month index 0..11 stays in its year. */
  lemma SmallMonthIndex(monthIndex: int)
    ensures 0 <= monthIndex < 12 ==> monthIndex / 12 == 0 && monthIndex % 12 == monthIndex
  {
    if 0 <= monthIndex < 12 {
      DivModUnique(monthIndex, 12, 0, monthIndex);
    }
  }

  /** Consecutive years are DaysInYear apart (DayFromYear agrees with the leap-year rule). */
  lemma DayFromYearStep(y: int)
    ensures DayFromYear(y + 1) == DayFromYear(y) + DaysInYear(y)
  {
    FloorStep(y - 1969, 4);
    FloorStep(y - 1901, 100);
    FloorStep(y - 1601, 400);
    ShiftedMod(y, 4, 492);
    ShiftedMod(y, 100, 19);
    ShiftedMod(y, 400, 4);
  }

  lemma ShiftedMod(y: int, c: int, k: int)
    requires c > 0
    ensures (y - c * k) % c == y % c
  {
    DivModUnique(y - c * k, c, y / c - k, y % c);
  }

  /** The first of the next month lies one month length after the first of this one. */
  lemma MonthSpan(y: int, m: int)
    requires 1 <= m <= 12
    ensures FirstDay(NextYear(y, m), NextMonth(m)) == FirstDay(y, m) + MonthLength(y, m)
  {
    if m == 12 {
      DayFromYearStep(y);
    }
  }

  lemma {:induction false} NormalizeDayNumber(y: int, m: int, d: int)
    requires 1 <= m <= 12
    ensures DayNumber(Normalize(y, m, d)) == FirstDay(y, m) + d - 1
    decreases if d < 1 then 1 - d else 0, d
  {
    if d < 1 {
      var py, pm := PrevYear(y, m), PrevMonth(m);
      MonthSpan(py, pm);
      NormalizeDayNumber(py, pm, d + MonthLength(py, pm));
    } else if d > MonthLength(y, m) {
      MonthSpan(y, m);
      NormalizeDayNumber(NextYear(y, m), NextMonth(m), d - MonthLength(y, m));
    }
  }

  lemma {:induction false} DayFromYearMonotone(y1: int, y2: int)
    requires y1 < y2
    ensures DayFromYear(y1) + DaysInYear(y1) <= DayFromYear(y2)
    decreases y2 - y1
  {
    DayFromYearStep(y1);
    if y1 + 1 < y2 {
      DayFromYearMonotone(y1 + 1, y2);
    }
  }

  lemma {:induction false} DaysBeforeMonthMonotone(y: int, m1: int, m2: int)
    requires 1 <= m1 < m2 <= 12
    ensures DaysBeforeMonth(y, m1) + MonthLength(y, m1) <= DaysBeforeMonth(y, m2)
    decreases m2 - m1
  {
    if m1 + 1 < m2 {
      DaysBeforeMonthMonotone(y, m1 + 1, m2);
    }
  }

  /** A real date's day number lies within its own year. */
  lemma DayNumberWithinYear(date: CalDate)
    requires ValidDate(date)
    ensures DayFromYear(date.year) <= DayNumber(date) < DayFromYear(date.year) + DaysInYear(date.year)
  {
    if date.month < 12 {
      DaysBeforeMonthMonotone(date.year, date.month, 12);
    }
  }

  lemma DayNumberMonotone(a: CalDate, b: CalDate)
    requires ValidDate(a) && ValidDate(b) && Precedes(a, b)
    ensures DayNumber(a) < DayNumber(b)
  {
    if a.year < b.year {
      DayNumberWithinYear(a);
      DayNumberWithinYear(b);
      DayFromYearMonotone(a.year, b.year);
    } else if a.month < b.month {
      DaysBeforeMonthMonotone(a.year, a.month, b.month);
    }
  }

  /** On real dates, day numbers order exactly as the calendar does, and name each date once. */
  lemma DayNumberOrder(a: CalDate, b: CalDate)
    requires ValidDate(a) && ValidDate(b)
    ensures DayNumber(a) < DayNumber(b) <==> Precedes(a, b)
    ensures DayNumber(a) == DayNumber(b) <==> a == b
  {
    if Precedes(a, b) {
      DayNumberMonotone(a, b);
    } else if Precedes(b, a) {
      DayNumberMonotone(b, a);
    }
  }

  /** The constructor's fields are the only real date with MakeDay's day number. */
  lemma ConstructDateUnique(y: int, monthIndex: int, d: int, c: CalDate)
    requires ValidDate(c) && DayNumber(c) == MakeDay(FullYear(y), monthIndex, d)
    ensures c == ConstructDate(y, monthIndex, d)
  {
    DayNumberOrder(c, ConstructDate(y, monthIndex, d));
  }

  /** Rolling over leaves the month and the day as given exactly when the day lies within the month. */
  lemma NormalizeKeepsFields(y: int, m: int, d: int)
    requires 1 <= m <= 12
    ensures Normalize(y, m, d).month == m && Normalize(y, m, d).day == d <==> 1 <= d <= MonthLength(y, m)
  {
    var r := Normalize(y, m, d);
    if r.month == m && r.day == d && d > MonthLength(y, m) {
      NormalizeDayNumber(y, m, d);
      DayNumberWithinYear(r);
      if r.year < y {
        DayFromYearMonotone(r.year, y);
      } else {
        if m < 12 {
          DaysBeforeMonthMonotone(y, m, 12);
        }
        DayFromYearMonotone(y, r.year);
      }
      assert false;
    }
  }

  /**
   * `new Date(y, mi, d)` keeps the 0-based month index and the day exactly when
   * they name a real day of the full year.
   */
  lemma ConstructDateKeepsFields(y: int, monthIndex: int, d: int)
    ensures ConstructDate(y, monthIndex, d).month == monthIndex + 1 && ConstructDate(y, monthIndex, d).day == d
            <==> 0 <= monthIndex < 12 && 1 <= d <= MonthLength(FullYear(y), monthIndex + 1)
  {
    if 0 <= monthIndex < 12 {
      NormalizeKeepsFields(FullYear(y), monthIndex + 1, d);
    }
  }

  /** Day 0 of a month is the last day of the month before it. */
  lemma NormalizeDayZero(y: int, m: int)
    requires 1 <= m <= 12
    ensures Normalize(y, m, 0) == CalDate(PrevYear(y, m), PrevMonth(m), MonthLength(PrevYear(y, m), PrevMonth(m)))
  {
    var py, pm := PrevYear(y, m), PrevMonth(m);
    assert Normalize(y, m, 0) == Normalize(py, pm, MonthLength(py, pm));
  }
}
