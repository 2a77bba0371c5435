# Age calculator: date validation and age arithmetic

A Dafny model of the logic in `index.js` of a browser age calculator. The page reads a
day, a month and a year, decides whether they form an acceptable birth date, shows an
error message under each offending field, and otherwise shows the elapsed years, months
and days since that date.

The model has six modules:

- `Wrappers` (wrappers.dfy): the `Option` type.
- `Calendar` (calendar.dfy): the host `Date` object as ECMA-262 (section 21.4.1 and
  21.4.2.1) defines it. Day numbers come from DayFromYear and the month table. MakeDay
  lets an out-of-range month or day shift the day number. `Normalize` rolls such a date
  into the month it falls in. `ConstructDate` gives the fields of `new Date(y, mi, d)`,
  including the constructor's reading of years 0..99 as 1900..1999. It is proved to
  have MakeDay's day number, and the day number names each real date exactly once.
- `AgeCalculator` (age_calculator.dfy): `daysInMonth`, `isValidDate` and
  `calculateAgeInDetail` as functions `DaysInMonth`, `IsValidDate`, `AgeInDetail`.
- `Validation` (validation.dfy): the five tests of the `calculateAge` handler as
  `Validate`, and its acceptance rule (`hasError` stays false) as `Accept`. Parsed
  fields are `Option<int>`, with `None` for NaN. The current instant is a parameter
  `Now`: today's date and the milliseconds since midnight.
- `ErrorDisplay` (error_display.dfy): the error paragraph of one field as a class
  `ErrorSlot` holding at most one message. The four message texts are a datatype
  `Message`, with `Text` giving the words shown.
- `AgeForm` (age_form.dfy): the handler itself as `Form.CalculateAge`. It changes the
  three error slots and the three result boxes step by step, as the source does.

The model follows the code, including its odd edge behaviour:

- The second borrow is never normalised. Born 15 June 1990, on 14 June 2024, the page
  shows 34 years, -1 months, 30 days, not 33 years, 11 months, 30 days. The days can
  reach -2 (born 31 January, on 1 March of a common year).
- Several messages for one field do not accumulate. `addErrorText` adds nothing
  while a message is shown, so the first message stays. A message from an earlier
  evaluation also stays when the field fails its required test again.
- A year 1..99 is built as 1900..1999, so it passes the future test. The age is still
  counted from the year as typed.
- The "Too many days for this month!" test can never fire on its own.

## Model

| member | source | states |
|---|---|---|
| Calendar.Normalize | index.js:77 | rolling an out-of-range day over always yields a real date (month 1..12, day within the month) |
| Calendar.NormalizeDayNumber | index.js:77 | the rolled-over date keeps the day number: the first of the month plus d - 1, as ECMA-262's MakeDay prescribes |
| Calendar.MakeDay | index.js:77 | for a month index 0..11, MakeDay is the day number of day `date` of month index + 1, even when `date` lies outside that month |
| Calendar.FullYear | index.js:77 | a built date never has a year 0..99: those become 1900..1999 with the same last two digits, and every other year is kept as typed |
| Calendar.ConstructDate | index.js:77 | the fields of `new Date(y, mi, d)` form a real date whose day number is MakeDay of the full year, month index and day; for a month index 0..11 they are day d of that month rolled over, and exactly (full year, mi + 1, d) when d lies within that month |
| Calendar.ConstructDateUnique | index.js:77 | no other real date has that day number, so the fields are those ECMA-262's decomposition returns |
| Calendar.NormalizeKeepsFields | index.js:77 | rolling over leaves the month and the day as given if and only if the day lies within that month |
| Calendar.ConstructDateKeepsFields | index.js:77-78 | `new Date(y, mi, d)` keeps month index mi and date d if and only if mi is 0..11 and d lies within that month of the full year |
| Calendar.DayFromYearStep | index.js:44-46 | DayFromYear of the next year is DayFromYear plus 365, or 366 in a Gregorian leap year |
| Calendar.MonthSpan | index.js:44-46 | the first of the next month is one month length after the first of this month, across a year end too |
| Calendar.DayNumberOrder | index.js:159 | on real dates, day numbers are ordered exactly as the calendar and equal exactly for the same date |
| Calendar.NormalizeDayZero | index.js:45 | day 0 of a month is the last day of the month before it |
| AgeCalculator.DaysInMonth | index.js:44-46 | for any month argument the result is 28..31, and for months 1..12 it is the Gregorian length of that month of the full year |
| AgeCalculator.IsValidDate | index.js:76-79 | `isValidDate` holds if and only if the month is 1..12 and the day is 1 to the Gregorian length of that month of the full year |
| AgeCalculator.DaysInMonthIsGregorian | index.js:44-46 | for months 1..12, `daysInMonth` is 31 for months 1,3,5,7,8,10,12, 30 for 4,6,9,11, and 29 or 28 for February by the leap rule of the full year |
| AgeCalculator.TooManyDaysIsInvalid | index.js:165 | a day above `daysInMonth(year, month)` always fails `isValidDate` |
| AgeCalculator.AgeInDetail | index.js:89-117 | 12·years + months equals the field-wise month difference, less one when the birth day is still ahead in the current month |
| AgeCalculator.AgeMonthsRange | index.js:94-106 | years drop by one only when the birth month is ahead; months lie in -1..11 and are -1 exactly when the birth month is the current month and the birth day is ahead |
| AgeCalculator.AgeDays | index.js:104-114 | days are the day difference, or after a borrow that difference plus 31 in January and the Gregorian length of the previous month otherwise |
| AgeCalculator.AgeDaysRange | index.js:104-114 | for a birth day 1..31 and a real current date, days lie in -2..30, and are negative exactly when the birth day exceeds today's day plus the borrowed month's length |
| AgeCalculator.OneDayBeforeBirthday | index.js:94-114 | born 15 June 1990, on 14 June 2024, the result is 34 years, -1 months, 30 days |
| AgeCalculator.LeapDayBirthday | index.js:94-114 | born 29 February 2000, on 1 March 2021, the result is 21 years, 0 months, 0 days |
| AgeCalculator.EndOfJanuaryToMarch | index.js:94-114 | born 31 January 2023, on 1 March 2023, the result is 0 years, 1 month, -2 days |
| Validation.InputAfterNow | index.js:159 | the date built at midnight is after the current instant exactly when today precedes that date |
| Validation.Validate | index.js:133-168 | the day test passes exactly when all fields parse, the month is 1..12 and the day lies within that month of the full year; "Too many days" fires only where the day test fired; once the day test passes, the future test fires exactly when today precedes the date |
| Validation.Accept | index.js:131-171 | an input is accepted if and only if all fields parse, the year is not 0, the month is 1..12, the day lies within that month of the full year, and the date is not after today |
| Validation.AcceptedAgeBounds | index.js:170-180 | for every accepted input all fields parse, and the shown age has years of at least 0, months in -1..11 and days in -2..30 |
| Validation.BornTodayAccepted | index.js:158-162 | a birth date equal to today's date is accepted |
| Validation.FebruaryThirtiethRejected | index.js:133-140 | 30 February 2023 fails the day test |
| Validation.FutureDateRejected | index.js:158-162 | 15 June 2099 is refused as not in the past on 1 January 2024 |
| Validation.TwoDigitYearAccepted | index.js:129 | year 50 is accepted because it is built as 1950, and the age then counts 1974 years on 14 June 2024 |
| ErrorDisplay.FirstMessageWins | index.js:53-60 | after adding a series of messages, a slot shows its earlier message if it had one, else the first message added |
| ErrorDisplay.TextsDistinct | index.js:65-166 | the four message texts are pairwise different, so the text shown tells which message a slot holds |
| ErrorDisplay.ErrorSlot.AddErrorText | index.js:53-60 | a message is added only when the slot is empty |
| ErrorDisplay.ErrorSlot.SetErrorState | index.js:62-66 | "This field is required" is added unless a message is shown; afterwards a message is shown |
| ErrorDisplay.ErrorSlot.ClearErrorState | index.js:68-73 | the slot is empty afterwards |
| AgeForm.Form.CalculateAge | index.js:120-187 | each slot is cleared when its field passes its required test, and otherwise gets "This field is required" if empty; the year slot gets "Must be in the past!" after a clear; the boxes show the age when no test fired (`Validate(...).Passed()`, which is `Accept`) and "--" otherwise |
| AgeForm.RequiredShadowsInvalidDay | index.js:133-137 | on a fresh page, 30 February 2023 shows "This field is required" under the day, not "Must be a valid day" |
| AgeForm.StaleYearMessage | index.js:150-162 | after a future year, an empty year field still shows "Must be in the past!" |

## Left out

- DOM lookup and the `inputFields` table (index.js:6-34) are left out, and so are the result-box elements. The model keeps one message slot per field and one value per box.
- The "error" CSS class that `setErrorState` adds to the input and label, and that `clearErrorState` removes (index.js:63-64, 71-72), is not modelled. Only the message is.
- `clearErrorState` removes the first paragraph in the field container. The model assumes the container holds no paragraph other than the error text.
- Event-listener wiring, the Enter key and `e.preventDefault()` (index.js:122, 189-197) are platform glue.
- `parseInt` (index.js:125-127) is not modelled. Its result enters as `Option<int>`. Trailing text, fractions and numbers too large for an exact double are not modelled.
- The wall clock (index.js:128) is not read. The instant is a parameter: a local date plus milliseconds since midnight.
- Time-zone offsets and daylight-saving changes are not modelled. Both sides of `inputDate > now` are compared in one local calendar.
- ECMA-262's TimeClip range is not modelled. Dates more than 100,000,000 days from 1970 would give an Invalid Date; every year counts as representable.
- The starting page (empty error slots, "--" in every box) is an assumption in `Form`'s constructor. The HTML that sets it up is not part of this model.
- The round trip "age added back onto the birth date gives today" is not claimed. `OneDayBeforeBirthday` shows a result with -1 months.
