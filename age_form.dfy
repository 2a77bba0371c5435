/**
 * The `calculateAge` handler of index.js over the three error slots and the three
 * result boxes, with the parsed fields and the current instant passed in.
 */
module AgeForm {
  import opened Wrappers
  import opened Calendar
  import opened AgeCalculator
  import opened Validation
  import opened ErrorDisplay

  /** What a result box shows: "--" or a number. */
  datatype Box = Dashes | Shows(value: int)

  class Form {
    const daySlot: ErrorSlot
    const monthSlot: ErrorSlot
    const yearSlot: ErrorSlot
    var dayBox: Box
    var monthBox: Box
    var yearBox: Box

    /** Each field has its own error slot. */
    ghost predicate Valid()
      reads this
    {
      daySlot != monthSlot && daySlot != yearSlot && monthSlot != yearSlot
    }

    /** A page with no error shown and "--" in every result box. */
    constructor ()
      ensures Valid() && fresh(daySlot) && fresh(monthSlot) && fresh(yearSlot)
      ensures daySlot.message == None && monthSlot.message == None && yearSlot.message == None
      ensures dayBox == Dashes && monthBox == Dashes && yearBox == Dashes
    {
      daySlot := new ErrorSlot();
      monthSlot := new ErrorSlot();
      yearSlot := new ErrorSlot();
      dayBox, monthBox, yearBox := Dashes, Dashes, Dashes;
    }

    /**
     * `calculateAge(e)`. A field that fails its required test gets "This field is required"
     * unless it already shows a message (from this evaluation or an earlier one); a field
     * that passes it is cleared. The year field then shows "Must be in the past!" if it was
     * cleared and the date is in the future. The boxes show the age when no test fired and
     * "--" otherwise.
     */
    method CalculateAge(dayValue: Option<int>, monthValue: Option<int>, yearValue: Option<int>, now: Now)
      requires Valid() && ValidNow(now)
      modifies daySlot, monthSlot, yearSlot, this`dayBox, this`monthBox, this`yearBox
      ensures Valid()
      ensures var v := Validate(dayValue, monthValue, yearValue, now);
              && daySlot.message == (if v.dayRejected then AfterAdd(old(daySlot.message), Required) else None)
              && monthSlot.message == (if v.monthRejected then AfterAdd(old(monthSlot.message), Required) else None)
              && yearSlot.message == (if v.yearRejected then AfterAdd(old(yearSlot.message), Required)
                                      else if v.notInPast then Some(NotInPast)
                                      else None)
      ensures Validate(dayValue, monthValue, yearValue, now).Passed() ==>
                var age := AgeInDetail(yearValue.value, monthValue.value, dayValue.value, now.date);
                dayBox == Shows(age.days) && monthBox == Shows(age.months) && yearBox == Shows(age.years)
      ensures !Validate(dayValue, monthValue, yearValue, now).Passed() ==>
                dayBox == Dashes && monthBox == Dashes && yearBox == Dashes
    {
      var parsed := Parsed(dayValue, monthValue, yearValue);
      var hasError := false;
      ghost var v := Validate(dayValue, monthValue, yearValue, now);

      if Falsy(dayValue) || !(parsed && IsValidDate(dayValue.value, monthValue.value, yearValue.value)) {
        daySlot.SetErrorState();
        daySlot.AddErrorText(InvalidDay);
        hasError := true;
      } else {
        daySlot.ClearErrorState();
      }

      if Falsy(monthValue) || monthValue.value < 1 || monthValue.value > 12 {
        monthSlot.SetErrorState();
        hasError := true;
      } else {
        monthSlot.ClearErrorState();
      }

      if Falsy(yearValue) {
        yearSlot.SetErrorState();
        hasError := true;
      } else {
        yearSlot.ClearErrorState();
      }

      if parsed && InputAfterNow(dayValue.value, monthValue.value, yearValue.value, now) {
        yearSlot.AddErrorText(NotInPast);
        hasError := true;
      }

      if parsed && dayValue.value > DaysInMonth(yearValue.value, monthValue.value) {
        daySlot.AddErrorText(TooManyDays);
        hasError := true;
      }

      assert hasError == !v.Passed();
      if !hasError {
        var age := AgeInDetail(yearValue.value, monthValue.value, dayValue.value, now.date);
        dayBox, monthBox, yearBox := Shows(age.days), Shows(age.months), Shows(age.years);
      } else {
        dayBox, monthBox, yearBox := Dashes, Dashes, Dashes;
      }
    }
  }

  /**
   * On a fresh page, 30 February 2023 shows "This field is required" under the day:
   * the message from `setErrorState` takes the slot before "Must be a valid day".
   */
  method RequiredShadowsInvalidDay() returns (shown: Option<Message>)
    ensures shown == Some(Required)
  {
    var form := new Form();
    var now := Now(CalDate(2024, 6, 14), 0);
    FebruaryThirtiethRejected(now);
    form.CalculateAge(Some(30), Some(2), Some(2023), now);
    shown := form.daySlot.message;
  }

  /**
   * A future year followed by an empty year field: the year slot keeps the earlier
   * "Must be in the past!", since `setErrorState` adds nothing to a slot that shows a message.
   */
  method StaleYearMessage() returns (shown: Option<Message>)
    ensures shown == Some(NotInPast)
  {
    var form := new Form();
    var now := Now(CalDate(2024, 1, 1), 0);
    FutureDateRejected(0);
    form.CalculateAge(Some(15), Some(6), Some(2099), now);
    form.CalculateAge(Some(15), Some(6), None, now);
    shown := form.yearSlot.message;
  }
}
