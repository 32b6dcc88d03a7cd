/** The check-in dates an administrator may enter when depositing or renting
    a room on a tenant's behalf.

    Both endpoints compare dates at day granularity (`startOf("days")`,
    `endOf("days")`), so `today` is a date and the comparisons are the strict
    order `Before` of the calendar module.
 */
module CheckInWindows {
  import opened Calendar
  import opened Results

  datatype WindowError =
    | StartsBeforeToday      // "Ngày ký hợp đồng phải bắt đầu từ ngày hiện tại"
    | MoreThanFiveDaysAhead  // "Ngày ký hợp đồng không được vượt quá 5 ngày tính từ ngày hiện tại"
    | NotBeforeToday         // "Vui lòng nhập thời gian bắt đầu thuê nhỏ hơn thời gian hiện tại"
    | EndsThisMonth          // "... hợp đồng sẽ hết hạn trong tháng này."

  /** What the forgiving parse `moment(checkInTime, "DD/MM/YYYY")` of the
      two single-room endpoints gives: a day, or an invalid moment (text
      without a date, or a day or month out of range). Every comparison with
      an invalid moment is false and every difference is `NaN`. */
  datatype CheckInMoment = OnDay(date: Date) | InvalidMoment

  predicate ValidMoment(m: CheckInMoment) {
    m.InvalidMoment? || Valid(m.date)
  }

  /** Whether the first deposit check refuses the date: the check-in day
      starts before today starts. */
  predicate DepositStartsTooEarly(checkIn: Date, today: Date) {
    Before(checkIn, today)
  }

  /** Whether the second deposit check refuses the date: four days after the
      check-in starts after the end of the day four days from today. */
  predicate DepositStartsTooLate(checkIn: Date, today: Date)
    requires Valid(checkIn) && Valid(today)
  {
    Before(AddDays(today, 4), AddDays(checkIn, 4))
  }

  /** The quick-deposit window, checks in the source's order. An invalid
      moment fails neither comparison. */
  function DepositWindow(checkIn: CheckInMoment, today: Date): Result<(), WindowError>
    requires ValidMoment(checkIn) && Valid(today)
  {
    match checkIn
    case InvalidMoment => Ok(())
    case OnDay(d) =>
      if DepositStartsTooEarly(d, today) then Err(StartsBeforeToday)
      else if DepositStartsTooLate(d, today) then Err(MoreThanFiveDaysAhead)
      else Ok(())
  }

  /** Although the message speaks of five days, the two checks together
      accept exactly one check-in date: today. The second check shifts both
      sides by the same four days, so it refuses every date after today. A
      check-in that does not parse passes both checks. */
  lemma DepositWindowAcceptsOnlyToday(checkIn: CheckInMoment, today: Date)
    requires ValidMoment(checkIn) && Valid(today)
    ensures DepositWindow(checkIn, today).Ok? <==> checkIn == OnDay(today) || checkIn.InvalidMoment?
    ensures checkIn.OnDay? && Before(today, checkIn.date) ==> DepositWindow(checkIn, today) == Err(MoreThanFiveDaysAhead)
  {
    if checkIn.OnDay? {
      AddDaysPreservesOrder(today, checkIn.date, 4);
      BeforeTotal(checkIn.date, today);
    }
  }

  /** The deposit window the second message describes: the check-in may lie
      up to four days after today, five days in all. The second check
      compares the check-in itself, not the check-in plus four days, with
      the end of the day four days from today. */
  function CorrectedDepositWindow(checkIn: Date, today: Date): Result<(), WindowError>
    requires Valid(checkIn) && Valid(today)
  {
    if DepositStartsTooEarly(checkIn, today) then Err(StartsBeforeToday)
    else if Before(AddDays(today, 4), checkIn) then Err(MoreThanFiveDaysAhead)
    else Ok(())
  }

  /** The corrected window accepts exactly today and the four days after it. */
  lemma CorrectedDepositWindowAcceptsFiveDays(checkIn: Date, today: Date)
    requires Valid(checkIn) && Valid(today)
    ensures CorrectedDepositWindow(checkIn, today).Ok?
            <==> exists n :: 0 <= n <= 4 && checkIn == AddDays(today, n)
  {
    if CorrectedDepositWindow(checkIn, today).Ok? {
      BetweenIsAddDays(today, checkIn, 4);
    }
    if exists n :: 0 <= n <= 4 && checkIn == AddDays(today, n) {
      var n :| 0 <= n <= 4 && checkIn == AddDays(today, n);
      AddDaysNotBefore(today, n);
      AddDaysAdd(today, n, 4 - n);
      AddDaysNotBefore(checkIn, 4 - n);
    }
  }

  /** As written, the window refuses the day after today, which the message
      allows. */
  lemma DepositWindowRefusesTomorrow(today: Date)
    requires Valid(today)
    ensures DepositWindow(OnDay(NextDay(today)), today) == Err(MoreThanFiveDaysAhead)
    ensures CorrectedDepositWindow(NextDay(today), today).Ok?
  {
    DepositWindowAcceptsOnlyToday(OnDay(NextDay(today)), today);
    assert NextDay(today) == AddDays(today, 1);
    CorrectedDepositWindowAcceptsFiveDays(NextDay(today), today);
  }

  /** The last day of a contract starting on `checkIn` and lasting `months`
      months: `checkIn + months months − 1 day`. */
  function ContractEnd(checkIn: Date, months: int): (r: Date)
    requires Valid(checkIn)
    ensures Valid(r)
  {
    PrevDay(AddMonths(checkIn, months))
  }

  /** Whether the contract's last day is less than one whole month after the
      first of the current month: moment's month difference from the first
      of a month is below one exactly when the end falls in that month or
      earlier. */
  predicate EndsWithinCurrentMonth(checkIn: Date, today: Date, months: int)
    requires Valid(checkIn)
  {
    ContractEnd(checkIn, months).month - today.month < 1
  }

  /** The quick-rent window, checks in the source's order: a check-in that is
      not in the past, then a contract that ends within the current month.
      For an invalid moment `isSameOrAfter` is false and `NaN < 1` is false,
      so neither check refuses it. */
  function RentWindow(checkIn: CheckInMoment, today: Date, months: int): Result<(), WindowError>
    requires ValidMoment(checkIn) && Valid(today)
  {
    match checkIn
    case InvalidMoment => Ok(())
    case OnDay(d) =>
      if !Before(d, today) then Err(NotBeforeToday)
      else if EndsWithinCurrentMonth(d, today, months) then Err(EndsThisMonth)
      else Ok(())
  }

  /** The month of the contract's last day: the check-in month plus the
      length, one month less when the contract starts on the first. */
  lemma ContractEndMonth(checkIn: Date, months: int)
    requires Valid(checkIn)
    ensures ContractEnd(checkIn, months).month == checkIn.month + months - (if checkIn.day == 1 then 1 else 0)
  {
  }

  /** The quick-rent window refuses a check-in on or after today, and a
      contract that ends within the current month or earlier; it accepts
      everything else. */
  lemma RentWindowSpec(checkIn: CheckInMoment, today: Date, months: int)
    requires ValidMoment(checkIn) && Valid(today)
    ensures RentWindow(checkIn, today, months).Ok?
            <==> match checkIn
                 case InvalidMoment => true
                 case OnDay(d) =>
                   Before(d, today) && d.month + months - (if d.day == 1 then 1 else 0) > today.month
    ensures checkIn.OnDay? && !Before(checkIn.date, today) ==> RentWindow(checkIn, today, months) == Err(NotBeforeToday)
  {
    if checkIn.OnDay? {
      ContractEndMonth(checkIn.date, months);
    }
  }

  /** A one-month contract is accepted only when it started earlier in the
      current month, on a day other than the first. */
  lemma OneMonthRentNeedsLateStart(checkIn: Date, today: Date)
    requires Valid(checkIn) && Valid(today)
    requires RentWindow(OnDay(checkIn), today, 1).Ok?
    ensures checkIn.day > 1 && checkIn.month == today.month
  {
    RentWindowSpec(OnDay(checkIn), today, 1);
  }
}
