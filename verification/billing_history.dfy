/** Back-filled monthly bills of a back-dated rental.

    When an administrator records a rental whose check-in lies in an earlier
    month, the rent endpoint creates one already-paid monthly order for each
    month from the check-in month up to, not including, the current month.
    Each order covers a billing period and charges the room prorated to the
    days of the period that the tenant stayed, plus the utilities.
 */
module BillingHistory {
  import opened Calendar
  import opened Results
  import opened CheckInWindows

  /** A billing period, first and last day included. */
  datatype Period = Period(start: Date, end: Date)

  /** The periods the history loop emits, as a list: the first starts on
      the check-in day, each later one on the first of its month, and every
      one ends on the last day of its month. */
  predicate IsHistory(checkIn: Date, current: int, periods: seq<Period>) {
    && |periods| == (if checkIn.month < current then current - checkIn.month else 0)
    && (forall k :: 0 <= k < |periods| ==>
          periods[k].start == (if k == 0 then checkIn else StartOfMonth(checkIn.month + k)))
    && (forall k :: 0 <= k < |periods| ==> periods[k].end == EndOfMonth(checkIn.month + k))
  }

  /** The history loop: starting from `monthPlus = 0`, it runs while the
      check-in date moved on by `monthPlus` months is before the first of the
      current month. */
  method BackfillPeriods(checkIn: Date, current: int) returns (periods: seq<Period>)
    requires Valid(checkIn)
    ensures IsHistory(checkIn, current, periods)
    ensures forall k :: 0 <= k < |periods| ==> Valid(periods[k].start) && Valid(periods[k].end)
    ensures forall k :: 0 <= k < |periods| ==> periods[k].end.month < current
  {
    periods := [];
    var monthPlus := 0;
    while Before(AddMonths(checkIn, monthPlus), StartOfMonth(current))
      invariant 0 <= monthPlus
      invariant checkIn.month < current ==> monthPlus <= current - checkIn.month
      invariant checkIn.month >= current ==> monthPlus == 0
      invariant |periods| == monthPlus
      invariant forall k :: 0 <= k < monthPlus ==>
                  periods[k].start == (if k == 0 then checkIn else StartOfMonth(checkIn.month + k))
      invariant forall k :: 0 <= k < monthPlus ==> periods[k].end == EndOfMonth(checkIn.month + k)
      decreases current - checkIn.month - monthPlus
    {
      var startTime := StartOfMonth(AddMonths(checkIn, monthPlus).month);
      if monthPlus == 0 {
        startTime := checkIn;
      }
      var endTime := EndOfMonth(AddMonths(checkIn, monthPlus).month);
      periods := periods + [Period(startTime, endTime)];
      monthPlus := monthPlus + 1;
    }
  }

  /** Consecutive periods leave no gap and do not overlap: each starts on the
      day after the previous one ends. */
  lemma HistoryIsContiguous(checkIn: Date, current: int, periods: seq<Period>, k: int)
    requires Valid(checkIn)
    requires IsHistory(checkIn, current, periods)
    requires 0 <= k < |periods| - 1
    ensures NextDay(periods[k].end) == periods[k + 1].start
    ensures Before(periods[k].start, periods[k].end) || periods[k].start == periods[k].end
  {
  }

  /** `today.diff(checkIn, "months")` as moment computes it, truncated. When
      today's day of the month is below the check-in's, moment measures from
      the check-in instead: it moves the check-in on by the month distance,
      clamping the day to the length of today's month, and counts one month
      less exactly when today is still before that date. So on the last day
      of a month shorter than the check-in's day the whole distance counts. */
  function MonthsElapsed(checkIn: Date, today: Date): int {
    today.month - checkIn.month
      - (if today.day < Min(checkIn.day, DaysInMonth(today.month)) then 1 else 0)
  }

  /** The month difference counts whole months: the check-in moved on by it
      is not after today, and moved on by one month more is. */
  lemma MonthsElapsedCountsWholeMonths(checkIn: Date, today: Date)
    requires Valid(checkIn) && Valid(today) && !Before(today, checkIn)
    ensures var k := MonthsElapsed(checkIn, today);
            k >= 0 && !Before(today, AddMonths(checkIn, k)) && Before(today, AddMonths(checkIn, k + 1))
  {
  }

  /** A check-in on the 31st of December and today the 28th of February of
      a common year: the clamp makes the difference two whole months. */
  lemma MonthsElapsedAtShortMonthEnd()
    ensures MonthsElapsed(Date(2022 * 12 + 11, 31), Date(2023 * 12 + 1, 28)) == 2
    ensures MonthsElapsed(Date(2022 * 12 + 11, 31), Date(2023 * 12 + 1, 27)) == 1
  {
  }

  /** What the rent endpoint arranges for the months before the current one. */
  datatype HistoryPlan =
    | Backfill(periods: seq<Period>)  // paid monthly orders created at once
    | FirstMonthOrderJob              // job "CreateFirstMonthOrder" at the start of next month
    | AllMonthlyOrdersJob             // job "CreateAllOrderMonthlyForQuickRentOneRoomByAdmin", at once
    | NoHistory                       // check-in in a later year: nothing is scheduled

  /** The branch the rent endpoint takes on a check-in that passed its
      window: a date before today, or a moment the forgiving parse could not
      read, whose month difference is `NaN` and so fails the `< 2` test. */
  method PlanHistory(checkIn: CheckInMoment, today: Date) returns (plan: HistoryPlan)
    requires ValidMoment(checkIn) && Valid(today)
    requires checkIn.OnDay? ==> Before(checkIn.date, today)
    ensures checkIn.InvalidMoment? ==> plan.AllMonthlyOrdersJob?
    ensures checkIn.OnDay? ==>
              (plan.Backfill? <==> MonthsElapsed(checkIn.date, today) < 2 && checkIn.date.month < today.month)
    ensures checkIn.OnDay? ==>
              (plan.FirstMonthOrderJob? <==> MonthsElapsed(checkIn.date, today) < 2 && checkIn.date.month == today.month)
    ensures checkIn.OnDay? ==>
              (plan.AllMonthlyOrdersJob? <==> MonthsElapsed(checkIn.date, today) >= 2)
    ensures !plan.NoHistory?
    ensures plan.Backfill? ==> checkIn.OnDay? && IsHistory(checkIn.date, today.month, plan.periods)
    ensures plan.Backfill? ==> 1 <= |plan.periods| <= 2
  {
    if checkIn.InvalidMoment? {
      return AllMonthlyOrdersJob;
    }
    var d := checkIn.date;
    YearMonthOrder(d.month, today.month);
    if MonthsElapsed(d, today) < 2 {
      if YearOf(d.month) < YearOf(today.month) {
        var periods := BackfillPeriods(d, today.month);
        plan := Backfill(periods);
      } else if YearOf(d.month) == YearOf(today.month) {
        if MonthOfYear(d.month) < MonthOfYear(today.month) {
          var periods := BackfillPeriods(d, today.month);
          plan := Backfill(periods);
        } else {
          plan := FirstMonthOrderJob;
        }
      } else {
        plan := NoHistory;
      }
    } else {
      plan := AllMonthlyOrdersJob;
    }
  }

  /** The per-room rates a monthly order is priced from. */
  datatype RoomRates = RoomRates(
    price: real,             // monthly room price
    electricityPrice: real,  // per kWh
    waterPrice: real,        // per person
    person: real,
    garbagePrice: real,      // flat service charge
    wifiPrice: real,         // per vehicle (the field the code reads for vehicles)
    vihicle: real,
    wifiPriceN: real)        // per person

  datatype MonthlyOrder = MonthlyOrder(
    numberDayStay: int,
    electricNumber: real,
    electricPrice: real,
    waterPrice: real,
    servicePrice: real,
    vehiclePrice: real,
    roomPrice: real,
    wifiPrice: real,
    amount: real)

  /** The days of the month the tenant is billed for: the whole month, except
      in the check-in month, where billing starts on the check-in day. */
  function NumberDayStay(checkIn: Date, start: Date): (n: int)
    requires Valid(checkIn) && Valid(start)
    ensures 1 <= n <= DaysInMonth(start.month)
    ensures checkIn.month == start.month ==> n == DaysInMonth(start.month) - (checkIn.day - 1)
    ensures checkIn.month != start.month ==> n == DaysInMonth(start.month)
  {
    if checkIn.month == start.month then DaysInMonth(checkIn.month) - checkIn.day + 1
    else DaysInMonth(start.month)
  }

  /** `price / days * stayed`: a price prorated to `stayed` days of a month
      of `days` days, never more than the price and the whole price for the
      whole month. */
  function Prorate(price: real, days: int, stayed: int): (p: real)
    requires 1 <= stayed <= days
    ensures 0.0 <= price ==> 0.0 <= p <= price
    ensures stayed == days ==> p == price
  {
    var d := days as real;
    var s := stayed as real;
    assert price / d * s == price * (s / d);
    assert 0.0 < s / d <= 1.0;
    assert 0.0 <= price ==> price * (s / d) <= price * 1.0;
    price / d * s
  }

  /** One back-filled monthly order (`createOrderHistory`). `kWh` is the
      electricity used in the period as the energy controller reports it,
      `None` when it reports nothing. */
  function OrderHistory(checkIn: Date, start: Date, rates: RoomRates, kWh: Option<real>): (o: MonthlyOrder)
    requires Valid(checkIn) && Valid(start)
    ensures 1 <= o.numberDayStay <= DaysInMonth(start.month)
    ensures rates.price >= 0.0 ==> 0.0 <= o.roomPrice <= rates.price
    ensures checkIn.month != start.month ==> o.roomPrice == rates.price
    ensures o.amount == o.roomPrice + o.vehiclePrice + o.servicePrice + o.waterPrice + o.electricPrice + o.wifiPrice
    ensures kWh.None? ==> o.electricNumber == 0.0 && o.electricPrice == 0.0
  {
    var electricNumber := if kWh.None? then 0.0 else kWh.value;
    var electricPrice := electricNumber * rates.electricityPrice;
    var numberDayStay := NumberDayStay(checkIn, start);
    var dayOfMon := DaysInMonth(start.month);
    var waterPrice := rates.waterPrice * rates.person;
    var servicePrice := rates.garbagePrice;
    var vehiclePrice := rates.wifiPrice * rates.vihicle;
    var roomPrice := Prorate(rates.price, dayOfMon, numberDayStay);
    var wifiPriceN := rates.wifiPriceN * rates.person;
    MonthlyOrder(numberDayStay, electricNumber, electricPrice, waterPrice, servicePrice,
                 vehiclePrice, roomPrice, wifiPriceN,
                 roomPrice + vehiclePrice + servicePrice + waterPrice + electricPrice + wifiPriceN)
  }

  /** Every back-filled order bills exactly the days of its period. */
  lemma HistoryOrdersBillTheirPeriods(checkIn: Date, current: int, periods: seq<Period>, rates: RoomRates, kWh: Option<real>, k: int)
    requires Valid(checkIn)
    requires IsHistory(checkIn, current, periods)
    requires 0 <= k < |periods|
    ensures OrderHistory(checkIn, periods[k].start, rates, kWh).numberDayStay
            == periods[k].end.day - periods[k].start.day + 1
  {
  }
}
