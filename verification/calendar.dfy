/** Calendar arithmetic standing in for the `moment` library.

    A date is a month index (`year * 12 + month0`, with `month0` in 0..11 as
    moment's `month()` returns it) and a day of the month. Times of day are
    abstracted away: `startOf("days")` and `endOf("days")` of the same date
    compare like the date itself, so every comparison the rental code makes
    reduces to the strict order `Before` on dates.
 */
module Calendar {

  datatype Date = Date(month: int, day: int)

  /** Calendar year of a month index. */
  function YearOf(m: int): int {
    m / 12
  }

  /** Month of the year, 0 = January .. 11 = December. */
  function MonthOfYear(m: int): int {
    m % 12
  }

  predicate IsLeapYear(y: int) {
    (y % 4 == 0 && y % 100 != 0) || y % 400 == 0
  }

  /** Number of days of a month in the proleptic Gregorian calendar, which is
      what moment's `daysInMonth()` answers. */
  function DaysInMonth(m: int): (n: int)
    ensures 28 <= n <= 31
  {
    var mo := MonthOfYear(m);
    if mo == 1 then (if IsLeapYear(YearOf(m)) then 29 else 28)
    else if mo == 3 || mo == 5 || mo == 8 || mo == 10 then 30
    else 31
  }

  predicate Valid(d: Date) {
    1 <= d.day <= DaysInMonth(d.month)
  }

  /** Strict chronological order. */
  predicate Before(a: Date, b: Date) {
    a.month < b.month || (a.month == b.month && a.day < b.day)
  }

  function Min(a: int, b: int): int {
    if a <= b then a else b
  }

  function StartOfMonth(m: int): (r: Date)
    ensures Valid(r) && r.month == m
    ensures forall d :: Valid(d) && d.month == m ==> !Before(d, r)
  {
    Date(m, 1)
  }

  function EndOfMonth(m: int): (r: Date)
    ensures Valid(r) && r.month == m
    ensures forall d :: Valid(d) && d.month == m ==> !Before(r, d)
  {
    Date(m, DaysInMonth(m))
  }

  /** The following day: the immediate successor of `d` among valid dates. */
  function NextDay(d: Date): (r: Date)
    requires Valid(d)
    ensures Valid(r) && Before(d, r)
    ensures forall x :: Valid(x) && Before(d, x) ==> !Before(x, r)
  {
    if d.day < DaysInMonth(d.month) then Date(d.month, d.day + 1)
    else Date(d.month + 1, 1)
  }

  /** The preceding day, moment's `subtract(1, "days")`. */
  function PrevDay(d: Date): (r: Date)
    requires Valid(d)
    ensures Valid(r) && Before(r, d)
  {
    if d.day > 1 then Date(d.month, d.day - 1)
    else Date(d.month - 1, DaysInMonth(d.month - 1))
  }

  /** moment's `add(n, "days")` for a non-negative `n`. */
  function AddDays(d: Date, n: nat): (r: Date)
    requires Valid(d)
    ensures Valid(r)
    decreases n
  {
    if n == 0 then d else AddDays(NextDay(d), n - 1)
  }

  /** moment's `add(k, "months")`: same day of the month, clamped to the
      length of the target month. */
  function AddMonths(d: Date, k: int): (r: Date)
    requires Valid(d)
    ensures Valid(r) && r.month == d.month + k
    ensures r.day <= d.day
    ensures r.day == d.day || r.day == DaysInMonth(r.month)
  {
    Date(d.month + k, Min(d.day, DaysInMonth(d.month + k)))
  }

  lemma PrevNextRoundTrip(d: Date)
    requires Valid(d)
    ensures NextDay(PrevDay(d)) == d
    ensures PrevDay(NextDay(d)) == d
  {
  }

  lemma BeforeTotal(a: Date, b: Date)
    ensures Before(a, b) || a == b || Before(b, a)
  {
  }

  lemma {:induction false} NextDayMonotone(a: Date, b: Date)
    requires Valid(a) && Valid(b) && Before(a, b)
    ensures Before(NextDay(a), NextDay(b))
  {
    if a.month == b.month {
      assert a.day < DaysInMonth(a.month);
    } else {
      assert !Before(NextDay(b), NextDay(a));
    }
  }

  lemma {:induction false} AddDaysMonotone(a: Date, b: Date, n: nat)
    requires Valid(a) && Valid(b) && Before(a, b)
    ensures Before(AddDays(a, n), AddDays(b, n))
    decreases n
  {
    if n > 0 {
      NextDayMonotone(a, b);
      AddDaysMonotone(NextDay(a), NextDay(b), n - 1);
    }
  }

  /** Shifting both dates by the same number of days keeps their order, in
      both directions. */
  lemma AddDaysPreservesOrder(a: Date, b: Date, n: nat)
    requires Valid(a) && Valid(b)
    ensures Before(a, b) <==> Before(AddDays(a, n), AddDays(b, n))
  {
    BeforeTotal(a, b);
    if Before(a, b) {
      AddDaysMonotone(a, b, n);
    } else if Before(b, a) {
      AddDaysMonotone(b, a, n);
    }
  }

  /** Adding days never goes back in time. */
  lemma {:induction false} AddDaysNotBefore(d: Date, n: nat)
    requires Valid(d)
    ensures !Before(AddDays(d, n), d)
    decreases n
  {
    if n > 0 {
      AddDaysNotBefore(NextDay(d), n - 1);
    }
  }

  /** Adding `k` days and then `m` days is adding `k + m` days. */
  lemma {:induction false} AddDaysAdd(d: Date, k: nat, m: nat)
    requires Valid(d)
    ensures AddDays(AddDays(d, k), m) == AddDays(d, k + m)
    decreases k
  {
    if k > 0 {
      AddDaysAdd(NextDay(d), k - 1, m);
    }
  }

  /** Every date from `d` to `n` days after it is `d` plus some number of
      days up to `n`. */
  lemma {:induction false} BetweenIsAddDays(d: Date, x: Date, n: nat)
    requires Valid(d) && Valid(x)
    requires !Before(x, d) && !Before(AddDays(d, n), x)
    ensures exists k :: 0 <= k <= n && x == AddDays(d, k)
    decreases n
  {
    if x == d {
      assert x == AddDays(d, 0);
    } else {
      BeforeTotal(d, x);
      assert n > 0;
      BetweenIsAddDays(NextDay(d), x, n - 1);
      var k :| 0 <= k <= n - 1 && x == AddDays(NextDay(d), k);
      assert x == AddDays(d, k + 1);
    }
  }

  /** The year/month-of-year comparison the rental code performs agrees with
      comparing month indices. */
  lemma {:induction false} YearMonthOrder(a: int, b: int)
    ensures (YearOf(a) < YearOf(b) || (YearOf(a) == YearOf(b) && MonthOfYear(a) < MonthOfYear(b)))
            <==> a < b
  {
    assert a == 12 * YearOf(a) + MonthOfYear(a);
    assert b == 12 * YearOf(b) + MonthOfYear(b);
  }
}
