/** UTC calendar dates at 00:00, proleptic Gregorian, as JavaScript's `Date` and moment.js
    (in UTC mode) count them. A date is its year, month (1-12) and day of month. */
module Calendar {

  datatype Date = Date(year: int, month: int, day: int)

  /** Time 0: the day a `null` date stands for when JavaScript compares it with a `Date`. */
  const Epoch := Date(1970, 1, 1)

  predicate IsLeap(y: int) {
    (y % 4 == 0 && y % 100 != 0) || y % 400 == 0
  }

  function DaysInMonth(y: int, m: int): (n: int)
    requires 1 <= m <= 12
    ensures 28 <= n <= 31
  {
    if m == 2 then (if IsLeap(y) then 29 else 28)
    else if m == 4 || m == 6 || m == 9 || m == 11 then 30
    else 31
  }

  predicate Valid(d: Date) {
    1 <= d.month <= 12 && 1 <= d.day <= DaysInMonth(d.year, d.month)
  }

  /** A number that orders valid dates chronologically (13 * 32 = 416). */
  function Ord(d: Date): int {
    d.year * 416 + d.month * 32 + d.day
  }

  predicate Before(a: Date, b: Date) {
    Ord(a) < Ord(b)
  }

  predicate NotAfter(a: Date, b: Date) {
    Ord(a) <= Ord(b)
  }

  /** `Ord` compares valid dates by year, then month, then day. */
  lemma OrdIsLexicographic(a: Date, b: Date)
    requires Valid(a) && Valid(b)
    ensures Ord(a) < Ord(b) <==>
      a.year < b.year || (a.year == b.year && (a.month < b.month || (a.month == b.month && a.day < b.day)))
    ensures Ord(a) == Ord(b) <==> a == b
  {
    if a.year < b.year {
      assert a.year * 416 + 416 <= b.year * 416;
    } else if b.year < a.year {
      assert b.year * 416 + 416 <= a.year * 416;
    }
  }

  function NextDay(d: Date): (r: Date)
    requires Valid(d)
    ensures Valid(r)
  {
    if d.day < DaysInMonth(d.year, d.month) then Date(d.year, d.month, d.day + 1)
    else if d.month < 12 then Date(d.year, d.month + 1, 1)
    else Date(d.year + 1, 1, 1)
  }

  function PrevDay(d: Date): (r: Date)
    requires Valid(d)
    ensures Valid(r)
  {
    if d.day > 1 then Date(d.year, d.month, d.day - 1)
    else if d.month > 1 then Date(d.year, d.month - 1, DaysInMonth(d.year, d.month - 1))
    else Date(d.year - 1, 12, 31)
  }

  /** The next day is the immediate successor: later, and no valid date lies in between. */
  lemma NextDayIsSuccessor(d: Date, e: Date)
    requires Valid(d) && Valid(e)
    ensures Before(d, NextDay(d))
    ensures Before(d, e) ==> NotAfter(NextDay(d), e)
    ensures PrevDay(NextDay(d)) == d && NextDay(PrevDay(d)) == d
  {
    OrdIsLexicographic(d, NextDay(d));
    OrdIsLexicographic(d, e);
    OrdIsLexicographic(NextDay(d), e);
  }

  /** `n` days later (earlier when `n` is negative), as `Date.setDate(getDate() + n)` does. */
  function AddDays(d: Date, n: int): (r: Date)
    requires Valid(d)
    ensures Valid(r)
    decreases if n < 0 then -n else n
  {
    if n == 0 then d
    else if n > 0 then AddDays(NextDay(d), n - 1)
    else AddDays(PrevDay(d), n + 1)
  }

  lemma {:induction false} AddDaysShift(d: Date, n: int)
    requires Valid(d)
    ensures AddDays(NextDay(d), n) == AddDays(d, n + 1)
    ensures AddDays(PrevDay(d), n) == AddDays(d, n - 1)
  {
    NextDayIsSuccessor(d, d);
  }

  /** Adding whole days composes: `AddDays(AddDays(d, a), b) == AddDays(d, a + b)`. */
  lemma {:induction false} AddDaysCompose(d: Date, a: int, b: int)
    requires Valid(d)
    ensures AddDays(AddDays(d, a), b) == AddDays(d, a + b)
    decreases if a < 0 then -a else a
  {
    if a > 0 {
      AddDaysCompose(NextDay(d), a - 1, b);
      AddDaysShift(d, a - 1 + b);
    } else if a < 0 {
      AddDaysCompose(PrevDay(d), a + 1, b);
      AddDaysShift(d, a + 1 + b);
    }
  }

  /** Moving forward a non-negative number of days never goes back in time. */
  lemma {:induction false} AddDaysMonotone(d: Date, n: nat)
    requires Valid(d)
    ensures NotAfter(d, AddDays(d, n))
    ensures n > 0 ==> Before(d, AddDays(d, n))
    decreases n
  {
    if n > 0 {
      NextDayIsSuccessor(d, d);
      AddDaysMonotone(NextDay(d), n - 1);
    }
  }

  /** moment's `add(n, 'month')`: move the month, keep the day, clamp it to the month's end. */
  function AddMonths(d: Date, n: int): (r: Date)
    requires Valid(d)
    ensures Valid(r)
  {
    var total := d.year * 12 + (d.month - 1) + n;
    var y, m := total / 12, total % 12 + 1;
    var dim := DaysInMonth(y, m);
    Date(y, m, if d.day <= dim then d.day else dim)
  }

  /** `Date.setYear(getFullYear() + n)`: the same month and day in another year; 29 February
      of a year that is not leap overflows to 1 March. */
  function AddYears(d: Date, n: int): (r: Date)
    requires Valid(d)
    ensures Valid(r)
  {
    if d.day <= DaysInMonth(d.year + n, d.month) then Date(d.year + n, d.month, d.day)
    else Date(d.year + n, 3, 1)
  }

  /** util.differenceMonth: whole calendar months between the months of two dates. */
  function DifferenceMonth(a: Date, b: Date): int {
    (a.year - b.year) * 12 + (a.month - b.month)
  }

  /** Month arithmetic and month difference are inverse: `AddMonths(d, n)` lies exactly
      `n` months after `d`, and `n` is found again from the two dates. */
  lemma DifferenceOfAddMonths(d: Date, n: int)
    requires Valid(d)
    ensures DifferenceMonth(AddMonths(d, n), d) == n
    ensures DifferenceMonth(d, AddMonths(d, n)) == -n
  {
    var total := d.year * 12 + (d.month - 1) + n;
    assert (total / 12) * 12 + total % 12 == total;
  }
}
