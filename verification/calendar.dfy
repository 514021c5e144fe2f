/** The civil (proleptic Gregorian) calendar over day numbers.

    A date is a `Day`: the number of days since 0001-01-01, which is day 0 and
    a Monday. `FromDay` and `ToDay` convert between day numbers and
    year/month/day triples. They are inverse to each other, so the time buckets
    can be computed on either side. */
module Calendar {

  /** Days since 0001-01-01. */
  type Day = nat

  datatype Civil = Civil(year: int, month: int, day: int)

  predicate IsLeap(y: int) {
    y % 4 == 0 && (y % 100 != 0 || y % 400 == 0)
  }

  function YearLength(y: int): int {
    if IsLeap(y) then 366 else 365
  }

  function MonthLength(y: int, m: int): int
    requires 1 <= m <= 12
  {
    if m == 2 then (if IsLeap(y) then 29 else 28)
    else if m == 4 || m == 6 || m == 9 || m == 11 then 30
    else 31
  }

  /** Days of year `y` that come before the first of month `m`. */
  function DaysBeforeMonth(y: int, m: int): int
    requires 1 <= m <= 12
  {
    [0, 31, 59, 90, 120, 151, 181, 212, 243, 273, 304, 334][m - 1]
      + (if m > 2 && IsLeap(y) then 1 else 0)
  }

  /** Days from 0001-01-01 to the first of January of year `y`. */
  function DaysBeforeYear(y: int): nat
    requires y >= 1
    decreases y
  {
    if y == 1 then 0 else DaysBeforeYear(y - 1) + YearLength(y - 1)
  }

  predicate Valid(c: Civil) {
    && c.year >= 1
    && 1 <= c.month <= 12
    && 1 <= c.day <= MonthLength(c.year, c.month)
  }

  /** Each month starts where the previous one ends, and December ends the year. */
  lemma MonthStep(y: int, m: int)
    requires 1 <= m <= 12
    ensures m < 12 ==> DaysBeforeMonth(y, m + 1) == DaysBeforeMonth(y, m) + MonthLength(y, m)
    ensures m == 12 ==> DaysBeforeMonth(y, m) + MonthLength(y, m) == YearLength(y)
  {
  }

  /** The day number of a civil date. */
  function ToDay(c: Civil): Day
    requires Valid(c)
  {
    DaysBeforeYear(c.year) + DaysBeforeMonth(c.year, c.month) + c.day - 1
  }

  /** The civil date of the `n`-th day of year `y`, counting from month `m`
      after `DaysBeforeMonth(y, m)` days of the year have passed. */
  function LocateMonth(y: int, m: int, n: int): (c: Civil)
    requires y >= 1 && 1 <= m <= 12
    requires 0 <= n < YearLength(y) - DaysBeforeMonth(y, m)
    ensures Valid(c) && c.year == y && m <= c.month
    ensures DaysBeforeMonth(y, c.month) + c.day - 1 == DaysBeforeMonth(y, m) + n
    decreases 12 - m
  {
    MonthStep(y, m);
    if n < MonthLength(y, m) then Civil(y, m, n + 1)
    else LocateMonth(y, m + 1, n - MonthLength(y, m))
  }

  /** The civil date `n` days after the first of January of year `y`. */
  function LocateYear(y: int, n: nat): (c: Civil)
    requires y >= 1
    ensures Valid(c) && c.year >= y
    ensures ToDay(c) == DaysBeforeYear(y) + n
    decreases n
  {
    if n < YearLength(y) then LocateMonth(y, 1, n)
    else LocateYear(y + 1, n - YearLength(y))
  }

  /** The civil date of a day number. */
  function FromDay(n: Day): (c: Civil)
    ensures Valid(c) && ToDay(c) == n
  {
    LocateYear(1, n)
  }

  /** Locating an offset inside a year from an earlier month finds the same date. */
  lemma {:induction false} LocateMonthOf(c: Civil, m: int)
    requires Valid(c) && 1 <= m <= c.month
    ensures DaysBeforeMonth(c.year, c.month) + c.day - 1 - DaysBeforeMonth(c.year, m)
              < YearLength(c.year) - DaysBeforeMonth(c.year, m)
    ensures LocateMonth(c.year, m, DaysBeforeMonth(c.year, c.month) + c.day - 1 - DaysBeforeMonth(c.year, m)) == c
    decreases c.month - m
  {
    MonthStep(c.year, c.month);
    MonthStep(c.year, m);
    DaysBeforeMonthMonotone(c.year, c.month);
    if m < c.month {
      LocateMonthOf(c, m + 1);
    }
  }

  lemma DaysBeforeMonthMonotone(y: int, m: int)
    requires 1 <= m <= 12
    ensures DaysBeforeMonth(y, m) + MonthLength(y, m) <= YearLength(y)
  {
  }

  /** Every year that starts no later than a date's year starts no later
      than the date. */
  lemma {:induction false} YearStartsBefore(c: Civil, y: int)
    requires Valid(c) && 1 <= y <= c.year
    ensures DaysBeforeYear(y) <= ToDay(c)
    decreases c.year - y
  {
    if y < c.year {
      YearStartsBefore(c, y + 1);
      assert DaysBeforeYear(y + 1) == DaysBeforeYear(y) + YearLength(y);
    }
  }

  /** Locating a date from the start of an earlier year finds the same date. */
  lemma {:induction false} LocateYearOf(c: Civil, y: int, n: nat)
    requires Valid(c) && 1 <= y <= c.year
    requires DaysBeforeYear(y) + n == ToDay(c)
    ensures LocateYear(y, n) == c
    decreases c.year - y, 1
  {
    if y < c.year {
      LocateLaterYear(c, y, n);
    } else {
      LocateInYear(c, y, n);
    }
  }

  /** The step of `LocateYearOf` for a date past year `y`: skip year `y`. */
  lemma {:induction false} LocateLaterYear(c: Civil, y: int, n: nat)
    requires Valid(c) && 1 <= y < c.year
    requires DaysBeforeYear(y) + n == ToDay(c)
    ensures LocateYear(y, n) == c
    decreases c.year - y, 0
  {
    YearStartsBefore(c, y + 1);
    assert DaysBeforeYear(y + 1) == DaysBeforeYear(y) + YearLength(y);
    LocateYearOf(c, y + 1, n - YearLength(y));
    LocateYearSkip(y, n);
  }

  /** Locating from the start of year `y` a day that lies past that year
      continues from the start of the next year. */
  lemma LocateYearSkip(y: int, n: nat)
    requires y >= 1 && n >= YearLength(y)
    ensures LocateYear(y, n) == LocateYear(y + 1, n - YearLength(y))
  {
  }

  /** Locating a date from the start of its own year finds it. */
  lemma LocateInYear(c: Civil, y: int, n: nat)
    requires Valid(c) && y == c.year
    requires DaysBeforeYear(y) + n == ToDay(c)
    ensures LocateYear(y, n) == c
  {
    DaysBeforeMonthMonotone(c.year, c.month);
    LocateMonthOf(c, 1);
    assert n == DaysBeforeMonth(c.year, c.month) + c.day - 1;
  }

  /** `FromDay` inverts `ToDay` on valid dates. */
  lemma CivilRoundTrip(c: Civil)
    requires Valid(c)
    ensures FromDay(ToDay(c)) == c
  {
    LocateYearOf(c, 1, ToDay(c));
  }

  /** Distinct valid dates have distinct day numbers. */
  lemma ToDayInjective(c: Civil, d: Civil)
    requires Valid(c) && Valid(d) && ToDay(c) == ToDay(d)
    ensures c == d
  {
    CivilRoundTrip(c);
    CivilRoundTrip(d);
  }

  /** The closed form of the year offset: 365 days a year plus the leap days
      of the Gregorian rule. */
  lemma {:induction false} DaysBeforeYearClosedForm(y: int)
    requires y >= 1
    ensures DaysBeforeYear(y) == 365 * (y - 1) + (y - 1) / 4 - (y - 1) / 100 + (y - 1) / 400
    decreases y
  {
    if y > 1 {
      DaysBeforeYearClosedForm(y - 1);
      LeapStep(y - 1);
      assert DaysBeforeYear(y) == DaysBeforeYear(y - 1) + YearLength(y - 1);
    }
  }

  /** The length of year `x` as the change in the closed form's leap-day count. */
  lemma LeapStep(x: int)
    requires x >= 1
    ensures YearLength(x) == 365 + (x / 4 - (x - 1) / 4) - (x / 100 - (x - 1) / 100) + (x / 400 - (x - 1) / 400)
  {
    Step4(x);
    Step100(x);
    Step400(x);
  }

  /** Moving from `x - 1` to `x` adds one multiple of 4, 100 or 400 exactly
      when `x` is one. */
  lemma Step4(x: int)
    ensures x / 4 - (x - 1) / 4 == if x % 4 == 0 then 1 else 0
  {
    DivStep(x, 4);
  }

  lemma Step100(x: int)
    ensures x / 100 - (x - 1) / 100 == if x % 100 == 0 then 1 else 0
    ensures x % 100 == 0 ==> x % 4 == 0
  {
    DivStep(x, 100);
    if x % 100 == 0 {
      var m := x / 100;
      assert x == 4 * (25 * m);
      DivExact(x, 4, 25 * m);
    }
  }

  lemma Step400(x: int)
    ensures x / 400 - (x - 1) / 400 == if x % 400 == 0 then 1 else 0
    ensures x % 400 == 0 ==> x % 100 == 0
  {
    DivStep(x, 400);
    if x % 400 == 0 {
      var m := x / 400;
      assert x == 100 * (4 * m);
      DivExact(x, 100, 4 * m);
    }
  }

  /** Division by `k` goes up by one exactly at the multiples of `k`. */
  lemma DivStep(x: int, k: int)
    requires k > 0
    ensures x / k - (x - 1) / k == if x % k == 0 then 1 else 0
  {
    var q, r := (x - 1) / k, (x - 1) % k;
    assert x - 1 == k * q + r && 0 <= r < k;
    if r == k - 1 {
      assert x == k * (q + 1);
      DivExact(x, k, q + 1);
    } else {
      assert x == k * q + (r + 1);
      DivUnique(x, k, q, r + 1);
    }
  }

  lemma DivExact(x: int, k: int, q: int)
    requires k > 0 && x == k * q
    ensures x / k == q && x % k == 0
  {
    DivUnique(x, k, q, 0);
  }

  /** Quotient and remainder are the only ones with `0 <= r < k`. */
  lemma DivUnique(x: int, k: int, q: int, r: int)
    requires k > 0 && 0 <= r < k && x == k * q + r
    ensures x / k == q && x % k == r
  {
    var q', r' := x / k, x % k;
    assert k * q' + r' == k * q + r;
    if q' > q {
      MulAtLeast(k, q' - q);
    } else if q' < q {
      MulAtLeast(k, q - q');
    }
  }

  lemma MulAtLeast(k: int, n: int)
    requires k > 0 && n >= 1
    ensures k * n >= k
  {
  }

  /** Day of the week, 0 for Monday through 6 for Sunday. */
  function Weekday(n: Day): int {
    n % 7
  }

  /** The calendar is anchored where everyone expects it: 1970-01-01 is day
      719162 and a Thursday. */
  lemma UnixEpoch()
    ensures Valid(Civil(1970, 1, 1))
    ensures ToDay(Civil(1970, 1, 1)) == 719162
    ensures Weekday(ToDay(Civil(1970, 1, 1))) == 3
  {
    DaysBeforeYearClosedForm(1970);
  }
}
