/** The date from which monthly traffic is counted, on the Gregorian calendar. */
module ResetDate {
  /** A date with the nanoseconds passed since its midnight. */
  datatype Date = Date(year: int, month: int, day: int, nanos: nat)

  predicate Leap(year: int) {
    year % 4 == 0 && (year % 100 != 0 || year % 400 == 0)
  }

  function DaysIn(year: int, month: int): int {
    if month == 2 then if Leap(year) then 29 else 28
    else if month in {4, 6, 9, 11} then 30 else 31
  }

  predicate Valid(d: Date) {
    1 <= d.month <= 12 && 1 <= d.day <= DaysIn(d.year, d.month)
  }

  /** Days before 1 January, counted from 1 January of year 1. */
  function DaysBeforeYear(year: int): int {
    365 * (year - 1) + (year - 1) / 4 - (year - 1) / 100 + (year - 1) / 400
  }

  function DaysBeforeMonth(year: int, month: int): int
    requires 1 <= month <= 12
  {
    [0, 31, 59, 90, 120, 151, 181, 212, 243, 273, 304, 334][month - 1] + if month > 2 && Leap(year) then 1 else 0
  }

  /** The number of the first day of a month; month 13 is January of the next year. */
  function FirstDay(year: int, month: int): int
    requires 1 <= month <= 13
  {
    if month == 13 then DaysBeforeYear(year + 1) else DaysBeforeYear(year) + DaysBeforeMonth(year, month)
  }

  function DayNumber(d: Date): int
    requires Valid(d)
  {
    FirstDay(d.year, d.month) + d.day - 1
  }

  predicate Before(a: Date, b: Date)
    requires Valid(a) && Valid(b)
  {
    DayNumber(a) < DayNumber(b) || (DayNumber(a) == DayNumber(b) && a.nanos < b.nanos)
  }

  /** The day of the month on which the day before the next month falls. */
  function LastDay(year: int, month: int): int
    requires 1 <= month <= 12
  {
    FirstDay(year, month + 1) - 1 - FirstDay(year, month) + 1
  }

  /** One more year completes a cycle of `n` years or does not. */
  lemma CycleStep(year: int, n: int)
    requires n > 1
    ensures year / n == (year - 1) / n + if year % n == 0 then 1 else 0
  {
    var q, r := (year - 1) / n, (year - 1) % n;
    assert year - 1 == n * q + r;
    if r + 1 == n {
      assert year == n * (q + 1) + 0;
      Divided(year, n, q + 1, 0);
    } else {
      Divided(year, n, q, r + 1);
    }
  }

  lemma Multiple(n: int, d: int)
    requires n > 0
    ensures d >= 1 ==> n * d >= n
    ensures d <= -1 ==> n * d <= -n
  {
  }

  lemma Divided(a: int, n: int, q: int, r: int)
    requires a == n * q + r && 0 <= r < n
    ensures a / n == q && a % n == r
  {
    var d := a / n - q;
    assert n * d == r - a % n by { assert a == n * (a / n) + a % n; }
    Multiple(n, d);
  }

  lemma FourHundredthsAreHundredths(year: int)
    ensures year % 400 == 0 ==> year % 100 == 0
    ensures year % 100 == 0 ==> year % 4 == 0
  {
    if year % 400 == 0 { Divided(year, 100, 4 * (year / 400), 0); }
    if year % 100 == 0 { Divided(year, 4, 25 * (year / 100), 0); }
  }

  lemma YearLength(year: int)
    ensures DaysBeforeYear(year + 1) == DaysBeforeYear(year) + if Leap(year) then 366 else 365
  {
    CycleStep(year, 4);
    CycleStep(year, 100);
    CycleStep(year, 400);
    FourHundredthsAreHundredths(year);
  }

  lemma LastDayIsMonthLength(year: int, month: int)
    requires 1 <= month <= 12
    ensures LastDay(year, month) == DaysIn(year, month)
  {
    YearLength(year);
  }

  // ---- the source's functions --------------------------------------------------------------

  /** The reset day of a month, or the first of the next month if it has no such day. */
  function ActualResetDate(year: int, month: int, resetDay: int): (r: Date)
    requires 1 <= month <= 12 && 1 <= resetDay
    ensures Valid(r) && r.nanos == 0
    ensures resetDay <= DaysIn(year, month) ==> r.year == year && r.month == month && r.day == resetDay
    ensures resetDay > DaysIn(year, month) ==> r.day == 1 && Month(r.year, r.month) == Month(year, month) + 1
  {
    LastDayIsMonthLength(year, month);
    if resetDay <= LastDay(year, month) then Date(year, month, resetDay, 0)
    else if month + 1 > 12 then Date(year + 1, 1, 1, 0)
    else Date(year, month + 1, 1, 0)
  }

  function LastResetDate(resetDay: int, current: Date): (r: Date)
    requires Valid(current)
    ensures Valid(r) && (!(1 <= resetDay <= 31) ==> r == current)
  {
    if resetDay < 1 || resetDay > 31 then current
    else
      var thisMonth := ActualResetDate(current.year, current.month, resetDay);
      if !Before(current, thisMonth) then thisMonth
      else if current.month - 1 < 1 then ActualResetDate(current.year - 1, 12, resetDay)
      else ActualResetDate(current.year, current.month - 1, resetDay)
  }

  // ---- all months in order -----------------------------------------------------------------

  /** Months numbered in order. */
  function Month(year: int, month: int): int {
    12 * year + month - 1
  }

  /** The first day of a numbered month. */
  function First(k: int): int {
    FirstDay(k / 12, k % 12 + 1)
  }

  function Reset(k: int, resetDay: int): (r: Date)
    requires 1 <= resetDay
    ensures Valid(r) && r.nanos == 0
  {
    ActualResetDate(k / 12, k % 12 + 1, resetDay)
  }

  lemma Numbered(year: int, month: int)
    requires 1 <= month <= 12
    ensures Month(year, month) / 12 == year && Month(year, month) % 12 == month - 1
  {
  }

  lemma NextMonth(k: int)
    ensures First(k + 1) == FirstDay(k / 12, k % 12 + 2)
    ensures 28 <= First(k + 1) - First(k) <= 31
    ensures First(k + 1) - First(k) == LastDay(k / 12, k % 12 + 1)
  {
    LastDayIsMonthLength(k / 12, k % 12 + 1);
    if k % 12 == 11 {
      assert (k + 1) / 12 == k / 12 + 1 && (k + 1) % 12 == 0;
    } else {
      assert (k + 1) / 12 == k / 12 && (k + 1) % 12 == k % 12 + 1;
    }
  }

  lemma MonthLength(k: int)
    ensures 28 <= First(k + 1) - First(k) <= 31
  {
    NextMonth(k);
  }

  lemma ResetDay(k: int, resetDay: int)
    requires 1 <= resetDay <= 31
    ensures DayNumber(Reset(k, resetDay)) ==
            if resetDay <= First(k + 1) - First(k) then First(k) + resetDay - 1 else First(k + 1)
  {
    NextMonth(k);
  }

  /** Resets are at least a day and at most 31 days apart. */
  lemma ResetGap(k: int, resetDay: int)
    requires 1 <= resetDay <= 31
    ensures 1 <= DayNumber(Reset(k + 1, resetDay)) - DayNumber(Reset(k, resetDay)) <= 31
  {
    NextMonth(k);
    NextMonth(k + 1);
    ResetDay(k, resetDay);
    ResetDay(k + 1, resetDay);
  }

  lemma {:induction false} ResetsIncrease(i: int, j: int, resetDay: int)
    requires 1 <= resetDay <= 31 && i <= j
    ensures DayNumber(Reset(i, resetDay)) + (j - i) <= DayNumber(Reset(j, resetDay))
    decreases j - i
  {
    if i < j {
      ResetsIncrease(i, j - 1, resetDay);
      ResetGap(j - 1, resetDay);
    }
  }

  /** Every reset is at a midnight. */
  lemma BeforeReset(d: Date, k: int, resetDay: int)
    requires Valid(d) && 1 <= resetDay
    ensures Before(d, Reset(k, resetDay)) <==> DayNumber(d) < DayNumber(Reset(k, resetDay))
  {
    hide DayNumber, ActualResetDate;
  }

  /** The resets of the month before, the month and the month after stand on either side of it. */
  lemma AroundMonth(k: int, resetDay: int)
    requires 1 <= resetDay <= 31
    ensures DayNumber(Reset(k - 1, resetDay)) <= First(k) <= DayNumber(Reset(k, resetDay))
    ensures First(k + 1) <= DayNumber(Reset(k + 1, resetDay))
  {
    hide First, DayNumber, Reset;
    ResetDay(k - 1, resetDay);
    ResetDay(k, resetDay);
    ResetDay(k + 1, resetDay);
    MonthLength(k);
    MonthLength(k + 1);
  }

  lemma InItsMonth(d: Date)
    requires Valid(d)
    ensures var month := Month(d.year, d.month); First(month) <= DayNumber(d) < First(month + 1)
  {
    Numbered(d.year, d.month);
    NextMonth(Month(d.year, d.month));
    LastDayIsMonthLength(d.year, d.month);
  }

  lemma OneOfTwoMonths(resetDay: int, current: Date)
    requires Valid(current) && 1 <= resetDay <= 31
    ensures var month := Month(current.year, current.month);
            LastResetDate(resetDay, current) ==
              if Before(current, Reset(month, resetDay)) then Reset(month - 1, resetDay) else Reset(month, resetDay)
  {
    hide ActualResetDate, Before;
    Numbered(current.year, current.month);
    if current.month == 1 { Numbered(current.year - 1, 12); } else { Numbered(current.year, current.month - 1); }
    assert Month(current.year, current.month) - 1 ==
           if current.month == 1 then Month(current.year - 1, 12) else Month(current.year, current.month - 1);
  }

  /** The date lies between the reset chosen and the one after it. */
  lemma Between(resetDay: int, current: Date) returns (k: int)
    requires Valid(current) && 1 <= resetDay <= 31
    ensures LastResetDate(resetDay, current) == Reset(k, resetDay)
    ensures !Before(current, Reset(k, resetDay)) && Before(current, Reset(k + 1, resetDay))
  {
    hide *;
    var month := Month(current.year, current.month);
    OneOfTwoMonths(resetDay, current);
    InItsMonth(current);
    AroundMonth(month, resetDay);
    BeforeReset(current, month - 1, resetDay);
    BeforeReset(current, month, resetDay);
    BeforeReset(current, month + 1, resetDay);
    k := if Before(current, Reset(month, resetDay)) then month - 1 else month;
    assert k + 1 == if Before(current, Reset(month, resetDay)) then month else month + 1;
  }

  /** Of the resets of all months ever, the one returned is the latest that is not after the date,
      although only two months are looked at; and it is at most 30 days back. */
  lemma LatestOfAllResets(resetDay: int, current: Date)
    requires Valid(current) && 1 <= resetDay <= 31
    ensures var r := LastResetDate(resetDay, current);
            && (exists k :: r == Reset(k, resetDay))
            && !Before(current, r)
            && (forall k :: !Before(current, Reset(k, resetDay)) ==> !Before(r, Reset(k, resetDay)))
            && DayNumber(current) - DayNumber(r) <= 30
  {
    hide LastResetDate, Reset, DayNumber;
    var r := LastResetDate(resetDay, current);
    var at := Between(resetDay, current);
    ResetGap(at, resetDay);
    forall k | !Before(current, Reset(k, resetDay)) ensures !Before(r, Reset(k, resetDay)) {
      if k > at { ResetsIncrease(at + 1, k, resetDay); } else { ResetsIncrease(k, at, resetDay); }
    }
  }

  /** A reset date is its own last reset date. */
  lemma ResetIsFixed(resetDay: int, current: Date)
    requires Valid(current) && 1 <= resetDay <= 31
    ensures LastResetDate(resetDay, LastResetDate(resetDay, current)) == LastResetDate(resetDay, current)
  {
    hide *;
    var k := Between(resetDay, current);
    var r := Reset(k, resetDay);
    var j := Between(resetDay, r);
    BeforeReset(r, j, resetDay);
    BeforeReset(r, j + 1, resetDay);
    if k < j { ResetsIncrease(k, j, resetDay); }
    if j < k { ResetsIncrease(j + 1, k, resetDay); }
  }
}
