/**
 Calendar-month arithmetic on instants in UTC.

 Days and months are counted from 1 January of year 0 of the proleptic Gregorian
 calendar, months and days of the month from zero.
*/
module Calendar {
  import opened Basics

  predicate Leap(y: int) {
    y % 4 == 0 && (y % 100 != 0 || y % 400 == 0)
  }

  /** Leap years before year y, counted from year 0. */
  function Leaps(y: int): int {
    (y + 3) / 4 - (y + 99) / 100 + (y + 399) / 400
  }

  function MonthLength(m: int): int {
    var month := m % 12;
    if month == 1 then if Leap(m / 12) then 29 else 28
    else if month == 3 || month == 5 || month == 8 || month == 10 then 30
    else 31
  }

  /** Days of a common year before its month. */
  function DaysBefore(month: int): int {
    match month
    case 0 => 0
    case 1 => 31
    case 2 => 59
    case 3 => 90
    case 4 => 120
    case 5 => 151
    case 6 => 181
    case 7 => 212
    case 8 => 243
    case 9 => 273
    case 10 => 304
    case _ => 334
  }

  function FirstDay(m: int): int {
    365 * (m / 12) + Leaps(m / 12) + DaysBefore(m % 12) + if m % 12 > 1 && Leap(m / 12) then 1 else 0
  }

  lemma LeapsCountsLeapYears(y: int)
    ensures Leaps(y + 1) == Leaps(y) + if Leap(y) then 1 else 0
  {
    Multiples4(y);
    Multiples100(y);
    Multiples400(y);
    Centuries(y);
  }

  lemma Centuries(y: int)
    ensures y % 400 == 0 ==> y % 100 == 0
    ensures y % 100 == 0 ==> y % 4 == 0
  {
    if y % 400 == 0 {
      HundredDivides(y, 4 * (y / 400));
    }
    if y % 100 == 0 {
      FourDivides(y, 25 * (y / 100));
    }
  }

  lemma HundredDivides(y: int, n: int)
    requires y == 100 * n
    ensures y % 100 == 0
  {
  }

  lemma FourDivides(y: int, n: int)
    requires y == 4 * n
    ensures y % 4 == 0
  {
  }

  lemma Multiples4(y: int)
    ensures (y + 4) / 4 == (y + 3) / 4 + if y % 4 == 0 then 1 else 0
  {
  }

  lemma Multiples100(y: int)
    ensures (y + 100) / 100 == (y + 99) / 100 + if y % 100 == 0 then 1 else 0
  {
  }

  lemma Multiples400(y: int)
    ensures (y + 400) / 400 == (y + 399) / 400 + if y % 400 == 0 then 1 else 0
  {
  }

  /** Months tile the days. */
  lemma MonthsAreContiguous(m: int)
    ensures FirstDay(m + 1) == FirstDay(m) + MonthLength(m)
    ensures 28 <= MonthLength(m) <= 31
  {
    LeapsCountsLeapYears(m / 12);
    if m % 12 == 11 {
      assert (m + 1) / 12 == m / 12 + 1 && (m + 1) % 12 == 0;
    } else {
      assert (m + 1) / 12 == m / 12 && (m + 1) % 12 == m % 12 + 1;
    }
  }

  lemma {:induction false} MonthsAscend(m: int, n: int)
    requires m <= n
    ensures FirstDay(m) + 28 * (n - m) <= FirstDay(n) <= FirstDay(m) + 31 * (n - m)
    decreases n - m
  {
    hide FirstDay, MonthLength;
    if m < n {
      MonthsAscend(m, n - 1);
      MonthsAreContiguous(n - 1);
    }
  }

  ghost predicate InMonth(day: int, m: int) {
    FirstDay(m) <= day < FirstDay(m + 1)
  }

  /** Searching upwards from a month that starts early enough. */
  function MonthFrom(m: int, day: int): (r: int)
    requires FirstDay(m) <= day
    ensures InMonth(day, r)
    decreases day - FirstDay(m)
  {
    MonthsAreContiguous(m);
    if FirstDay(m + 1) <= day then MonthFrom(m + 1, day) else m
  }

  function MonthOf(day: int): (m: int)
    ensures InMonth(day, m)
  {
    if day >= 0 then
      MonthsAscend(0, day / 31);
      MonthFrom(day / 31, day)
    else
      MonthsAscend(day / 28, 0);
      MonthFrom(day / 28, day)
  }

  lemma MonthIsUnique(day: int, m: int, n: int)
    requires InMonth(day, m) && InMonth(day, n)
    ensures m == n
  {
    hide FirstDay;
    if m < n {
      MonthsAscend(m + 1, n);
    } else if n < m {
      MonthsAscend(n + 1, m);
    }
  }

  function DayOfMonth(t: Time): int {
    t / DAY - FirstDay(MonthOf(t / DAY))
  }

  /** Adding months keeps the time of day and clips the day to the length of the month. */
  function AddMonths(t: Time, k: int): Time {
    var m := MonthOf(t / DAY) + k;
    var d := if DayOfMonth(t) < MonthLength(m) then DayOfMonth(t) else MonthLength(m) - 1;
    (FirstDay(m) + d) * DAY + t % DAY
  }

  function AddDays(t: Time, n: int): Time {
    t + n * DAY
  }

  // ---------------------------------------------------------------- properties

  /** The parts of an instant that months move and those they keep. */
  lemma AddMonthsParts(t: Time, k: int)
    ensures var u := AddMonths(t, k);
            && u % DAY == t % DAY
            && MonthOf(u / DAY) == MonthOf(t / DAY) + k
            && DayOfMonth(u) ==
               (if DayOfMonth(t) < MonthLength(MonthOf(t / DAY) + k) then DayOfMonth(t)
                else MonthLength(MonthOf(t / DAY) + k) - 1)
  {
    hide FirstDay, MonthLength, MonthOf;
    var m := MonthOf(t / DAY) + k;
    var d := if DayOfMonth(t) < MonthLength(m) then DayOfMonth(t) else MonthLength(m) - 1;
    var u := AddMonths(t, k);
    InstantIsDayAndTime(t);
    DayAndTime(FirstDay(m) + d, t % DAY);
    MonthsAreContiguous(m);
    assert 0 <= DayOfMonth(t);
    MonthIsUnique(u / DAY, m, MonthOf(u / DAY));
  }

  lemma DayAndTime(day: int, rest: int)
    requires 0 <= rest < DAY
    ensures (day * DAY + rest) / DAY == day && (day * DAY + rest) % DAY == rest
  {
  }

  lemma InstantIsDayAndTime(t: Time)
    ensures t == (t / DAY) * DAY + t % DAY && 0 <= t % DAY < DAY
  {
  }

  /** Whole months always move forward or back, whatever is clipped. */
  lemma AddMonthsMoves(t: Time, k: int)
    ensures k > 0 ==> AddMonths(t, k) > t
    ensures k < 0 ==> AddMonths(t, k) < t
    ensures k == 0 ==> AddMonths(t, k) == t
  {
    hide FirstDay, MonthLength, AddMonths, MonthOf;
    var u, m := AddMonths(t, k), MonthOf(t / DAY);
    AddMonthsParts(t, k);
    InstantIsDayAndTime(t);
    InstantIsDayAndTime(u);
    assert InMonth(t / DAY, m) && InMonth(u / DAY, m + k);
    MonthsAreContiguous(m);
    if k > 0 {
      MonthsAscend(m + 1, m + k);
      assert t / DAY < u / DAY;
    } else if k < 0 {
      MonthsAscend(m + k + 1, m);
      assert u / DAY < t / DAY;
    } else {
      assert DayOfMonth(u) == DayOfMonth(t);
    }
  }

  /** Two days of one month that are clipped onto one day, with their times of day the other way round. */
  predicate Reversed(t: Time, u: Time, k: int) {
    && MonthOf(t / DAY) == MonthOf(u / DAY) && t / DAY < u / DAY && u % DAY < t % DAY
    && DayOfMonth(t) >= MonthLength(MonthOf(t / DAY) + k) - 1
  }

  /** Adding months keeps the order of days, and of two instants exactly when they are not reversed by clipping. */
  lemma AddMonthsMonotone(t: Time, u: Time, k: int)
    requires t <= u
    ensures AddMonths(t, k) / DAY <= AddMonths(u, k) / DAY
    ensures AddMonths(u, k) < AddMonths(t, k) <==> Reversed(t, u, k)
  {
    hide FirstDay, MonthLength, AddMonths, MonthOf;
    var m, n := MonthOf(t / DAY), MonthOf(u / DAY);
    var t', u' := AddMonths(t, k), AddMonths(u, k);
    AddMonthsParts(t, k);
    AddMonthsParts(u, k);
    InstantIsDayAndTime(t);
    InstantIsDayAndTime(u);
    InstantIsDayAndTime(t');
    InstantIsDayAndTime(u');
    assert InMonth(t' / DAY, m + k) && InMonth(u' / DAY, n + k);
    if m < n {
      MonthsAscend(m + k + 1, n + k);
      assert t' / DAY < u' / DAY;
    } else if n < m {
      MonthsAscend(n + 1, m);
    } else {
      assert DayOfMonth(t) <= DayOfMonth(u);
      assert t' / DAY <= u' / DAY;
      assert t' / DAY == u' / DAY <==> t / DAY == u / DAY || DayOfMonth(t) >= MonthLength(m + k) - 1;
    }
  }

  /** Late on the day before the last and early on the last day of a long month swap their order. */
  lemma ClippingCanReverse(m: int)
    requires MonthLength(m) == 31 && MonthLength(m + 1) < 30
    ensures var t, u := (FirstDay(m) + 29) * DAY + 1, (FirstDay(m) + 30) * DAY;
            t < u && AddMonths(u, 1) < AddMonths(t, 1)
  {
    hide FirstDay, MonthLength, MonthOf;
    MonthsAreContiguous(m);
    DayAndTime(FirstDay(m) + 29, 1);
    DayAndTime(FirstDay(m) + 30, 0);
    MonthIsUnique(FirstDay(m) + 29, m, MonthOf(FirstDay(m) + 29));
    MonthIsUnique(FirstDay(m) + 30, m, MonthOf(FirstDay(m) + 30));
  }

  /** Months can be taken back exactly when the day was not clipped. */
  lemma MonthsRoundTripExactly(t: Time, k: int)
    ensures AddMonths(AddMonths(t, k), -k) == t <==> DayOfMonth(t) < MonthLength(MonthOf(t / DAY) + k)
  {
    hide FirstDay, MonthLength, AddMonths, MonthOf;
    var u := AddMonths(t, k);
    var v := AddMonths(u, -k);
    AddMonthsParts(t, k);
    AddMonthsParts(u, -k);
    InstantIsDayAndTime(t);
    InstantIsDayAndTime(v);
    MonthsAreContiguous(MonthOf(t / DAY));
    assert InMonth(t / DAY, MonthOf(t / DAY));
  }
}
