/** The proleptic Gregorian calendar in one zone: civil times and the instants they stand for. */
module Calendar {
  import opened Common

  predicate Leap(y: int) {
    y % 4 == 0 && (y % 100 != 0 || y % 400 == 0)
  }

  function DaysIn(y: int, m: int): (n: int)
    requires 1 <= m <= 12
    ensures 28 <= n <= 31
  {
    if m == 2 then (if Leap(y) then 29 else 28)
    else if m == 4 || m == 6 || m == 9 || m == 11 then 30
    else 31
  }

  /** Days from the first day of year 0 to the first day of year `y`. */
  function YearStart(y: int): int {
    365 * y + (y + 3) / 4 - (y + 99) / 100 + (y + 399) / 400
  }

  function DaysBefore(y: int, m: int): (n: int)
    requires 1 <= m <= 12
    decreases m
  {
    if m == 1 then 0 else DaysBefore(y, m - 1) + DaysIn(y, m - 1)
  }

  /** Days from the first day of year 0 to the first day of the month. */
  function MonthStart(y: int, m: int): int
    requires 1 <= m <= 12
  {
    YearStart(y) + DaysBefore(y, m)
  }

  function Clock(hours: int, minute: int, second: int, nano: int): Time {
    (hours * 60 + minute) * MINUTE + second * SECOND + nano
  }

  /** A date and a time of day as a zone shows them. A day may lie beyond the end of the month: it then stands
    * for a day of the next month, as in Go's time.Date. */
  datatype Civil = Civil(year: nat, month: int, day: int, hour: int, minute: int, second: int, nano: int) {
    /** Within the ranges that every field may take in any month. */
    predicate Rough() {
      && 1 <= month <= 12 && 1 <= day <= 31
      && 0 <= hour <= 23 && 0 <= minute <= 59 && 0 <= second <= 59 && 0 <= nano < SECOND
    }

    predicate Valid() {
      Rough() && day <= DaysIn(year, month)
    }

    function Month(): int
      requires Rough()
    {
      MonthStart(year, month)
    }

    function Day(): int
      requires Rough()
    {
      Month() + day - 1
    }

    function Hour(): int
      requires Rough()
    {
      Day() * 24 + hour
    }

    /** The instant, up to the fixed offset of the zone. */
    function Instant(): Time
      requires Rough()
    {
      MonthInstant(year, month, day, hour, minute, second, nano)
    }
  }

  function MonthInstant(year: int, month: int, day: int, hour: int, minute: int, second: int, nano: int): Time
    requires 1 <= month <= 12
  {
    Clock((MonthStart(year, month) + day - 1) * 24 + hour, minute, second, nano)
  }

  /** What Go's time.Date makes of any fields: months beyond the year count on into other years, and days, hours,
    * minutes, seconds and nanoseconds count on from the first instant of the month. */
  function DateInstant(year: int, month: int, day: int, hour: int, minute: int, second: int, nano: int): Time {
    MonthInstant(year + (month - 1) / 12, (month - 1) % 12 + 1, day, hour, minute, second, nano)
  }

  lemma MonthsOfOneYear(month: int)
    requires 1 <= month <= 12
    ensures (month - 1) / 12 == 0 && (month - 1) % 12 + 1 == month
  {
  }

  /** Months beyond the year count on into the next one. */
  lemma MonthsCountedOn(year: int, month: int, day: int, hour: int, minute: int, second: int, nano: int)
    ensures DateInstant(year, month + 12, day, hour, minute, second, nano) == DateInstant(year + 1, month, day, hour, minute, second, nano)
  {
    assert (month + 12 - 1) / 12 == (month - 1) / 12 + 1 && (month + 12 - 1) % 12 == (month - 1) % 12;
  }

  lemma InstantCountedOn(year: int, month: int, day: int, hour: int, minute: int, second: int, nano: int)
    requires 1 <= month <= 12
    ensures MonthInstant(year, month, day, hour + 24, minute, second, nano) == MonthInstant(year, month, day + 1, hour, minute, second, nano)
    ensures MonthInstant(year, month, day, hour, minute + 60, second, nano) == MonthInstant(year, month, day, hour + 1, minute, second, nano)
    ensures MonthInstant(year, month, day, hour, minute, second + 60, nano) == MonthInstant(year, month, day, hour, minute + 1, second, nano)
    ensures MonthInstant(year, month, day, hour, minute, second, nano + SECOND) == MonthInstant(year, month, day, hour, minute, second + 1, nano)
  {
  }

  /** Every other field counts on into the field above. */
  lemma CountedOn(year: int, month: int, day: int, hour: int, minute: int, second: int, nano: int)
    ensures DateInstant(year, month, day, hour + 24, minute, second, nano) == DateInstant(year, month, day + 1, hour, minute, second, nano)
    ensures DateInstant(year, month, day, hour, minute + 60, second, nano) == DateInstant(year, month, day, hour + 1, minute, second, nano)
    ensures DateInstant(year, month, day, hour, minute, second + 60, nano) == DateInstant(year, month, day, hour, minute + 1, second, nano)
    ensures DateInstant(year, month, day, hour, minute, second, nano + SECOND) == DateInstant(year, month, day, hour, minute, second + 1, nano)
  {
    InstantCountedOn(year + (month - 1) / 12, (month - 1) % 12 + 1, day, hour, minute, second, nano);
  }

  /** Days beyond the month count on into the next one. */
  lemma DaysCountedOn(year: nat, month: int, day: int, hour: int, minute: int, second: int, nano: int)
    requires 1 <= month <= 12
    ensures DateInstant(year, month, day + DaysIn(year, month), hour, minute, second, nano) ==
            DateInstant(year, month + 1, day, hour, minute, second, nano)
  {
    var n := DaysIn(year, month);
    NormalMonth(year, month, day + n, hour, minute, second, nano);
    NextMonth(year, month);
    if month < 12 {
      NormalMonth(year, month + 1, day, hour, minute, second, nano);
      FromMonth(year, month, year, month + 1, day, n, hour, minute, second, nano);
    } else {
      MonthsCountedOn(year, 1, day, hour, minute, second, nano);
      NormalMonth(year + 1, 1, day, hour, minute, second, nano);
      FromMonth(year, month, year + 1, 1, day, n, hour, minute, second, nano);
    }
  }

  lemma FromMonth(y: int, m: int, z: int, k: int, day: int, n: int, hour: int, minute: int, second: int, nano: int)
    requires 1 <= m <= 12 && 1 <= k <= 12 && MonthStart(y, m) + n == MonthStart(z, k)
    ensures MonthInstant(y, m, day + n, hour, minute, second, nano) == MonthInstant(z, k, day, hour, minute, second, nano)
  {
  }

  lemma NextMonth(year: nat, month: int)
    requires 1 <= month <= 12
    ensures MonthStart(year, month) + DaysIn(year, month) == if month < 12 then MonthStart(year, month + 1) else MonthStart(year + 1, 1)
  {
    YearLength(year);
    MonthsOfYear(year);
  }

  lemma NormalMonth(year: int, month: int, day: int, hour: int, minute: int, second: int, nano: int)
    requires 1 <= month <= 12
    ensures DateInstant(year, month, day, hour, minute, second, nano) == MonthInstant(year, month, day, hour, minute, second, nano)
  {
    MonthsOfOneYear(month);
    var y, m := year + (month - 1) / 12, (month - 1) % 12 + 1;
    assert y == year && m == month;
  }

  lemma YearLength(y: nat)
    ensures YearStart(y + 1) == YearStart(y) + if Leap(y) then 366 else 365
  {
    assert (y + 4) / 4 == (y + 3) / 4 + if y % 4 == 0 then 1 else 0;
    assert (y + 100) / 100 == (y + 99) / 100 + if y % 100 == 0 then 1 else 0;
    assert (y + 400) / 400 == (y + 399) / 400 + if y % 400 == 0 then 1 else 0;
  }

  lemma MonthsOfYear(y: nat)
    ensures DaysBefore(y, 12) == if Leap(y) then 335 else 334
  {
  }

  /** How many days of the year are over at the end of each month. */
  lemma MonthEnds(y: nat)
    ensures var ends := [31, 59, 90, 120, 151, 181, 212, 243, 273, 304, 334, 365];
            forall m :: 1 <= m <= 12 ==>
              MonthStart(y, m) + DaysIn(y, m) == YearStart(y) + ends[m - 1] + if Leap(y) && m >= 2 then 1 else 0
  {
    assert DaysBefore(y, 2) == 31 && DaysBefore(y, 3) == 59 + if Leap(y) then 1 else 0;
    var third := DaysBefore(y, 3);
    assert DaysBefore(y, 4) == third + 31 && DaysBefore(y, 5) == third + 61 && DaysBefore(y, 6) == third + 92;
    assert DaysBefore(y, 7) == third + 122 && DaysBefore(y, 8) == third + 153 && DaysBefore(y, 9) == third + 184;
    assert DaysBefore(y, 10) == third + 214 && DaysBefore(y, 11) == third + 245 && DaysBefore(y, 12) == third + 275;
  }

  /** The first instant of 1970. */
  const EPOCH: Time := 719528 * 24 * HOUR

  /** Some instants, in seconds of Unix time: a round one, the last of 31 bits, and the leap days that 1900 and 2100
    * lack and 2000 has. */
  lemma KnownInstants()
    ensures Civil(1970, 1, 1, 0, 0, 0, 0).Instant() == EPOCH
    ensures Civil(2001, 9, 9, 1, 46, 40, 0).Instant() == EPOCH + 1000000000 * SECOND
    ensures Civil(2038, 1, 19, 3, 14, 7, 0).Instant() == EPOCH + 2147483647 * SECOND
    ensures Civil(1900, 3, 1, 0, 0, 0, 0).Instant() == EPOCH - 2203891200 * SECOND
    ensures Civil(2000, 2, 29, 23, 59, 59, SECOND - 1).Instant() == EPOCH + 951868800 * SECOND - 1
    ensures Civil(2100, 3, 1, 0, 0, 0, 0).Instant() == EPOCH + 4107542400 * SECOND
  {
  }

  lemma {:induction false} LaterYear(y: nat, z: nat)
    requires y < z
    ensures YearStart(z) >= YearStart(y) + if Leap(y) then 366 else 365
    decreases z
  {
    YearLength(z - 1);
    if y < z - 1 {
      LaterYear(y, z - 1);
    }
  }

  lemma {:induction false} LaterInYear(y: nat, m: int, n: int)
    requires 1 <= m < n <= 12
    ensures DaysBefore(y, n) >= DaysBefore(y, m) + DaysIn(y, m)
    decreases n
  {
    if m < n - 1 {
      LaterInYear(y, m, n - 1);
    }
  }

  /** A later month begins when the earlier one is over. */
  lemma LaterMonth(y: nat, m: int, z: nat, n: int)
    requires 1 <= m <= 12 && 1 <= n <= 12
    requires y < z || (y == z && m < n)
    ensures MonthStart(z, n) >= MonthStart(y, m) + DaysIn(y, m)
  {
    if y == z {
      LaterInYear(y, m, n);
    } else {
      LaterYear(y, z);
      MonthsOfYear(y);
      if m < 12 {
        LaterInYear(y, m, 12);
      }
      if 1 < n {
        LaterInYear(z, 1, n);
      }
    }
  }

  /** The month of a time is not after that of a later one. */
  lemma MonthsInOrder(a: Civil, b: Civil)
    requires a.Valid() && b.Valid() && a.Day() <= b.Day()
    ensures a.year < b.year || (a.year == b.year && a.month <= b.month)
    ensures a.Month() <= b.Month()
  {
    if b.year < a.year || (b.year == a.year && b.month < a.month) {
      LaterMonth(b.year, b.month, a.year, a.month);
    } else if a.year < b.year || a.month < b.month {
      LaterMonth(a.year, a.month, b.year, b.month);
    }
  }

  lemma InstantByHour(c: Civil)
    requires c.Rough()
    ensures c.Instant() == Clock(c.Hour(), c.minute, c.second, c.nano)
  {
  }

  lemma ClockOrder(a: Civil, b: Civil)
    requires a.Rough() && b.Rough() && a.Hour() <= b.Hour()
    requires a.minute <= b.minute && a.second <= b.second && a.nano <= b.nano
    ensures a.Instant() <= b.Instant()
  {
    InstantByHour(a);
    InstantByHour(b);
    ClockMonotone(a.Hour(), a.minute, a.second, a.nano, b.Hour(), b.minute, b.second, b.nano);
  }

  lemma ClockMonotone(h: int, m: int, s: int, n: int, h': int, m': int, s': int, n': int)
    requires h <= h' && m <= m' && s <= s' && n <= n'
    ensures Clock(h, m, s, n) <= Clock(h', m', s', n')
  {
  }

  lemma ClockInHour(hours: int, minute: int, second: int, nano: int)
    requires 0 <= minute <= 59 && 0 <= second <= 59 && 0 <= nano < SECOND
    ensures hours * HOUR <= Clock(hours, minute, second, nano) < (hours + 1) * HOUR
  {
  }

  lemma ClockInOrder(h: int, m: int, s: int, n: int, h': int, m': int, s': int, n': int)
    requires 0 <= m <= 59 && 0 <= s <= 59 && 0 <= n < SECOND && 0 <= m' <= 59 && 0 <= s' <= 59 && 0 <= n' < SECOND
    requires Clock(h, m, s, n) <= Clock(h', m', s', n')
    ensures h <= h'
  {
    ClockInHour(h, m, s, n);
    ClockInHour(h', m', s', n');
  }

  lemma DaysFromHours(d: int, h: int, d': int, h': int)
    requires 0 <= h <= 23 && 0 <= h' <= 23 && d * 24 + h <= d' * 24 + h'
    ensures d <= d'
  {
  }

  lemma HoursInOrder(a: Civil, b: Civil)
    requires a.Rough() && b.Rough() && a.Instant() <= b.Instant()
    ensures a.Hour() <= b.Hour() && a.Day() <= b.Day()
  {
    InstantByHour(a);
    InstantByHour(b);
    ClockInOrder(a.Hour(), a.minute, a.second, a.nano, b.Hour(), b.minute, b.second, b.nano);
    DaysFromHours(a.Day(), a.hour, b.Day(), b.hour);
  }

  /** Instants order valid times field by field, from the year down: no field count goes back. */
  lemma InOrderByField(a: Civil, b: Civil)
    requires a.Valid() && b.Valid() && a.Instant() <= b.Instant()
    ensures a.year <= b.year && a.Month() <= b.Month() && a.Day() <= b.Day() && a.Hour() <= b.Hour()
  {
    HoursInOrder(a, b);
    MonthsInOrder(a, b);
  }

  /** Valid times of the same instant are the same. */
  lemma InstantInjective(a: Civil, b: Civil)
    requires a.Valid() && b.Valid() && a.Instant() == b.Instant()
    ensures a == b
  {
    HoursInOrder(a, b);
    HoursInOrder(b, a);
    MonthsInOrder(a, b);
    MonthsInOrder(b, a);
    InstantByHour(a);
    InstantByHour(b);
    assert a.Hour() == b.Hour();
    ClockInjective(a.minute, a.second, a.nano, b.minute, b.second, b.nano);
  }

  lemma ClockInjective(m: int, s: int, n: int, m': int, s': int, n': int)
    requires 0 <= m <= 59 && 0 <= s <= 59 && 0 <= n < SECOND && 0 <= m' <= 59 && 0 <= s' <= 59 && 0 <= n' < SECOND
    requires m * MINUTE + s * SECOND + n == m' * MINUTE + s' * SECOND + n'
    ensures m == m' && s == s' && n == n'
  {
  }

  /** The years from 0 to 9999. */
  predicate InYears(local: Time) {
    0 <= local < Clock(YearStart(10000) * 24, 0, 0, 0)
  }

  lemma ValidInYears(c: Civil)
    requires c.Valid() && c.year <= 9999
    ensures InYears(c.Instant())
  {
    LaterMonth(c.year, c.month, 10000, 1);
    MonthsFromStart(c.year, c.month);
    ClockInHour(c.Hour(), c.minute, c.second, c.nano);
    assert 0 <= c.Hour() < YearStart(10000) * 24;
  }

  /** These are the instants of the years up to 9999. */
  lemma InYearsIff(c: Civil)
    requires c.Valid()
    ensures InYears(c.Instant()) <==> c.year <= 9999
  {
    if c.year <= 9999 {
      ValidInYears(c);
    } else {
      if c.year > 10000 || c.month > 1 {
        LaterMonth(10000, 1, c.year, c.month);
      }
      ClockInHour(c.Hour(), c.minute, c.second, c.nano);
      assert c.Hour() >= YearStart(10000) * 24;
    }
  }

  lemma MonthsFromStart(y: nat, m: int)
    requires 1 <= m <= 12
    ensures MonthStart(y, m) >= 0
  {
    if 0 < y || 1 < m {
      LaterMonth(0, 1, y, m);
    }
  }
}
