/** The proleptic Gregorian calendar in UTC: days and seconds are counted from 1970-01-01. */
module Calendar {
  import opened Numbers

  predicate IsLeap(year: int) {
    year % 4 == 0 && (year % 100 != 0 || year % 400 == 0)
  }

  /** Months are numbered 12 * year + (month - 1). */
  const EPOCH_MONTH := 12 * 1970

  function MonthLength(month: int): (n: int)
    ensures 28 <= n <= 31
  {
    if month % 12 == 1 then (if IsLeap(month / 12) then 29 else 28)
    else if month % 12 == 3 || month % 12 == 5 || month % 12 == 8 || month % 12 == 10 then 30
    else 31
  }

  /** The first day of a month: months follow each other from the epoch, in both directions. */
  function MonthStart(month: int): int
    decreases if month < EPOCH_MONTH then EPOCH_MONTH - month else month - EPOCH_MONTH
  {
    if month == EPOCH_MONTH then 0
    else if month > EPOCH_MONTH then MonthStart(month - 1) + MonthLength(month - 1)
    else MonthStart(month + 1) - MonthLength(month)
  }

  lemma MonthFollows(month: int)
    ensures MonthStart(month + 1) == MonthStart(month) + MonthLength(month)
  {
  }

  lemma {:induction false} MonthsAscend(a: int, b: int)
    requires a <= b
    ensures MonthStart(a) + 28 * (b - a) <= MonthStart(b) <= MonthStart(a) + 31 * (b - a)
    decreases b - a
  {
    if a < b {
      MonthFollows(a);
      MonthsAscend(a + 1, b);
    }
  }

  function MonthUp(day: int, month: int): (r: int)
    requires MonthStart(month) <= day
    ensures MonthStart(r) <= day < MonthStart(r + 1)
    decreases day - MonthStart(month)
  {
    MonthFollows(month);
    if day < MonthStart(month + 1) then month else MonthUp(day, month + 1)
  }

  function MonthDown(day: int, month: int): (r: int)
    requires day < MonthStart(month + 1)
    ensures MonthStart(r) <= day < MonthStart(r + 1)
    decreases MonthStart(month + 1) - day
  {
    MonthFollows(month);
    if MonthStart(month) <= day then month else MonthDown(day, month - 1)
  }

  /** The month a day is in. */
  function MonthOf(day: int): (r: int)
    ensures MonthStart(r) <= day < MonthStart(r + 1)
  {
    if day >= MonthStart(EPOCH_MONTH) then MonthUp(day, EPOCH_MONTH) else MonthDown(day, EPOCH_MONTH - 1)
  }

  lemma MonthUnique(day: int, month: int)
    requires MonthStart(month) <= day < MonthStart(month + 1)
    ensures MonthOf(day) == month
  {
    var k := MonthOf(day);
    if k < month {
      MonthsAscend(k + 1, month);
    } else {
      MonthsAscend(if month < k then month + 1 else month, k);
    }
  }

  /** January is 1. */
  function MonthNumber(day: int): (m: int)
    ensures 1 <= m <= 12
  {
    MonthOf(day) % 12 + 1
  }

  function DayOfMonth(day: int): (d: int)
    ensures 1 <= d <= 31
  {
    MonthFollows(MonthOf(day));
    day - MonthStart(MonthOf(day)) + 1
  }

  /** Sunday is 0; 1970-01-01 was a Thursday. */
  function Weekday(day: int): (w: int)
    ensures 0 <= w < 7
  {
    (day + 4) % 7
  }

  const DAY := 86400
  const HOUR := 3600
  const MINUTE := 60

  function DayOf(t: int): int {
    t / DAY
  }

  function HourOf(t: int): int {
    t % DAY / HOUR
  }

  function MinuteOf(t: int): int {
    t % HOUR / MINUTE
  }

  function SecondOf(t: int): int {
    t % MINUTE
  }

  /** The second with the given day, hour, minute and second. */
  function Instant(day: int, hour: int, minute: int, second: int): int {
    DAY * day + HOUR * hour + MINUTE * minute + second
  }

  lemma Parts(t: int)
    ensures t == Instant(DayOf(t), HourOf(t), MinuteOf(t), SecondOf(t))
    ensures 0 <= HourOf(t) < 24 && 0 <= MinuteOf(t) < 60 && 0 <= SecondOf(t) < 60
  {
    Nested(t, DAY, HOUR, 24);
    Nested(t, HOUR, MINUTE, 60);
  }

  /** Dividing by a multiple first does not change the remainder. */
  lemma Nested(t: int, large: int, small: int, n: int)
    requires small > 0 && n > 0 && large == n * small
    ensures t % large == small * (t % large / small) + t % small && 0 <= t % large / small < n
  {
    var u := t % large;
    assert t == large * (t / large) + u;
    assert large * (t / large) == small * (n * (t / large));
    assert u == small * (u / small) + u % small;
    Quotient(small, n * (t / large) + u / small, u % small);
    assert small * (n * (t / large) + u / small) == small * (n * (t / large)) + small * (u / small);
    Bounded(u / small, u, small, n);
  }

  lemma Bounded(q: int, u: int, small: int, n: int)
    requires small > 0 && small * q <= u < n * small && u >= 0 && q == u / small
    ensures 0 <= q < n
  {
    assert small * (q - n) == small * q - n * small;
    Spread(small, q - n);
  }

  // ---- the calendar in closed form ----

  /** The leap years before a year. */
  function LeapsBefore(year: int): int {
    (year - 1) / 4 - (year - 1) / 100 + (year - 1) / 400
  }

  /** The days before each month of a common year. */
  const DAYS_BEFORE: seq<int> := [0, 31, 59, 90, 120, 151, 181, 212, 243, 273, 304, 334]

  /** The first day of a month by the rule of the Gregorian calendar. */
  function FirstDay(year: int, month: int): int
    requires 0 <= month < 12
  {
    365 * (year - 1970) + LeapsBefore(year) - LeapsBefore(1970) + DAYS_BEFORE[month] + if month >= 2 && IsLeap(year) then 1 else 0
  }

  /** A leap year comes every fourth year, but for the centuries that 400 does not divide. */
  lemma LeapCounts(year: int)
    ensures LeapsBefore(year + 1) == LeapsBefore(year) + if year % 4 == 0 && (year % 100 != 0 || year % 400 == 0) then 1 else 0
  {
    Centuries(year);
    LeapSum(year / 4, (year - 1) / 4, year % 4 == 0, year / 100, (year - 1) / 100, year % 100 == 0, year / 400, (year - 1) / 400, year % 400 == 0);
  }

  lemma Centuries(year: int)
    ensures year / 4 == (year - 1) / 4 + if year % 4 == 0 then 1 else 0
    ensures year / 100 == (year - 1) / 100 + if year % 100 == 0 then 1 else 0
    ensures year / 400 == (year - 1) / 400 + if year % 400 == 0 then 1 else 0
    ensures (year % 400 == 0 ==> year % 100 == 0) && (year % 100 == 0 ==> year % 4 == 0)
  {
    Carry(year, 4);
    Carry(year, 100);
    Carry(year, 400);
    Divides(year);
  }

  lemma Divides(x: int)
    ensures (x % 400 == 0 ==> x % 100 == 0) && (x % 100 == 0 ==> x % 4 == 0)
  {
  }

  lemma LeapSum(a: int, a': int, fourth: bool, b: int, b': int, century: bool, c: int, c': int, fourthCentury: bool)
    requires a == a' + (if fourth then 1 else 0) && b == b' + (if century then 1 else 0) && c == c' + (if fourthCentury then 1 else 0)
    requires (fourthCentury ==> century) && (century ==> fourth)
    ensures a - b + c == a' - b' + c' + if fourth && (!century || fourthCentury) then 1 else 0
  {
  }

  lemma Carry(x: int, n: int)
    requires n == 4 || n == 100 || n == 400
    ensures x / n == (x - 1) / n + if x % n == 0 then 1 else 0
  {
  }

  lemma FirstDayFollows(year: int, month: int)
    requires 0 <= month < 12
    ensures (if month < 11 then FirstDay(year, month + 1) else FirstDay(year + 1, 0)) == FirstDay(year, month) + MonthLength(12 * year + month)
  {
    Quotient(12, year, month);
    LeapCounts(year);
  }

  /** Months follow each other as the calendar says. */
  lemma {:induction false} MonthStartIs(year: int, month: int)
    requires 0 <= month < 12
    ensures MonthStart(12 * year + month) == FirstDay(year, month)
    decreases if 12 * year + month < EPOCH_MONTH then EPOCH_MONTH - (12 * year + month) else 12 * year + month - EPOCH_MONTH
  {
    var k := 12 * year + month;
    if k > EPOCH_MONTH {
      var y, m := if month > 0 then year else year - 1, if month > 0 then month - 1 else 11;
      MonthStartIs(y, m);
      FirstDayFollows(y, m);
      assert 12 * y + m == k - 1;
    } else if k < EPOCH_MONTH {
      var y, m := if month < 11 then year else year + 1, if month < 11 then month + 1 else 0;
      MonthStartIs(y, m);
      FirstDayFollows(year, month);
      assert 12 * y + m == k + 1;
    } else {
      assert year == 1970 && month == 0;
    }
  }

  /** The calendar repeats every 400 years, 146097 days, and so do the days of the week, which follow each other. */
  lemma Cycle(year: int, month: int, day: int)
    requires 0 <= month < 12
    ensures MonthStart(12 * (year + 400) + month) == MonthStart(12 * year + month) + 146097
    ensures Weekday(day + 146097) == Weekday(day) && Weekday(day + 1) == (Weekday(day) + 1) % 7
  {
    MonthStartIs(year, month);
    MonthStartIs(year + 400, month);
    LeapCycle(year);
    WeekCycle(day);
  }

  lemma LeapCycle(year: int)
    ensures LeapsBefore(year + 400) == LeapsBefore(year) + 97 && (IsLeap(year + 400) <==> IsLeap(year))
  {
    Shifted(year - 1, 4, 100);
    Shifted(year - 1, 100, 4);
    Shifted(year - 1, 400, 1);
    Shifted(year, 4, 100);
    Shifted(year, 100, 4);
    Shifted(year, 400, 1);
  }

  lemma Shifted(x: int, n: int, k: int)
    requires (n == 4 && k == 100) || (n == 100 && k == 4) || (n == 400 && k == 1)
    ensures (x + 400) / n == x / n + k && (x + 400) % n == x % n
  {
  }

  lemma WeekCycle(day: int)
    ensures Weekday(day + 146097) == Weekday(day) && Weekday(day + 1) == (Weekday(day) + 1) % 7
  {
    Quotient(7, (day + 4) / 7 + 20871, (day + 4) % 7);
  }

  /** 1 January 1970 was a Thursday, 1 January 2000 a Saturday. */
  lemma KnownDays()
    ensures MonthStart(12 * 1970) == 0 && Weekday(0) == 4
    ensures MonthStart(12 * 2000) == 10957 && Weekday(10957) == 6
  {
    StartOf(2000);
    assert FirstDay(2000, 0) == 10957;
  }

  lemma StartOf(year: int)
    ensures MonthStart(12 * year) == FirstDay(year, 0)
  {
    MonthStartIs(year, 0);
  }
}
