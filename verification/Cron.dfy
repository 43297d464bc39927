/** Cron schedules in UTC: the jump-ahead search for the next matching second. */
module Cron {
  import opened Numbers
  import opened Calendar
  import opened Options

  /** A parsed expression; the fields are bit sets, and the flags say that a day field was unrestricted. */
  datatype Cron = Cron(
    seconds: set<int>, minutes: set<int>, hours: set<int>,
    dom: set<int>, months: set<int>, dow: set<int>,
    domAny: bool, dowAny: bool)

  /** Two restricted day fields match when either does. */
  predicate DayMatches(c: Cron, day: int) {
    var domMatch, dowMatch := DayOfMonth(day) in c.dom, Weekday(day) in c.dow;
    if c.domAny && c.dowAny then true
    else if c.domAny then dowMatch
    else if c.dowAny then domMatch
    else domMatch || dowMatch
  }

  predicate Matches(c: Cron, t: int) {
    && MonthNumber(DayOf(t)) in c.months && DayMatches(c, DayOf(t))
    && HourOf(t) in c.hours && MinuteOf(t) in c.minutes && SecondOf(t) in c.seconds
  }

  /** A date and a time of day: months from 1, and days that the month has. */
  ghost predicate Dated(year: int, month: int, dom: int, hour: int, minute: int, second: int, t: int) {
    && 1 <= month <= 12 && 1 <= dom <= MonthLength(12 * year + month - 1)
    && 0 <= hour < 24 && 0 <= minute < 60 && 0 <= second < 60
    && t == Instant(FirstDay(year, month - 1) + dom - 1, hour, minute, second)
  }

  /** What an expression matches, by the date and the clock. */
  lemma MatchesDate(c: Cron, year: int, month: int, dom: int, hour: int, minute: int, second: int, t: int)
    requires Dated(year, month, dom, hour, minute, second, t)
    ensures Matches(c, t) <==>
      && month in c.months && hour in c.hours && minute in c.minutes && second in c.seconds
      && DayMatches(c, FirstDay(year, month - 1) + dom - 1)
    ensures DayOfMonth(FirstDay(year, month - 1) + dom - 1) == dom && DayOf(t) == FirstDay(year, month - 1) + dom - 1
  {
    ClockOf(FirstDay(year, month - 1) + dom - 1, hour, minute, second, t);
    DateOf(year, month, dom);
  }

  lemma ClockOf(day: int, hour: int, minute: int, second: int, t: int)
    requires 0 <= hour < 24 && 0 <= minute < 60 && 0 <= second < 60 && t == Instant(day, hour, minute, second)
    ensures DayOf(t) == day && HourOf(t) == hour && MinuteOf(t) == minute && SecondOf(t) == second
  {
    Quotient(DAY, day, HOUR * hour + MINUTE * minute + second);
    Quotient(HOUR, 24 * day + hour, MINUTE * minute + second);
    Quotient(HOUR, hour, MINUTE * minute + second);
    Quotient(MINUTE, minute, second);
    Quotient(MINUTE, 60 * (24 * day + hour) + minute, second);
  }

  lemma DateOf(year: int, month: int, dom: int)
    requires 1 <= month <= 12 && 1 <= dom <= MonthLength(12 * year + month - 1)
    ensures var day := FirstDay(year, month - 1) + dom - 1; MonthNumber(day) == month && DayOfMonth(day) == dom
  {
    var k, first := 12 * year + month - 1, FirstDay(year, month - 1);
    MonthStartIs(year, month - 1);
    Following(k, first);
    InMonth(k, first, dom, first + dom - 1);
    Quotient(12, year, month - 1);
  }

  lemma Following(k: int, first: int)
    requires MonthStart(k) == first
    ensures MonthStart(k + 1) == first + MonthLength(k)
  {
    MonthFollows(k);
  }

  lemma InMonth(k: int, first: int, dom: int, day: int)
    requires MonthStart(k) == first && first <= day < MonthStart(k + 1) && day == first + dom - 1
    ensures MonthNumber(day) == k % 12 + 1 && DayOfMonth(day) == dom
  {
    MonthUnique(day, k);
  }

  /** A field was never filled in. */
  predicate Blank(c: Cron) {
    c.seconds == {} || c.minutes == {} || c.hours == {} || c.dom == {} || c.months == {} || c.dow == {}
  }

  // ---- instants in nanoseconds ----

  const NANOS := 1_000_000_000

  /** The same clock time five years on; 29 February becomes 1 March. */
  function Deadline(after: int): int {
    var day := DayOf(after / NANOS);
    DAY * NANOS * (MonthStart(MonthOf(day) + 60) + DayOfMonth(day) - 1) + after % (DAY * NANOS)
  }

  /**
   * The deadline is at the same time of day, on the same day of the same month five years on, or on 1 March
   * when that month has no such day.
   */
  lemma FiveYears(after: int)
    ensures var day, last := DayOf(after / NANOS), DayOf(Deadline(after) / NANOS);
            && Deadline(after) % (DAY * NANOS) == after % (DAY * NANOS)
            && ((MonthNumber(last) == MonthNumber(day) && DayOfMonth(last) == DayOfMonth(day))
                || (MonthNumber(day) == 2 && DayOfMonth(day) == 29 && MonthNumber(last) == 3 && DayOfMonth(last) == 1))
            && MonthOf(last) / 12 == MonthOf(day) / 12 + 5
  {
    var day := DayOf(after / NANOS);
    var last := MonthStart(MonthOf(day) + 60) + DayOfMonth(day) - 1;
    SameClock(last, after % (DAY * NANOS), Deadline(after));
    SameDate(day, last);
  }

  lemma SameClock(day: int, rest: int, t: int)
    requires t == DAY * NANOS * day + rest && 0 <= rest < DAY * NANOS
    ensures t % (DAY * NANOS) == rest && DayOf(t / NANOS) == day
  {
    Quotient(DAY * NANOS, day, rest);
    var s := t / NANOS;
    assert NANOS * s <= t < NANOS * (s + 1);
    assert DAY * day <= s < DAY * (day + 1);
    Quotient(DAY, day, s - DAY * day);
  }

  /** Five years on a month is the same month, and as long, but for February. */
  lemma SameLength(k: int)
    ensures (k + 60) % 12 == k % 12 && (k + 60) / 12 == k / 12 + 5
    ensures k % 12 != 1 ==> MonthLength(k + 60) == MonthLength(k)
    ensures k % 12 == 1 ==> MonthLength(k) <= 29 && MonthLength(k + 60) >= 28 && (k + 61) % 12 == 2 && (k + 61) / 12 == k / 12 + 5
  {
  }

  lemma SameDate(day: int, last: int)
    requires last == MonthStart(MonthOf(day) + 60) + DayOfMonth(day) - 1
    ensures MonthOf(last) / 12 == MonthOf(day) / 12 + 5
    ensures (MonthNumber(last) == MonthNumber(day) && DayOfMonth(last) == DayOfMonth(day))
            || (MonthNumber(day) == 2 && DayOfMonth(day) == 29 && MonthNumber(last) == 3 && DayOfMonth(last) == 1)
  {
    var k := MonthOf(day);
    MonthFollows(k);
    MonthFollows(k + 60);
    MonthFollows(k + 61);
    SameLength(k);
    if DayOfMonth(day) <= MonthLength(k + 60) {
      MonthUnique(last, k + 60);
    } else {
      assert k % 12 == 1;
      MonthUnique(last, k + 61);
    }
  }

  /** Which days match: those both fields allow, an unrestricted field allowing all; with two restricted fields those either allows. */
  lemma DayMatchesIff(c: Cron, day: int)
    ensures DayMatches(c, day) <==>
      || ((c.domAny || DayOfMonth(day) in c.dom) && (c.dowAny || Weekday(day) in c.dow))
      || (!c.domAny && !c.dowAny && (DayOfMonth(day) in c.dom || Weekday(day) in c.dow))
  {
  }

  /** t is the least matching second after the given instant and no later than the deadline. */
  ghost predicate IsNext(c: Cron, after: int, t: int) {
    && after < NANOS * t <= Deadline(after) && Matches(c, t)
    && forall u: int {:trigger Matches(c, u)} | after < NANOS * u && u < t :: !Matches(c, u)
  }

  ghost predicate NoneIn(c: Cron, from: int, to: int) {
    forall u: int {:trigger Matches(c, u)} | from <= u < to :: !Matches(c, u)
  }

  lemma NoneJoin(c: Cron, a: int, b: int, d: int)
    requires NoneIn(c, a, b) && NoneIn(c, b, d)
    ensures NoneIn(c, a, d)
  {
  }

  // ---- jumps skip no match ----

  /** Within a day the day does not change. */
  lemma SameDay(t: int, u: int, day: int)
    requires DayOf(t) == day && t <= u < DAY * (day + 1)
    ensures DayOf(u) == day
  {
    Parts(t);
    Parts(u);
  }

  lemma SameHour(t: int, u: int)
    requires t <= u < Instant(DayOf(t), HourOf(t) + 1, 0, 0)
    ensures DayOf(u) == DayOf(t) && HourOf(u) == HourOf(t)
  {
    Parts(t);
    Parts(u);
  }

  lemma SkipMonth(c: Cron, t: int)
    requires MonthNumber(DayOf(t)) !in c.months
    ensures var next := DAY * MonthStart(MonthOf(DayOf(t)) + 1); t < next && NoneIn(c, t, next)
  {
    var month := MonthOf(DayOf(t));
    Parts(t);
    forall u: int | t <= u < DAY * MonthStart(month + 1)
      ensures !Matches(c, u)
    {
      Parts(u);
      MonthUnique(DayOf(u), month);
    }
  }

  lemma SkipDay(c: Cron, t: int)
    requires !DayMatches(c, DayOf(t))
    ensures t < DAY * (DayOf(t) + 1) && NoneIn(c, t, DAY * (DayOf(t) + 1))
  {
    Parts(t);
    forall u: int | t <= u < DAY * (DayOf(t) + 1)
      ensures !Matches(c, u)
    {
      SameDay(t, u, DayOf(t));
    }
  }

  lemma SkipHours(c: Cron, t: int, hour: int)
    requires HourOf(t) < hour <= 24 && forall h | HourOf(t) <= h < hour :: h !in c.hours
    ensures t < Instant(DayOf(t), hour, 0, 0) && NoneIn(c, t, Instant(DayOf(t), hour, 0, 0))
  {
    Parts(t);
    forall u: int | t <= u < Instant(DayOf(t), hour, 0, 0)
      ensures !Matches(c, u)
    {
      SameDay(t, u, DayOf(t));
      Parts(u);
    }
  }

  lemma SkipMinutes(c: Cron, t: int, minute: int)
    requires MinuteOf(t) < minute <= 60 && forall m | MinuteOf(t) <= m < minute :: m !in c.minutes
    ensures t < Instant(DayOf(t), HourOf(t), minute, 0) && NoneIn(c, t, Instant(DayOf(t), HourOf(t), minute, 0))
  {
    Parts(t);
    forall u: int | t <= u < Instant(DayOf(t), HourOf(t), minute, 0)
      ensures !Matches(c, u)
    {
      SameHour(t, u);
      Parts(u);
    }
  }

  lemma SkipSeconds(c: Cron, t: int, second: int)
    requires SecondOf(t) < second <= 60 && forall s | SecondOf(t) <= s < second :: s !in c.seconds
    ensures t < Instant(DayOf(t), HourOf(t), MinuteOf(t), second) && NoneIn(c, t, Instant(DayOf(t), HourOf(t), MinuteOf(t), second))
  {
    Parts(t);
    forall u: int | t <= u < Instant(DayOf(t), HourOf(t), MinuteOf(t), second)
      ensures !Matches(c, u)
    {
      SameHour(t, u);
      Parts(u);
    }
  }

  /** Adding a unit and truncating to it is the start of the next one. */
  lemma NextHour(t: int)
    ensures HOUR * ((t + HOUR) / HOUR) == Instant(DayOf(t), HourOf(t), 60, 0)
  {
    Parts(t);
    Quotient(HOUR, 24 * DayOf(t) + HourOf(t) + 1, MINUTE * MinuteOf(t) + SecondOf(t));
  }

  lemma NextMinute(t: int)
    ensures MINUTE * ((t + MINUTE) / MINUTE) == Instant(DayOf(t), HourOf(t), MinuteOf(t), 60)
  {
    Parts(t);
    Quotient(MINUTE, 60 * (24 * DayOf(t) + HourOf(t)) + MinuteOf(t) + 1, SecondOf(t));
  }

  // ---- the search ----

  /** The least member from start to max. */
  method NextBit(bits: set<int>, start: int, max: int) returns (r: Option<int>)
    ensures r.Some? ==> start <= r.value <= max && r.value in bits && forall i | start <= i < r.value :: i !in bits
    ensures r.None? ==> forall i | start <= i <= max :: i !in bits
  {
    var i := start;
    while i <= max
      invariant start <= i && forall j | start <= j < i :: j !in bits
      invariant i <= max + 1 || start > max
    {
      if i in bits {
        return Some(i);
      }
      i := i + 1;
    }
    return None;
  }

  /** Where to look next, from a second that does not match; None at one that does. */
  method Jump(c: Cron, t: int) returns (r: Option<int>)
    ensures r.None? <==> Matches(c, t)
    ensures r.Some? ==> t < r.value && NoneIn(c, t, r.value)
  {
    Parts(t);
    var day := DayOf(t);
    if MonthNumber(day) !in c.months {
      SkipMonth(c, t);
      return Some(DAY * MonthStart(MonthOf(day) + 1));
    }
    if !DayMatches(c, day) {
      SkipDay(c, t);
      return Some(DAY * (day + 1));
    }
    if HourOf(t) !in c.hours {
      var hour := NextBit(c.hours, HourOf(t) + 1, 23);
      SkipHours(c, t, if hour.Some? then hour.value else 24);
      return Some(if hour.Some? then Instant(day, hour.value, 0, 0) else DAY * (day + 1));
    }
    if MinuteOf(t) !in c.minutes {
      var minute := NextBit(c.minutes, MinuteOf(t) + 1, 59);
      NextHour(t);
      SkipMinutes(c, t, if minute.Some? then minute.value else 60);
      return Some(if minute.Some? then Instant(day, HourOf(t), minute.value, 0) else HOUR * ((t + HOUR) / HOUR));
    }
    if SecondOf(t) !in c.seconds {
      var second := NextBit(c.seconds, SecondOf(t) + 1, 59);
      NextMinute(t);
      SkipSeconds(c, t, if second.Some? then second.value else 60);
      return Some(if second.Some? then Instant(day, HourOf(t), MinuteOf(t), second.value) else MINUTE * ((t + MINUTE) / MINUTE));
    }
    return None;
  }

  /** The first whole second after an instant. */
  lemma FirstSecond(after: int, u: int)
    ensures after < NANOS * u <==> (after + NANOS) / NANOS <= u
  {
  }

  /**
   * The next matching second within five years, if there is one.  A field that was never filled in is
   * refused, also one whose flag says it matches every day.
   */
  method Next(c: Cron, after: int) returns (r: Option<int>)
    ensures {} in {c.seconds, c.minutes, c.hours, c.dom, c.months, c.dow} ==> r.None?
    ensures r.Some? ==> !Blank(c) && IsNext(c, after, r.value)
    ensures r.None? <==> Blank(c) || forall u: int | after < NANOS * u <= Deadline(after) :: !Matches(c, u)
  {
    if Blank(c) {
      return None;
    }
    var first := (after + NANOS) / NANOS;
    var t := first;
    while NANOS * t <= Deadline(after)
      invariant first <= t && NoneIn(c, first, t)
      decreases Deadline(after) - NANOS * t
    {
      var jump := Jump(c, t);
      if jump.None? {
        Found(c, after, t);
        return Some(t);
      }
      NoneJoin(c, first, t, jump.value);
      t := jump.value;
    }
    NotFound(c, after, t);
    return None;
  }

  lemma Found(c: Cron, after: int, t: int)
    requires (after + NANOS) / NANOS <= t && NoneIn(c, (after + NANOS) / NANOS, t) && NANOS * t <= Deadline(after) && Matches(c, t)
    ensures IsNext(c, after, t)
  {
    FirstSecond(after, t);
    forall u: int | after < NANOS * u && u < t
      ensures !Matches(c, u)
    {
      FirstSecond(after, u);
    }
  }

  lemma NotFound(c: Cron, after: int, t: int)
    requires NoneIn(c, (after + NANOS) / NANOS, t) && NANOS * t > Deadline(after)
    ensures forall u: int | after < NANOS * u <= Deadline(after) :: !Matches(c, u)
  {
    forall u: int | after < NANOS * u <= Deadline(after)
      ensures !Matches(c, u)
    {
      FirstSecond(after, u);
    }
  }
}
