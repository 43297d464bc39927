/** Daily @between windows in UTC: one instant a day, at the start or at a stable pseudo-random offset. */
module Window {
  import opened Numbers
  import opened Calendar
  import opened Options
  import opened Cron

  /** start and end are nanoseconds into the day. */
  datatype Window = Window(start: int, end: int, random: bool)

  const DAY_NANOS := DAY * NANOS

  /** What parsing establishes: a non-empty part of one day. */
  predicate Proper(w: Window) {
    0 <= w.start < w.end < DAY_NANOS
  }

  method ParseClock(hour: int, minute: int) returns (r: Option<int>)
    ensures r.Some? <==> 0 <= hour < 24 && 0 <= minute < 60
    ensures r.Some? ==> 0 <= r.value < DAY_NANOS && r.value == NANOS * Instant(0, hour, minute, 0)
  {
    if hour < 0 || hour > 23 || minute < 0 || minute > 59 {
      return None;
    }
    return Some(NANOS * (HOUR * hour + MINUTE * minute));
  }

  /** A window from two clock times; the end must come after the start. */
  method ParseWindow(startHour: int, startMinute: int, endHour: int, endMinute: int, random: bool) returns (r: Option<Window>)
    ensures r.Some? <==>
      && 0 <= startHour < 24 && 0 <= startMinute < 60 && 0 <= endHour < 24 && 0 <= endMinute < 60
      && Instant(0, startHour, startMinute, 0) < Instant(0, endHour, endMinute, 0)
    ensures r.Some? ==> Proper(r.value) && r.value.random == random
    ensures r.Some? ==> r.value.start == NANOS * Instant(0, startHour, startMinute, 0) && r.value.end == NANOS * Instant(0, endHour, endMinute, 0)
  {
    var start := ParseClock(startHour, startMinute);
    var end := ParseClock(endHour, endMinute);
    if start.None? || end.None? || end.value <= start.value {
      return None;
    }
    return Some(Window(start.value, end.value, random));
  }

  /** The pseudo-random offset of a day; hash stands for FNV over the schedule's key and the date. */
  function OffsetFor(w: Window, hash: int -> nat, day: int): (r: int)
    ensures Proper(w) ==> 0 <= r < w.end - w.start
  {
    var width := w.end - w.start;
    if width <= 0 then 0 else hash(day) % width
  }

  /** The instant of a day. */
  function InstantOf(w: Window, hash: int -> nat, day: int): (t: int)
    ensures Proper(w) ==> DAY_NANOS * day + w.start <= t < DAY_NANOS * day + w.end
  {
    DAY_NANOS * day + w.start + if w.random then OffsetFor(w, hash, day) else 0
  }

  /** The instant is the start of the window, or as far behind it as the hash of the day says, modulo the width. */
  lemma InstantIs(w: Window, hash: int -> nat, day: int)
    requires Proper(w)
    ensures !w.random ==> InstantOf(w, hash, day) == DAY_NANOS * day + w.start
    ensures w.random ==> (InstantOf(w, hash, day) - (DAY_NANOS * day + w.start) - hash(day)) % (w.end - w.start) == 0
  {
    if w.random {
      var width := w.end - w.start;
      assert hash(day) == width * (hash(day) / width) + hash(day) % width;
      Multiple(width, hash(day) / width);
    }
  }

  lemma Multiple(m: int, q: int)
    requires m > 0
    ensures (-(m * q)) % m == 0
  {
    Quotient(m, -q, 0);
  }

  ghost predicate Occurs(w: Window, hash: int -> nat, t: int) {
    exists day: int :: t == InstantOf(w, hash, day)
  }

  /** Days come in the order of their instants. */
  lemma InOrder(w: Window, hash: int -> nat, a: int, b: int)
    requires Proper(w)
    ensures a < b ==> InstantOf(w, hash, a) < InstantOf(w, hash, b)
    ensures a > b ==> InstantOf(w, hash, a) > InstantOf(w, hash, b)
  {
  }

  lemma LeastAfter(w: Window, hash: int -> nat, after: int, day: int)
    requires Proper(w) && InstantOf(w, hash, day) > after && InstantOf(w, hash, day - 1) <= after
    ensures forall u: int | after < u < InstantOf(w, hash, day) :: !Occurs(w, hash, u)
  {
    forall u: int | after < u < InstantOf(w, hash, day)
      ensures !Occurs(w, hash, u)
    {
      forall d: int
        ensures u != InstantOf(w, hash, d)
      {
        InOrder(w, hash, d, day);
        InOrder(w, hash, d, day - 1);
      }
    }
  }

  /** The next instant of the window.  With a proper window the search never runs out of days. */
  method Next(w: Window, hash: int -> nat, after: int) returns (r: Option<int>)
    ensures r.Some? ==> after < r.value && Occurs(w, hash, r.value)
    ensures Proper(w) ==> r.Some? && forall u: int | after < u < r.value :: !Occurs(w, hash, u)
  {
    var today := after / DAY_NANOS;
    assert DAY_NANOS * today <= after < DAY_NANOS * (today + 1);
    var i := 0;
    while i < 370
      invariant 0 <= i <= 370
      invariant i > 0 ==> InstantOf(w, hash, today + i - 1) <= after
      invariant Proper(w) ==> i <= 1
    {
      var candidate := InstantOf(w, hash, today + i);
      if candidate > after {
        if Proper(w) {
          LeastAfter(w, hash, after, today + i);
        }
        return Some(candidate);
      }
      i := i + 1;
    }
    return None;
  }
}
