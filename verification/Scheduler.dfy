/** The scheduler tick: a cursor per schedule that neither loses nor repeats an occurrence. */
module Scheduler {
  import opened Options
  import opened Seqs
  import Cron
  import Window

  // ---- schedules ----

  /** hash is the offset hash of the schedule's stable key. */
  datatype Schedule = Timed(cron: Cron.Cron) | Between(window: Window.Window, hash: int -> nat)

  /** Instants are in nanoseconds; a cron occurrence is a whole second. */
  ghost predicate Occurs(s: Schedule, t: int) {
    match s
    case Timed(c) => t % Cron.NANOS == 0 && Cron.Matches(c, t / Cron.NANOS)
    case Between(w, hash) => Window.Occurs(w, hash, t)
  }

  /** t is the first occurrence after an instant. */
  ghost predicate Follows(s: Schedule, after: int, t: int) {
    after < t && Occurs(s, t) && forall u: int {:trigger Occurs(s, u)} | after < u < t :: !Occurs(s, u)
  }

  /** Parsing only makes schedules of this kind. */
  predicate Parsed(s: Schedule) {
    s.Between? ==> Window.Proper(s.window)
  }

  /** A cron search gives up after five years; a blank expression is never searched. */
  ghost predicate Findable(s: Schedule, after: int, t: int) {
    s.Timed? ==> !Cron.Blank(s.cron) && t <= Cron.Deadline(after)
  }

  /** The next run after an instant. */
  ghost function NextRun(s: Schedule, after: int): (r: Option<int>)
    ensures r.Some? ==> Follows(s, after, r.value) && Findable(s, after, r.value)
    ensures r.None? ==> forall t: int :: Follows(s, after, t) ==> !Findable(s, after, t)
  {
    if exists t: int :: Follows(s, after, t) && Findable(s, after, t) then
      var t: int :| Follows(s, after, t) && Findable(s, after, t);
      Some(t)
    else None
  }

  lemma FollowsUnique(s: Schedule, after: int, t: int, u: int)
    requires Follows(s, after, t) && Follows(s, after, u)
    ensures t == u
  {
  }

  lemma CronFollows(c: Cron.Cron, after: int, t: int)
    requires Cron.IsNext(c, after, t)
    ensures Follows(Timed(c), after, Cron.NANOS * t)
  {
    forall u: int | after < u < Cron.NANOS * t
      ensures !Occurs(Timed(c), u)
    {
      if u % Cron.NANOS == 0 {
        assert u == Cron.NANOS * (u / Cron.NANOS);
      }
    }
  }

  lemma CronNone(c: Cron.Cron, after: int, t: int)
    requires Cron.Blank(c) || forall u: int | after < Cron.NANOS * u <= Cron.Deadline(after) :: !Cron.Matches(c, u)
    ensures Follows(Timed(c), after, t) ==> !Findable(Timed(c), after, t)
  {
    assert t % Cron.NANOS == 0 ==> t == Cron.NANOS * (t / Cron.NANOS);
  }

  method NextOf(s: Schedule, after: int) returns (r: Option<int>)
    requires Parsed(s)
    ensures r == NextRun(s, after)
  {
    match s
    case Timed(c) =>
      var t := Cron.Next(c, after);
      if t.None? {
        forall u: int {
          CronNone(c, after, u);
        }
        return None;
      }
      CronFollows(c, after, t.value);
      FoundRun(s, after, Cron.NANOS * t.value);
      return Some(Cron.NANOS * t.value);
    case Between(w, hash) =>
      r := Window.Next(w, hash, after);
      FoundRun(s, after, r.value);
  }

  lemma FoundRun(s: Schedule, after: int, t: int)
    requires Follows(s, after, t) && Findable(s, after, t)
    ensures NextRun(s, after) == Some(t)
  {
    var r := NextRun(s, after);
    if r.Some? {
      FollowsUnique(s, after, t, r.value);
    }
  }

  /** The search for the next run, as a function. */
  ghost function Search(s: Schedule): int -> Option<int> {
    (after: int) => NextRun(s, after)
  }

  // ---- catching up ----

  /** The runs from the cursor up to now and the new cursor; None when there are more than limit, or no next run is found. */
  ghost function CatchUp(next: int -> Option<int>, cursor: int, now: int, limit: nat): Option<(seq<int>, int)>
    decreases limit
  {
    if cursor > now then Some(([], cursor))
    else if limit == 0 || next(cursor).None? then None
    else Prepend([cursor], CatchUp(next, next(cursor).value, now, limit - 1))
  }

  ghost function Prepend(due: seq<int>, r: Option<(seq<int>, int)>): Option<(seq<int>, int)> {
    if r.None? then None else Some((due + r.value.0, r.value.1))
  }

  lemma PrependTwice(a: seq<int>, b: seq<int>, r: Option<(seq<int>, int)>)
    ensures Prepend(a, Prepend(b, r)) == Prepend(a + b, r) && Prepend([], r) == r
  {
    assert r.Some? ==> a + (b + r.value.0) == (a + b) + r.value.0;
    assert r.Some? ==> [] + r.value.0 == r.value.0;
  }

  ghost predicate Ascending(ts: seq<int>) {
    forall i, j | 0 <= i < j < |ts| :: ts[i] < ts[j]
  }

  lemma AscendingCons(t: int, ts: seq<int>)
    requires Ascending(ts) && forall u | u in ts :: t < u
    ensures Ascending([t] + ts)
  {
    var all := [t] + ts;
    forall i, j | 0 <= i < j < |all|
      ensures all[i] < all[j]
    {
      assert all[j] in ts;
    }
  }

  /** due has every occurrence from the cursor up to now once and in order, and next is the one after them. */
  ghost predicate Exactly(s: Schedule, cursor: int, now: int, due: seq<int>, next: int) {
    && Ascending(due) && next > now && next >= cursor && Occurs(s, next)
    && (forall t: int {:trigger t in due} :: t in due <==> cursor <= t <= now && Occurs(s, t))
    && forall t: int {:trigger Occurs(s, t)} | now < t < next && cursor <= t :: !Occurs(s, t)
  }

  lemma ExactlyNext(s: Schedule, cursor: int, n: int, now: int, due: seq<int>, next: int)
    requires Exactly(s, n, now, due, next) && Occurs(s, cursor) && Follows(s, cursor, n) && cursor <= now
    ensures Exactly(s, cursor, now, [cursor] + due, next)
  {
    AscendingCons(cursor, due);
    forall t: int
      ensures t in [cursor] + due <==> cursor <= t <= now && Occurs(s, t)
    {
      assert t in due <==> n <= t <= now && Occurs(s, t);
    }
  }

  /** The runs are exactly the occurrences from the cursor up to now, in order and once each. */
  lemma CatchUpExact(s: Schedule, cursor: int, now: int, limit: nat)
    requires Occurs(s, cursor) && CatchUp(Search(s), cursor, now, limit).Some?
    ensures Exactly(s, cursor, now, CatchUp(Search(s), cursor, now, limit).value.0, CatchUp(Search(s), cursor, now, limit).value.1)
  {
    CatchUpFinds(s, Search(s), cursor, now, limit);
  }

  ghost predicate Finds(s: Schedule, next: int -> Option<int>) {
    forall after: int {:trigger next(after)} | next(after).Some? :: Follows(s, after, next(after).value)
  }

  lemma {:induction false} CatchUpFinds(s: Schedule, next: int -> Option<int>, cursor: int, now: int, limit: nat)
    requires Finds(s, next) && Occurs(s, cursor) && CatchUp(next, cursor, now, limit).Some?
    ensures Exactly(s, cursor, now, CatchUp(next, cursor, now, limit).value.0, CatchUp(next, cursor, now, limit).value.1)
    decreases limit
  {
    if cursor <= now {
      var n := next(cursor).value;
      CatchUpFinds(s, next, n, now, limit - 1);
      var rest := CatchUp(next, n, now, limit - 1).value;
      ExactlyNext(s, cursor, n, now, rest.0, rest.1);
    }
  }

  lemma {:induction false} MoreRoom(next: int -> Option<int>, cursor: int, now: int, limit: nat, more: nat)
    requires limit <= more && CatchUp(next, cursor, now, limit).Some?
    ensures CatchUp(next, cursor, now, more) == CatchUp(next, cursor, now, limit)
    decreases limit
  {
    if cursor <= now {
      MoreRoom(next, next(cursor).value, now, limit - 1, more - 1);
    }
  }

  /** Stopping half way and going on from there gives the same runs and the same cursor. */
  lemma {:induction false} CatchUpSplits(next: int -> Option<int>, cursor: int, half: int, now: int, limit: nat)
    requires half <= now && CatchUp(next, cursor, now, limit).Some?
    ensures CatchUp(next, cursor, half, limit).Some?
    ensures var first := CatchUp(next, cursor, half, limit).value;
            CatchUp(next, first.1, now, limit).Some? && CatchUp(next, cursor, now, limit) == Prepend(first.0, CatchUp(next, first.1, now, limit))
    decreases limit
  {
    if cursor <= half {
      var n := next(cursor).value;
      CatchUpSplits(next, n, half, now, limit - 1);
      var first := CatchUp(next, n, half, limit - 1).value;
      MoreRoom(next, first.1, now, limit - 1, limit);
      PrependTwice([cursor], first.0, CatchUp(next, first.1, now, limit));
    } else {
      PrependTwice([], [], CatchUp(next, cursor, now, limit));
    }
  }

  // ---- one schedule ----

  datatype Policy = Skip | Queue | RunOnce

  /** None is the zero time; an empty or unknown policy is Skip. */
  datatype State = State(schedule: Schedule, paused: bool, createdAt: Option<int>, lastRun: Option<int>, nextRun: Option<int>, policy: Policy, maxCatchUp: int)

  datatype Job = Job(dueAt: int, queuedAt: int)

  function Limit(st: State): nat {
    if st.maxCatchUp <= 0 then 1000 else st.maxCatchUp
  }

  function Seed(st: State, now: int): int {
    if st.lastRun.Some? then st.lastRun.value
    else if st.createdAt.Some? then st.createdAt.value
    else now
  }

  function JobsAt(due: seq<int>, now: int): (r: seq<Job>)
    ensures |r| == |due| && forall i | 0 <= i < |r| :: r[i] == Job(due[i], now)
  {
    seq(|due|, i requires 0 <= i < |due| => Job(due[i], now))
  }

  /** The jobs of one tick: all the runs, one run now, or the latest run. */
  function Jobs(policy: Policy, due: seq<int>, now: int): seq<Job> {
    if |due| == 0 then []
    else
      match policy
      case Queue => JobsAt(due, now)
      case RunOnce => [Job(now, now)]
      case Skip => [Job(due[|due| - 1], now)]
  }

  /** Where a state goes from its cursor. */
  ghost function Advance(st: State, cursor: int, now: int): Option<(State, seq<int>)> {
    var caught := CatchUp(Search(st.schedule), cursor, now, Limit(st));
    if caught.None? then None
    else
      var (due, next) := caught.value;
      Some((st.(lastRun := if |due| == 0 then st.lastRun else Some(due[|due| - 1]), nextRun := Some(next)), due))
  }

  /** The next state and the runs that are due, or None for an error. */
  ghost function Ticked(st: State, now: int): Option<(State, seq<int>)> {
    if st.paused then Some((st, []))
    else
      var cursor := if st.nextRun.Some? then st.nextRun else NextRun(st.schedule, Seed(st, now));
      if cursor.None? then None else Advance(st, cursor.value, now)
  }

  method TickOne(st: State, now: int) returns (r: Option<(State, seq<Job>)>)
    requires Parsed(st.schedule)
    ensures r.Some? <==> Ticked(st, now).Some?
    ensures r.Some? ==> r.value.0 == Ticked(st, now).value.0 && r.value.1 == Jobs(st.policy, Ticked(st, now).value.1, now)
  {
    if st.paused {
      return Some((st, []));
    }
    var cursor := st.nextRun;
    if cursor.None? {
      cursor := NextOf(st.schedule, Seed(st, now));
      if cursor.None? {
        return None;
      }
    }
    if cursor.value > now {
      return Some((st.(nextRun := cursor), []));
    }
    var caught := Collect(st.schedule, cursor.value, now, Limit(st));
    if caught.None? {
      return None;
    }
    var (due, next) := caught.value;
    return Some((st.(lastRun := Some(due[|due| - 1]), nextRun := Some(next)), Jobs(st.policy, due, now)));
  }

  /** What is left to do after collecting some runs gives the whole. */
  ghost predicate Pending(next: int -> Option<int>, whole: Option<(seq<int>, int)>, due: seq<int>, cursor: int, now: int, limit: nat) {
    |due| <= limit && whole == Prepend(due, CatchUp(next, cursor, now, limit - |due|))
  }

  lemma PendingDone(next: int -> Option<int>, whole: Option<(seq<int>, int)>, due: seq<int>, cursor: int, now: int, limit: nat)
    requires Pending(next, whole, due, cursor, now, limit) && cursor > now
    ensures whole == Some((due, cursor))
  {
    assert due + [] == due;
  }

  lemma PendingNext(next: int -> Option<int>, whole: Option<(seq<int>, int)>, due: seq<int>, cursor: int, now: int, limit: nat)
    requires Pending(next, whole, due, cursor, now, limit) && cursor <= now
    ensures |due| == limit || next(cursor).None? ==> whole.None?
    ensures |due| < limit && next(cursor).Some? ==> Pending(next, whole, due + [cursor], next(cursor).value, now, limit)
  {
    PrependNext(next, due, cursor, now, limit - |due|);
  }

  /** The loop of a tick: collect the runs that are due. */
  method Collect(s: Schedule, cursor: int, now: int, limit: nat) returns (r: Option<(seq<int>, int)>)
    requires Parsed(s) && cursor <= now
    ensures r == CatchUp(Search(s), cursor, now, limit) && (r.Some? ==> |r.value.0| > 0)
  {
    var due: seq<int>, next := [], cursor;
    ghost var whole := CatchUp(Search(s), cursor, now, limit);
    PrependTwice([], [], whole);
    while next <= now
      invariant Pending(Search(s), whole, due, next, now, limit) && (|due| == 0 ==> next <= now)
      decreases limit + 1 - |due|
    {
      var one := CollectOne(s, due, next, now, limit, whole);
      if one.None? {
        return None;
      }
      due, next := one.value.0, one.value.1;
    }
    PendingDone(Search(s), whole, due, next, now, limit);
    return Some((due, next));
  }

  method CollectOne(s: Schedule, due: seq<int>, next: int, now: int, limit: nat, ghost whole: Option<(seq<int>, int)>) returns (r: Option<(seq<int>, int)>)
    requires Parsed(s) && next <= now && Pending(Search(s), whole, due, next, now, limit)
    ensures r.Some? ==> r.value.0 == due + [next] && Pending(Search(s), whole, r.value.0, r.value.1, now, limit)
    ensures r.None? ==> whole.None?
  {
    PendingNext(Search(s), whole, due, next, now, limit);
    var due' := due + [next];
    if |due'| > limit {
      return None;
    }
    var after := NextOf(s, next);
    if after.None? {
      return None;
    }
    return Some((due', after.value));
  }

  lemma PrependNext(next: int -> Option<int>, due: seq<int>, cursor: int, now: int, room: nat)
    requires cursor <= now
    ensures room == 0 || next(cursor).None? ==> CatchUp(next, cursor, now, room).None?
    ensures room > 0 && next(cursor).Some? ==>
      Prepend(due, CatchUp(next, cursor, now, room)) == Prepend(due + [cursor], CatchUp(next, next(cursor).value, now, room - 1))
  {
    if room > 0 && next(cursor).Some? {
      PrependTwice(due, [cursor], CatchUp(next, next(cursor).value, now, room - 1));
    }
  }

  // ---- confluence ----

  /** The due times of the jobs of a tick. */
  function DueTimes(jobs: seq<Job>): (r: seq<int>)
    ensures |r| == |jobs| && forall i | 0 <= i < |r| :: r[i] == jobs[i].dueAt
  {
    seq(|jobs|, i requires 0 <= i < |jobs| => jobs[i].dueAt)
  }

  /**
   * Whenever one tick succeeds from a cursor, ticking at an earlier time first gives the same final
   * state and, one after the other, the same runs.
   */
  lemma Confluent(st: State, half: int, now: int)
    requires st.nextRun.Some? && half <= now && Ticked(st, now).Some?
    ensures Ticked(st, half).Some?
    ensures var first := Ticked(st, half).value;
            var second := Ticked(first.0, now);
            && first.0.nextRun.Some? && second.Some?
            && Ticked(st, now) == Some((second.value.0, first.1 + second.value.1))
  {
    if st.paused {
      assert [] + Ticked(st, now).value.1 == Ticked(st, now).value.1;
    } else {
      CatchUpSplits(Search(st.schedule), st.nextRun.value, half, now, Limit(st));
    }
  }

  /** Under the queue policy the jobs of the two ticks have the due times of the one. */
  lemma QueueConfluent(st: State, half: int, now: int)
    requires st.nextRun.Some? && half <= now && Ticked(st, now).Some? && st.policy == Queue
    ensures Ticked(st, half).Some? && Ticked(Ticked(st, half).value.0, now).Some?
    ensures var first := Ticked(st, half).value;
            var second := Ticked(first.0, now).value;
            DueTimes(Jobs(Queue, Ticked(st, now).value.1, now)) == DueTimes(Jobs(Queue, first.1, half)) + DueTimes(Jobs(Queue, second.1, now))
  {
    Confluent(st, half, now);
    var first := Ticked(st, half).value;
    var second := Ticked(first.0, now).value;
    QueueTimes(Ticked(st, now).value.1, now);
    QueueTimes(first.1, half);
    QueueTimes(second.1, now);
  }

  /** The queue policy makes a job of every run. */
  lemma QueueTimes(due: seq<int>, now: int)
    ensures DueTimes(Jobs(Queue, due, now)) == due
  {
  }

  /** From a cursor that is an occurrence, a tick finds exactly the occurrences up to now and leaves the cursor on the next one. */
  lemma TickExact(st: State, now: int)
    requires !st.paused && st.nextRun.Some? && Occurs(st.schedule, st.nextRun.value) && Ticked(st, now).Some?
    ensures var (st', due) := Ticked(st, now).value;
            st'.nextRun.Some? && Exactly(st.schedule, st.nextRun.value, now, due, st'.nextRun.value)
  {
    CatchUpExact(st.schedule, st.nextRun.value, now, Limit(st));
  }

  /** The latest occurrence from the cursor up to now. */
  ghost predicate IsLatest(s: Schedule, cursor: int, now: int, t: int) {
    cursor <= t <= now && Occurs(s, t) && forall u: int {:trigger Occurs(s, u)} | t < u <= now :: !Occurs(s, u)
  }

  ghost predicate AnyDue(s: Schedule, cursor: int, now: int) {
    exists t: int :: cursor <= t <= now && Occurs(s, t)
  }

  lemma AboveLast(due: seq<int>, u: int)
    requires Ascending(due) && |due| > 0 && due[|due| - 1] < u
    ensures u !in due
  {
  }

  lemma LastIsLatest(s: Schedule, cursor: int, now: int, due: seq<int>, next: int)
    requires Exactly(s, cursor, now, due, next)
    ensures |due| > 0 <==> AnyDue(s, cursor, now)
    ensures |due| > 0 ==> IsLatest(s, cursor, now, due[|due| - 1])
  {
    if AnyDue(s, cursor, now) {
      var t: int :| cursor <= t <= now && Occurs(s, t);
      assert t in due;
    }
    if |due| > 0 {
      var last := due[|due| - 1];
      assert last in due;
      forall u: int | last < u <= now
        ensures !Occurs(s, u)
      {
        AboveLast(due, u);
      }
    }
  }

  /**
   * The jobs of a tick by policy.  None unless an occurrence is due; then one for every occurrence, or one
   * that is due now, or one that is due at the latest occurrence.  That one becomes the last run.
   */
  lemma TickJobs(st: State, now: int)
    requires !st.paused && st.nextRun.Some? && Occurs(st.schedule, st.nextRun.value) && Ticked(st, now).Some?
    ensures var (st', due) := Ticked(st, now).value;
            var jobs := Jobs(st.policy, due, now);
            var cursor := st.nextRun.value;
            && (|jobs| > 0 <==> AnyDue(st.schedule, cursor, now))
            && (forall i | 0 <= i < |jobs| :: jobs[i].queuedAt == now)
            && (|jobs| > 0 ==> st'.lastRun.Some? && IsLatest(st.schedule, cursor, now, st'.lastRun.value))
            && (|jobs| == 0 ==> st'.lastRun == st.lastRun)
            && (st.policy == Queue ==> DueTimes(jobs) == due)
            && (st.policy == RunOnce && |jobs| > 0 ==> |jobs| == 1 && jobs[0].dueAt == now)
            && (st.policy == Skip && |jobs| > 0 ==> |jobs| == 1 && IsLatest(st.schedule, cursor, now, jobs[0].dueAt))
  {
    TickExact(st, now);
    var (st', due) := Ticked(st, now).value;
    LastIsLatest(st.schedule, st.nextRun.value, now, due, st'.nextRun.value);
    QueueTimes(due, now);
  }

  /** Searching on from the cursor passes n occurrences before it is past now. */
  ghost predicate Passes(next: int -> Option<int>, cursor: int, now: int, n: nat)
    decreases n
  {
    if n == 0 then cursor > now else cursor <= now && next(cursor).Some? && Passes(next, next(cursor).value, now, n - 1)
  }

  lemma {:induction false} CatchUpPasses(next: int -> Option<int>, cursor: int, now: int, limit: nat)
    requires CatchUp(next, cursor, now, limit).Some?
    ensures var n := |CatchUp(next, cursor, now, limit).value.0|; n <= limit && Passes(next, cursor, now, n)
    decreases limit
  {
    if cursor <= now {
      CatchUpPasses(next, next(cursor).value, now, limit - 1);
    }
  }

  lemma {:induction false} PassesCatchUp(next: int -> Option<int>, cursor: int, now: int, limit: nat, n: nat)
    requires n <= limit && Passes(next, cursor, now, n)
    ensures CatchUp(next, cursor, now, limit).Some?
    decreases n
  {
    if n > 0 {
      PassesCatchUp(next, next(cursor).value, now, limit - 1, n - 1);
    }
  }

  /** It is past now after no more than this many occurrences. */
  ghost predicate CatchesUp(next: int -> Option<int>, cursor: int, now: int, most: nat) {
    exists n: nat :: n <= most && Passes(next, cursor, now, n)
  }

  lemma CatchUpIff(next: int -> Option<int>, cursor: int, now: int, limit: nat)
    ensures CatchUp(next, cursor, now, limit).Some? <==> CatchesUp(next, cursor, now, limit)
  {
    if CatchUp(next, cursor, now, limit).Some? {
      CatchUpPasses(next, cursor, now, limit);
    }
    if CatchesUp(next, cursor, now, limit) {
      var n: nat :| n <= limit && Passes(next, cursor, now, n);
      PassesCatchUp(next, cursor, now, limit, n);
    }
  }

  /**
   * When a tick succeeds: a paused schedule stays as it is; another one catches up if and only if it takes
   * no more runs than allowed, a thousand by default, and the search finds an occurrence after each.
   */
  lemma TickSucceeds(st: State, now: int)
    ensures st.paused ==> Ticked(st, now) == Some((st, []))
    ensures !st.paused && st.nextRun.Some? ==>
      (Ticked(st, now).Some? <==>
        CatchesUp(Search(st.schedule), st.nextRun.value, now, if st.maxCatchUp > 0 then st.maxCatchUp else 1000))
  {
    if !st.paused && st.nextRun.Some? {
      CatchUpIff(Search(st.schedule), st.nextRun.value, now, Limit(st));
    }
  }

  /** A schedule without a cursor starts at its first occurrence after the last run, the creation, or now. */
  lemma TickSeeds(st: State, now: int)
    requires !st.paused && st.nextRun.None?
    ensures var seed := if st.lastRun.Some? then st.lastRun.value else if st.createdAt.Some? then st.createdAt.value else now;
            var first := NextRun(st.schedule, seed);
            if first.None? then Ticked(st, now).None?
            else Follows(st.schedule, seed, first.value) && Ticked(st, now) == Ticked(st.(nextRun := first), now)
  {
  }

  /** Ticks at several times, and all the runs they found. */
  ghost function TickRun(st: State, nows: seq<int>): Option<(State, seq<int>)>
    decreases |nows|
  {
    if |nows| == 0 then Some((st, []))
    else
      var first := Ticked(st, nows[0]);
      if first.None? then None
      else
        var rest := TickRun(first.value.0, nows[1..]);
        if rest.None? then None else Some((rest.value.0, first.value.1 + rest.value.1))
  }

  /** Any number of ticks on the way changes nothing: no run is lost or repeated. */
  lemma {:induction false} RunConfluent(st: State, nows: seq<int>)
    requires st.nextRun.Some? && |nows| > 0 && (forall i, j | 0 <= i < j < |nows| :: nows[i] <= nows[j])
    requires Ticked(st, nows[|nows| - 1]).Some?
    ensures TickRun(st, nows) == Ticked(st, nows[|nows| - 1])
    decreases |nows|
  {
    var last := nows[|nows| - 1];
    Confluent(st, nows[0], last);
    var first := Ticked(st, nows[0]).value;
    if |nows| == 1 {
      assert first.1 + [] == first.1;
    } else {
      RunConfluent(first.0, nows[1..]);
    }
  }

  // ---- all schedules ----

  ghost function TickedAll(states: seq<State>, now: int): Option<seq<State>> {
    if |states| == 0 then Some([])
    else
      var first, rest := Ticked(states[0], now), TickedAll(states[1..], now);
      if first.None? || rest.None? then None else Some([first.value.0] + rest.value)
  }

  /** The jobs of all schedules, in their order. */
  ghost function AllJobs(states: seq<State>, now: int): seq<Job>
    requires TickedAll(states, now).Some?
  {
    if |states| == 0 then [] else Jobs(states[0].policy, Ticked(states[0], now).value.1, now) + AllJobs(states[1..], now)
  }

  /** The first i schedules are done: with the rest ticked the same way, that is the whole tick. */
  ghost predicate Done(states: seq<State>, now: int, i: nat, updated: seq<State>, jobs: seq<Job>)
    requires i <= |states|
  {
    var rest := TickedAll(states[i..], now);
    if rest.None? then TickedAll(states, now).None?
    else TickedAll(states, now) == Some(updated + rest.value) && AllJobs(states, now) == jobs + AllJobs(states[i..], now)
  }

  lemma DoneStart(states: seq<State>, now: int)
    ensures Done(states, now, 0, [], [])
  {
    assert states[0..] == states;
    var all := TickedAll(states, now);
    assert all.Some? ==> [] + all.value == all.value && [] + AllJobs(states, now) == AllJobs(states, now);
  }

  lemma TailStates(states: seq<State>, i: nat)
    requires i < |states|
    ensures states[i..][0] == states[i] && states[i..][1..] == states[i + 1..]
  {
  }

  lemma DoneNext(states: seq<State>, now: int, i: nat, updated: seq<State>, jobs: seq<Job>)
    requires i < |states| && Done(states, now, i, updated, jobs)
    ensures Ticked(states[i], now).None? ==> TickedAll(states, now).None?
    ensures Ticked(states[i], now).Some? ==>
      Done(states, now, i + 1, updated + [Ticked(states[i], now).value.0], jobs + Jobs(states[i].policy, Ticked(states[i], now).value.1, now))
  {
    TailStates(states, i);
    var one, rest := Ticked(states[i], now), TickedAll(states[i + 1..], now);
    if one.Some? && rest.Some? {
      Assoc(updated, [one.value.0], rest.value);
      Assoc(jobs, Jobs(states[i].policy, one.value.1, now), AllJobs(states[i + 1..], now));
    }
  }

  lemma DoneEnd(states: seq<State>, now: int, updated: seq<State>, jobs: seq<Job>)
    requires Done(states, now, |states|, updated, jobs)
    ensures TickedAll(states, now) == Some(updated) && AllJobs(states, now) == jobs
  {
    assert states[|states|..] == [];
    NothingBetween(updated, []);
    NothingBetween(jobs, []);
  }

  /** The next schedule. */
  method TickNext(states: seq<State>, now: int, i: nat, updated: seq<State>, jobs: seq<Job>) returns (r: Option<(seq<State>, seq<Job>)>)
    requires i < |states| && Parsed(states[i].schedule) && Done(states, now, i, updated, jobs)
    ensures r.Some? ==> Done(states, now, i + 1, r.value.0, r.value.1)
    ensures r.None? ==> TickedAll(states, now).None?
  {
    DoneNext(states, now, i, updated, jobs);
    var one := TickOne(states[i], now);
    if one.None? {
      return None;
    }
    return Some((updated + [one.value.0], jobs + one.value.1));
  }

  /** One tick of all schedules: an error in one of them changes none. */
  method Tick(states: seq<State>, now: int) returns (r: Option<(seq<Job>, seq<State>)>)
    requires forall i | 0 <= i < |states| :: Parsed(states[i].schedule)
    ensures r.Some? <==> TickedAll(states, now).Some?
    ensures r.Some? ==> r.value.1 == TickedAll(states, now).value && r.value.0 == AllJobs(states, now)
  {
    var updated: seq<State>, jobs: seq<Job> := [], [];
    var i := 0;
    DoneStart(states, now);
    while i < |states|
      invariant i <= |states| && Done(states, now, i, updated, jobs)
    {
      var next := TickNext(states, now, i, updated, jobs);
      if next.None? {
        return None;
      }
      updated, jobs := next.value.0, next.value.1;
      i := i + 1;
    }
    DoneEnd(states, now, updated, jobs);
    return Some((jobs, updated));
  }

  /** The runs a tick finds, schedule by schedule. */
  ghost function AllRuns(states: seq<State>, now: int): (r: seq<seq<int>>)
    requires TickedAll(states, now).Some?
    ensures |r| == |states|
  {
    if |states| == 0 then [] else [Ticked(states[0], now).value.1] + AllRuns(states[1..], now)
  }

  /** The runs of one tick, then those of another, schedule by schedule. */
  ghost function Followed(a: seq<seq<int>>, b: seq<seq<int>>): (r: seq<seq<int>>)
    requires |a| == |b|
    ensures |r| == |a| && forall i | 0 <= i < |a| :: r[i] == a[i] + b[i]
  {
    seq(|a|, i requires 0 <= i < |a| => a[i] + b[i])
  }

  lemma FollowedHead(x: seq<int>, a: seq<seq<int>>, y: seq<int>, b: seq<seq<int>>)
    requires |a| == |b|
    ensures Followed([x] + a, [y] + b) == [x + y] + Followed(a, b)
  {
  }

  /** Confluence for all schedules together: the same states, and each schedule the same runs. */
  lemma {:induction false} AllConfluent(states: seq<State>, half: int, now: int)
    requires half <= now && TickedAll(states, now).Some? && forall i | 0 <= i < |states| :: states[i].nextRun.Some?
    ensures TickedAll(states, half).Some? && |TickedAll(states, half).value| == |states|
    ensures TickedAll(TickedAll(states, half).value, now) == TickedAll(states, now)
    ensures AllRuns(states, now) == Followed(AllRuns(states, half), AllRuns(TickedAll(states, half).value, now))
  {
    if |states| > 0 {
      Confluent(states[0], half, now);
      AllConfluent(states[1..], half, now);
      var first := Ticked(states[0], half).value;
      var rest := TickedAll(states[1..], half).value;
      assert ([first.0] + rest)[1..] == rest;
      FollowedHead(first.1, AllRuns(states[1..], half), Ticked(first.0, now).value.1, AllRuns(rest, now));
    }
  }
}
