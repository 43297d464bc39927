/**
 * Transactions, process deaths, crashes and recoveries together: what the database holds whenever it
 * is open, in terms of the transactions that were started on it.
 */
module Sessions {
  import opened Bytes
  import opened Options
  import opened NodePage
  import opened BTree
  import opened Db
  import opened Transactions
  import Wal
  import LostLog
  import StaleLog

  /** A transaction that was started, and how it ended. */
  datatype Txn = Txn(ops: seq<Op>, outcome: Wal.Outcome)

  /** The file system with the calls of the database on it, and the transactions so far. */
  datatype Session = Session(s: Wal.State, txns: seq<Txn>)

  function DbFile(x: Session): Bytes
    requires Wal.Wf(x.s.disk)
  {
    Wal.Contents(x.s.disk, Wal.Db).bytes
  }

  function Last(txns: seq<Txn>): Txn
    requires |txns| > 0
  {
    txns[|txns| - 1]
  }

  function Before(txns: seq<Txn>): seq<Txn>
    requires |txns| > 0
  {
    txns[..|txns| - 1]
  }

  /** The first call of Update starts a transaction; every call updates what is known of the latest. */
  function Noted(txns: seq<Txn>, e: Wal.Event, ops: seq<Op>, outcome: Wal.Outcome): seq<Txn> {
    if e == Wal.OpenTmp then txns + [Txn(ops, outcome)]
    else if txns == [] then []
    else Before(txns) + [Last(txns).(outcome := outcome)]
  }

  /**
   * One call, a death or a crash.  What a transaction flushes is what its operations make of the file
   * it started from; before that it may write anything.
   */
  ghost predicate Next(x: Session, e: Wal.Event, ops: seq<Op>, y: Session) {
    && Wal.Wf(x.s.disk) && Wal.Step(x.s, e) == Some(y.s)
    && y.txns == Noted(x.txns, e, ops, y.s.outcome)
    && (e == Wal.Flush && x.txns != [] ==> Transforms(x.s.base, Last(x.txns).ops, DbFile(x)))
  }

  /** The calls, deaths and crashes lead from one state to the other. */
  ghost predicate Runs(x: Session, es: seq<Wal.Event>, opss: seq<seq<Op>>, y: Session)
    requires |opss| == |es|
    decreases |es|
  {
    if es == [] then y == x
    else exists z: Session :: Next(x, es[0], opss[0], z) && Runs(z, es[1..], opss[1..], y)
  }

  /** A closed database file of the given shape, on which no transaction was started. */
  ghost predicate Closed(x: Session, init: Shape) {
    Wal.Initial(x.s) && x.txns == [] && FileIs(DbFile(x), init)
  }

  // ---- what the transactions allow ----

  ghost predicate After(a: Shape, txn: Txn, b: Shape) {
    match txn.outcome
    case Committed => Reaches(a, txn.ops, b)
    case Failed => b == a
    case _ => b == a || Reaches(a, txn.ops, b)
  }

  ghost predicate CanReach(init: Shape, txns: seq<Txn>, b: Shape)
    decreases |txns|
  {
    if txns == [] then b == init else exists a: Shape :: CanReach(init, Before(txns), a) && After(a, Last(txns), b)
  }

  /**
   * The pairs the transactions allow: one that returned nil took effect, one that returned an error
   * did not, and one that was cut off took effect as a whole or not at all.
   */
  ghost predicate CanHold(init: map<Bytes, Bytes>, txns: seq<Txn>, pairs: map<Bytes, Bytes>)
    decreases |txns|
  {
    if txns == [] then pairs == init
    else exists before: map<Bytes, Bytes> :: CanHold(init, Before(txns), before) && PairsAfter(before, Last(txns), pairs)
  }

  ghost predicate PairsAfter(before: map<Bytes, Bytes>, txn: Txn, pairs: map<Bytes, Bytes>) {
    var all := AppliedAll(before, txn.ops, |txn.ops|);
    match txn.outcome
    case Committed => pairs == all
    case Failed => pairs == before
    case _ => pairs == before || pairs == all
  }

  lemma AfterPairs(a: Shape, txn: Txn, b: Shape)
    requires After(a, txn, b)
    ensures PairsAfter(PairsOf(a), txn, PairsOf(b))
  {
    if Reaches(a, txn.ops, b) {
      var trace: seq<Shape> :| Transactions.Leads(trace, txn.ops, a, b);
      TracePairs(trace, txn.ops, |txn.ops|);
    }
  }

  lemma {:induction false} ReachPairs(init: Shape, txns: seq<Txn>, b: Shape)
    requires CanReach(init, txns, b)
    ensures CanHold(PairsOf(init), txns, PairsOf(b))
    decreases |txns|
  {
    if txns != [] {
      var a: Shape :| CanReach(init, Before(txns), a) && After(a, Last(txns), b);
      ReachPairs(init, Before(txns), a);
      AfterPairs(a, Last(txns), b);
    }
  }

  /** When no transaction was cut off there is only one map the transactions allow. */
  lemma {:induction false} CanHoldOne(init: map<Bytes, Bytes>, txns: seq<Txn>, pairs: map<Bytes, Bytes>, pairs': map<Bytes, Bytes>)
    requires forall i | 0 <= i < |txns| :: txns[i].outcome == Wal.Committed || txns[i].outcome == Wal.Failed
    requires CanHold(init, txns, pairs) && CanHold(init, txns, pairs')
    ensures pairs == pairs'
    decreases |txns|
  {
    if txns != [] {
      var before: map<Bytes, Bytes> :| CanHold(init, Before(txns), before) && PairsAfter(before, Last(txns), pairs);
      var before': map<Bytes, Bytes> :| CanHold(init, Before(txns), before') && PairsAfter(before', Last(txns), pairs');
      CanHoldOne(init, Before(txns), before, before');
    }
  }

  // ---- the invariant ----

  /** The latest transaction started from this shape, and what it flushed is what its operations make of it. */
  ghost predicate Started(x: Session, a: Shape)
    requires |x.txns| > 0
  {
    && FileIs(x.s.base, a)
    && (x.s.next.Some? ==> Becomes(a, Last(x.txns).ops, x.s.next.value))
  }

  ghost predicate Sound(x: Session, init: Shape) {
    && Wal.Inv(x.s)
    && if x.txns == [] then x.s.outcome == Wal.Committed && x.s.next.Some? && FileIs(x.s.next.value, init)
       else Last(x.txns).outcome == x.s.outcome && exists a: Shape :: CanReach(init, Before(x.txns), a) && Started(x, a)
  }

  /** Before the first Update, or with the Update that is noted last. */
  ghost predicate Tracked(x: Session) {
    x.txns == [] ==> x.s.pc in {Wal.Idle, Wal.Down} && x.s.db != Wal.Unusable
  }

  ghost predicate Good(x: Session, init: Shape) {
    Sound(x, init) && Tracked(x)
  }

  /** An open database has a shape the transactions allow. */
  lemma IdleShape(x: Session, init: Shape) returns (b: Shape)
    requires Sound(x, init) && x.s.pc == Wal.Idle
    ensures FileIs(DbFile(x), b) && CanReach(init, x.txns, b)
  {
    Wal.IdleSettled(x.s);
    if x.txns == [] {
      b := init;
    } else {
      var a: Shape :| CanReach(init, Before(x.txns), a) && Started(x, a);
      if x.s.next == Some(DbFile(x)) && x.s.outcome != Wal.Failed {
        b :| FileIs(x.s.next.value, b) && Reaches(a, Last(x.txns).ops, b);
      } else {
        b := a;
      }
      assert After(a, Last(x.txns), b);
    }
  }

  /** A database that an Update left behind unchanged has a shape the transactions allow as well. */
  lemma StuckShape(x: Session, init: Shape) returns (b: Shape)
    requires Good(x, init) && x.s.pc == Wal.Stuck && DbFile(x) == x.s.base
    ensures FileIs(DbFile(x), b) && CanReach(init, x.txns, b)
  {
    StuckFailed(x, init);
    b :| CanReach(init, Before(x.txns), b) && Started(x, b);
    ReachesMore(init, x.txns, b, b);
  }

  lemma StuckFailed(x: Session, init: Shape)
    requires Good(x, init) && x.s.pc == Wal.Stuck
    ensures x.txns != [] && Last(x.txns).outcome == Wal.Failed
  {
    Wal.StuckFailed(x.s);
    assert Tracked(x);
  }

  lemma ReachesMore(init: Shape, txns: seq<Txn>, a: Shape, b: Shape)
    requires txns != [] && CanReach(init, Before(txns), a) && After(a, Last(txns), b)
    ensures CanReach(init, txns, b)
  {
  }

  lemma StartShape(x: Session, init: Shape) returns (b: Shape)
    requires Good(x, init) && Wal.Step(x.s, Wal.OpenTmp).Some? && Wal.Prudent(x.s, Wal.OpenTmp)
    ensures FileIs(DbFile(x), b) && CanReach(init, x.txns, b)
  {
    if x.s.pc == Wal.Idle {
      b := IdleShape(x, init);
    } else {
      b := StuckShape(x, init);
    }
  }

  lemma StartStep(x: Session, ops: seq<Op>, y: Session, init: Shape)
    requires Good(x, init) && Next(x, Wal.OpenTmp, ops, y) && Wal.Fair(x.s, Wal.OpenTmp)
    ensures Good(y, init)
  {
    Wal.StepKeeps(x.s, Wal.OpenTmp);
    var b := StartShape(x, init);
    assert Before(y.txns) == x.txns;
    assert Started(y, b);
  }

  /** The same transaction goes on, and may have flushed. */
  lemma GoesOn(x: Session, y: Session, init: Shape)
    requires Sound(x, init) && |x.txns| > 0 && Wal.Inv(y.s) && y.s.base == x.s.base
    requires y.txns == Before(x.txns) + [Last(x.txns).(outcome := y.s.outcome)]
    requires y.s.next == x.s.next || y.s.next.None? || (y.s.next.Some? && Transforms(x.s.base, Last(x.txns).ops, y.s.next.value))
    ensures Sound(y, init)
  {
    var a: Shape :| CanReach(init, Before(x.txns), a) && Started(x, a);
    assert Before(y.txns) == Before(x.txns);
    assert Started(y, a);
  }

  lemma FlushImages(s: Wal.State)
    requires Wal.Wf(s.disk) && Wal.Step(s, Wal.Flush).Some?
    ensures s.pc == Wal.Running && Wal.Step(s, Wal.Flush).value.base == s.base
    ensures Wal.Step(s, Wal.Flush).value.next == Some(Wal.Contents(s.disk, Wal.Db).bytes)
  {
  }

  lemma FlushStep(x: Session, ops: seq<Op>, y: Session, init: Shape)
    requires Good(x, init) && Next(x, Wal.Flush, ops, y)
    ensures Good(y, init)
  {
    Wal.StepKeeps(x.s, Wal.Flush);
    FlushImages(x.s);
    GoesOn(x, y, init);
  }

  /** Any other call keeps the images of the latest Update. */
  lemma ImagesKept(s: Wal.State, e: Wal.Event)
    requires Wal.Wf(s.disk) && Wal.Step(s, e).Some? && e != Wal.OpenTmp && e != Wal.Flush
    ensures Wal.Step(s, e).value.base == s.base
    ensures Wal.Step(s, e).value.next == s.next || (e == Wal.RemoveFails && Wal.Step(s, e).value.next.None?)
  {
  }

  /** Before the first Update nothing but deaths and recoveries happens. */
  lemma QuietKept(s: Wal.State, e: Wal.Event)
    requires Wal.Inv(s) && s.pc in {Wal.Idle, Wal.Down} && s.db != Wal.Unusable && s.outcome == Wal.Committed
    requires Wal.Step(s, e).Some? && e != Wal.OpenTmp
    ensures Wal.Step(s, e).value.pc in {Wal.Idle, Wal.Down} && Wal.Step(s, e).value.db != Wal.Unusable
    ensures Wal.Step(s, e).value.outcome == Wal.Committed && e != Wal.RemoveFails
  {
    assert Wal.SafeAt(s, |s.disk.dirs| - 1);
  }

  lemma OtherStep(x: Session, e: Wal.Event, ops: seq<Op>, y: Session, init: Shape)
    requires Good(x, init) && Next(x, e, ops, y) && Wal.Fair(x.s, e) && e != Wal.OpenTmp && e != Wal.Flush
    ensures Good(y, init)
  {
    Wal.StepKeeps(x.s, e);
    ImagesKept(x.s, e);
    if x.txns == [] {
      QuietKept(x.s, e);
    } else {
      GoesOn(x, y, init);
    }
  }

  lemma NextKeeps(x: Session, e: Wal.Event, ops: seq<Op>, y: Session, init: Shape)
    requires Good(x, init) && Next(x, e, ops, y) && Wal.Fair(x.s, e)
    ensures Good(y, init)
  {
    if e == Wal.OpenTmp {
      StartStep(x, ops, y, init);
    } else if e == Wal.Flush {
      FlushStep(x, ops, y, init);
    } else {
      OtherStep(x, e, ops, y, init);
    }
  }

  lemma ClosedGood(x: Session, init: Shape)
    requires Closed(x, init)
    ensures Good(x, init)
  {
    Wal.InitialInv(x.s);
  }

  lemma {:induction false} RunsGood(x: Session, es: seq<Wal.Event>, opss: seq<seq<Op>>, y: Session, init: Shape)
    requires |opss| == |es| && Runs(x, es, opss, y) && Good(x, init) && Wal.AllFair(x.s, es)
    ensures Good(y, init)
    decreases |es|
  {
    if es != [] {
      var z: Session :| Next(x, es[0], opss[0], z) && Runs(z, es[1..], opss[1..], y);
      NextKeeps(x, es[0], opss[0], z, init);
      RunsGood(z, es[1..], opss[1..], y, init);
    }
  }

  /**
   * Crash atomicity in terms of the pairs.  In every run, of any number of transactions, process
   * deaths, crashes and recoveries, in which no crash brings back a stale log and no transaction is
   * started on a half-changed database: whenever the database is open its file is a database, and its
   * pairs are those of the transactions that returned nil, in order, with each of those that were cut
   * off either there as a whole or not at all, and none of those that returned an error.
   */
  lemma SessionHolds(x: Session, es: seq<Wal.Event>, opss: seq<seq<Op>>, y: Session, init: Shape) returns (b: Shape)
    requires |opss| == |es| && Closed(x, init) && Runs(x, es, opss, y) && y.s.pc == Wal.Idle
    requires Wal.Wf(x.s.disk) && Wal.AllFair(x.s, es)
    ensures Wal.Wf(y.s.disk) && FileIs(DbFile(y), b) && CanReach(init, y.txns, b)
    ensures CanHold(PairsOf(init), y.txns, PairsOf(b))
  {
    ClosedGood(x, init);
    RunsGood(x, es, opss, y, init);
    b := IdleShape(y, init);
    ReachPairs(init, y.txns, b);
  }

  /** Opening the file after any run gives a tree object with the pairs the transactions allow. */
  method Reopen(file: Bytes, limit: nat, ghost x: Session, ghost es: seq<Wal.Event>, ghost opss: seq<seq<Op>>, ghost y: Session, ghost init: Shape)
    returns (r: Option<BTree>, ghost b: Shape)
    requires |opss| == |es| && Closed(x, init) && Runs(x, es, opss, y) && y.s.pc == Wal.Idle && Wal.Wf(y.s.disk) && file == DbFile(y)
    requires Wal.Wf(x.s.disk) && Wal.AllFair(x.s, es)
    requires 0 < limit < U64_LIMIT && |file| <= limit * PAGE_SIZE
    ensures r.Some? && At(r.value, b) && CanHold(PairsOf(init), y.txns, PairsOf(b))
  {
    b := SessionHolds(x, es, opss, y, init);
    r := Open(file, limit, b);
  }

  // ---- a transaction that returns nil ----

  /** No Kill and no crash. */
  predicate Alive(es: seq<Wal.Event>) {
    forall e <- es :: e != Wal.Kill && !e.Crash?
  }

  /** The calls lead from one state to the other, whatever the operations are. */
  ghost predicate Follows(x: Session, es: seq<Wal.Event>, y: Session) {
    exists opss: seq<seq<Op>> :: |opss| == |es| && Runs(x, es, opss, y)
  }

  lemma FollowsFrom(x: Session, e: Wal.Event, ops: seq<Op>, w: Session, es: seq<Wal.Event>, y: Session)
    requires Next(x, e, ops, w) && Follows(w, es, y)
    ensures Follows(x, [e] + es, y)
  {
    var opss: seq<seq<Op>> :| |opss| == |es| && Runs(w, es, opss, y);
    RunsFrom(x, e, ops, w, es, opss, y);
  }

  lemma RunsFrom(x: Session, e: Wal.Event, ops: seq<Op>, w: Session, es: seq<Wal.Event>, opss: seq<seq<Op>>, y: Session)
    requires |opss| == |es| && Next(x, e, ops, w) && Runs(w, es, opss, y)
    ensures Runs(x, [e] + es, [ops] + opss, y)
  {
    assert ([e] + es)[1..] == es && ([ops] + opss)[1..] == opss;
  }

  /** A transaction that has made its first i calls. */
  ghost predicate Underway(x: Session, i: nat, txns: seq<Txn>, ops: seq<Op>, before: Bytes, image: Bytes) {
    && StaleLog.Reached(x.s, i, before, image)
    && if i == 0 then x.txns == txns else |x.txns| > 0 && Before(x.txns) == txns && Last(x.txns).ops == ops
  }

  lemma NotedNext(x: Session, i: nat, txns: seq<Txn>, ops: seq<Op>, image: Bytes, e: Wal.Event, outcome: Wal.Outcome)
    requires if i == 0 then x.txns == txns && e == Wal.OpenTmp else |x.txns| > 0 && Before(x.txns) == txns && Last(x.txns).ops == ops && e != Wal.OpenTmp
    ensures Noted(x.txns, e, ops, outcome) == txns + [Txn(ops, outcome)]
    ensures Before(txns + [Txn(ops, outcome)]) == txns && Last(txns + [Txn(ops, outcome)]) == Txn(ops, outcome)
  {
  }

  /** Call i of it, counted from 0. */
  lemma UnderwayStep(x: Session, i: nat, txns: seq<Txn>, ops: seq<Op>, before: Bytes, image: Bytes) returns (y: Session)
    requires Underway(x, i, txns, ops, before, image) && i < 8 && Transforms(before, ops, image)
    ensures Next(x, StaleLog.Update(image)[i], ops, y) && Underway(y, i + 1, txns, ops, before, image)
  {
    var e := StaleLog.Update(image)[i];
    StaleLog.CallAt(i, image);
    var t := StaleLog.UpdateStep(x.s, i, before, image);
    NotedNext(x, i, txns, ops, image, e, t.outcome);
    y := Session(t, txns + [Txn(ops, t.outcome)]);
  }

  lemma UnderwayEnds(x: Session, txns: seq<Txn>, ops: seq<Op>, before: Bytes, image: Bytes) returns (y: Session)
    requires Underway(x, 8, txns, ops, before, image)
    ensures Follows(x, [Wal.Commit], y) && StaleLog.Landed(y.s, before, image) && y.txns == txns + [Txn(ops, Wal.Committed)]
  {
    var t := StaleLog.Lands(x.s, before, image);
    NotedNext(x, 8, txns, ops, image, Wal.Commit, Wal.Committed);
    y := Session(t, txns + [Txn(ops, Wal.Committed)]);
    assert Next(x, Wal.Commit, ops, y);
    assert Runs(y, [], [], y);
    assert Follows(y, [], y);
    FollowsFrom(x, Wal.Commit, ops, y, [], y);
  }

  lemma {:induction false} UnderwayRuns(x: Session, i: nat, txns: seq<Txn>, ops: seq<Op>, before: Bytes, image: Bytes) returns (y: Session)
    requires Underway(x, i, txns, ops, before, image) && i <= 8 && Transforms(before, ops, image)
    ensures Follows(x, StaleLog.Committing(image)[i..], y) && StaleLog.Landed(y.s, before, image) && y.txns == txns + [Txn(ops, Wal.Committed)]
    decreases 8 - i
  {
    CallsFrom(i, image);
    if i == 8 {
      y := UnderwayEnds(x, txns, ops, before, image);
    } else {
      var z := UnderwayStep(x, i, txns, ops, before, image);
      y := UnderwayRuns(z, i + 1, txns, ops, before, image);
      FollowsFrom(x, StaleLog.Update(image)[i], ops, z, StaleLog.Committing(image)[i + 1..], y);
    }
  }

  lemma CallsFrom(i: nat, image: Bytes)
    requires i <= 8
    ensures |StaleLog.Committing(image)| == 9
    ensures StaleLog.Committing(image)[i..] == if i == 8 then [Wal.Commit] else [StaleLog.Update(image)[i]] + StaleLog.Committing(image)[i + 1..]
  {
  }

  /** The operations make these pairs of some that were allowed before. */
  ghost predicate CanBecome(init: map<Bytes, Bytes>, txns: seq<Txn>, ops: seq<Op>, pairs: map<Bytes, Bytes>) {
    exists before: map<Bytes, Bytes> :: CanHold(init, txns, before) && pairs == AppliedAll(before, ops, |ops|)
  }

  /** After a transaction that returned nil nothing is allowed but its effect. */
  lemma CommittedHold(init: map<Bytes, Bytes>, txns: seq<Txn>, ops: seq<Op>, pairs: map<Bytes, Bytes>)
    ensures CanHold(init, txns + [Txn(ops, Wal.Committed)], pairs) <==> CanBecome(init, txns, ops, pairs)
  {
    var all := txns + [Txn(ops, Wal.Committed)];
    assert Before(all) == txns && Last(all) == Txn(ops, Wal.Committed);
    if CanHold(init, all, pairs) {
      var before: map<Bytes, Bytes> :| CanHold(init, Before(all), before) && PairsAfter(before, Last(all), pairs);
      assert CanHold(init, txns, before) && pairs == AppliedAll(before, ops, |ops|);
    }
    if CanBecome(init, txns, ops, pairs) {
      var before: map<Bytes, Bytes> :| CanHold(init, txns, before) && pairs == AppliedAll(before, ops, |ops|);
      assert CanHold(init, Before(all), before) && PairsAfter(before, Last(all), pairs);
    }
  }

  lemma CommittedHoldAll(init: map<Bytes, Bytes>, txns: seq<Txn>, ops: seq<Op>, all: seq<Txn>)
    requires all == txns + [Txn(ops, Wal.Committed)]
    ensures forall pairs: map<Bytes, Bytes> :: CanHold(init, all, pairs) <==> CanBecome(init, txns, ops, pairs)
  {
    forall pairs: map<Bytes, Bytes>
      ensures CanHold(init, all, pairs) <==> CanBecome(init, txns, ops, pairs)
    {
      CommittedHold(init, txns, ops, pairs);
    }
  }

  lemma CommittingAlive(image: Bytes)
    ensures Alive(StaleLog.Committing(image))
  {
  }

  lemma CommitRuns(x: Session, init: Shape, ops: seq<Op>, image: Bytes) returns (y: Session)
    requires Good(x, init) && x.s.pc == Wal.Idle && Transforms(DbFile(x), ops, image)
    ensures Follows(x, StaleLog.Committing(image), y) && StaleLog.Landed(y.s, DbFile(x), image)
    ensures y.txns == x.txns + [Txn(ops, Wal.Committed)] && Wal.AllFair(x.s, StaleLog.Committing(image))
  {
    y := UnderwayRuns(x, 0, x.txns, ops, DbFile(x), image);
    assert StaleLog.Committing(image)[0..] == StaleLog.Committing(image);
    StaleLog.UpdateFair(x.s, 0, DbFile(x), image);
  }

  /**
   * On every open database, after any run, a transaction can return nil: if its operations turn the file into
   * the image, its calls run to the end, nothing fails, and the file holds the image.  What is allowed from
   * then on is what the operations make of what was allowed before.
   */
  lemma TransactionCommits(x: Session, init: Shape, ops: seq<Op>, image: Bytes) returns (y: Session)
    requires Good(x, init) && x.s.pc == Wal.Idle && Transforms(DbFile(x), ops, image)
    ensures Follows(x, StaleLog.Committing(image), y) && Alive(StaleLog.Committing(image)) && Wal.AllFair(x.s, StaleLog.Committing(image))
    ensures StaleLog.Landed(y.s, DbFile(x), image) && y.txns == x.txns + [Txn(ops, Wal.Committed)]
    ensures forall pairs: map<Bytes, Bytes> :: CanHold(PairsOf(init), y.txns, pairs) <==> CanBecome(PairsOf(init), x.txns, ops, pairs)
  {
    y := CommitRuns(x, init, ops, image);
    CommittingAlive(image);
    CommittedHoldAll(PairsOf(init), x.txns, ops, y.txns);
  }

  // ---- a transaction that returned an error and is there ----

  /** Calls that flush nothing and start no transaction. */
  predicate Quiet(es: seq<Wal.Event>) {
    Wal.OpenTmp !in es && Wal.Flush !in es
  }

  /** With such calls the same transaction stays the latest. */
  lemma {:induction false} QuietRuns(x: Session, es: seq<Wal.Event>, opss: seq<seq<Op>>) returns (y: Session)
    requires |opss| == |es| && x.txns != [] && Last(x.txns).outcome == x.s.outcome && Quiet(es)
    requires Wal.Wf(x.s.disk) && Wal.Run(x.s, es).Some?
    ensures Runs(x, es, opss, y) && Wal.Run(x.s, es) == Some(y.s)
    ensures y.txns == Before(x.txns) + [Last(x.txns).(outcome := y.s.outcome)]
    decreases |es|
  {
    if es == [] {
      y := x;
    } else {
      var s := Wal.Step(x.s, es[0]).value;
      var z := Session(s, Noted(x.txns, es[0], opss[0], s.outcome));
      assert Next(x, es[0], opss[0], z);
      assert Before(z.txns) == Before(x.txns);
      y := QuietRuns(z, es[1..], opss[1..]);
    }
  }

  /** The first call of Update, and calls of the same transaction. */
  lemma TransactionRuns(x: Session, es: seq<Wal.Event>, opss: seq<seq<Op>>) returns (y: Session)
    requires |opss| == |es| > 0 && es[0] == Wal.OpenTmp && Quiet(es[1..])
    requires Wal.Wf(x.s.disk) && Wal.Run(x.s, es).Some?
    ensures Runs(x, es, opss, y) && Wal.Run(x.s, es) == Some(y.s)
    ensures y.txns == x.txns + [Txn(opss[0], y.s.outcome)]
  {
    var s := Wal.Step(x.s, Wal.OpenTmp).value;
    var z := Session(s, Noted(x.txns, Wal.OpenTmp, opss[0], s.outcome));
    assert Next(x, es[0], opss[0], z);
    y := QuietRuns(z, es[1..], opss[1..]);
    assert Before(z.txns) == x.txns;
  }

  /** Transactions that returned an error allow only what was there before them. */
  lemma {:induction false} FailedHold(init: map<Bytes, Bytes>, txns: seq<Txn>, pairs: map<Bytes, Bytes>)
    requires forall i | 0 <= i < |txns| :: txns[i].outcome == Wal.Failed
    ensures CanHold(init, txns, pairs) ==> pairs == init
    decreases |txns|
  {
    if txns != [] && CanHold(init, txns, pairs) {
      var before: map<Bytes, Bytes> :| CanHold(init, Before(txns), before) && PairsAfter(before, Last(txns), pairs);
      FailedHold(init, Before(txns), before);
    }
  }

  lemma TwoFailedHold(init: map<Bytes, Bytes>, ops: seq<Op>, ops': seq<Op>, txns: seq<Txn>, pairs: map<Bytes, Bytes>)
    requires txns == [Txn(ops, Wal.Failed), Txn(ops', Wal.Failed)] && pairs != init
    ensures !CanHold(init, txns, pairs)
  {
    FailedHold(init, txns, pairs);
  }

  lemma SpoilingCalls(image: Bytes)
    ensures |LostLog.Spoiling(image)| == 8 && LostLog.Spoiling(image)[0] == Wal.OpenTmp
    ensures Quiet(LostLog.Spoiling(image)[1..]) && Alive(LostLog.Spoiling(image))
  {
  }

  lemma FailingCalls()
    ensures |LostLog.FAILING| == 12 && LostLog.FAILING[0] == Wal.OpenTmp
    ensures Quiet(LostLog.FAILING[1..]) && Alive(LostLog.FAILING)
  {
  }

  ghost predicate Spoiled(s: Wal.State, t: Wal.State, image: Bytes) {
    Wal.Initial(s) && Wal.Run(s, LostLog.Spoiling(image)) == Some(t)
  }

  lemma SpoilingRuns(x: Session, ops: seq<Op>, image: Bytes) returns (es: seq<Wal.Event>, y: Session)
    requires Wal.Initial(x.s) && x.txns == []
    ensures Follows(x, es, y) && Alive(es) && y.txns == [Txn(ops, Wal.Failed)]
    ensures Spoiled(x.s, y.s, image)
  {
    es := LostLog.Spoiling(image);
    SpoilingCalls(image);
    var t, r := LostLog.FailedUpdateStays(x.s, image);
    y := TransactionRuns(x, es, seq(|es|, i => ops));
  }

  lemma FailingRuns(x: Session, y: Session, ops: seq<Op>, image: Bytes) returns (es: seq<Wal.Event>, z: Session)
    requires Spoiled(x.s, y.s, image)
    ensures Follows(y, es, z) && Alive(es) && z.txns == y.txns + [Txn(ops, Wal.Failed)]
    ensures z.s.pc == Wal.Idle && Wal.Wf(z.s.disk) && DbFile(z) == image
  {
    es := LostLog.FAILING;
    FailingCalls();
    var t, r := LostLog.FailedUpdateStays(x.s, image);
    z := TransactionRuns(y, es, seq(|es|, i => ops));
  }

  lemma BothFail(x: Session, ops: seq<Op>, ops': seq<Op>, image: Bytes)
    returns (es: seq<Wal.Event>, y: Session, es': seq<Wal.Event>, z: Session)
    requires Wal.Initial(x.s) && x.txns == []
    ensures Follows(x, es, y) && Alive(es) && Follows(y, es', z) && Alive(es')
    ensures z.txns == [Txn(ops, Wal.Failed), Txn(ops', Wal.Failed)]
    ensures z.s.pc == Wal.Idle && Wal.Wf(z.s.disk) && DbFile(z) == image
  {
    es, y := SpoilingRuns(x, ops, image);
    es', z := FailingRuns(x, y, ops', image);
  }

  /**
   * Without that last condition a transaction that returned an error may stay, and nothing needs to
   * crash: let one change the file to any other database, fail, and fail to roll back; after a second
   * one that fails as well, the open database holds pairs the two do not allow.
   */
  lemma FailedTransactionStays(x: Session, init: Shape, ops: seq<Op>, ops': seq<Op>, image: Bytes, b: Shape)
    returns (es: seq<Wal.Event>, y: Session, es': seq<Wal.Event>, z: Session)
    requires Closed(x, init) && FileIs(image, b) && PairsOf(b) != PairsOf(init)
    ensures Follows(x, es, y) && Alive(es) && Follows(y, es', z) && Alive(es')
    ensures z.txns == [Txn(ops, Wal.Failed), Txn(ops', Wal.Failed)]
    ensures z.s.pc == Wal.Idle && Wal.Wf(z.s.disk) && DbFile(z) == image
    ensures !CanHold(PairsOf(init), z.txns, PairsOf(b))
  {
    es, y, es', z := BothFail(x, ops, ops', image);
    TwoFailedHold(PairsOf(init), ops, ops', z.txns, PairsOf(b));
  }
}
